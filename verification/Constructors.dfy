/** The functions that build descriptors, and that what they build is what the other modules call built. */
module Constructors {
  import opened Words
  import opened Descriptor

  /** Neither a region nor a pointer. */
  const NOWHERE := Side(None, 0, 0, 0, false)

  /** Where the two sides of a host/TU transfer go; a TU-to-TU descriptor is left without either. */
  function Source(dir: Direction, near: Side, host: Side): Side
  {
    match dir
    case HostToTu => host
    case TuToHost => near
    case TuToTu => NOWHERE
  }

  function Destination(dir: Direction, near: Side, host: Side): Side
  {
    match dir
    case HostToTu => near
    case TuToHost => host
    case TuToTu => NOWHERE
  }

  function CreateLinear(id: nat, channel: nat, dir: Direction, sram: Option<nat>, offset: nat, host: bool,
                        elemSize: nat, elemCount: nat): Desc
  {
    var near, far := Side(sram, offset, 0, 0, false), Side(None, 0, 0, 0, host);
    Desc(id, Linear, dir, channel, 0, Source(dir, near, far), Destination(dir, near, far), None, elemCount, 1, 1,
         elemSize, Wrap32(elemSize * elemCount), [], false, 0, [], false)
  }

  /** The second stride of a 2D transfer, which nothing reads, is the element size. */
  function CreateStrided2D(id: nat, channel: nat, dir: Direction, sram: Option<nat>, base: nat, host: bool,
                           sramRow: nat, hostRow: nat, elemSize: nat, rows: nat, cols: nat): Desc
  {
    var near, far := Side(sram, base, sramRow, elemSize, false), Side(None, 0, hostRow, elemSize, host);
    Desc(id, Strided2D, dir, channel, 0, Source(dir, near, far), Destination(dir, near, far), None, rows, cols, 1,
         elemSize, Wrap32(elemSize * rows * cols), [], false, 0, [], false)
  }

  function CreateStrided3D(id: nat, channel: nat, dir: Direction, sram: Option<nat>, base: nat, host: bool,
                           sramRow: nat, sramDepth: nat, hostRow: nat, hostDepth: nat,
                           elemSize: nat, depth: nat, rows: nat, cols: nat): Desc
  {
    var near, far := Side(sram, base, sramRow, sramDepth, false), Side(None, 0, hostRow, hostDepth, host);
    Desc(id, Strided3D, dir, channel, 0, Source(dir, near, far), Destination(dir, near, far), None, depth, rows, cols,
         elemSize, Wrap32(elemSize * depth * rows * cols), [], false, 0, [], false)
  }

  function CreateScatter(id: nat, channel: nat, sram: Option<nat>, host: bool, index: seq<nat>, elemSize: nat): Desc
  {
    Desc(id, Scatter, HostToTu, channel, 0, Side(None, 0, 0, 0, host), Side(sram, 0, 0, 0, false), None, 0, 0, 0,
         elemSize, Wrap32(|index| * elemSize), index, true, elemSize, [], false)
  }

  function CreateGather(id: nat, channel: nat, sram: Option<nat>, host: bool, index: seq<nat>, elemSize: nat): Desc
  {
    Desc(id, Gather, TuToHost, channel, 0, Side(sram, 0, 0, 0, false), Side(None, 0, 0, 0, host), None, 0, 0, 0,
         elemSize, Wrap32(|index| * elemSize), index, true, elemSize, [], false)
  }

  /** Refused without targets or source. */
  function CreateMulticast(id: nat, channel: nat, host: bool, targets: seq<Target>, elemSize: nat, elemCount: nat):
    Option<Desc>
  {
    if targets == [] || !host then None
    else Some(Desc(id, Multicast, HostToTu, channel, 0, Side(None, 0, 0, 0, true), NOWHERE, None,
                   elemCount, |targets|, 1, elemSize, Wrap32(elemCount * elemSize * |targets|),
                   [], false, 0, targets, true))
  }

  /** A bus address can be given to any transfer that has a host side. */
  function SetExternalAddress(d: Desc, address: nat): Desc
  {
    if d.direction == TuToTu then d else d.(external := Some(address))
  }

  // ----- All of them are built -----

  lemma LinearIsBuilt(id: nat, channel: nat, dir: Direction, sram: Option<nat>, offset: nat, host: bool,
                      elemSize: nat, elemCount: nat)
    requires offset < U32 && elemSize < U32 && elemCount < U32
    ensures Built(CreateLinear(id, channel, dir, sram, offset, host, elemSize, elemCount))
  {
    WrapsBelow(elemSize * elemCount);
  }

  lemma Strided2DIsBuilt(id: nat, channel: nat, dir: Direction, sram: Option<nat>, base: nat, host: bool,
                         sramRow: nat, hostRow: nat, elemSize: nat, rows: nat, cols: nat)
    requires base < U32 && sramRow < U32 && hostRow < U32 && elemSize < U32 && rows < U32 && cols < U32
    ensures Built(CreateStrided2D(id, channel, dir, sram, base, host, sramRow, hostRow, elemSize, rows, cols))
  {
    WrapsBelow(elemSize * rows * cols);
  }

  lemma Strided3DIsBuilt(id: nat, channel: nat, dir: Direction, sram: Option<nat>, base: nat, host: bool,
                         sramRow: nat, sramDepth: nat, hostRow: nat, hostDepth: nat,
                         elemSize: nat, depth: nat, rows: nat, cols: nat)
    requires base < U32 && sramRow < U32 && sramDepth < U32 && hostRow < U32 && hostDepth < U32
    requires elemSize < U32 && depth < U32 && rows < U32 && cols < U32
    ensures Built(CreateStrided3D(id, channel, dir, sram, base, host, sramRow, sramDepth, hostRow, hostDepth,
                                  elemSize, depth, rows, cols))
  {
    WrapsBelow(elemSize * depth * rows * cols);
  }

  lemma IndexedIsBuilt(id: nat, channel: nat, sram: Option<nat>, host: bool, index: seq<nat>, elemSize: nat)
    requires |index| < U32 && elemSize < U32 && forall k :: 0 <= k < |index| ==> index[k] < U32
    ensures Built(CreateScatter(id, channel, sram, host, index, elemSize))
    ensures Built(CreateGather(id, channel, sram, host, index, elemSize))
  {
    WrapsBelow(|index| * elemSize);
  }

  lemma MulticastIsBuilt(id: nat, channel: nat, host: bool, targets: seq<Target>, elemSize: nat, elemCount: nat)
    requires |targets| < U32 && elemSize < U32 && elemCount < U32
    requires forall k :: 0 <= k < |targets| ==> targets[k].offset < U32
    ensures var d := CreateMulticast(id, channel, host, targets, elemSize, elemCount);
            d.Some? ==> Built(d.value)
  {
    WrapsBelow(elemCount * elemSize * |targets|);
  }

  lemma WrapsBelow(x: nat)
    ensures Wrap32(x) < U32
  {
  }

  /** A descriptor stays built when a bus address or a priority is set. */
  lemma StaysBuilt(d: Desc, address: nat, priority: nat)
    requires Built(d) && priority < 256
    ensures Built(SetExternalAddress(d, address).(priority := priority))
  {
  }
}
