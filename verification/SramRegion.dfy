/** The SRAM region the engines read and write, metered as module Sram describes. */
module SramRegion {
  import opened Words
  import opened Sram
  import opened SramSpans
  import opened Transfers

  class Region<T(0)> {
    const g: Geometry
    const data: array<T>
    const banks: array<Bank>
    var cycle: nat
    var stallCycles: nat
    var wordsRead: nat
    var wordsWritten: nat
    var modeling: bool
    var metering: Metering

    ghost predicate Valid()
      reads this
    {
      ValidGeometry(g) && banks.Length == g.banks && data as object != banks
    }

    ghost function View(): (m: Meter)
      requires Valid()
      reads this, banks
      ensures ValidMeter(m)
    {
      Meter(g, banks[..], cycle, stallCycles, modeling, metering)
    }

    constructor (size: nat, g: Geometry)
      requires ValidGeometry(g)
      ensures Valid() && fresh(banks) && fresh(data)
      ensures data.Length == size && View() == Fresh(g)
    {
      this.g := g;
      data := new T[size];
      banks := new Bank[g.banks](_ => Bank(g.grant, 0, 0, 0, 0, 0, 0));
      cycle, stallCycles, wordsRead, wordsWritten := 0, 0, 0, 0;
      modeling, metering := true, SizeOnly;
      new;
      assert banks[..] == Fresh(g).bank;
    }

    /** Takes one word from a bank's budget, or stalls. */
    method BwConsume(i: nat, write: bool) returns (stall: nat)
      requires Valid() && i < g.banks
      modifies this`stallCycles, banks
      ensures Valid() && (View(), stall) == Consume(old(View()), i, write)
    {
      stall := 0;
      if modeling {
        var b := banks[i];
        b := b.(used := b.used + 1);
        if b.available > 0 {
          b := b.(available := b.available - 1);
          b := if write then b.(writesServed := b.writesServed + 1) else b.(readsServed := b.readsServed + 1);
        } else {
          b := if write then b.(writeStalls := b.writeStalls + 1) else b.(readStalls := b.readStalls + 1);
          stallCycles := stallCycles + g.penalty;
          stall := g.penalty;
        }
        banks[i] := b;
      }
    }

    method MeterAccess(address: nat, bytes: nat, write: bool) returns (stall: nat, words: nat)
      requires Valid()
      modifies this`stallCycles, banks
      ensures Valid() && (View(), stall) == Access(old(View()), address, bytes, write)
      ensures words == WordCount(old(View()), address, bytes)
    {
      words := if bytes > 0 then 1 + (bytes - 1) / g.width else 0;
      var first := address / g.width;
      if bytes > 0 && metering == AddressSpan {
        DivMonotone(address, address + bytes - 1, g.width);
        words := (address + bytes - 1) / g.width - first + 1;
      }
      stall := 0;
      for i := 0 to words
        invariant (View(), stall) == ConsumeRun(old(View()), first, i, write)
      {
        var s := BwConsume((first + i) % g.banks, write);
        stall := stall + s;
      }
    }

    method RefillBw()
      requires Valid()
      modifies banks
      ensures Valid() && View() == Refill(old(View()))
    {
      if modeling {
        ghost var before := View();
        var window := if g.window > 0 then g.window else 1;
        for i := 0 to g.banks
          invariant forall k :: 0 <= k < i ==> banks[k] == RefillBank(before, before.bank[k])
          invariant forall k :: i <= k < g.banks ==> banks[k] == before.bank[k]
        {
          if cycle - banks[i].lastRefill >= window {
            banks[i] := banks[i].(available := g.grant, lastRefill := cycle);
          }
        }
        assert banks[..] == Refill(before).bank;
      }
    }

    method AdvanceCycle(cycles: nat)
      requires Valid()
      modifies this`cycle, banks
      ensures Valid() && View() == Advance(old(View()), cycles)
    {
      cycle := cycle + cycles;
      ghost var later := View();
      assert later == old(View()).(cycle := cycle);
      RefillBw();
    }

    predicate BoundsCheck(address: nat, bytes: nat)
    {
      address <= data.Length && bytes <= data.Length - address
    }

    /** Reads a byte range; an out-of-range or empty request has no effect and no stall. */
    method ReadBulk(address: nat, out: array<T>, bytes: nat) returns (stall: nat)
      requires Valid() && out != data && out as object != banks && bytes <= out.Length
      modifies this`stallCycles, this`wordsRead, banks, out
      ensures Valid() && data[..] == old(data[..])
      ensures BoundsCheck(address, bytes) && bytes > 0 ==>
                && (View(), stall) == Access(old(View()), address, bytes, false)
                && wordsRead == old(wordsRead) + WordCount(old(View()), address, bytes)
                && out[..] == Blit(data[..], old(out[..]), Piece(address, 0, bytes))
      ensures !BoundsCheck(address, bytes) || bytes == 0 ==>
                stall == 0 && View() == old(View()) && wordsRead == old(wordsRead) && out[..] == old(out[..])
    {
      if !BoundsCheck(address, bytes) || bytes == 0 {
        return 0;
      }
      var words;
      stall, words := MeterAccess(address, bytes, false);
      CopyBytes(data, address, out, 0, bytes);
      wordsRead := wordsRead + words;
    }

    /** Writes a byte range; an out-of-range or empty request has no effect and no stall. */
    method WriteBulk(address: nat, from: array<T>, bytes: nat) returns (stall: nat)
      requires Valid() && from != data && from as object != banks && bytes <= from.Length
      modifies this`stallCycles, this`wordsWritten, banks, data
      ensures Valid()
      ensures BoundsCheck(address, bytes) && bytes > 0 ==>
                && (View(), stall) == Access(old(View()), address, bytes, true)
                && wordsWritten == old(wordsWritten) + WordCount(old(View()), address, bytes)
                && data[..] == Blit(from[..], old(data[..]), Piece(0, address, bytes))
      ensures !BoundsCheck(address, bytes) || bytes == 0 ==>
                stall == 0 && View() == old(View()) && wordsWritten == old(wordsWritten) && data[..] == old(data[..])
    {
      if !BoundsCheck(address, bytes) || bytes == 0 {
        return 0;
      }
      var words;
      stall, words := MeterAccess(address, bytes, true);
      CopyBytes(from, 0, data, address, bytes);
      wordsWritten := wordsWritten + words;
    }
  }
}
