/**
 Splitting one contiguous transfer segment into bus bursts.

 A burst may not exceed the burst limit and may not cross an active SRAM or external address
 boundary. The engine cuts greedily; the lemmas show that no legal cut uses fewer bursts.
 */
module BurstSplit {
  import opened Words

  /** Burst limit and the active boundaries (None when the mode does not bound that side). */
  datatype Limits = Limits(burst: nat, sram: Option<nat>, external: Option<nat>)

  ghost predicate ValidLimits(l: Limits)
  {
    && l.burst > 0
    && (l.sram.Some? ==> l.sram.value > 0)
    && (l.external.Some? ==> l.external.value > 0)
  }

  /** Bytes left before the next boundary. */
  function Room(boundary: nat, address: nat): (r: nat)
    requires boundary > 0
    ensures 0 < r <= boundary
  {
    boundary - address % boundary
  }

  /** The size of the burst the engine cuts. */
  function Chunk(l: Limits, sram: nat, external: nat, bytes: nat): (c: nat)
    requires ValidLimits(l) && bytes > 0
    ensures 0 < c <= bytes
  {
    var c0 := Min(bytes, l.burst);
    var c1 := if l.sram.Some? then Min(c0, Room(l.sram.value, sram)) else c0;
    if l.external.Some? then Min(c1, Room(l.external.value, external)) else c1
  }

  /** A burst of c bytes is allowed at these addresses: it ends no later than the next boundary. */
  ghost predicate Legal(l: Limits, sram: nat, external: nat, c: nat)
    requires ValidLimits(l)
  {
    && 0 < c <= l.burst
    && (l.sram.Some? ==> sram % l.sram.value + c <= l.sram.value)
    && (l.external.Some? ==> external % l.external.value + c <= l.external.value)
  }

  /** A list of bursts is a legal cut of the segment. */
  ghost predicate LegalCut(l: Limits, sram: nat, external: nat, bytes: nat, cut: seq<nat>)
    requires ValidLimits(l)
    decreases |cut|
  {
    if cut == [] then bytes == 0
    else
      && cut[0] <= bytes
      && Legal(l, sram, external, cut[0])
      && LegalCut(l, sram + cut[0], external + cut[0], bytes - cut[0], cut[1..])
  }

  /** The cut the engine makes. */
  function Split(l: Limits, sram: nat, external: nat, bytes: nat): (cut: seq<nat>)
    requires ValidLimits(l)
    ensures LegalCut(l, sram, external, bytes, cut)
    decreases bytes
  {
    if bytes == 0 then []
    else
      var c := Chunk(l, sram, external, bytes);
      [c] + Split(l, sram + c, external + c, bytes - c)
  }

  /** Data beats of a list of bursts on a bus of the given width. */
  function Beats(cut: seq<nat>, bus: nat): nat
    requires bus > 0
  {
    if cut == [] then 0 else CeilDiv(cut[0], bus) + Beats(cut[1..], bus)
  }

  /** The size of the next burst, cut to the room before each active boundary. */
  method NextChunk(l: Limits, sram: nat, external: nat, bytes: nat) returns (chunk: nat)
    requires ValidLimits(l) && bytes > 0
    ensures chunk == Chunk(l, sram, external, bytes)
  {
    chunk := if bytes < l.burst then bytes else l.burst;
    if l.sram.Some? {
      var room := Room(l.sram.value, sram);
      if chunk > room {
        chunk := room;
      }
    }
    if l.external.Some? {
      var room := Room(l.external.value, external);
      if chunk > room {
        chunk := room;
      }
    }
  }

  /** The engine's loop: count the bursts of one segment and their data beats. */
  method AddAddressBoundedSegment(l: Limits, sramStart: nat, externalStart: nat, segment: nat, bus: nat,
                                  burstCount: nat, payloadCycles: nat)
    returns (bursts: nat, payload: nat)
    requires ValidLimits(l) && bus > 0
    ensures bursts == burstCount + |Split(l, sramStart, externalStart, segment)|
    ensures payload == payloadCycles + Beats(Split(l, sramStart, externalStart, segment), bus)
  {
    var sram: nat, external: nat, bytes: nat := sramStart, externalStart, segment;
    bursts, payload := burstCount, payloadCycles;
    while bytes > 0
      invariant bursts + |Split(l, sram, external, bytes)|
             == burstCount + |Split(l, sramStart, externalStart, segment)|
      invariant payload + Beats(Split(l, sram, external, bytes), bus)
             == payloadCycles + Beats(Split(l, sramStart, externalStart, segment), bus)
    {
      var chunk := NextChunk(l, sram, external, bytes);
      bursts := bursts + 1;
      payload := payload + CeilDiv(chunk, bus);
      sram, external, bytes := sram + chunk, external + chunk, bytes - chunk;
    }
  }

  // ----- The cut is minimal -----

  /** The boundary after an address does not move back when the address moves on. */
  lemma NextBoundaryMonotone(boundary: nat, x: nat, y: nat)
    requires boundary > 0 && x <= y
    ensures x + Room(boundary, x) <= y + Room(boundary, y)
  {
    var p, q := x / boundary, y / boundary;
    assert x == p * boundary + x % boundary;
    assert y == q * boundary + y % boundary;
    assert (p + 1) * boundary == p * boundary + boundary;
    assert (q + 1) * boundary == q * boundary + boundary;
    DivBelow(x, boundary, q + 1);
    MulMonotone(p, q, boundary);
  }

  /** A greedy burst issued further along ends no earlier than a legal burst issued before it. */
  lemma GreedyReaches(l: Limits, sram: nat, external: nat, ahead: nat, bytes: nat, c: nat)
    requires ValidLimits(l) && Legal(l, sram, external, c)
    requires bytes > 0 && c <= ahead + bytes
    ensures c <= ahead + Chunk(l, sram + ahead, external + ahead, bytes)
  {
    if l.sram.Some? {
      NextBoundaryMonotone(l.sram.value, sram, sram + ahead);
    }
    if l.external.Some? {
      NextBoundaryMonotone(l.external.value, external, external + ahead);
    }
  }

  /** Starting ahead of any legal cut, the greedy cut needs no more bursts than it. */
  lemma {:induction false} GreedyStaysAhead(l: Limits, sram: nat, external: nat, ahead: nat, bytes: nat, cut: seq<nat>)
    requires ValidLimits(l) && LegalCut(l, sram, external, ahead + bytes, cut)
    ensures |Split(l, sram + ahead, external + ahead, bytes)| <= |cut|
    decreases |cut|
  {
    if bytes > 0 {
      var c := cut[0];
      var rest := cut[1..];
      if c <= ahead {
        assert sram + c + (ahead - c) == sram + ahead;
        GreedyStaysAhead(l, sram + c, external + c, ahead - c, bytes, rest);
      } else {
        GreedyReaches(l, sram, external, ahead, bytes, c);
        var g := Chunk(l, sram + ahead, external + ahead, bytes);
        GreedyStaysAhead(l, sram + c, external + c, ahead + g - c, bytes - g, rest);
        assert sram + c + (ahead + g - c) == sram + ahead + g;
        assert external + c + (ahead + g - c) == external + ahead + g;
      }
    }
  }

  /** No legal cut of a segment has fewer bursts than the engine's. */
  lemma SplitIsMinimal(l: Limits, sram: nat, external: nat, bytes: nat, cut: seq<nat>)
    requires ValidLimits(l) && LegalCut(l, sram, external, bytes, cut)
    ensures |Split(l, sram, external, bytes)| <= |cut|
  {
    GreedyStaysAhead(l, sram, external, 0, bytes, cut);
    assert sram + 0 == sram && external + 0 == external;
  }

  // ----- Closed forms -----

  /** Data beats of a segment cut at the burst limit alone. */
  function BurstAlignedPayloadCycles(bytes: nat, burst: nat, bus: nat): nat
    requires burst > 0 && bus > 0
  {
    var full := Mul(Div(bytes, burst), CeilDiv(burst, bus));
    if bytes % burst > 0 then full + CeilDiv(bytes % burst, bus) else full
  }

  lemma PeelBurst(bytes: nat, burst: nat)
    requires burst > 0 && bytes >= burst
    ensures bytes / burst == (bytes - burst) / burst + 1
    ensures bytes % burst == (bytes - burst) % burst
  {
    var q, r := (bytes - burst) / burst, (bytes - burst) % burst;
    assert (q + 1) * burst == q * burst + burst;
    DivModUnique(q + 1, burst, r);
  }

  lemma PeelBurstCycles(bytes: nat, burst: nat, bus: nat)
    requires burst > 0 && bus > 0 && bytes >= burst
    ensures BurstAlignedPayloadCycles(bytes, burst, bus)
         == CeilDiv(burst, bus) + BurstAlignedPayloadCycles(bytes - burst, burst, bus)
  {
    PeelBurst(bytes, burst);
    AddOneTimes((bytes - burst) / burst, CeilDiv(burst, bus));
  }

  /** Without boundaries the loop has the closed forms the engine uses in size-only mode. */
  lemma {:induction false} UnboundedSplit(burst: nat, sram: nat, external: nat, bytes: nat, bus: nat)
    requires burst > 0 && bus > 0
    ensures |Split(Limits(burst, None, None), sram, external, bytes)| == CeilDiv(bytes, burst)
    ensures Beats(Split(Limits(burst, None, None), sram, external, bytes), bus)
         == BurstAlignedPayloadCycles(bytes, burst, bus)
    decreases bytes
  {
    var l := Limits(burst, None, None);
    if bytes == 0 {
      DivModUnique(0, burst, 0);
    } else if bytes < burst {
      DivModUnique(0, burst, bytes);
      assert Split(l, sram, external, bytes) == [bytes];
    } else {
      PeelBurst(bytes, burst);
      UnboundedSplit(burst, sram + burst, external + burst, bytes - burst, bus);
      PeelBurstCycles(bytes, burst, bus);
    }
  }

  /** When SRAM is the only boundary and it equals the burst limit, bursts are aligned blocks touched. */
  lemma {:induction false} AlignedBlocksTouched(burst: nat, sram: nat, external: nat, bytes: nat)
    requires burst > 0 && bytes > 0
    ensures |Split(Limits(burst, Some(burst), None), sram, external, bytes)|
         == (sram + bytes - 1) / burst - sram / burst + 1
    decreases bytes
  {
    var l := Limits(burst, Some(burst), None);
    var room := Room(burst, sram);
    var q, r := Div(sram, burst), Rem(sram, burst);
    DivModParts(sram, burst);
    if bytes <= room {
      DivModUnique(q, burst, r + bytes - 1);
      assert Split(l, sram, external, bytes) == [bytes];
    } else {
      AlignedBlocksTouched(burst, sram + room, external + room, bytes - room);
      AddOneTimes(q, burst);
      DivModUnique(q + 1, burst, 0);
      assert Split(l, sram, external, bytes) == [room] + Split(l, sram + room, external + room, bytes - room);
    }
  }

  lemma ShiftKeepsRemainder(boundary: nat, address: nat, laps: nat)
    requires boundary > 0
    ensures (address + laps * boundary) % boundary == address % boundary
  {
    DivModParts(address, boundary);
    Distribute(Div(address, boundary), laps, boundary);
    DivModUnique(Div(address, boundary) + laps, boundary, Rem(address, boundary));
  }

  /**
   Adding whole multiples of the boundary to an address changes nothing. All boundaries are powers of
   two below 2^64, so 64-bit wrap-around of an external address is of this kind.
   */
  lemma {:induction false} SplitIgnoresWholeBoundaries(l: Limits, sram: nat, external: nat, bytes: nat, laps: nat)
    requires ValidLimits(l) && l.external.Some?
    ensures Split(l, sram, external + laps * l.external.value, bytes) == Split(l, sram, external, bytes)
    decreases bytes
  {
    if bytes > 0 {
      ShiftKeepsRemainder(l.external.value, external, laps);
      var c := Chunk(l, sram, external, bytes);
      assert external + laps * l.external.value + c == external + c + laps * l.external.value;
      SplitIgnoresWholeBoundaries(l, sram + c, external + c, bytes - c, laps);
    }
  }

  /** Bursts cover the segment: their beats carry at least its bytes, and the count is at most the byte count. */
  lemma {:induction false} CutCovers(l: Limits, sram: nat, external: nat, bytes: nat, cut: seq<nat>, bus: nat)
    requires ValidLimits(l) && bus > 0 && LegalCut(l, sram, external, bytes, cut)
    ensures Beats(cut, bus) * bus >= bytes
    ensures |cut| <= bytes && Beats(cut, bus) <= bytes
    decreases |cut|
  {
    if cut != [] {
      var c := cut[0];
      CutCovers(l, sram + c, external + c, bytes - c, cut[1..], bus);
      CeilDivBounds(c, bus);
      Distribute(CeilDiv(c, bus), Beats(cut[1..], bus), bus);
    }
  }

  /** Splitting a segment into bursts never needs fewer beats than moving it whole. */
  lemma CutBeatsAtLeastWhole(l: Limits, sram: nat, external: nat, bytes: nat, cut: seq<nat>, bus: nat)
    requires ValidLimits(l) && bus > 0 && LegalCut(l, sram, external, bytes, cut)
    ensures CeilDiv(bytes, bus) <= Beats(cut, bus)
  {
    CutCovers(l, sram, external, bytes, cut, bus);
    CeilDivLeast(bytes, bus, Beats(cut, bus));
  }
}
