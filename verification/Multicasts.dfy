/** The multicast loop: one source, copied to offsets in several regions. */
module Multicasts {
  import opened Words
  import opened Descriptor
  import opened SramSpans
  import opened Transfers

  /** The bytes of each region. */
  ghost function Contents<T>(regions: seq<array<T>>): (mem: seq<seq<T>>)
    reads regions
    ensures |mem| == |regions| && forall r :: 0 <= r < |regions| ==> mem[r] == regions[r][..]
  {
    seq(|regions|, r requires 0 <= r < |regions| reads regions => regions[r][..])
  }

  /** A target and the chunk that goes to it fit the source and an existing region of 32-bit size. */
  ghost predicate Fits<T>(t: Target, chunk: nat, src: seq<T>, mem: seq<seq<T>>)
  {
    && t.region.Some? && t.region.value < |mem| && chunk <= |src|
    && t.offset + chunk <= |mem[t.region.value]| < U32
  }

  ghost predicate AllFit<T>(ts: seq<Target>, chunk: nat, src: seq<T>, mem: seq<seq<T>>)
  {
    forall k :: 0 <= k < |ts| ==> Fits(ts[k], chunk, src, mem)
  }

  /** Every admitted multicast fits: the loop's own overflow test never skips a target. */
  lemma AdmittedFits<T>(d: Desc, src: seq<T>, mem: seq<seq<T>>, sizes: seq<nat>, chunk: nat)
    requires Built(d) && d.shape == Multicast && SpansValid(sizes, d)
    requires |sizes| == |mem| && forall r :: 0 <= r < |mem| ==> sizes[r] == |mem[r]| < U32
    requires forall k :: 0 <= k < |d.targets| && d.targets[k].region.Some? ==> d.targets[k].region.value < |mem|
    requires chunk == d.dim0 * d.elemSize % U32 <= |src|
    ensures AllFit(d.targets, chunk, src, mem)
  {
    forall k | 0 <= k < |d.targets|
      ensures Fits(d.targets[k], chunk, src, mem)
    {
      MulticastSkipUnreachable(sizes, d, k);
    }
  }

  /** Regions after the chunk has been copied to all targets, in order. */
  ghost function Delivered<T>(ts: seq<Target>, chunk: nat, src: seq<T>, mem: seq<seq<T>>): (r: seq<seq<T>>)
    requires AllFit(ts, chunk, src, mem)
    ensures |r| == |mem| && forall i :: 0 <= i < |mem| ==> |r[i]| == |mem[i]|
  {
    if ts == [] then mem
    else
      var before, t := Delivered(ts[..|ts| - 1], chunk, src, mem), ts[|ts| - 1];
      assert Fits(t, chunk, src, mem);
      before[t.region.value := Blit(src, before[t.region.value], Piece(0, t.offset, chunk))]
  }

  /** A target covers this byte of this region. */
  predicate Reaches(t: Target, chunk: nat, r: nat, a: nat)
  {
    t.region == Some(r) && t.offset <= a < t.offset + chunk
  }

  /** What the last target's copy does to a byte. */
  lemma LastTarget<T>(ts: seq<Target>, chunk: nat, src: seq<T>, mem: seq<seq<T>>, r: nat, a: nat)
    requires AllFit(ts, chunk, src, mem) && ts != [] && r < |mem| && a < |mem[r]|
    ensures var t := ts[|ts| - 1];
            && (Reaches(t, chunk, r, a) ==> a - t.offset < |src|)
            && Delivered(ts, chunk, src, mem)[r][a] ==
               if Reaches(t, chunk, r, a) then src[a - t.offset] else Delivered(ts[..|ts| - 1], chunk, src, mem)[r][a]
  {
    var before, t := Delivered(ts[..|ts| - 1], chunk, src, mem), ts[|ts| - 1];
    assert Fits(t, chunk, src, mem);
    if t.region == Some(r) {
      BlitAt(src, before[r], Piece(0, t.offset, chunk), a);
    }
  }

  /**
   After a multicast a byte of a region that some target covers holds the source byte the last such target puts there,
   and every other byte is as before.
   */
  lemma {:induction false} LastTargetWins<T>(ts: seq<Target>, chunk: nat, src: seq<T>, mem: seq<seq<T>>,
                                             r: nat, a: nat, k: nat)
    requires AllFit(ts, chunk, src, mem) && r < |mem| && a < |mem[r]| && k <= |ts|
    requires forall j :: k <= j < |ts| ==> !Reaches(ts[j], chunk, r, a)
    requires k > 0 ==> Reaches(ts[k - 1], chunk, r, a)
    ensures k > 0 ==> a - ts[k - 1].offset < |src|
    ensures Delivered(ts, chunk, src, mem)[r][a] == if k > 0 then src[a - ts[k - 1].offset] else mem[r][a]
    decreases |ts|
  {
    if ts != [] {
      LastTarget(ts, chunk, src, mem, r, a);
      if k < |ts| {
        LastTargetWins(ts[..|ts| - 1], chunk, src, mem, r, a, k);
      }
    }
  }

  /** The copy to one target. */
  method SendTo<T>(t: Target, chunk: nat, src: array<T>, regions: seq<array<T>>)
    requires Fits(t, chunk, src[..], Contents(regions)) && src !in regions
    requires forall i, j :: 0 <= i < j < |regions| ==> regions[i] != regions[j]
    modifies regions
    ensures var before, r := old(Contents(regions)), t.region.value;
            InBounds(Piece(0, t.offset, chunk), src.Length, |before[r]|)
            && Contents(regions) == before[r := Blit(src[..], before[r], Piece(0, t.offset, chunk))]
  {
    var region := regions[t.region.value];
    CopyBytes(src, 0, region, t.offset, chunk);
  }

  /** The loop over the targets, with its own overflow test in 32 bits. */
  method ExecuteMulticast<T>(ts: seq<Target>, chunk: nat, src: array<T>, regions: seq<array<T>>)
    requires AllFit(ts, chunk, src[..], Contents(regions)) && src !in regions
    requires forall i, j :: 0 <= i < j < |regions| ==> regions[i] != regions[j]
    modifies regions
    ensures Contents(regions) == Delivered(ts, chunk, src[..], old(Contents(regions)))
  {
    ghost var mem, bytes := Contents(regions), src[..];
    for k := 0 to |ts|
      invariant src[..] == bytes && AllFit(ts[..k], chunk, bytes, mem)
      invariant Contents(regions) == Delivered(ts[..k], chunk, bytes, mem)
    {
      assert Fits(ts[k], chunk, bytes, mem) && ts[..k + 1][..k] == ts[..k];
      var t := ts[k];
      if t.region.Some? && Wrap32(t.offset + chunk) <= regions[t.region.value].Length {
        SendTo(t, chunk, src, regions);
      }
    }
    assert ts[..|ts|] == ts;
  }
}
