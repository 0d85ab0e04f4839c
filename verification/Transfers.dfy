/** The copy loops of the DMA engine, and what a load followed by the matching store gives back. */
module Transfers {
  import opened Words
  import opened Descriptor
  import opened SramSpans

  ghost predicate InBounds(p: Piece, srcSize: nat, dstSize: nat)
  {
    p.length > 0 ==> p.from + p.length <= srcSize && p.to + p.length <= dstSize
  }

  ghost predicate AllInBounds(ps: seq<Piece>, srcSize: nat, dstSize: nat)
  {
    forall k :: 0 <= k < |ps| ==> InBounds(ps[k], srcSize, dstSize)
  }

  /** A destination after one copy. */
  ghost function Blit<T>(src: seq<T>, dst: seq<T>, p: Piece): (r: seq<T>)
    requires InBounds(p, |src|, |dst|)
    ensures |r| == |dst|
  {
    if p.length == 0 then dst
    else dst[..p.to] + src[p.from..p.from + p.length] + dst[p.to + p.length..]
  }

  lemma BlitAt<T>(src: seq<T>, dst: seq<T>, p: Piece, a: nat)
    requires InBounds(p, |src|, |dst|) && a < |dst|
    ensures Blit(src, dst, p)[a] == if Covers(p.to, p.length, a) then src[p.from + (a - p.to)] else dst[a]
  {
  }

  /** A destination after a list of copies, in order. */
  ghost function CopyAll<T>(src: seq<T>, dst: seq<T>, ps: seq<Piece>): (r: seq<T>)
    requires AllInBounds(ps, |src|, |dst|)
    ensures |r| == |dst|
  {
    if ps == [] then dst
    else Blit(src, CopyAll(src, dst, ps[..|ps| - 1]), ps[|ps| - 1])
  }

  // ----- The loops -----

  method CopyBytes<T>(src: array<T>, from: nat, dst: array<T>, to: nat, length: nat)
    requires src != dst && InBounds(Piece(from, to, length), src.Length, dst.Length)
    modifies dst
    ensures dst[..] == Blit(src[..], old(dst[..]), Piece(from, to, length))
  {
    for b := 0 to length
      invariant forall a :: 0 <= a < dst.Length ==>
                  dst[a] == if Covers(to, b, a) then src[from + (a - to)] else old(dst[a])
    {
      dst[to + b] := src[from + b];
    }
    forall a | 0 <= a < dst.Length
      ensures dst[a] == Blit(src[..], old(dst[..]), Piece(from, to, length))[a]
    {
      BlitAt(src[..], old(dst[..]), Piece(from, to, length), a);
    }
  }

  ghost predicate CanCopy<T>(d: Desc, src: array<T>, dst: array<T>)
    reads src, dst
  {
    src != dst && AllInBounds(Pieces(d), src.Length, dst.Length)
  }

  /** Rows of one slice, or of a whole 2D transfer. */
  function RowPieces(from: nat, srcStride: nat, to: nat, dstStride: nat, rows: nat, rowBytes: nat): (ps: seq<Piece>)
    ensures |ps| == rows
  {
    seq(rows, r requires 0 <= r < rows => Piece(from + r * srcStride, to + r * dstStride, rowBytes))
  }

  method CopyRows<T>(src: array<T>, from: nat, srcStride: nat, dst: array<T>, to: nat, dstStride: nat,
                     rows: nat, rowBytes: nat)
    requires src != dst
    requires AllInBounds(RowPieces(from, srcStride, to, dstStride, rows, rowBytes), src.Length, dst.Length)
    modifies dst
    ensures dst[..] == CopyAll(src[..], old(dst[..]), RowPieces(from, srcStride, to, dstStride, rows, rowBytes))
  {
    ghost var ps := RowPieces(from, srcStride, to, dstStride, rows, rowBytes);
    var rowFrom, rowTo := from, to;
    assert ps[..0] == [];
    for r := 0 to rows
      invariant rowFrom == from + r * srcStride && rowTo == to + r * dstStride
      invariant dst[..] == CopyAll(src[..], old(dst[..]), ps[..r])
    {
      assert ps[..r + 1][..r] == ps[..r];
      assert ps[r] == Piece(rowFrom, rowTo, rowBytes);
      CopyBytes(src, rowFrom, dst, rowTo, rowBytes);
      AddOneTimes(r, srcStride);
      AddOneTimes(r, dstStride);
      rowFrom := rowFrom + srcStride;
      rowTo := rowTo + dstStride;
    }
    assert ps[..rows] == ps;
  }

  method ExecuteStrided2D<T>(d: Desc, src: array<T>, dst: array<T>)
    requires d.shape == Strided2D && CanCopy(d, src, dst)
    modifies dst
    ensures dst[..] == CopyAll(src[..], old(dst[..]), Pieces(d))
  {
    var rowBytes := Wrap32(d.dim1 * d.elemSize);
    assert RowPieces(d.src.base, d.src.rowStride, d.dst.base, d.dst.rowStride, d.dim0, rowBytes) == Pieces(d);
    CopyRows(src, d.src.base, d.src.rowStride, dst, d.dst.base, d.dst.rowStride, d.dim0, rowBytes);
  }

  method ExecuteStrided3D<T>(d: Desc, src: array<T>, dst: array<T>)
    requires d.shape == Strided3D && CanCopy(d, src, dst)
    modifies dst
    ensures dst[..] == CopyAll(src[..], old(dst[..]), Pieces(d))
  {
    var rowBytes := Wrap32(d.dim2 * d.elemSize);
    var from, to := d.src.base, d.dst.base;
    ghost var done: seq<Piece> := [];
    for z := 0 to d.dim0
      invariant from == d.src.base + z * d.src.depthStride && to == d.dst.base + z * d.dst.depthStride
      invariant |done| == z * d.dim1 && done <= Pieces(d)
      invariant dst[..] == CopyAll(src[..], old(dst[..]), done)
    {
      ghost var rows := RowPieces(from, d.src.rowStride, to, d.dst.rowStride, d.dim1, rowBytes);
      SliceIsRows(d, z, done, rows);
      CopyAllThen(src[..], old(dst[..]), done, rows);
      CopyRows(src, from, d.src.rowStride, dst, to, d.dst.rowStride, d.dim1, rowBytes);
      done := done + rows;
      AddOneTimes(z, d.src.depthStride);
      AddOneTimes(z, d.dst.depthStride);
      from := from + d.src.depthStride;
      to := to + d.dst.depthStride;
    }
    assert done == Pieces(d);
  }

  /** The rows of slice z come next among the pieces of the whole transfer. */
  lemma SliceIsRows(d: Desc, z: nat, done: seq<Piece>, rows: seq<Piece>)
    requires d.shape == Strided3D && z < d.dim0 && |done| == z * d.dim1 && done <= Pieces(d)
    requires rows == RowPieces(d.src.base + z * d.src.depthStride, d.src.rowStride,
                               d.dst.base + z * d.dst.depthStride, d.dst.rowStride,
                               d.dim1, Wrap32(d.dim2 * d.elemSize))
    ensures |done + rows| == (z + 1) * d.dim1 && done + rows <= Pieces(d)
    ensures forall r :: 0 <= r < |rows| ==> rows[r] in Pieces(d)
  {
    AddOneTimes(z, d.dim1);
    MulMonotone(z + 1, d.dim0, d.dim1);
    var n, ps := |done|, Pieces(d);
    assert n + |rows| <= |ps|;
    forall r: nat | r < |rows|
      ensures ps[n + r] == rows[r]
    {
      SlicePiece(d, z, n, r);
    }
    assert done + rows == ps[..n + |rows|];
  }

  lemma SlicePiece(d: Desc, z: nat, first: nat, r: nat)
    requires d.shape == Strided3D && z < d.dim0 && r < d.dim1 && first == z * d.dim1
    ensures first + r < |Pieces(d)|
    ensures Pieces(d)[first + r]
         == Piece(Offset3D(d.src, z, r), Offset3D(d.dst, z, r), Wrap32(d.dim2 * d.elemSize))
  {
    RowIndex(d.dim1, d.dim0, z, r);
  }

  /** Doing one list of copies and then another is doing both in order. */
  lemma {:induction false} CopyAllThen<T>(src: seq<T>, dst: seq<T>, first: seq<Piece>, second: seq<Piece>)
    requires AllInBounds(first, |src|, |dst|) && AllInBounds(second, |src|, |dst|)
    ensures AllInBounds(first + second, |src|, |dst|)
    ensures CopyAll(src, dst, first + second) == CopyAll(src, CopyAll(src, dst, first), second)
  {
    if second == [] {
      assert first + second == first;
    } else {
      var n := |second| - 1;
      CopyAllThen(src, dst, first, second[..n]);
      LastOfBoth(first, second);
    }
  }

  lemma LastOfBoth<T>(first: seq<T>, second: seq<T>)
    requires second != []
    ensures var n, all := |second| - 1, first + second;
            all[..|all| - 1] == first + second[..n] && all[|all| - 1] == second[n]
  {
  }

  /** The copy made for one index: the packed side advances element by element, the other goes where the list says. */
  lemma IndexedPiece(d: Desc, i: nat)
    requires (d.shape == Scatter || d.shape == Gather) && i < |d.index| && d.elemSize < U32
    ensures |Pieces(d)| == |d.index|
    ensures var packed := Wrap32(i * d.elemSize);
            Pieces(d)[i] == if d.shape == Scatter then Piece(packed, d.index[i], d.elemSize)
                            else Piece(d.index[i], packed, d.elemSize)
  {
  }

  /** One step of an indexed loop. */
  method CopyIndexed<T>(d: Desc, i: nat, src: array<T>, dst: array<T>)
    requires (d.shape == Scatter || d.shape == Gather) && d.elemSize < U32 && i < |d.index| == |Pieces(d)|
    requires src != dst && InBounds(Pieces(d)[i], src.Length, dst.Length)
    modifies dst
    ensures dst[..] == Blit(src[..], old(dst[..]), Pieces(d)[i])
  {
    IndexedPiece(d, i);
    var packed, off := Wrap32(i * d.elemSize), d.index[i];
    if d.shape == Scatter {
      CopyBytes(src, packed, dst, off, d.elemSize);
    } else {
      CopyBytes(src, off, dst, packed, d.elemSize);
    }
  }

  /** Both indexed loops; they differ only in which side the index list addresses. */
  method ExecuteIndexed<T>(d: Desc, src: array<T>, dst: array<T>)
    requires (d.shape == Scatter || d.shape == Gather) && d.elemSize < U32 && CanCopy(d, src, dst)
    modifies dst
    ensures dst[..] == CopyAll(src[..], old(dst[..]), Pieces(d))
  {
    ghost var ps := Pieces(d);
    assert ps[..0] == [];
    for i := 0 to |d.index|
      invariant dst[..] == CopyAll(src[..], old(dst[..]), ps[..i])
    {
      IndexedPiece(d, i);
      assert ps[..i + 1][..i] == ps[..i] && InBounds(ps[i], src.Length, dst.Length);
      CopyIndexed(d, i, src, dst);
    }
    assert ps[..|d.index|] == ps;
  }

  method ExecuteLinear<T>(d: Desc, src: array<T>, dst: array<T>)
    requires d.shape == Linear && d.totalBytes < U32 && CanCopy(d, src, dst)
    modifies dst
    ensures dst[..] == CopyAll(src[..], old(dst[..]), Pieces(d))
  {
    assert Pieces(d) == [Piece(d.src.base, d.dst.base, d.totalBytes)];
    assert Pieces(d)[0] == PieceAt(d, 0) && Pieces(d)[..0] == [];
    CopyBytes(src, d.src.base, dst, d.dst.base, d.totalBytes);
  }

  // ----- Loads and stores undo each other -----

  /** No byte is in two of the destination ranges. */
  ghost predicate DisjointTargets(ps: seq<Piece>)
  {
    forall i, j, a: nat :: 0 <= i < j < |ps| ==>
      !(Covers(ps[i].to, ps[i].length, a) && Covers(ps[j].to, ps[j].length, a))
  }

  function Flip(p: Piece): Piece { Piece(p.to, p.from, p.length) }

  function FlipAll(ps: seq<Piece>): (r: seq<Piece>)
    ensures |r| == |ps| && forall k :: 0 <= k < |ps| ==> r[k] == Flip(ps[k])
  {
    seq(|ps|, k requires 0 <= k < |ps| => Flip(ps[k]))
  }

  /** Bytes outside every destination range keep their value. */
  lemma {:induction false} OutsideUntouched<T>(src: seq<T>, dst: seq<T>, ps: seq<Piece>, a: nat)
    requires AllInBounds(ps, |src|, |dst|) && a < |dst|
    requires forall k :: 0 <= k < |ps| ==> !Covers(ps[k].to, ps[k].length, a)
    ensures CopyAll(src, dst, ps)[a] == dst[a]
  {
    if ps != [] {
      OutsideUntouched(src, dst, ps[..|ps| - 1], a);
      BlitAt(src, CopyAll(src, dst, ps[..|ps| - 1]), ps[|ps| - 1], a);
    }
  }

  /** With disjoint destinations every copied byte survives the later copies. */
  lemma {:induction false} CopiedSurvives<T>(src: seq<T>, dst: seq<T>, ps: seq<Piece>, k: nat, a: nat)
    requires AllInBounds(ps, |src|, |dst|) && DisjointTargets(ps)
    requires k < |ps| && Covers(ps[k].to, ps[k].length, a)
    ensures CopyAll(src, dst, ps)[a] == src[ps[k].from + (a - ps[k].to)]
  {
    var n := |ps| - 1;
    BlitAt(src, CopyAll(src, dst, ps[..n]), ps[n], a);
    if k < n {
      assert !(Covers(ps[k].to, ps[k].length, a) && Covers(ps[n].to, ps[n].length, a));
      CopiedSurvives(src, dst, ps[..n], k, a);
    }
  }

  /** Some piece reads this byte. */
  ghost predicate Reads(ps: seq<Piece>, x: nat)
  {
    exists k :: 0 <= k < |ps| && Covers(ps[k].from, ps[k].length, x)
  }

  /** Every piece that reads a host byte finds that byte's value on its other side. */
  ghost predicate Finds<T>(loaded: seq<T>, ps: seq<Piece>, x: nat, value: T)
  {
    forall k :: 0 <= k < |ps| && Covers(ps[k].from, ps[k].length, x) ==>
      ps[k].to + (x - ps[k].from) < |loaded| && loaded[ps[k].to + (x - ps[k].from)] == value
  }

  /** Copying pieces back puts a found value in place, and leaves bytes no piece reads. */
  lemma {:induction false} PutBack<T>(loaded: seq<T>, back: seq<T>, ps: seq<Piece>, x: nat, value: T)
    requires AllInBounds(FlipAll(ps), |loaded|, |back|) && x < |back| && Finds(loaded, ps, x, value)
    ensures CopyAll(loaded, back, FlipAll(ps))[x] == if Reads(ps, x) then value else back[x]
  {
    if ps != [] {
      var n := |ps| - 1;
      var rest, p := ps[..n], ps[n];
      assert FlipAll(ps)[..n] == FlipAll(rest);
      PutBack(loaded, back, rest, x, value);
      BlitAt(loaded, CopyAll(loaded, back, FlipAll(rest)), Flip(p), x);
      LastReads(ps, x);
    }
  }

  lemma LastReads(ps: seq<Piece>, x: nat)
    requires ps != []
    ensures Reads(ps, x) <==> Reads(ps[..|ps| - 1], x) || Covers(ps[|ps| - 1].from, ps[|ps| - 1].length, x)
  {
    var n := |ps| - 1;
    if k :| 0 <= k < n && Covers(ps[..n][k].from, ps[..n][k].length, x) {
      assert Covers(ps[k].from, ps[k].length, x);
    }
    if k :| 0 <= k < n && Covers(ps[k].from, ps[k].length, x) {
      assert Covers(ps[..n][k].from, ps[..n][k].length, x);
    }
  }

  lemma FlippedInBounds<T>(host: seq<T>, sram: seq<T>, back: seq<T>, ps: seq<Piece>)
    requires AllInBounds(ps, |host|, |sram|) && |back| == |host|
    ensures AllInBounds(FlipAll(ps), |sram|, |back|)
  {
    forall k | 0 <= k < |ps|
      ensures InBounds(FlipAll(ps)[k], |sram|, |back|)
    {
      assert InBounds(ps[k], |host|, |sram|);
    }
  }

  /** After loading, storing the same pieces writes host bytes back over themselves, in any order and overlap. */
  lemma StoreRestores<T>(host: seq<T>, sram: seq<T>, back: seq<T>, ps: seq<Piece>, x: nat)
    requires AllInBounds(ps, |host|, |sram|) && DisjointTargets(ps) && |back| == |host| && x < |host|
    ensures AllInBounds(FlipAll(ps), |sram|, |back|)
    ensures CopyAll(CopyAll(host, sram, ps), back, FlipAll(ps))[x] == if Reads(ps, x) then host[x] else back[x]
  {
    FlippedInBounds(host, sram, back, ps);
    var loaded := CopyAll(host, sram, ps);
    forall k | 0 <= k < |ps| && Covers(ps[k].from, ps[k].length, x)
      ensures ps[k].to + (x - ps[k].from) < |loaded| && loaded[ps[k].to + (x - ps[k].from)] == host[x]
    {
      LoadedByte(host, sram, ps, k, x);
    }
    PutBack(loaded, back, ps, x, host[x]);
  }

  /** The SRAM byte loaded from a host byte. */
  lemma LoadedByte<T>(host: seq<T>, sram: seq<T>, ps: seq<Piece>, k: nat, x: nat)
    requires AllInBounds(ps, |host|, |sram|) && DisjointTargets(ps) && k < |ps|
    requires Covers(ps[k].from, ps[k].length, x) && x < |host|
    ensures var a := ps[k].to + (x - ps[k].from); a < |sram| && CopyAll(host, sram, ps)[a] == host[x]
  {
    var p := ps[k];
    var a := p.to + (x - p.from);
    assert InBounds(p, |host|, |sram|) && Covers(p.to, p.length, a);
    CopiedSurvives(host, sram, ps, k, a);
    assert p.from + (a - p.to) == x;
  }

  /** The transfer that reads back what a load wrote: the same geometry with the ends exchanged. */
  function Mirror(d: Desc): Desc
  {
    d.(direction := TuToHost, src := d.dst, dst := d.src,
       shape := if d.shape == Scatter then Gather else d.shape)
  }

  lemma MirrorFlips(d: Desc)
    requires d.shape == Strided2D || d.shape == Strided3D || d.shape == Scatter || d.shape == Linear
    ensures Pieces(Mirror(d)) == FlipAll(Pieces(d))
  {
    forall k | 0 <= k < PieceCount(d)
      ensures PieceAt(Mirror(d), k) == Flip(PieceAt(d, k))
    {
    }
  }

  /** The transfer reads this byte of its source. */
  ghost predicate ReadsFrom(d: Desc, x: nat)
  {
    exists k: nat :: k < PieceCount(d) && Covers(PieceAt(d, k).from, PieceAt(d, k).length, x)
  }

  lemma ReadsByPiece(d: Desc, x: nat)
    ensures Reads(Pieces(d), x) <==> ReadsFrom(d, x)
  {
    if k :| 0 <= k < |Pieces(d)| && Covers(Pieces(d)[k].from, Pieces(d)[k].length, x) {
      assert Covers(PieceAt(d, k).from, PieceAt(d, k).length, x);
    }
    if k: nat :| k < PieceCount(d) && Covers(PieceAt(d, k).from, PieceAt(d, k).length, x) {
      assert Covers(Pieces(d)[k].from, Pieces(d)[k].length, x);
    }
  }

  /** The transfer writes this byte of its destination. */
  ghost predicate WritesTo(d: Desc, a: nat)
  {
    exists k: nat :: k < PieceCount(d) && Covers(PieceAt(d, k).to, PieceAt(d, k).length, a)
  }

  /**
   A load followed by the matching store (2D, 3D, linear, or scatter then gather) restores every host byte it
   read and changes no other, in SRAM or on the host, whenever its SRAM ranges are pairwise disjoint.
   */
  lemma StoreUndoesLoad<T>(d: Desc, host: seq<T>, sram: seq<T>, back: seq<T>)
    requires d.shape == Strided2D || d.shape == Strided3D || d.shape == Scatter || d.shape == Linear
    requires AllInBounds(Pieces(d), |host|, |sram|) && DisjointTargets(Pieces(d)) && |back| == |host|
    ensures AllInBounds(Pieces(Mirror(d)), |sram|, |back|)
    ensures var loaded := CopyAll(host, sram, Pieces(d));
            var restored := CopyAll(loaded, back, Pieces(Mirror(d)));
            && (forall x: nat :: x < |host| ==> restored[x] == if ReadsFrom(d, x) then host[x] else back[x])
            && (forall a: nat :: a < |sram| && !WritesTo(d, a) ==> loaded[a] == sram[a])
            && (back == host ==> restored == host)
  {
    var ps := Pieces(d);
    MirrorFlips(d);
    FlippedInBounds(host, sram, back, ps);
    var restored := CopyAll(CopyAll(host, sram, ps), back, FlipAll(ps));
    forall x: nat | x < |host|
      ensures restored[x] == if ReadsFrom(d, x) then host[x] else back[x]
    {
      StoreRestores(host, sram, back, ps, x);
      ReadsByPiece(d, x);
    }
    forall a: nat | a < |sram| && !WritesTo(d, a)
      ensures CopyAll(host, sram, ps)[a] == sram[a]
    {
      OutsideUntouched(host, sram, ps, a);
    }
  }
}
