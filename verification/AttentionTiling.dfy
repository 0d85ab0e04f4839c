/** The choice of attention tile sizes, and the memory layout an admitted choice gives. */
module AttentionTiling {
  import opened Words

  /** Bytes of the three on-chip memories. */
  datatype Memory = Memory(a: nat, w: nat, o: nat)

  /** Bytes of the output memory used at once: scores, accumulator, mask, and row state when keys are streamed. */
  function Usage(tm: nat, tn: nat, dim: nat, n: nat): nat
  {
    4 * (tm * tn) + 4 * (tm * dim) + 4 * (tm * tn) + if tn < n then tm * 8 else 0
  }

  /** The footprint check: the tiles of a request fit the memories. */
  predicate Admitted(m: Memory, tm: nat, tn: nat, dim: nat, n: nat)
  {
    && tm > 0 && tn > 0 && dim > 0 && n > 0
    && tm * dim <= m.a / 2 && tn * dim <= m.w / 4
    && tm * tn <= m.o / 4 && tm * dim <= m.o / 4
    && Usage(tm, tn, dim, n) <= m.o
  }

  lemma UsagePerRow(tm: nat, tn: nat, dim: nat, n: nat)
    ensures Usage(tm, tn, dim, n) == tm * (8 * tn + 4 * dim + if tn < n then 8 else 0)
  {
    var extra := if tn < n then 8 else 0;
    assert tm * (8 * tn + 4 * dim + extra) == tm * (8 * tn) + tm * (4 * dim) + tm * extra;
    assert tm * (8 * tn) == 8 * (tm * tn) && tm * (4 * dim) == 4 * (tm * dim);
  }

  lemma FitsPerRow(tm: nat, x: nat, size: nat)
    requires tm > 0
    ensures tm * x <= size <==> x <= size / tm
  {
    DivBelow(size, tm, x);
    assert x * tm == tm * x;
  }

  /** Whether a number of query rows fits whatever the tile of keys. */
  predicate RowsFit(m: Memory, tm: nat, dim: nat)
  {
    tm * dim <= m.a / 2
  }

  /** At a fixed number of rows, a tile of keys is admitted exactly if it is within the key and output budgets. */
  lemma AdmittedPerRow(m: Memory, tm: nat, tn: nat, dim: nat, n: nat)
    requires tm > 0 && tn > 0 && dim > 0 && n > 0
    ensures Admitted(m, tm, tn, dim, n)
            <==> RowsFit(m, tm, dim) && tn <= KeyBudget(m.w, dim)
                 && 8 * tn + 4 * dim + (if tn < n then 8 else 0) <= m.o / tm
  {
    UsagePerRow(tm, tn, dim, n);
    FitsPerRow(tm, 8 * tn + 4 * dim + (if tn < n then 8 else 0), m.o);
    FitsPerRow(dim, tn, m.w / 4);
    DivDiv(m.w, 4, dim);
    assert dim * tn == tn * dim;
  }

  lemma DivDiv(x: nat, a: nat, b: nat)
    requires a > 0 && b > 0
    ensures a * b > 0 && Div(Div(x, a), b) == Div(x, a * b)
  {
    MulMonotone(1, a, b);
    DivModParts(x, a);
    DivModParts(Div(x, a), b);
    DivDivParts(x, a, b, Div(x, a), Div(Div(x, a), b), Rem(Div(x, a), b), Rem(x, a));
  }

  lemma DivDivParts(x: nat, a: nat, b: nat, y: nat, q: nat, r: nat, r': nat)
    requires a * b > 0 && x == y * a + r' && y == q * b + r && r < b && r' < a
    ensures Div(x, a * b) == q
  {
    NestedRemainder(q, r, r', a, b);
    DivModUnique(q, a * b, r * a + r');
  }

  lemma NestedRemainder(q: nat, r: nat, r': nat, a: nat, b: nat)
    requires r < b && r' < a
    ensures (q * b + r) * a + r' == q * (a * b) + (r * a + r')
    ensures r * a + r' < a * b
  {
    Distribute(q * b, r, a);
    Reorder(q, b, a);
    AddOneTimes(r, a);
    MulMonotone(r + 1, b, a);
  }

  lemma Reorder(q: nat, b: nat, a: nat)
    ensures q * b * a == q * (a * b) && b * a == a * b
  {
  }

  /** The streaming budget of a row solved for the tile of keys, which stays below all keys. */
  function StreamedKeys(rowBudget: nat, dim: nat, maxN: nat, n: nat): nat
    requires n > 0
  {
    var fixed := 4 * dim + 8;
    var bound := if rowBudget > fixed then (rowBudget - fixed) / 8 else 0;
    var capped := Min(bound, maxN);
    if capped >= n then n - 1 else capped
  }

  /** Keys whose tile and transpose fit the key memory. */
  function KeyBudget(w: nat, dim: nat): nat
    requires dim > 0
  {
    Div(w, 4 * dim)
  }

  /** The tile of keys tried for a number of rows: all keys if that fits, else the streaming budget solved. */
  function TriedKeys(m: Memory, tm: nat, dim: nat, n: nat): nat
    requires tm > 0 && dim > 0
  {
    var maxN := Min(KeyBudget(m.w, dim), n);
    if maxN == n && Admitted(m, tm, n, dim, n) then n
    else if n > 1 then StreamedKeys(m.o / tm, dim, maxN, n)
    else 0
  }

  /** The tile of keys tried is the largest admitted one; if it is not admitted, none is. */
  lemma TriedIsLargest(m: Memory, tm: nat, tn: nat, dim: nat, n: nat)
    requires tm > 0 && dim > 0 && 0 < tn <= n && Admitted(m, tm, tn, dim, n)
    ensures Admitted(m, tm, TriedKeys(m, tm, dim, n), dim, n) && tn <= TriedKeys(m, tm, dim, n)
  {
    var t := TriedKeys(m, tm, dim, n);
    AdmittedPerRow(m, tm, tn, dim, n);
    if t < n {
      AdmittedPerRow(m, tm, n, dim, n);
      assert tn < n;
      DivBelow(m.o / tm - (4 * dim + 8), 8, tn);
      assert tn <= t;
      AdmittedPerRow(m, tm, t, dim, n);
    }
  }

  /** What the search over the first rows has found: nothing, or the best admitted pair with the fewest rows. */
  ghost predicate BestSoFar(m: Memory, dim: nat, n: nat, rows: nat, tileM: nat, tileN: nat)
  {
    && (tileM == 0 ==> tileN == 0)
    && (tileM > 0 ==> tileM <= rows && 1 <= tileN <= n && Admitted(m, tileM, tileN, dim, n))
    && (forall tm, tn :: 1 <= tm <= rows && 1 <= tn <= n && Admitted(m, tm, tn, dim, n) ==>
          && tm * tn <= tileM * tileN
          && (tm < tileM ==> tm * tn < tileM * tileN))
  }

  lemma BestStep(m: Memory, dim: nat, n: nat, rows: nat, tileM: nat, tileN: nat)
    requires dim > 0 && n > 0 && BestSoFar(m, dim, n, rows, tileM, tileN)
    ensures var tm, tn := rows + 1, TriedKeys(m, rows + 1, dim, n);
            if Admitted(m, tm, tn, dim, n) && tm * tn > tileM * tileN
            then BestSoFar(m, dim, n, tm, tm, tn) else BestSoFar(m, dim, n, tm, tileM, tileN)
  {
    var tm := rows + 1;
    var t := TriedKeys(m, tm, dim, n);
    forall tn | 1 <= tn <= n && Admitted(m, tm, tn, dim, n)
      ensures Admitted(m, tm, t, dim, n) && tm * tn <= tm * t
    {
      TriedIsLargest(m, tm, tn, dim, n);
      MulMonotoneLeft(tm, tn, t);
    }
  }

  /**
   The search: the tile sizes of the largest admitted product over at most 64 query rows and all key counts, with
   the fewest rows among equals, and zeros if nothing is admitted.
   */
  method AutoTile(m: Memory, queries: nat, n: nat, dim: nat) returns (tileM: nat, tileN: nat)
    ensures dim == 0 || n == 0 ==> tileM == tileN == 0
    ensures dim > 0 && n > 0 ==> BestSoFar(m, dim, n, Min(queries, 64), tileM, tileN)
  {
    tileM, tileN := 0, 0;
    if queries == 0 || n == 0 || dim == 0 {
      return;
    }
    var best, tm := 0, 1;
    while tm <= queries && tm <= 64
      invariant 1 <= tm <= Min(queries, 64) + 1
      invariant best == tileM * tileN && BestSoFar(m, dim, n, tm - 1, tileM, tileN)
    {
      BestStep(m, dim, n, tm - 1, tileM, tileN);
      var tn := TriedKeys(m, tm, dim, n);
      if Admitted(m, tm, tn, dim, n) && tm * tn > best {
        best, tileM, tileN := tm * tn, tm, tn;
      }
      tm := tm + 1;
    }
  }

  /** No pair is chosen exactly if none is admitted. */
  lemma NothingChosen(m: Memory, dim: nat, n: nat, rows: nat, tileM: nat, tileN: nat)
    requires BestSoFar(m, dim, n, rows, tileM, tileN)
    ensures tileM == 0 <==> forall tm, tn :: 1 <= tm <= rows && 1 <= tn <= n ==> !Admitted(m, tm, tn, dim, n)
  {
    if tm, tn :| 1 <= tm <= rows && 1 <= tn <= n && Admitted(m, tm, tn, dim, n) {
      MulMonotone(1, tm, tn);
    }
  }

  /** The description determines the pair. */
  lemma BestUnique(m: Memory, dim: nat, n: nat, rows: nat, tileM: nat, tileN: nat, tileM': nat, tileN': nat)
    requires BestSoFar(m, dim, n, rows, tileM, tileN) && BestSoFar(m, dim, n, rows, tileM', tileN')
    ensures tileM == tileM' && tileN == tileN'
  {
    NothingChosen(m, dim, n, rows, tileM, tileN);
    NothingChosen(m, dim, n, rows, tileM', tileN');
    if tileM > 0 {
      assert tileM * tileN == tileM' * tileN';
      CancelLeft(tileM, tileN, tileN');
    }
  }

  lemma CancelLeft(a: nat, b: nat, c: nat)
    requires a > 0 && a * b == a * c
    ensures b == c
  {
    assert (b - c) * a == 0;
    MultipleInside(b - c, a);
  }

  /** A byte range of a memory. */
  datatype Range = Range(start: nat, end: nat)

  /** Ranges that follow one another inside a memory. */
  ghost predicate Packed(rs: seq<Range>, size: nat)
  {
    && (forall i :: 0 <= i < |rs| ==> rs[i].start <= rs[i].end <= size)
    && (forall i, j :: 0 <= i < j < |rs| ==> rs[i].end <= rs[j].start)
  }

  /** The execution's offsets: keys and transposed keys; scores, accumulator, mask, row maxima and row sums. */
  function KeyLayout(tn: nat, dim: nat): seq<Range>
  {
    var k := 2 * (tn * dim);
    [Range(0, k), Range(k, 2 * k)]
  }

  function OutputLayout(tm: nat, tn: nat, dim: nat, n: nat): seq<Range>
  {
    Stacked(4 * (tm * tn), 4 * (tm * dim), if tn < n then 4 * tm else 0)
  }

  function Stacked(s: nat, o: nat, state: nat): seq<Range>
  {
    [Range(0, s), Range(s, s + o), Range(s + o, s + o + s), Range(s + o + s, s + o + s + state),
     Range(s + o + s + state, s + o + s + 2 * state)]
  }

  lemma StackedPacked(s: nat, o: nat, state: nat, size: nat)
    requires s + o + s + 2 * state <= size
    ensures Packed(Stacked(s, o, state), size)
  {
  }

  /** An admitted pair has room for every buffer, none overlapping another. */
  lemma AdmittedLayout(m: Memory, tm: nat, tn: nat, dim: nat, n: nat)
    requires Admitted(m, tm, tn, dim, n)
    ensures 2 * (tm * dim) <= m.a
    ensures Packed(KeyLayout(tn, dim), m.w)
    ensures Packed(OutputLayout(tm, tn, dim, n), m.o)
  {
    StackedPacked(4 * (tm * tn), 4 * (tm * dim), if tn < n then 4 * tm else 0, m.o);
  }

  /** The footprint check refuses nothing that fits: it is the same as room for every buffer. */
  lemma AdmittedExactly(m: Memory, tm: nat, tn: nat, dim: nat, n: nat)
    requires tm > 0 && tn > 0 && dim > 0 && n > 0
    ensures Admitted(m, tm, tn, dim, n)
       <==> 2 * (tm * dim) <= m.a && Packed(KeyLayout(tn, dim), m.w) && Packed(OutputLayout(tm, tn, dim, n), m.o)
  {
    if Admitted(m, tm, tn, dim, n) {
      AdmittedLayout(m, tm, tn, dim, n);
    } else if Packed(KeyLayout(tn, dim), m.w) && Packed(OutputLayout(tm, tn, dim, n), m.o) {
      assert KeyLayout(tn, dim)[1].end <= m.w && OutputLayout(tm, tn, dim, n)[4].end <= m.o;
    }
  }
}
