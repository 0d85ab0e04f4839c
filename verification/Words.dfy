/** Fixed-width C arithmetic and the rounding-up division shared by the models. */
module Words {
  const U32: nat := 0x1_0000_0000
  const U64: nat := 0x1_0000_0000_0000_0000
  const U32_MAX: nat := U32 - 1
  const U64_MAX: nat := U64 - 1

  datatype Option<+T> = None | Some(value: T) {
    function GetOr(default: T): T
    {
      match this
      case Some(v) => v
      case None => default
    }
  }

  /** Values of a 64-bit unsigned field. */
  type Word64 = x: int | 0 <= x < U64

  /** A value stored in an unsigned 32-bit field. */
  function Wrap32(x: nat): nat { x % U32 }

  /** A value stored in an unsigned 64-bit field. */
  function Wrap64(x: nat): Word64 { x % U64 }

  /** Wrapping never enlarges, and leaves what fits alone. */
  lemma WrapFits(x: nat)
    ensures Wrap64(x) <= x && (x < U64 ==> Wrap64(x) == x)
  {
  }

  function Min(a: int, b: int): int { if a < b then a else b }

  function Max(a: int, b: int): int { if a > b then a else b }

  /** Addition that stops at the largest 64-bit value. */
  function SatAdd(a: nat, b: nat): Word64
  {
    if a + b > U64_MAX then U64_MAX else a + b
  }

  function Times(a: real, b: real): real { a * b }

  /** An element of a flat array; the loops are proved to stay in range. */
  function Read(s: seq<real>, i: nat): real { if i < |s| then s[i] else 0.0 }

  function Mul(a: nat, b: nat): nat { a * b }

  function Div(x: nat, d: nat): nat
    requires d > 0
  {
    x / d
  }

  function Rem(x: nat, d: nat): nat
    requires d > 0
  {
    x % d
  }

  lemma DivModParts(x: nat, d: nat)
    requires d > 0
    ensures Div(x, d) * d + Rem(x, d) == x && Rem(x, d) < d
  {
  }

  /** Division rounding up, computed as quotient plus "is there a remainder". */
  function CeilDiv(value: nat, divisor: nat): nat
    requires divisor > 0
  {
    value / divisor + (if value % divisor != 0 then 1 else 0)
  }

  /** CeilDiv is the least count of divisors that covers the value. */
  lemma CeilDivLeast(value: nat, divisor: nat, k: nat)
    requires divisor > 0
    ensures k * divisor >= value <==> k >= CeilDiv(value, divisor)
  {
    var q, r := value / divisor, value % divisor;
    assert value == q * divisor + r;
    if k <= q {
      MulMonotone(k, q, divisor);
    } else {
      MulMonotone(q + 1, k, divisor);
      assert (q + 1) * divisor == q * divisor + divisor;
    }
  }

  /** The two ways C rounds a quotient up agree. */
  lemma RoundUpAgrees(cost: nat, q: nat)
    requires q > 0
    ensures (cost + q - 1) / q == CeilDiv(cost, q)
  {
    var a, r := cost / q, cost % q;
    assert cost == a * q + r;
    AddOneTimes(a, q);
    if r == 0 {
      DivModUnique(a, q, q - 1);
    } else {
      DivModUnique(a + 1, q, r - 1);
    }
  }

  lemma MulMonotone(a: nat, b: nat, c: nat)
    requires a <= b
    ensures a * c <= b * c
  {
  }

  lemma MulMonotoneLeft(c: nat, a: nat, b: nat)
    requires a <= b
    ensures c * a <= c * b
  {
  }

  lemma DivBelow(x: nat, d: nat, k: nat)
    requires d > 0
    ensures x < k * d <==> x / d < k
  {
    var q := x / d;
    assert x == q * d + x % d;
    if k <= q {
      MulMonotone(k, q, d);
    } else {
      MulMonotone(q + 1, k, d);
      assert (q + 1) * d == q * d + d;
    }
  }

  /** An amount added n times. */
  function Repeated(n: nat, amount: nat): nat
  {
    if n == 0 then 0 else Repeated(n - 1, amount) + amount
  }

  lemma {:induction false} RepeatedIsProduct(n: nat, amount: nat)
    ensures Repeated(n, amount) == n * amount
  {
    if n > 0 {
      RepeatedIsProduct(n - 1, amount);
      AddOneTimes(n - 1, amount);
    }
  }

  /** Sum of a list of counts, defined from its end. */
  function Total(ns: seq<nat>): nat
  {
    if ns == [] then 0 else Total(ns[..|ns| - 1]) + ns[|ns| - 1]
  }

  /** The same list with each count worth a fixed amount. */
  function Worth(ns: seq<nat>, amount: nat): nat
  {
    if ns == [] then 0 else Worth(ns[..|ns| - 1], amount) + Repeated(ns[|ns| - 1], amount)
  }

  lemma {:induction false} WorthIsProduct(ns: seq<nat>, amount: nat)
    ensures Worth(ns, amount) == Total(ns) * amount
  {
    if ns != [] {
      var n := |ns| - 1;
      WorthIsProduct(ns[..n], amount);
      RepeatedIsProduct(ns[n], amount);
      Distribute(Total(ns[..n]), ns[n], amount);
    }
  }

  lemma Append(ns: seq<nat>, n: nat, amount: nat)
    ensures Total(ns + [n]) == Total(ns) + n
    ensures Worth(ns + [n], amount) == Worth(ns, amount) + Repeated(n, amount)
  {
    assert (ns + [n])[..|ns|] == ns;
  }

  lemma AddOneTimes(q: nat, w: nat)
    ensures (q + 1) * w == q * w + w
  {
  }

  lemma CeilDivBounds(c: nat, bus: nat)
    requires bus > 0
    ensures CeilDiv(c, bus) * bus >= c
    ensures CeilDiv(c, bus) <= c
  {
    CeilDivLeast(c, bus, CeilDiv(c, bus));
    MulMonotone(1, bus, c);
    CeilDivLeast(c, bus, c);
  }

  lemma Distribute(a: nat, b: nat, c: nat)
    ensures (a + b) * c == a * c + b * c
  {
  }

  lemma DivMonotone(x: nat, y: nat, d: nat)
    requires d > 0 && x <= y
    ensures x / d <= y / d
  {
    DivBelow(x, d, y / d + 1);
    AddOneTimes(y / d, d);
  }

  /** Dividing q * d + r by d, the fact the index decoders rest on. */
  lemma DivModUnique(q: int, d: int, r: int)
    requires 0 <= r < d
    ensures (q * d + r) / d == q
    ensures (q * d + r) % d == r
  {
    var x := q * d + r;
    var k := x / d - q;
    assert k * d == (x / d) * d - q * d;
    assert (x / d) * d + x % d == x;
    assert k * d == r - x % d;
    MultipleInside(k, d);
  }

  lemma MultipleInside(k: int, d: int)
    requires d > 0 && -d < k * d < d
    ensures k == 0
  {
    assert (-k) * d == -(k * d);
    if k >= 1 {
      MulMonotone(1, k, d);
    } else if k <= -1 {
      MulMonotone(1, -k, d);
    }
  }
}

/** Positions on a rotating cursor over n slots. */
module Cursors {
  import opened Words

  /** The slot examined by a given probe when the scan starts at the cursor. */
  function At(n: nat, cursor: nat, probe: nat): (slot: nat)
    requires cursor < n && probe < n
    ensures slot < n
  {
    if cursor + probe < n then cursor + probe else cursor + probe - n
  }

  /** The probe that reaches a given slot. */
  function Dist(n: nat, cursor: nat, slot: nat): (probe: nat)
    requires cursor < n && slot < n
    ensures probe < n && At(n, cursor, probe) == slot
  {
    if slot >= cursor then slot - cursor else slot + n - cursor
  }

  /** The value seen by a probe. */
  function ValueAt(values: seq<nat>, cursor: nat, probe: nat): nat
    requires cursor < |values| && probe < |values|
  {
    values[At(|values|, cursor, probe)]
  }

  /** The earliest probe of least value, among the first m and among values below the limit. */
  function FirstLeast(values: seq<nat>, cursor: nat, limit: nat, m: nat): (r: Option<nat>)
    requires cursor < |values| && m <= |values|
    ensures r.Some? ==> r.value < m
  {
    if m == 0 then None
    else
      var r := FirstLeast(values, cursor, limit, m - 1);
      var best := if r.Some? then ValueAt(values, cursor, r.value) else limit;
      if ValueAt(values, cursor, m - 1) < best then Some(m - 1) else r
  }

  /** FirstLeast finds the least value below the limit, its earliest occurrence, and fails only if there is none. */
  lemma {:induction false} FirstLeastIsFirst(values: seq<nat>, cursor: nat, limit: nat, m: nat)
    requires cursor < |values| && m <= |values|
    ensures var r := FirstLeast(values, cursor, limit, m);
            && (r.None? <==> forall p: nat :: p < m ==> ValueAt(values, cursor, p) >= limit)
            && (r.Some? ==>
                  && ValueAt(values, cursor, r.value) < limit
                  && (forall p: nat :: p < m ==> ValueAt(values, cursor, r.value) <= ValueAt(values, cursor, p))
                  && (forall p: nat :: p < r.value ==> ValueAt(values, cursor, r.value) < ValueAt(values, cursor, p)))
  {
    if m > 0 {
      FirstLeastIsFirst(values, cursor, limit, m - 1);
    }
  }

  lemma AtIsModulo(n: nat, cursor: nat, probe: nat)
    requires cursor < n && probe < n
    ensures (cursor + probe) % n == At(n, cursor, probe)
  {
    if cursor + probe < n {
      DivModUnique(0, n, cursor + probe);
    } else {
      DivModUnique(1, n, cursor + probe - n);
    }
  }
}
