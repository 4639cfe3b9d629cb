/** Division and remainder by a divisor that is not a constant. */
module Arith {
  lemma DivModOf(q: nat, d: nat, r: nat)
    requires r < d
    ensures (q * d + r) / d == q && (q * d + r) % d == r
  {
    var x := q * d + r;
    SameQuotient(d, x / d, x % d, q, r);
  }

  lemma SameQuotient(d: nat, k: int, m: int, q: int, r: int)
    requires 0 <= m < d && 0 <= r < d && k * d + m == q * d + r
    ensures k == q && m == r
  {
    if k > q {
      AtLeast(k - q, d);
    } else if k < q {
      AtLeast(q - k, d);
    }
  }

  lemma AtLeast(n: int, d: nat)
    requires n >= 1
    ensures n * d >= d
  {
  }

  lemma GroupInRange(i: nat, d: nat, n: nat)
    requires d > 0 && i < n * d
    ensures i / d < n && i % d < d
  {
    var q := i / d;
    assert i == q * d + i % d;
    if q >= n {
      AtLeastAsMuch(q, n, d);
      assert false;
    }
  }

  /** What comes before place `r` of row `q`. */
  lemma Preceding(i: nat, q: nat, r: nat, d: nat)
    requires r < d && i < q * d + r
    ensures i / d < q || (i / d == q && i % d < r)
  {
    var k := i / d;
    assert i == k * d + i % d;
    if k > q {
      AtLeastAsMuch(k, q + 1, d);
      assert false;
    }
  }

  lemma AtLeastAsMuch(q: nat, n: nat, d: nat)
    requires q >= n
    ensures q * d >= n * d
  {
  }

  lemma SamePlace(x: nat, y: nat, d: nat)
    requires d > 0 && x / d == y / d && x != y
    ensures x % d != y % d
  {
    assert x == (x / d) * d + x % d;
    assert y == (y / d) * d + y % d;
  }

  lemma SlotsDiffer(a: nat, j: nat, k: nat, d: nat)
    requires j < k < j + d
    ensures (a + j) % d != (a + k) % d
  {
    var x, y := a + j, a + k;
    if x % d == y % d {
      assert x == x / d * d + x % d && y == y / d * d + y % d;
      SameQuotient(d, y / d, 0, x / d, k - j);
    }
  }

  /** Cutting an index to a multiple of the ring size keeps its slot. */
  lemma CutKeepsSlot(i: nat, m: nat, d: nat)
    requires d > 0 && m > 0 && m % d == 0
    ensures (i % m) % d == i % d
  {
    var r := i % m;
    Parts(i, m);
    Parts(m, d);
    Parts(r, d);
    SumParts(i, i / m, m / d, r / d, r % d, m, d);
  }

  lemma Parts(x: nat, d: nat)
    requires d > 0
    ensures x == x / d * d + x % d && 0 <= x % d < d
  {
  }

  lemma SumParts(i: nat, a: nat, q: nat, b: nat, c: nat, m: nat, d: nat)
    requires m == q * d && i == a * m + (b * d + c) && c < d
    ensures i % d == c
  {
    Regrouped(a, q, b, d);
    DivModOf(a * q + b, d, c);
  }

  lemma Regrouped(a: int, q: int, b: int, d: int)
    ensures a * (q * d) + b * d == (a * q + b) * d
  {
  }

  function SumOf(s: seq<nat>): nat {
    if s == [] then 0 else SumOf(s[..|s| - 1]) + s[|s| - 1]
  }

  /** One term goes down by `d`, the others go up by no more than `e`. */
  lemma {:induction false} SumMoves(a: seq<nat>, b: seq<nat>, t: nat, d: nat, e: nat)
    requires |b| == |a| && forall i :: 0 <= i < |a| && i != t ==> b[i] <= a[i] + e
    requires t < |a| ==> b[t] + d <= a[t]
    ensures SumOf(b) + (if t < |a| then d else 0) <= SumOf(a) + e * |a|
  {
    if a != [] {
      var n := |a| - 1;
      SumMoves(a[..n], b[..n], t, d, e);
      assert e * |a| == e * n + e;
    }
  }

  lemma SumDrops(a: seq<nat>, b: seq<nat>, t: nat, d: nat, e: nat)
    requires |b| == |a| && t < |a| && forall i :: 0 <= i < |a| && i != t ==> b[i] <= a[i] + e
    requires b[t] + d <= a[t] && e * |a| < d
    ensures SumOf(b) < SumOf(a)
  {
    SumMoves(a, b, t, d, e);
  }
}
