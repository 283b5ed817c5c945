/** Address ranges in canonical form: two of them nest or are disjoint. */
module Cidr {
  function Pow2(n: nat): (r: nat)
    ensures r >= 1
  {
    if n == 0 then 1 else 2 * Pow2(n - 1)
  }

  lemma {:induction false} Pow2Values()
    ensures Pow2(4) == 16 && Pow2(7) == 128 && Pow2(8) == 256 && Pow2(10) == 1024 && Pow2(12) == 4096 && Pow2(16) == 65536
  {
    assert Pow2(4) == 16;
    assert Pow2(8) == 256;
    assert Pow2(12) == 4096;
  }

  function Width(version: int): nat {
    if version == 4 then 32 else 128
  }

  /** A range: address family, network address (host bits cleared) and prefix length. */
  datatype RawRange = Range(version: int, base: nat, prefix: nat)

  predicate Aligned(r: RawRange) {
    && (r.version == 4 || r.version == 6)
    && r.prefix <= Width(r.version)
    && r.base % Pow2(Width(r.version) - r.prefix) == 0
    && r.base + Pow2(Width(r.version) - r.prefix) <= Pow2(Width(r.version))
  }

  type Range = r: RawRange | Aligned(r) witness Any4()

  function Any4(): (r: RawRange)
    ensures Aligned(r)
  {
    Range(4, 0, 0)
  }

  function Size(r: Range): (n: nat)
    ensures n >= 1
  {
    Pow2(Width(r.version) - r.prefix)
  }

  function Last(r: Range): nat {
    r.base + Size(r) - 1
  }

  predicate HasAddress(r: Range, a: nat) {
    r.base <= a <= Last(r)
  }

  /** `inner` sits inside `outer` (same family). */
  predicate Inside(inner: Range, outer: Range) {
    inner.version == outer.version && inner.base >= outer.base && Last(inner) <= Last(outer)
  }

  /** Two ranges of which one covers the other. */
  predicate Shares(a: Range, b: Range) {
    Inside(a, b) || Inside(b, a)
  }

  // ---------------------------------------------------------------- aligned ranges nest or are disjoint

  lemma {:induction false} Pow2Divides(m: nat, n: nat)
    requires m <= n
    ensures Pow2(n) == Pow2(n - m) * Pow2(m) && Pow2(m) <= Pow2(n)
    decreases n - m
  {
    if m < n {
      Pow2Divides(m, n - 1);
      DoubleProduct(Pow2(n - 1 - m), Pow2(m));
    }
  }

  lemma DoubleProduct(a: nat, b: nat)
    ensures (2 * a) * b == 2 * (a * b)
  {
  }

  lemma MultipleStep(x: nat, y: nat, s: nat)
    requires s > 0 && x % s == 0 && y % s == 0 && x < y
    ensures x + s <= y
  {
    var p, q := x / s, y / s;
    assert x == p * s && y == q * s;
    MulGap(p, q, s);
    MulGap(q, p, s);
  }

  lemma {:induction false} MulGap(a: nat, b: nat, s: nat)
    ensures a < b ==> a * s + s <= b * s
  {
    if a < b {
      var k := b - a - 1;
      assert b * s == (a + 1 + k) * s == a * s + s + k * s;
    }
  }

  lemma MultipleOfProduct(x: nat, k: nat, s: nat)
    requires s > 0 && k > 0 && x % (k * s) == 0
    ensures x % s == 0
  {
    var q := x / (k * s);
    assert x == (q * k) * s;
    ModOfMultiple(q * k, s);
  }

  lemma {:induction false} ModOfMultiple(q: nat, s: nat)
    requires s > 0
    ensures (q * s) % s == 0
  {
    var x := q * s;
    var d, r := x / s, x % s;
    assert x == d * s + r;
    MulGap(d, q, s);
    MulGap(q, d, s);
  }

  /** The smaller of two ranges with an address in common lies inside the larger. */
  lemma SmallerInside(small: Range, big: Range, a: nat)
    requires small.version == big.version && big.prefix <= small.prefix
    requires HasAddress(small, a) && HasAddress(big, a)
    ensures Inside(small, big)
  {
    var w := Width(small.version);
    var s, k := Size(small), Pow2(small.prefix - big.prefix);
    Pow2Divides(w - small.prefix, w - big.prefix);
    assert Size(big) == k * s;
    MultipleOfProduct(big.base, k, s);
    if small.base < big.base {
      MultipleStep(small.base, big.base, s);
      assert false;
    }
    ModOfMultiple(k, s);
    MultipleSum(big.base, k * s, s);
    MultipleStep(small.base, big.base + k * s, s);
  }

  lemma MultipleSum(x: nat, y: nat, s: nat)
    requires s > 0 && x % s == 0 && y % s == 0
    ensures (x + y) % s == 0
  {
    var p, q := x / s, y / s;
    assert x + y == (p + q) * s;
    ModOfMultiple(p + q, s);
  }

  /** Two ranges of one family have an address in common exactly when one contains the other. */
  lemma NestOrDisjoint(a: Range, b: Range)
    ensures Shares(a, b) <==> a.version == b.version && exists x: nat :: HasAddress(a, x) && HasAddress(b, x)
  {
    if Inside(a, b) {
      assert HasAddress(a, a.base) && HasAddress(b, a.base);
    }
    if Inside(b, a) {
      assert HasAddress(a, b.base) && HasAddress(b, b.base);
    }
    if a.version == b.version && exists x: nat :: HasAddress(a, x) && HasAddress(b, x) {
      var x: nat :| HasAddress(a, x) && HasAddress(b, x);
      if a.prefix <= b.prefix { SmallerInside(b, a, x); } else { SmallerInside(a, b, x); }
    }
  }

  /** Two ranges inside each other are the same range. */
  lemma MutualInsideIsEqual(a: Range, b: Range)
    requires Inside(a, b) && Inside(b, a)
    ensures a == b
  {
    var w := Width(a.version);
    assert Pow2(w - a.prefix) == Pow2(w - b.prefix);
    Pow2Injective(w - a.prefix, w - b.prefix);
  }

  lemma {:induction false} Pow2Injective(m: nat, n: nat)
    requires Pow2(m) == Pow2(n)
    ensures m == n
  {
    if m > 0 && n > 0 { Pow2Injective(m - 1, n - 1); }
  }
}
