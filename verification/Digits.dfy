/**
  Positional notation, most significant digit first, in an arbitrary base.
  Both codecs of the base encoder are changes of base, so both are explained by
  the numbers their digit sequences denote.
 */
module Digits {

  function Pow(b: nat, e: nat): nat
  {
    if e == 0 then 1 else b * Pow(b, e - 1)
  }

  /** The number that `ds` denotes in base `base`. */
  function Value(ds: seq<nat>, base: nat): nat
  {
    if ds == [] then 0 else Value(ds[..|ds| - 1], base) * base + ds[|ds| - 1]
  }

  ghost predicate AllBelow(ds: seq<nat>, base: nat)
  {
    forall i :: 0 <= i < |ds| ==> ds[i] < base
  }

  /** The last `len` digits of `v`, padded with zeros on the left. */
  function ToDigits(v: nat, base: nat, len: nat): (ds: seq<nat>)
    requires base > 0
    ensures |ds| == len
    ensures AllBelow(ds, base)
    decreases len
  {
    if len == 0 then [] else ToDigits(v / base, base, len - 1) + [v % base]
  }

  /** The digits of `v` without leading zeros; zero itself is the single digit 0. */
  function MinDigits(v: nat, base: nat): (ds: seq<nat>)
    requires base >= 2
    ensures ds != [] && AllBelow(ds, base)
    decreases v
  {
    if v < base then [v] else (QuotientShrinks(v, base); MinDigits(v / base, base) + [v % base])
  }

  function Zeros(n: nat): (zs: seq<nat>)
    ensures |zs| == n && forall i :: 0 <= i < n ==> zs[i] == 0
  {
    seq(n, i => 0)
  }

  /** How many zeros `ds` begins with. */
  function LeadingZeros(ds: seq<nat>): (n: nat)
    ensures n <= |ds| && (n < |ds| ==> ds[n] != 0)
    ensures forall i :: 0 <= i < n ==> ds[i] == 0
  {
    if ds == [] || ds[0] != 0 then 0 else 1 + LeadingZeros(ds[1..])
  }

  // ---------------------------------------------------------------- arithmetic

  lemma Distribute(a: int, b: int, c: int)
    ensures (a + b) * c == a * c + b * c
  {
  }

  lemma Associate(a: int, b: int, c: int)
    ensures a * b * c == a * (b * c)
  {
  }

  lemma MulMonotone(a: nat, b: nat, d: nat)
    requires a <= b
    ensures a * d <= b * d
  {
  }

  lemma QuotientShrinks(v: nat, base: nat)
    requires base >= 2 && v > 0
    ensures v / base < v
  {
    assert v == base * (v / base) + v % base;
    MulMonotone(2, base, v / base);
  }

  lemma QuotientAtMost(d: nat, q: nat, r: nat, q': nat, r': nat)
    requires q * d + r == q' * d + r' && r < d
    ensures q' <= q
  {
    Distribute(q, 1, d);
    if q + 1 <= q' { MulMonotone(q + 1, q', d); }
  }

  /** Division is determined by its defining equation. */
  lemma DivModUnique(n: nat, d: nat, q: nat, r: nat)
    requires d > 0 && n == q * d + r && r < d
    ensures n / d == q && n % d == r
  {
    var q', r' := n / d, n % d;
    assert n == q' * d + r';
    QuotientAtMost(d, q, r, q', r');
    QuotientAtMost(d, q', r', q, r);
  }

  lemma Euclid(n: nat, d: nat)
    requires d > 0
    ensures 0 <= n / d && n == n / d * d + n % d && n % d < d
  {
  }

  lemma ModDropsMultiple(k: nat, m: nat, n: nat)
    requires m > 0
    ensures (k * m + n) % m == n % m
  {
    Euclid(n, m);
    Distribute(k, n / m, m);
    DivModUnique(k * m + n, m, k + n / m, n % m);
  }

  /** A low part of size `m` survives truncation to any multiple `m * k` of it. */
  lemma LowPartOfTruncation(n: nat, hi: nat, m: nat, low: nat, k: nat) returns (hi': nat)
    requires m > 0 && k > 0 && low < m && n == hi * m + low
    ensures m * k > 0 && n % (m * k) == hi' * m + low
  {
    var a, b := hi / k, hi % k;
    Euclid(hi, k);
    hi' := b;
    Distribute(a * k, b, m);
    Associate(a, k, m);
    MulMonotone(b + 1, k, m);
    Distribute(b, 1, m);
    DivModUnique(n, m * k, a, b * m + low);
  }

  /** `(q * b + r) * a + s` in base `a * b`: the low part stays below the base. */
  lemma NestedRemainder(q: nat, r: nat, b: nat, s: nat, a: nat)
    requires r < b && s < a
    ensures (q * b + r) * a + s == q * (a * b) + (r * a + s)
    ensures r * a + s < a * b
  {
    Distribute(q * b, r, a);
    Associate(q, b, a);
    MulMonotone(r + 1, b, a);
    Distribute(r, 1, a);
  }

  lemma PowPositive(b: nat, e: nat)
    requires b > 0
    ensures Pow(b, e) > 0
  {
    if e > 0 { PowPositive(b, e - 1); }
  }

  lemma {:induction false} PowAdd(b: nat, m: nat, n: nat)
    ensures Pow(b, m + n) == Pow(b, m) * Pow(b, n)
  {
    if m > 0 {
      PowAdd(b, m - 1, n);
      Associate(b, Pow(b, m - 1), Pow(b, n));
    }
  }

  lemma {:induction false} PowPow(b: nat, m: nat, n: nat)
    ensures Pow(Pow(b, m), n) == Pow(b, m * n)
  {
    if n > 0 {
      PowPow(b, m, n - 1);
      PowAdd(b, m, m * (n - 1));
      assert m + m * (n - 1) == m * n;
    } else {
      assert m * n == 0;
    }
  }

  lemma {:induction false} PowMonotone(b: nat, m: nat, n: nat)
    requires b > 0 && m <= n
    ensures Pow(b, m) <= Pow(b, n)
  {
    if m < n {
      PowMonotone(b, m, n - 1);
      PowPositive(b, n - 1);
      MulMonotone(1, b, Pow(b, n - 1));
    }
  }

  // ---------------------------------------------------------------- digits

  lemma {:induction false} ValueBound(ds: seq<nat>, base: nat)
    requires base > 0 && AllBelow(ds, base)
    ensures Value(ds, base) < Pow(base, |ds|)
  {
    if ds != [] {
      var init := ds[..|ds| - 1];
      ValueBound(init, base);
      var v, p := Value(init, base), Pow(base, |ds| - 1);
      MulMonotone(v + 1, p, base);
      Distribute(v, 1, base);
    }
  }

  /** A number has one representation of each length. */
  lemma {:induction false} ValueInjective(a: seq<nat>, b: seq<nat>, base: nat)
    requires base > 0 && |a| == |b| && AllBelow(a, base) && AllBelow(b, base)
    requires Value(a, base) == Value(b, base)
    ensures a == b
  {
    if a != [] {
      var n := |a| - 1;
      DivModUnique(Value(a, base), base, Value(a[..n], base), a[n]);
      DivModUnique(Value(b, base), base, Value(b[..n], base), b[n]);
      ValueInjective(a[..n], b[..n], base);
      assert a == a[..n] + [a[n]] && b == b[..n] + [b[n]];
    }
  }

  lemma {:induction false} ValueConcat(a: seq<nat>, b: seq<nat>, base: nat)
    ensures Value(a + b, base) == Value(a, base) * Pow(base, |b|) + Value(b, base)
  {
    if b == [] {
      assert a + b == a;
    } else {
      var n := |b| - 1;
      ValueConcat(a, b[..n], base);
      assert (a + b)[..|a + b| - 1] == a + b[..n];
      Distribute(Value(a, base) * Pow(base, n), Value(b[..n], base), base);
      Associate(Value(a, base), Pow(base, n), base);
    }
  }

  lemma ValueSnoc(ds: seq<nat>, d: nat, base: nat)
    ensures Value(ds + [d], base) == Value(ds, base) * base + d
  {
    assert (ds + [d])[..|ds|] == ds;
  }

  lemma ValueOfFew(a: nat, b: nat, c: nat, d: nat, base: nat)
    ensures Value([a], base) == a
    ensures Value([a, b], base) == a * base + b
    ensures Value([a, b, c], base) == (a * base + b) * base + c
    ensures Value([a, b, c, d], base) == ((a * base + b) * base + c) * base + d
  {
    ValueSnoc([], a, base);
    ValueSnoc([a], b, base);
    ValueSnoc([a, b], c, base);
    ValueSnoc([a, b, c], d, base);
    assert [] + [a] == [a] && [a] + [b] == [a, b];
    assert [a, b] + [c] == [a, b, c] && [a, b, c] + [d] == [a, b, c, d];
  }

  lemma {:induction false} ValueZeros(n: nat, base: nat)
    ensures Value(Zeros(n), base) == 0
  {
    if n > 0 {
      ValueZeros(n - 1, base);
      assert Zeros(n)[..n - 1] == Zeros(n - 1);
    }
  }

  /** Leading zeros do not change the value. */
  lemma ValueDropZeros(ds: seq<nat>, n: nat, base: nat)
    requires n <= |ds| && forall i :: 0 <= i < n ==> ds[i] == 0
    ensures Value(ds[n..], base) == Value(ds, base)
  {
    assert ds == Zeros(n) + ds[n..];
    ValueConcat(Zeros(n), ds[n..], base);
    ValueZeros(n, base);
  }

  /** A non-zero leading digit gives the number its full length. */
  lemma ValueAtLeast(ds: seq<nat>, base: nat)
    requires base > 0 && ds != [] && ds[0] != 0
    ensures Value(ds, base) >= Pow(base, |ds| - 1) > 0
  {
    assert ds == [ds[0]] + ds[1..];
    ValueConcat([ds[0]], ds[1..], base);
    ValueSnoc([], ds[0], base);
    assert [] + [ds[0]] == [ds[0]];
    PowPositive(base, |ds| - 1);
    MulMonotone(1, ds[0], Pow(base, |ds| - 1));
  }

  lemma QuotientBelow(v: nat, d: nat, p: nat)
    requires d > 0 && v < d * p
    ensures v / d < p
  {
    Euclid(v, d);
    if p <= v / d { MulMonotone(p, v / d, d); }
  }

  lemma {:induction false} ValueToDigits(v: nat, base: nat, len: nat)
    requires base > 0 && v < Pow(base, len)
    ensures Value(ToDigits(v, base, len), base) == v
    decreases len
  {
    if len > 0 {
      QuotientBelow(v, base, Pow(base, len - 1));
      ValueToDigits(v / base, base, len - 1);
      ValueSnoc(ToDigits(v / base, base, len - 1), v % base, base);
      Euclid(v, base);
    }
  }

  /** `ToDigits` is the only representation of its length. */
  lemma ToDigitsUnique(ds: seq<nat>, base: nat)
    requires base > 0 && AllBelow(ds, base)
    ensures ToDigits(Value(ds, base), base, |ds|) == ds
  {
    ValueBound(ds, base);
    ValueToDigits(Value(ds, base), base, |ds|);
    ValueInjective(ToDigits(Value(ds, base), base, |ds|), ds, base);
  }

  lemma {:induction false} ValueMinDigits(v: nat, base: nat)
    requires base >= 2
    ensures Value(MinDigits(v, base), base) == v
    ensures v > 0 ==> MinDigits(v, base)[0] != 0
    decreases v
  {
    if v < base {
      ValueSnoc([], v, base);
      assert [] + [v] == [v];
    } else {
      QuotientShrinks(v, base);
      DivModUnique(v, base, v / base, v % base);
      assert v / base > 0;
      ValueMinDigits(v / base, base);
      ValueSnoc(MinDigits(v / base, base), v % base, base);
    }
  }

  /** `MinDigits` is the only representation without a leading zero. */
  lemma {:induction false} MinDigitsUnique(ds: seq<nat>, base: nat)
    requires base >= 2 && ds != [] && AllBelow(ds, base)
    requires ds[0] != 0 || |ds| == 1
    ensures MinDigits(Value(ds, base), base) == ds
  {
    var n := |ds| - 1;
    if n == 0 {
      assert Value(ds, base) == ds[0];
    } else {
      ValueAtLeast(ds[..n], base);
      DivModUnique(Value(ds, base), base, Value(ds[..n], base), ds[n]);
      MulMonotone(1, Value(ds[..n], base), base);
      MinDigitsUnique(ds[..n], base);
      assert ds == ds[..n] + [ds[n]];
    }
  }

  lemma {:induction false} LeadingZerosOf(n: nat, ds: seq<nat>)
    requires ds != [] ==> ds[0] != 0
    ensures LeadingZeros(Zeros(n) + ds) == n
  {
    if n > 0 {
      assert (Zeros(n) + ds)[1..] == Zeros(n - 1) + ds;
      LeadingZerosOf(n - 1, ds);
    } else {
      assert Zeros(0) + ds == ds;
    }
  }

  lemma SmallPowersOfTwo()
    ensures Pow(2, 1) == 2 && Pow(2, 2) == 4 && Pow(2, 3) == 8 && Pow(2, 4) == 16
    ensures Pow(2, 5) == 32 && Pow(2, 6) == 64 && Pow(2, 7) == 128 && Pow(2, 8) == 256
  {
  }
}
