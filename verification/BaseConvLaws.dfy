/**
  What the base encoder promises, proved about the specification functions that
  `BaseConv` proves its methods equal to.
 */
module BaseConvLaws {
  import opened Common
  import opened Digits
  import opened BaseConv

  ghost predicate AllZero(ds: seq<nat>) {
    forall i :: 0 <= i < |ds| ==> ds[i] == 0
  }

  // ---------------------------------------------------------- change of base

  /** Changing base and back is the identity, leading zeros included, off the all-zero inputs. */
  lemma RebasedInverse(ds: seq<nat>, from: nat, to: nat)
    requires from >= 2 && to >= 2 && AllBelow(ds, from) && !AllZero(ds)
    ensures !AllZero(Rebased(ds, from, to))
    ensures Rebased(Rebased(ds, from, to), to, from) == ds
  {
    RebasedShape(ds, from, to);
    RebasedValue(ds, from, to);
    SameNumber(ds, from, Value(ds, from), LeadingZeros(ds));
  }

  /** Digits are determined by their number and their leading zeros. */
  lemma SameNumber(ds: seq<nat>, base: nat, v: nat, zeros: nat)
    requires base >= 2 && AllBelow(ds, base) && !AllZero(ds)
    requires v == Value(ds, base) && zeros == LeadingZeros(ds)
    ensures Zeros(zeros) + MinDigits(v, base) == ds
  {
    SignificantDigits(ds, base);
    assert Zeros(zeros) + ds[zeros..] == ds;
  }

  lemma SignificantDigits(ds: seq<nat>, base: nat)
    requires base >= 2 && AllBelow(ds, base) && !AllZero(ds)
    ensures MinDigits(Value(ds, base), base) == ds[LeadingZeros(ds)..]
  {
    ValueDropZeros(ds, LeadingZeros(ds), base);
    MinDigitsUnique(ds[LeadingZeros(ds)..], base);
  }

  lemma RebasedShape(ds: seq<nat>, from: nat, to: nat)
    requires from >= 2 && to >= 2 && !AllZero(ds)
    ensures !AllZero(Rebased(ds, from, to))
    ensures LeadingZeros(Rebased(ds, from, to)) == LeadingZeros(ds) < |ds|
  {
    var j := LeadingZeros(ds);
    ValueDropZeros(ds, j, from);
    ValueAtLeast(ds[j..], from);
    ValueMinDigits(Value(ds, from), to);
    LeadingZerosOf(j, MinDigits(Value(ds, from), to));
    assert Rebased(ds, from, to)[j] == MinDigits(Value(ds, from), to)[0];
  }

  lemma RebasedValue(ds: seq<nat>, from: nat, to: nat)
    requires to >= 2
    ensures Value(Rebased(ds, from, to), to) == Value(ds, from)
  {
    var j, converted := LeadingZeros(ds), MinDigits(Value(ds, from), to);
    ValueMinDigits(Value(ds, from), to);
    ValueDropZeros(Zeros(j) + converted, j, to);
    assert (Zeros(j) + converted)[j..] == converted;
  }

  /** An all-zero input gains a zero each time its base is changed. */
  lemma RebasedZeros(n: nat, from: nat, to: nat)
    requires to >= 2
    ensures Rebased(Zeros(n), from, to) == Zeros(n + 1)
  {
    LeadingZerosOf(n, []);
    assert Zeros(n) + [] == Zeros(n);
    ValueZeros(n, from);
    assert Zeros(n) + [0] == Zeros(n + 1);
  }

  // ---------------------------------------------------------------- bit codec

  /** The bits that complete the last symbol are fewer than a byte and are dropped again. */
  lemma BitRoundTrip(data: seq<byte>, k: nat)
    requires 1 <= k <= 8
    ensures BitDecoded(BitEncoded(data, k), k) == data
  {
    var n := SymbolCount(|data|, k);
    var slack := n * k - 8 * |data|;
    SymbolCountBounds(|data|, k);
    assert n * k % 8 == slack && n * k / 8 == |data|;
    PowPositive(2, slack);
    EncodedValue(data, k, slack);
    DivModUnique(Value(data, 256) * Pow(2, slack), Pow(2, slack), Value(data, 256), 0);
    ToDigitsUnique(data, 256);
  }

  /** The symbols spell the data, shifted by the `slack` bits that fill up the last symbol. */
  lemma EncodedValue(data: seq<byte>, k: nat, slack: nat)
    requires 1 <= k <= 8 && SymbolCount(|data|, k) * k == 8 * |data| + slack
    ensures Value(BitEncoded(data, k), Pow(2, k)) == Value(data, 256) * Pow(2, slack)
  {
    var n := SymbolCount(|data|, k);
    PowPositive(2, k);
    ValueBound(data, 256);
    ScaledFits(Value(data, 256), |data|, k, n, slack);
    EncodedDigits(data, k, slack, Value(data, 256) * Pow(2, slack));
    ValueToDigits(Value(data, 256) * Pow(2, slack), Pow(2, k), n);
  }

  lemma EncodedDigits(data: seq<byte>, k: nat, slack: nat, shifted: nat)
    requires 1 <= k <= 8 && SymbolCount(|data|, k) * k == 8 * |data| + slack
    requires shifted == Value(data, 256) * Pow(2, slack)
    ensures Pow(2, k) > 0
    ensures BitEncoded(data, k) == ToDigits(shifted, Pow(2, k), SymbolCount(|data|, k))
  {
    PowPositive(2, k);
    assert SymbolCount(|data|, k) * k - 8 * |data| == slack;
  }

  lemma ScaledFits(v: nat, bytes: nat, k: nat, n: nat, slack: nat)
    requires v < Pow(256, bytes) && n * k == 8 * bytes + slack
    ensures 0 <= v * Pow(2, slack) < Pow(Pow(2, k), n)
  {
    MulMonotone(0, v, Pow(2, slack));
    PowPositive(2, slack);
    BytesArePowers(bytes);
    ScaleBelow(v, Pow(2, 8 * bytes), Pow(2, slack));
    PowAdd(2, 8 * bytes, slack);
    PowPow(2, k, n);
    assert k * n == n * k;
  }

  lemma BytesArePowers(n: nat)
    ensures Pow(256, n) == Pow(2, 8 * n)
  {
    assert Pow(2, 8) == 256;
    PowPow(2, 8, n);
  }

  lemma ScaleBelow(a: nat, b: nat, c: nat)
    requires a < b && c > 0
    ensures a * c < b * c
  {
    MulMonotone(a + 1, b, c);
    Distribute(a, 1, c);
  }

  /** Symbols that the bit encoder can produce: few dropped bits, and all of them zero. */
  predicate Canonical(digits: seq<nat>, k: nat)
    requires 1 <= k <= 8
  {
    var dropped := |digits| * k % 8;
    PowPositive(2, dropped);
    dropped < k && (digits != [] ==> digits[|digits| - 1] % Pow(2, dropped) == 0)
  }

  /** Re-encoding what was decoded restores the text exactly when the text is canonical. */
  lemma BitCanonical(digits: seq<nat>, k: nat)
    requires 1 <= k <= 8 && AllBelow(digits, Pow(2, k))
    ensures BitEncoded(BitDecoded(digits, k), k) == digits <==> Canonical(digits, k)
  {
    var data := BitDecoded(digits, k);
    var n := SymbolCount(|data|, k);
    var dropped := |digits| * k % 8;
    SymbolCountBounds(|data|, k);
    assert |digits| * k == 8 * |data| + dropped;
    PowPositive(2, dropped);
    var v, p := Value(digits, Pow(2, k)), Pow(2, dropped);
    Euclid(v, p);
    DecodedValue(digits, k);
    EncodedValue(data, k, n * k - 8 * |data|);
    if dropped < k {
      SameMultiple(k, n, |digits|, 8 * |data|);
      LowBitsOfLast(digits, k, dropped);
      assert Value(BitEncoded(data, k), Pow(2, k)) == v / p * p;
      PowPositive(2, k);
      SameWhenDivisible(BitEncoded(data, k), digits, Pow(2, k), v, p);
    } else {
      assert n * k < 8 * |data| + k <= |digits| * k;
    }
  }

  lemma SameWhenDivisible(a: seq<nat>, b: seq<nat>, base: nat, v: nat, p: nat)
    requires base > 0 && p > 0 && |a| == |b| && AllBelow(a, base) && AllBelow(b, base)
    requires Value(b, base) == v && Value(a, base) == v / p * p
    ensures a == b <==> v % p == 0
  {
    Euclid(v, p);
    if v % p == 0 { ValueInjective(a, b, base); }
  }

  lemma DecodedValue(digits: seq<nat>, k: nat)
    requires AllBelow(digits, Pow(2, k))
    ensures Pow(2, |digits| * k % 8) > 0
    ensures Value(BitDecoded(digits, k), 256) == Value(digits, Pow(2, k)) / Pow(2, |digits| * k % 8)
  {
    var m, dropped := |digits| * k / 8, |digits| * k % 8;
    var v, p := Value(digits, Pow(2, k)), Pow(2, dropped);
    PowPositive(2, dropped);
    DigitsBound(digits, k);
    MulMonotone(0, |digits|, k);
    PowAdd(2, dropped, 8 * m);
    BytesArePowers(m);
    QuotientDigits(v, p, m);
  }

  lemma QuotientDigits(v: nat, p: nat, m: nat)
    requires p > 0 && v < p * Pow(256, m)
    ensures v / p >= 0 && Value(ToDigits(v / p, 256, m), 256) == v / p
  {
    Euclid(v, p);
    QuotientBelow(v, p, Pow(256, m));
    ValueToDigits(v / p, 256, m);
  }

  lemma DigitsBound(digits: seq<nat>, k: nat)
    requires AllBelow(digits, Pow(2, k))
    ensures Value(digits, Pow(2, k)) < Pow(2, |digits| * k)
  {
    PowPositive(2, k);
    ValueBound(digits, Pow(2, k));
    PowPow(2, k, |digits|);
    assert k * |digits| == |digits| * k;
  }

  lemma LowBitsOfLast(digits: seq<nat>, k: nat, r: nat)
    requires r <= k
    ensures Pow(2, r) > 0
    ensures digits != [] ==> Value(digits, Pow(2, k)) % Pow(2, r) == digits[|digits| - 1] % Pow(2, r)
    ensures digits == [] ==> Value(digits, Pow(2, k)) % Pow(2, r) == 0
  {
    PowPositive(2, r);
    if digits == [] {
      DivModUnique(0, Pow(2, r), 0, 0);
    } else {
      var last := |digits| - 1;
      PowPositive(2, k - r);
      PowAdd(2, k - r, r);
      var h, a, m := Value(digits[..last], Pow(2, k)), Pow(2, k - r), Pow(2, r);
      assert Value(digits, Pow(2, k)) == h * (a * m) + digits[last];
      ModDropsNested(h, a, m, digits[last]);
    }
  }

  lemma ModDropsNested(h: nat, a: nat, m: nat, n: nat)
    requires m > 0
    ensures (h * (a * m) + n) % m == n % m
  {
    Associate(h, a, m);
    ModDropsMultiple(h * a, m, n);
  }

  // ------------------------------------------------------- symbols and digits

  lemma SymbolsInverse(e: BaseEncoding, digits: seq<nat>)
    requires e.Valid() && AllBelow(digits, e.base)
    ensures AllSymbols(e, Symbols(e, digits)) && DigitsOf(e, Symbols(e, digits)) == digits
  {
  }

  lemma DigitsInverse(e: BaseEncoding, s: seq<byte>)
    requires e.Valid() && AllSymbols(e, s)
    ensures AllBelow(DigitsOf(e, s), e.base) && Symbols(e, DigitsOf(e, s)) == s
  {
    DigitsBelow(e, s);
    forall i | 0 <= i < |s| ensures e.alphabet[e.decodeMap[s[i]]] == s[i] {
      var j :| 0 <= j < |e.alphabet| && e.alphabet[j] == s[i];
    }
  }

  /** A symbol of this base carries exactly k bits. */
  predicate BitsPerSymbol(base: nat, k: nat) {
    1 <= k <= 8 && Pow(2, k) == base
  }

  ghost predicate IsPowerOfTwo(base: nat) {
    exists k: nat :: BitsPerSymbol(base, k)
  }

  /** The test that selects the codec is whether the base is a power of two from 2 to 256. */
  lemma LogIsExact(base: nat)
    ensures forall k: nat :: BitsPerSymbol(base, k) <==> Log2Exact(base) == Some(k)
    ensures IsPowerOfTwo(base) <==> Log2Exact(base).Some?
  {
    SmallPowersOfTwo();
    if Log2Exact(base).Some? { assert BitsPerSymbol(base, Log2Exact(base).value); }
  }

  /** The digits that encoding writes for non-empty data, before padding. */
  ghost function Body(e: BaseEncoding, data: seq<byte>): (digits: seq<nat>)
    requires e.Valid()
    ensures AllBelow(digits, e.base)
  {
    match Log2Exact(e.base)
    case None => Rebased(data, 256, e.base)
    case Some(k) => BitEncoded(data, k)
  }

  ghost function PadCount(e: BaseEncoding, data: seq<byte>): nat {
    match Log2Exact(e.base)
    case None => 0
    case Some(k) => PaddingNeeded(e, |data|, k)
  }

  lemma EncodedShape(e: BaseEncoding, data: seq<byte>)
    requires e.Valid() && data != []
    ensures Encoded(e, data) == Symbols(e, Body(e, data)) + Padding(e, PadCount(e, data))
    ensures Body(e, data) != []
  {
    match Log2Exact(e.base) {
      case None => assert Symbols(e, Body(e, data)) + Padding(e, 0) == Symbols(e, Body(e, data));
      case Some(k) => SymbolCountBounds(|data|, k);
    }
  }

  /** Zero bytes are the only data that a body does not determine through decoding. */
  ghost predicate Recoverable(e: BaseEncoding, data: seq<byte>) {
    IsPowerOfTwo(e.base) || !AllZero(data)
  }

  lemma BodyDecodes(e: BaseEncoding, data: seq<byte>)
    requires e.Valid() && data != []
    ensures DigitsDecoded(e, Body(e, data)) == data <==> Recoverable(e, data)
  {
    LogIsExact(e.base);
    match Log2Exact(e.base) {
      case Some(k) => BitRoundTrip(data, k);
      case None =>
        if AllZero(data) {
          ZeroBody(e, data);
          RebasedZeros(|data| + 1, e.base, 256);
        } else {
          RebasedInverse(data, 256, e.base);
        }
    }
  }

  lemma ZeroBody(e: BaseEncoding, data: seq<byte>)
    requires e.Valid() && Log2Exact(e.base).None? && AllZero(data)
    ensures Body(e, data) == Zeros(|data| + 1)
  {
    assert data == Zeros(|data|);
    RebasedZeros(|data|, 256, e.base);
  }

  /** Losing the end of a body is always noticed. */
  lemma TruncatedBody(e: BaseEncoding, data: seq<byte>, m: nat)
    requires e.Valid() && data != [] && m < |Body(e, data)| && Recoverable(e, data)
    ensures DigitsDecoded(e, Body(e, data)[..m]) != data
  {
    LogIsExact(e.base);
    var body := Body(e, data);
    match Log2Exact(e.base) {
      case Some(k) =>
        SymbolCountBounds(|data|, k);
        Distribute(|body| - 1, 1, k);
        MulMonotone(m, |body| - 1, k);
        assert |BitDecoded(body[..m], k)| == m * k / 8 < |data|;
      case None =>
        var prefix := body[..m];
        if AllZero(prefix) {
          assert prefix == Zeros(m);
          RebasedZeros(m, e.base, 256);
        } else {
          RebasedInverse(prefix, e.base, 256);
        }
    }
  }

  // ------------------------------------------------------------------ padding

  lemma {:induction false} TrimAscii(e: BaseEncoding, body: seq<byte>, p: nat)
    requires e.Valid() && AllSymbols(e, body)
    requires e.padChar < 0x80 && (e.padChar == 0 ==> p == 0)
    ensures Trimmed(e, body + Padding(e, p)) == body
  {
    var s := body + Padding(e, p);
    if p > 0 {
      assert s[..|s| - 1] == body + Padding(e, p - 1);
      TrimAscii(e, body, p - 1);
    } else {
      assert s == body;
      if body != [] {
        assert body[|body| - 1] in e.decodeMap;
        assert body[|body| - 1..][0] == body[|body| - 1];
      }
    }
  }

  /** The bytes that trimming looks for are the UTF-8 form of the pad character's code point. */
  lemma RuneIsUtf8(b: byte)
    ensures b < 0x80 ==> RuneBytes(b) == [b]
    ensures b >= 0x80 ==>
      && |RuneBytes(b)| == 2 && RuneBytes(b)[0] / 32 == 6 && RuneBytes(b)[1] / 64 == 2
      && RuneBytes(b)[0] % 32 * 64 + RuneBytes(b)[1] % 64 == b
  {
  }

  lemma RunesAreUneven(b: byte)
    requires b >= 0x80
    ensures |RuneBytes(b)| == 2 && RuneBytes(b)[0] != RuneBytes(b)[1]
  {
  }

  /** A padding byte above 0x7F is looked for as a two-byte rune, which never matches the padding. */
  lemma TrimWide(e: BaseEncoding, body: seq<byte>, p: nat)
    requires e.padChar >= 0x80
    ensures Trimmed(e, body + Padding(e, p)) == body
            <==> p == 0 && !EndsWith(body, RuneBytes(e.padChar))
  {
    var s, cut := body + Padding(e, p), RuneBytes(e.padChar);
    RunesAreUneven(e.padChar);
    if p == 0 {
      assert s == body;
    } else if p >= 2 {
      assert s[|s| - 2..] == [e.padChar, e.padChar];
      assert !EndsWith(s, cut);
    }
  }

  /** The last two digits spell the two-byte UTF-8 form of a padding byte above 0xBF. */
  predicate EndsInPadRune(e: BaseEncoding, digits: seq<nat>) {
    && e.padChar >= 0xC0 && |digits| >= 2
    && 0xC3 in e.decodeMap && digits[|digits| - 2] == e.decodeMap[0xC3]
    && e.padChar - 0x40 in e.decodeMap && digits[|digits| - 1] == e.decodeMap[e.padChar - 0x40]
  }

  /** The form of a padding byte from 0x80 to 0xBF ends in the byte itself, which is not a symbol. */
  lemma PadRuneOfDigits(e: BaseEncoding, digits: seq<nat>)
    requires e.Valid() && e.padChar >= 0x80 && AllBelow(digits, e.base)
    ensures EndsWith(Symbols(e, digits), RuneBytes(e.padChar)) <==> EndsInPadRune(e, digits)
  {
    var s, cut, n := Symbols(e, digits), RuneBytes(e.padChar), |digits|;
    SymbolsInverse(e, digits);
    assert cut[1] == if e.padChar >= 0xC0 then e.padChar - 0x40 else e.padChar;
    assert e.padChar >= 0xC0 ==> cut[0] == 0xC3;
    if n >= 2 {
      assert s[n - 2..] == [s[n - 2], s[n - 1]];
      assert s[n - 2] in e.decodeMap && s[n - 1] in e.decodeMap;
      assert e.alphabet[digits[n - 2]] == s[n - 2] && e.alphabet[digits[n - 1]] == s[n - 1];
    }
  }

  /**
    The encodings whose decoder sees exactly the symbols the encoder wrote: with a padding
    byte above 0x7F no padding may be written, and with one above 0xBF the symbols
    may not end in its UTF-8 form.
   */
  ghost predicate PaddingIsRemovable(e: BaseEncoding, data: seq<byte>)
    requires e.Valid()
  {
    e.padChar < 0x80 || (PadCount(e, data) == 0 && !EndsInPadRune(e, Body(e, data)))
  }

  /** 5-bit and 6-bit symbols that do not fill a group of 8 or 4. */
  predicate GroupIsOpen(e: BaseEncoding, n: nat) {
    || (e.base == 32 && SymbolCount(n, 5) % 8 != 0)
    || (e.base == 64 && SymbolCount(n, 6) % 4 != 0)
  }

  lemma OpenGroupsArePadded(e: BaseEncoding, data: seq<byte>)
    requires e.padChar != 0
    ensures PadCount(e, data) > 0 <==> GroupIsOpen(e, |data|)
  {
    match Log2Exact(e.base) {
      case None =>
      case Some(k) => Complement(SymbolCount(|data|, k), 4); Complement(SymbolCount(|data|, k), 8);
    }
  }

  lemma Complement(n: nat, d: nat)
    requires d == 4 || d == 8
    ensures (d - n % d) % d > 0 <==> n % d != 0
  {
  }

  /** The pad byte is in the text exactly when the last group of symbols is open. */
  lemma PadByteInText(e: BaseEncoding, data: seq<byte>)
    requires e.Valid() && e.padChar != 0
    ensures e.padChar in Encoded(e, data) <==> data != [] && GroupIsOpen(e, |data|)
  {
    if data != [] {
      var body := Symbols(e, Body(e, data));
      EncodedShape(e, data);
      OpenGroupsArePadded(e, data);
      SymbolsInverse(e, Body(e, data));
      assert e.padChar !in body;
      PadAtEnd(e, body, PadCount(e, data));
    }
  }

  lemma PadAtEnd(e: BaseEncoding, body: seq<byte>, p: nat)
    requires e.padChar !in body
    ensures e.padChar in body + Padding(e, p) <==> p > 0
  {
    if p > 0 { assert (body + Padding(e, p))[|body|] == e.padChar; }
  }

  lemma EncodedTrims(e: BaseEncoding, data: seq<byte>)
    requires e.Valid() && data != []
    ensures Trimmed(e, Encoded(e, data)) == Symbols(e, Body(e, data)) <==> PaddingIsRemovable(e, data)
  {
    var body := Symbols(e, Body(e, data));
    EncodedShape(e, data);
    SymbolsInverse(e, Body(e, data));
    if e.padChar < 0x80 {
      TrimAscii(e, body, PadCount(e, data));
    } else {
      TrimWide(e, body, PadCount(e, data));
      PadRuneOfDigits(e, Body(e, data));
    }
  }

  // ------------------------------------------------------------ main theorems

  lemma DecodesIsFunctional(e: BaseEncoding, s: seq<byte>,
                            r: Result<seq<byte>, DecodeError>, r': Result<seq<byte>, DecodeError>)
    requires e.Valid() && Decodes(e, s, r) && Decodes(e, s, r')
    ensures r == r'
  {
    var data := Trimmed(e, s);
    if data != [] && !AllSymbols(e, data) {
      assert r.error.position == r'.error.position;
    }
  }

  /**
    Decoding undoes encoding for every alphabet, every padding byte and every input,
    with exactly two exceptions: an all-zero input whose alphabet size is not a power of
    two, and a padding byte above 0x7F when padding was written or, above 0xBF, when
    the last two digits spell the UTF-8 form of that byte.
   */
  lemma RoundTrip(e: BaseEncoding, data: seq<byte>)
    requires e.Valid()
    ensures Decodes(e, Encoded(e, data), Ok(data))
            <==> data == [] || (Recoverable(e, data) && PaddingIsRemovable(e, data))
  {
    if data != [] {
      EncodedTrims(e, data);
      EncodedShape(e, data);
      BodyDecodes(e, data);
      SymbolsInverse(e, Body(e, data));
      if !PaddingIsRemovable(e, data) {
        MistrimmedFails(e, data);
      }
    }
  }

  lemma MistrimmedFails(e: BaseEncoding, data: seq<byte>)
    requires e.Valid() && data != [] && !PaddingIsRemovable(e, data)
    ensures !Decodes(e, Encoded(e, data), Ok(data))
  {
    var digits := Body(e, data);
    var body, s := Symbols(e, digits), Encoded(e, data);
    var t := Trimmed(e, s);
    EncodedTrims(e, data);
    EncodedShape(e, data);
    SymbolsInverse(e, digits);
    if |t| > |body| {
      assert t[|body|] == e.padChar;
    } else if t != [] {
      assert t == body[..|t|] && |t| < |body|;
      assert DigitsOf(e, t) == digits[..|t|];
      if !Recoverable(e, data) {
        ZeroIsNotMistrimmed(e, data);
        assert false;
      }
      TruncatedBody(e, data, |t|);
    }
  }

  lemma ZeroIsNotMistrimmed(e: BaseEncoding, data: seq<byte>)
    requires e.Valid() && data != [] && !Recoverable(e, data)
    ensures PaddingIsRemovable(e, data)
  {
    LogIsExact(e.base);
    EncodedShape(e, data);
    ZeroBody(e, data);
    var s := Encoded(e, data);
    assert s == Symbols(e, Zeros(|data| + 1)) + Padding(e, 0);
    assert Body(e, data)[|data| - 1] == Body(e, data)[|data|] == 0;
  }

  lemma OneByteIsPadded(e: BaseEncoding, data: seq<byte>)
    requires e.base == 64 && e.padChar != 0 && |data| == 1
    ensures PadCount(e, data) > 0
  {
    assert SymbolCount(1, 6) == 2;
    OpenGroupsArePadded(e, data);
  }

  /**
    Two encodings that lose data. With 64 symbols and the pad byte 0x80, one byte is followed by
    two pad bytes that are never removed. With the two symbols 0xC3 and 0x80 and the pad byte
    0xC0, the text of the byte 1 ends in the UTF-8 form of U+00C0, which is removed.
   */
  lemma WidePaddingFails(e: BaseEncoding, b: byte)
    requires e.Valid() && e.base == 64 && e.padChar == 0x80
    ensures !Decodes(e, Encoded(e, [b]), Ok([b]))
  {
    OneByteIsPadded(e, [b]);
    RoundTrip(e, [b]);
  }

  lemma PadRuneFails(e: BaseEncoding)
    requires e == BaseEncoding([0xC3, 0x80], 2, map[0xC3 := 0, 0x80 := 1], 0xC0)
    ensures e.Valid()
    ensures !Decodes(e, Encoded(e, [1]), Ok([1]))
  {
    assert e.alphabet[0] == 0xC3 && e.alphabet[1] == 0x80;
    TheByteOneInBits(e);
    RoundTrip(e, [1]);
  }

  lemma TheByteOneInBits(e: BaseEncoding)
    requires e.Valid() && e.base == 2
    ensures |Body(e, [1])| == 8 && Body(e, [1])[6] == 0 && Body(e, [1])[7] == 1
  {
    ValueOfFew(1, 0, 0, 0, 256);
    assert SymbolCount(1, 1) == 8;
    EncodedDigits([1], 1, 0, 1);
    OneInEightBits();
  }

  lemma OneInEightBits()
    ensures ToDigits(1, 2, 8)[6] == 0 && ToDigits(1, 2, 8)[7] == 1
  {
    assert ToDigits(1, 2, 8) == ToDigits(0, 2, 7) + [1];
    assert ToDigits(0, 2, 7) == ToDigits(0, 2, 6) + [0];
  }

  /** The documented case: off the all-zero inputs, any alphabet, no padding or an ASCII one. */
  lemma RoundTripAscii(e: BaseEncoding, data: seq<byte>)
    requires e.Valid() && e.padChar < 0x80 && (IsPowerOfTwo(e.base) || !AllZero(data))
    ensures Decodes(e, Encoded(e, data), Ok(data))
  {
    RoundTrip(e, data);
  }

  /** In every other base, n zero bytes become n + 1 zero symbols, which decode to n + 2 bytes. */
  lemma ZeroInput(e: BaseEncoding, n: nat)
    requires e.Valid() && !IsPowerOfTwo(e.base) && n >= 1
    ensures Encoded(e, Zeros(n)) == seq(n + 1, i => e.alphabet[0])
    ensures Decodes(e, Encoded(e, Zeros(n)), Ok(Zeros(n + 2)))
  {
    var data: seq<byte> := Zeros(n);
    LogIsExact(e.base);
    ZeroIsNotMistrimmed(e, data);
    ZeroBody(e, data);
    EncodedShape(e, data);
    EncodedTrims(e, data);
    SymbolsInverse(e, Body(e, data));
    RebasedZeros(n + 1, e.base, 256);
  }

  /** No two inputs have the same text, not even all-zero ones. */
  lemma EncodedInjective(e: BaseEncoding, a: seq<byte>, b: seq<byte>)
    requires e.Valid() && Encoded(e, a) == Encoded(e, b)
    ensures a == b
  {
    if a != [] { EncodedShape(e, a); }
    if b != [] { EncodedShape(e, b); }
    if a != [] && b != [] {
      var x, y := Body(e, a), Body(e, b);
      SymbolsInverse(e, x);
      SymbolsInverse(e, y);
      SameBody(e, Symbols(e, x), PadCount(e, a), Symbols(e, y), PadCount(e, b));
      assert x == DigitsOf(e, Symbols(e, x)) == y;
      BodyInjective(e, a, b);
    }
  }

  lemma SameBody(e: BaseEncoding, x: seq<byte>, p: nat, y: seq<byte>, q: nat)
    requires e.Valid() && AllSymbols(e, x) && AllSymbols(e, y)
    requires e.padChar == 0 ==> p == 0 && q == 0
    requires x + Padding(e, p) == y + Padding(e, q)
    ensures x == y
  {
    BodyNotLonger(e, x, p, y, q);
    BodyNotLonger(e, y, q, x, p);
    assert (x + Padding(e, p))[..|x|] == x && (y + Padding(e, q))[..|y|] == y;
  }

  lemma BodyNotLonger(e: BaseEncoding, x: seq<byte>, p: nat, y: seq<byte>, q: nat)
    requires e.Valid() && AllSymbols(e, y) && (e.padChar == 0 ==> p == 0)
    requires x + Padding(e, p) == y + Padding(e, q)
    ensures |y| <= |x|
  {
    var s := x + Padding(e, p);
    assert forall i :: 0 <= i < |y| ==> s[i] == y[i];
    if |x| < |s| {
      assert s[|x|] == e.padChar;
    }
  }

  lemma BodyInjective(e: BaseEncoding, a: seq<byte>, b: seq<byte>)
    requires e.Valid() && a != [] && b != [] && Body(e, a) == Body(e, b)
    ensures a == b
  {
    BodyDecodes(e, a);
    BodyDecodes(e, b);
    LogIsExact(e.base);
    if !Recoverable(e, a) || !Recoverable(e, b) {
      if AllZero(a) { ZeroBody(e, a); } else { RebasedInverse(a, 256, e.base); }
      if AllZero(b) { ZeroBody(e, b); } else { RebasedInverse(b, 256, e.base); }
      assert a == Zeros(|a|) && b == Zeros(|b|);
    }
  }

  /** Text over an alphabet whose size is not a power of two is restored by re-encoding. */
  lemma ReencodeMathematical(e: BaseEncoding, s: seq<byte>, data: seq<byte>)
    requires e.Valid() && e.padChar < 0x80 && !IsPowerOfTwo(e.base)
    requires AllSymbols(e, s) && !AllZero(DigitsOf(e, s))
    requires Decodes(e, s, Ok(data))
    ensures Encoded(e, data) == s
  {
    LogIsExact(e.base);
    AsciiTextIsKept(e, s);
    DigitsInverse(e, s);
    RebasedInverse(DigitsOf(e, s), e.base, 256);
  }

  lemma AsciiTextIsKept(e: BaseEncoding, s: seq<byte>)
    requires e.Valid() && e.padChar < 0x80 && AllSymbols(e, s)
    ensures Trimmed(e, s) == s
  {
    TrimAscii(e, s, 0);
    assert s + Padding(e, 0) == s;
  }

  /** The whole bytes in n symbols of k bits. */
  function WholeBytes(n: nat, k: nat): nat {
    MulMonotone(0, n, k);
    n * k / 8
  }

  /** The text is a canonical body followed by exactly the padding that its data calls for. */
  ghost predicate CanonicalText(e: BaseEncoding, k: nat, s: seq<byte>)
    requires e.Valid() && BitsPerSymbol(e.base, k)
  {
    var body := Trimmed(e, s);
    && AllSymbols(e, body) && Canonical(DigitsOf(e, body), k)
    && s == body + Padding(e, PaddingNeeded(e, WholeBytes(|body|, k), k))
  }

  /** Without a pad character that is canonicity of the text itself. */
  lemma CanonicalUnpadded(e: BaseEncoding, k: nat, s: seq<byte>)
    requires e.Valid() && e.padChar == 0 && BitsPerSymbol(e.base, k)
    ensures CanonicalText(e, k, s) <==> AllSymbols(e, s) && Canonical(DigitsOf(e, s), k)
  {
    LogIsExact(e.base);
    assert s + Padding(e, 0) == s;
  }

  /** The body of a text, once decoded, is encoded to itself exactly when it is canonical. */
  lemma BodyReencoded(e: BaseEncoding, k: nat, body: seq<byte>, data: seq<byte>)
    requires e.Valid() && BitsPerSymbol(e.base, k) && AllSymbols(e, body)
    requires AllBelow(DigitsOf(e, body), Pow(2, k)) && data == BitDecoded(DigitsOf(e, body), k)
    ensures Symbols(e, BitEncoded(data, k)) == body <==> Canonical(DigitsOf(e, body), k)
  {
    LogIsExact(e.base);
    DigitsInverse(e, body);
    BitCanonical(DigitsOf(e, body), k);
    SymbolsInverse(e, BitEncoded(data, k));
  }

  lemma EmptyText(e: BaseEncoding, k: nat, s: seq<byte>)
    requires e.Valid() && BitsPerSymbol(e.base, k) && Trimmed(e, s) == []
    ensures CanonicalText(e, k, s) <==> s == []
  {
    NoPadding(e, k);
    if CanonicalText(e, k, s) {
      assert s == [] + Padding(e, PaddingNeeded(e, 0, k));
    } else {
      assert [] + Padding(e, 0) == [];
    }
  }

  /** Empty data has no symbols and needs no padding. */
  lemma NoPadding(e: BaseEncoding, k: nat)
    requires k > 0
    ensures SymbolCount(0, k) == 0 && PaddingNeeded(e, 0, k) == 0
  {
  }

  /** What encoding writes for the data of a decoded text. */
  lemma EncodedOfDecoded(e: BaseEncoding, k: nat, data: seq<byte>)
    requires e.Valid() && e.padChar < 0x80 && BitsPerSymbol(e.base, k)
    ensures Encoded(e, data) == Symbols(e, BitEncoded(data, k)) + Padding(e, PaddingNeeded(e, |data|, k))
    ensures Trimmed(e, Encoded(e, data)) == Symbols(e, BitEncoded(data, k))
  {
    LogIsExact(e.base);
    if data == [] {
      assert SymbolCount(0, k) == 0;
    } else {
      EncodedShape(e, data);
      EncodedTrims(e, data);
    }
  }

  /**
    Text over an alphabet of 2^k symbols, without or with an ASCII pad character, is
    restored by decoding and encoding exactly when it is canonical.
   */
  lemma ReencodeBitwise(e: BaseEncoding, k: nat, s: seq<byte>, data: seq<byte>)
    requires e.Valid() && e.padChar < 0x80 && BitsPerSymbol(e.base, k)
    requires AllSymbols(e, Trimmed(e, s)) && Decodes(e, s, Ok(data))
    ensures Encoded(e, data) == s <==> CanonicalText(e, k, s)
  {
    LogIsExact(e.base);
    var body := Trimmed(e, s);
    if body == [] {
      EmptyText(e, k, s);
    } else {
      DigitsInverse(e, body);
      BodyReencoded(e, k, body, data);
      EncodedOfDecoded(e, k, data);
    }
  }

  /** So the texts the encoder produces are exactly the canonical ones. */
  lemma BitwiseImage(e: BaseEncoding, k: nat, s: seq<byte>)
    requires e.Valid() && e.padChar < 0x80 && BitsPerSymbol(e.base, k)
    ensures (exists data: seq<byte> :: Encoded(e, data) == s) <==> CanonicalText(e, k, s)
  {
    LogIsExact(e.base);
    if CanonicalText(e, k, s) {
      var body := Trimmed(e, s);
      var data: seq<byte> := if body == [] then [] else BitDecoded(DigitsOf(e, body), k);
      ReencodeBitwise(e, k, s, data);
      assert Encoded(e, data) == s;
    }
    forall data: seq<byte> | Encoded(e, data) == s ensures CanonicalText(e, k, s) {
      RoundTripAscii(e, data);
      EncodedOfDecoded(e, k, data);
      SymbolsInverse(e, BitEncoded(data, k));
      ReencodeBitwise(e, k, s, data);
    }
  }

  // --------------------------------------------------- padding and bad symbols

  /** Padding completes the last group: 8 symbols of 5 bits, 4 symbols of 6 bits; no other text is padded. */
  lemma PaddingFillsGroup(e: BaseEncoding, k: nat, data: seq<byte>)
    requires e.Valid() && e.padChar != 0 && BitsPerSymbol(e.base, k)
    ensures var pads := |Encoded(e, data)| - SymbolCount(|data|, k);
      if k == 5 then 0 <= pads < 8 && |Encoded(e, data)| % 8 == 0
      else if k == 6 then 0 <= pads < 4 && |Encoded(e, data)| % 4 == 0
      else pads == 0
  {
    LogIsExact(e.base);
    if data == [] {
      assert SymbolCount(0, k) == 0;
    } else {
      EncodedShape(e, data);
      Completed(SymbolCount(|data|, k), 4);
      Completed(SymbolCount(|data|, k), 8);
    }
  }

  lemma Completed(n: nat, d: nat)
    requires d == 4 || d == 8
    ensures 0 <= (d - n % d) % d < d && (n + (d - n % d) % d) % d == 0
  {
  }

  /**
    On every base from 2 to 256 that is a power of two, the symbols before the padding are the
    digits of the data's number, shifted by fewer bits than a symbol has.
   */
  lemma SymbolsSpellData(e: BaseEncoding, k: nat, data: seq<byte>) returns (digits: seq<nat>, slack: nat)
    requires e.Valid() && BitsPerSymbol(e.base, k)
    ensures AllBelow(digits, e.base) && |digits| * k == 8 * |data| + slack && slack < k
    ensures Value(digits, e.base) == Value(data, 256) * Pow(2, slack)
    ensures Symbols(e, digits) <= Encoded(e, data)
    ensures forall i :: |digits| <= i < |Encoded(e, data)| ==> Encoded(e, data)[i] == e.padChar
  {
    LogIsExact(e.base);
    digits := BitEncoded(data, k);
    SymbolCountBounds(|data|, k);
    slack := |digits| * k - 8 * |data|;
    EncodedValue(data, k, slack);
    if data == [] {
      assert SymbolCount(0, k) == 0;
    } else {
      EncodedShape(e, data);
    }
  }

  /** Trimming an ASCII pad character removes the longest run of it at the end. */
  lemma {:induction false} TrimmedAscii(e: BaseEncoding, s: seq<byte>)
    requires 0 < e.padChar < 0x80
    ensures forall i :: |Trimmed(e, s)| <= i < |s| ==> s[i] == e.padChar
    ensures Trimmed(e, s) != [] ==> Trimmed(e, s)[|Trimmed(e, s)| - 1] != e.padChar
  {
    if s != [] {
      var last := |s| - 1;
      assert s[last..] == [s[last]];
      if s[last] == e.padChar {
        assert Trimmed(e, s) == Trimmed(e, s[..last]);
        TrimmedAscii(e, s[..last]);
      }
    }
  }

  /** Position i holds no symbol and is not part of the padding at the end. */
  ghost predicate Misplaced(e: BaseEncoding, s: seq<byte>, i: nat) {
    i < |s| && s[i] !in e.alphabet
    && (e.padChar == 0 || exists j :: i <= j < |s| && s[j] != e.padChar)
  }

  /**
    A text is refused if and only if some byte before the padding is not in the alphabet, and
    the error names the first one.
   */
  lemma RefusedIff(e: BaseEncoding, s: seq<byte>, r: Result<seq<byte>, DecodeError>)
    requires e.Valid() && e.padChar < 0x80 && Decodes(e, s, r)
    ensures r.Err? <==> exists i: nat :: Misplaced(e, s, i)
    ensures r.Err? ==> Misplaced(e, s, r.error.position) && r.error.symbol == s[r.error.position]
                       && forall i :: 0 <= i < r.error.position ==> s[i] in e.alphabet
  {
    var t := Trimmed(e, s);
    if e.padChar != 0 { TrimmedAscii(e, s); }
    forall i: nat ensures Misplaced(e, s, i) <==> i < |t| && t[i] !in e.decodeMap {
      if i < |t| && e.padChar != 0 {
        assert s[|t| - 1] != e.padChar;
      }
    }
    if r.Err? {
      assert Misplaced(e, s, r.error.position);
    } else if t != [] {
      assert AllSymbols(e, t);
    }
  }

  /** What a text decodes to, on every base: the number it spells, or its leading whole bytes. */
  lemma DecodedSpells(e: BaseEncoding, s: seq<byte>, data: seq<byte>)
    requires e.Valid() && Decodes(e, s, Ok(data)) && Trimmed(e, s) != []
    ensures AllSymbols(e, Trimmed(e, s))
    ensures var digits := DigitsOf(e, Trimmed(e, s));
      && (forall k: nat :: BitsPerSymbol(e.base, k) ==>
           var bits := |digits| * k;
           && bits >= 0 && |data| == bits / 8 && Pow(2, bits % 8) > 0
           && Value(data, 256) == Value(digits, e.base) / Pow(2, bits % 8))
      && (!IsPowerOfTwo(e.base) ==>
           Value(data, 256) == Value(digits, e.base) && LeadingZeros(digits) <= |data|
           && forall i :: 0 <= i < LeadingZeros(digits) ==> data[i] == 0)
  {
    var digits := DigitsOf(e, Trimmed(e, s));
    LogIsExact(e.base);
    DigitsInverse(e, Trimmed(e, s));
    match Log2Exact(e.base) {
      case Some(k) =>
        MulMonotone(0, |digits|, k);
        DecodedValue(digits, k);
      case None => RebasedValue(digits, e.base, 256);
    }
  }
}
