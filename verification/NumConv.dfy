/**
  64-bit integers as short texts (utils/encoding/numconv over the encoders of
  utils/encoding/baseconv/basenum.go).
 */
module NumConv {
  import opened Common
  import opened Digits
  import opened BaseConv
  import opened BaseConvLaws

  const INT64_LIMIT: int := 0x8000_0000_0000_0000
  const UINT64_RANGE: nat := 0x1_0000_0000_0000_0000

  type int64 = n: int | -INT64_LIMIT <= n < INT64_LIMIT

  datatype ParseError = Undecodable(error: DecodeError) | TooLong

  const DIGITS := "0123456789"
  const UPPER := "ABCDEFGHIJKLMNOPQRSTUVWXYZ"
  const LOWER := "abcdefghijklmnopqrstuvwxyz"

  // Despite its comment in the source, this alphabet contains L: it has 33 symbols.
  const ALPHABET_BASE32 := "0123456789ABCDEFGHJKLMNPQRSTVWXYZ"
  const ALPHABET_BASE62 := DIGITS + UPPER + LOWER

  const PAD: byte := '=' as int

  /** The bytes of an ASCII text. */
  function Bytes(text: string): (s: seq<byte>)
    ensures |s| == |text|
  {
    seq(|text|, i requires 0 <= i < |text| => if text[i] as int < 256 then text[i] as int else 0)
  }

  ghost predicate Increasing(text: string) {
    forall i :: 0 <= i < |text| - 1 ==> text[i] < text[i + 1]
  }

  lemma {:induction false} IncreasingBetween(text: string, i: nat, j: nat)
    requires Increasing(text) && i < j < |text|
    ensures text[i] < text[j]
    decreases j
  {
    if i < j - 1 { IncreasingBetween(text, i, j - 1); }
  }

  lemma IncreasingIsDistinct(text: string)
    requires Increasing(text) && text != [] && text[|text| - 1] as int < 256
    ensures Distinct(Bytes(text))
  {
    forall i, j | 0 <= i < j < |text| ensures Bytes(text)[i] != Bytes(text)[j] {
      IncreasingBetween(text, i, j);
      if j < |text| - 1 { IncreasingBetween(text, j, |text| - 1); }
    }
  }

  lemma Alphabet62Increases()
    ensures Increasing(ALPHABET_BASE62)
  {
    assert Increasing(DIGITS) && Increasing(UPPER) && Increasing(LOWER);
    assert DIGITS[9] < UPPER[0] && UPPER[25] < LOWER[0];
    IncreasingConcat(DIGITS, UPPER);
    IncreasingConcat(DIGITS + UPPER, LOWER);
  }

  lemma IncreasingConcat(a: string, b: string)
    requires Increasing(a) && Increasing(b) && a != [] && b != [] && a[|a| - 1] < b[0]
    ensures Increasing(a + b)
  {
  }

  /** The two encoders: neither alphabet has a power of two of symbols. */
  ghost predicate Std32(e: BaseEncoding) {
    e.Valid() && e.padChar == 0 && e.alphabet == Bytes(ALPHABET_BASE32)
  }

  ghost predicate Std62(e: BaseEncoding) {
    e.Valid() && e.padChar == 0 && e.alphabet == Bytes(ALPHABET_BASE62)
  }

  /** The padded variants of the same two alphabets. */
  ghost predicate StdRaw32(e: BaseEncoding) {
    e.Valid() && e.padChar == PAD && e.alphabet == Bytes(ALPHABET_BASE32)
  }

  ghost predicate StdRaw62(e: BaseEncoding) {
    e.Valid() && e.padChar == PAD && e.alphabet == Bytes(ALPHABET_BASE62)
  }

  method NewStd32Encoding() returns (e: BaseEncoding)
    ensures Std32(e)
  {
    assert Increasing(ALPHABET_BASE32);
    IncreasingIsDistinct(ALPHABET_BASE32);
    var r := NewBaseEncodingWithPadding(Bytes(ALPHABET_BASE32), 0);
    e := r.value;
  }

  method NewStd62Encoding() returns (e: BaseEncoding)
    ensures Std62(e)
  {
    Alphabet62Increases();
    IncreasingIsDistinct(ALPHABET_BASE62);
    var r := NewBaseEncodingWithPadding(Bytes(ALPHABET_BASE62), 0);
    e := r.value;
  }

  method NewStdRaw32Encoding() returns (e: BaseEncoding)
    ensures StdRaw32(e)
  {
    assert Increasing(ALPHABET_BASE32);
    IncreasingIsDistinct(ALPHABET_BASE32);
    NoPadSymbol(ALPHABET_BASE32);
    var r := NewBaseEncodingWithPadding(Bytes(ALPHABET_BASE32), PAD);
    e := r.value;
  }

  method NewStdRaw62Encoding() returns (e: BaseEncoding)
    ensures StdRaw62(e)
  {
    Alphabet62Increases();
    IncreasingIsDistinct(ALPHABET_BASE62);
    NoPadSymbol(ALPHABET_BASE62);
    var r := NewBaseEncodingWithPadding(Bytes(ALPHABET_BASE62), PAD);
    e := r.value;
  }

  lemma NoPadSymbol(text: string)
    requires '=' !in text
    ensures PAD !in Bytes(text)
  {
    forall i | 0 <= i < |text| ensures Bytes(text)[i] != PAD {
      assert text[i] in text;
    }
  }

  // ------------------------------------------------------------ specification

  /** Two's complement. */
  function Unsigned(n: int64): (u: nat)
    ensures u < UINT64_RANGE
  {
    if n < 0 then n + UINT64_RANGE else n
  }

  function Signed(u: nat): (n: int64)
    requires u < UINT64_RANGE
    ensures Unsigned(n) == u
  {
    if u < INT64_LIMIT then u else u - UINT64_RANGE
  }

  ghost function Int64Bytes(n: int64): (b: seq<nat>)
    ensures |b| == 8 && AllBelow(b, 256)
  {
    ToDigits(Unsigned(n), 256, 8)
  }

  lemma EightBytes()
    ensures Pow(256, 8) == UINT64_RANGE
  {
  }

  lemma ShortValue(b: seq<byte>)
    requires |b| <= 8
    ensures Value(b, 256) < UINT64_RANGE
  {
    ValueBound(b, 256);
    PowMonotone(256, |b|, 8);
    EightBytes();
  }

  ghost function Number(b: seq<byte>): Result<int64, ParseError> {
    if |b| > 8 then Err(TooLong) else (ShortValue(b); Ok(Signed(Value(b, 256))))
  }

  /** What Int64ToBase32 and Int64ToBase62 return. */
  ghost function Int64Text(e: BaseEncoding, n: int64): seq<byte>
    requires e.Valid()
  {
    Encoded(e, Int64Bytes(n))
  }

  /** What Base32ToInt64 and Base62ToInt64 return. */
  ghost predicate Parses(e: BaseEncoding, s: seq<byte>, r: Result<int64, ParseError>)
    requires e.Valid()
  {
    exists d :: Decodes(e, s, d) && r == if d.Err? then Err(Undecodable(d.error)) else Number(d.value)
  }

  // --------------------------------------------------------------- operations

  method Int64ToBytes(n: int64) returns (bytes: array<byte>)
    ensures fresh(bytes) && bytes[..] == Int64Bytes(n)
  {
    bytes := new byte[8](_ => 0);
    bytes[0] := n / 0x100_0000_0000_0000 % 256;
    bytes[1] := n / 0x1_0000_0000_0000 % 256;
    bytes[2] := n / 0x100_0000_0000 % 256;
    bytes[3] := n / 0x1_0000_0000 % 256;
    bytes[4] := n / 0x100_0000 % 256;
    bytes[5] := n / 0x1_0000 % 256;
    bytes[6] := n / 0x100 % 256;
    bytes[7] := n % 256;
    BytesOfNumber(n, bytes[..]);
  }

  lemma BytesOfNumber(n: int64, b: seq<byte>)
    requires |b| == 8
    requires b[0] == n / 0x100_0000_0000_0000 % 256 && b[1] == n / 0x1_0000_0000_0000 % 256
    requires b[2] == n / 0x100_0000_0000 % 256 && b[3] == n / 0x1_0000_0000 % 256
    requires b[4] == n / 0x100_0000 % 256 && b[5] == n / 0x1_0000 % 256
    requires b[6] == n / 0x100 % 256 && b[7] == n % 256
    ensures b == Int64Bytes(n)
  {
    ValueOfEight(b);
    ShiftedBytes(n);
    BytesWithValue(n, b);
  }

  lemma BytesWithValue(n: int64, b: seq<byte>)
    requires |b| == 8 && Value(b, 256) == Unsigned(n)
    ensures b == Int64Bytes(n)
  {
    ToDigitsUnique(b, 256);
  }

  lemma ValueOfEight(b: seq<nat>)
    requires |b| == 8
    ensures Value(b, 256) == b[0] * 0x100_0000_0000_0000 + b[1] * 0x1_0000_0000_0000
      + b[2] * 0x100_0000_0000 + b[3] * 0x1_0000_0000 + b[4] * 0x100_0000 + b[5] * 0x1_0000
      + b[6] * 0x100 + b[7]
  {
    ValueOfFew(b[0], b[1], b[2], b[3], 256);
    ValueOfFew(b[4], b[5], b[6], b[7], 256);
    ValueConcat([b[0], b[1], b[2], b[3]], [b[4], b[5], b[6], b[7]], 256);
    assert [b[0], b[1], b[2], b[3]] + [b[4], b[5], b[6], b[7]] == b;
    assert Pow(256, 4) == 0x1_0000_0000;
  }

  lemma ShiftedBytes(n: int64)
    ensures Unsigned(n) == n / 0x100_0000_0000_0000 % 256 * 0x100_0000_0000_0000
      + n / 0x1_0000_0000_0000 % 256 * 0x1_0000_0000_0000 + n / 0x100_0000_0000 % 256 * 0x100_0000_0000
      + n / 0x1_0000_0000 % 256 * 0x1_0000_0000 + n / 0x100_0000 % 256 * 0x100_0000
      + n / 0x1_0000 % 256 * 0x1_0000 + n / 0x100 % 256 * 0x100 + n % 256
  {
    assert n / 0x100_0000_0000_0000 == n / 0x1_0000_0000_0000 / 256;
    assert n / 0x1_0000_0000_0000 == n / 0x100_0000_0000 / 256;
    assert n / 0x100_0000_0000 == n / 0x1_0000_0000 / 256;
    assert n / 0x1_0000_0000 == n / 0x100_0000 / 256;
    assert n / 0x100_0000 == n / 0x1_0000 / 256;
    assert n / 0x1_0000 == n / 0x100 / 256;
  }

  method BytesToInt64(bytes: seq<byte>) returns (r: Result<int64, ParseError>)
    ensures r == Number(bytes)
  {
    if |bytes| > 8 {
      return Err(TooLong);
    }
    var b := Zeros(8 - |bytes|) + bytes;
    ValueDropZeros(b, 8 - |bytes|, 256);
    assert b[8 - |bytes|..] == bytes;
    ValueOfEight(b);
    ShortValue(b);
    var u := b[0] * 0x100_0000_0000_0000 + b[1] * 0x1_0000_0000_0000 + b[2] * 0x100_0000_0000
             + b[3] * 0x1_0000_0000 + b[4] * 0x100_0000 + b[5] * 0x1_0000 + b[6] * 0x100 + b[7];
    return Ok(Signed(u));
  }

  /** Int64ToBase32 and Int64ToBase62 are this with their encoder. */
  method Int64ToText(e: BaseEncoding, n: int64) returns (s: seq<byte>)
    requires e.Valid()
    ensures s == Int64Text(e, n)
  {
    var bytes := Int64ToBytes(n);
    s := EncodeToString(e, bytes[..]);
  }

  /** Base32ToInt64 and Base62ToInt64 are this with their encoder. */
  method TextToInt64(e: BaseEncoding, s: seq<byte>) returns (r: Result<int64, ParseError>)
    requires e.Valid()
    ensures Parses(e, s, r)
  {
    var d := DecodeString(e, s);
    if d.Err? {
      return Err(Undecodable(d.error));
    }
    r := BytesToInt64(d.value);
  }

  // ------------------------------------------------------------------ promises

  lemma NumberOfBytes(n: int64)
    ensures Number(Int64Bytes(n)) == Ok(n)
    ensures AllZero(Int64Bytes(n)) <==> n == 0
  {
    var b := Int64Bytes(n);
    EightBytes();
    ValueToDigits(Unsigned(n), 256, 8);
    if AllZero(b) {
      assert b == Zeros(8);
      ValueZeros(8, 256);
    }
    if n == 0 {
      ValueZeros(8, 256);
      ValueInjective(b, Zeros(8), 256);
    }
  }

  /** None of the four standard encoders has a power of two of symbols. */
  lemma StandardEncoders(e: BaseEncoding)
    requires Std32(e) || Std62(e) || StdRaw32(e) || StdRaw62(e)
    ensures !IsPowerOfTwo(e.base)
    ensures Std32(e) || StdRaw32(e) ==> e.base == 33
    ensures Std62(e) || StdRaw62(e) ==> e.base == 62
  {
    LogIsExact(e.base);
  }

  /**
    So the padded ones never pad: their texts hold no pad byte and are those of the
    encoders without padding.
   */
  lemma RawNeverPads(raw: BaseEncoding, std: BaseEncoding, data: seq<byte>)
    requires (StdRaw32(raw) && Std32(std)) || (StdRaw62(raw) && Std62(std))
    ensures PAD !in Encoded(raw, data)
    ensures Encoded(raw, data) == Encoded(std, data)
  {
    StandardEncoders(raw);
    StandardEncoders(std);
    PadByteInText(raw, data);
    if data != [] {
      assert Symbols(raw, Body(raw, data)) == Symbols(std, Body(std, data));
    }
  }

  lemma Int64Decodes(e: BaseEncoding, n: int64)
    requires e.Valid() && e.padChar == 0 && !IsPowerOfTwo(e.base)
    ensures n == 0 ==> Decodes(e, Int64Text(e, n), Ok(Zeros(10)))
    ensures n != 0 ==> Decodes(e, Int64Text(e, n), Ok(Int64Bytes(n)))
  {
    NumberOfBytes(n);
    if n == 0 {
      assert Int64Bytes(n) == Zeros(8);
      ZeroInput(e, 8);
    } else {
      RoundTripAscii(e, Int64Bytes(n));
    }
  }

  /** Every number but zero is read back; the text of zero is too long to be read. */
  lemma Int64RoundTrip(e: BaseEncoding, n: int64, r: Result<int64, ParseError>)
    requires Std32(e) || Std62(e)
    ensures Parses(e, Int64Text(e, n), r) <==> r == if n == 0 then Err(TooLong) else Ok(n)
  {
    StandardEncoders(e);
    Int64Decodes(e, n);
    NumberOfBytes(n);
    if n == 0 {
      OnlyParse(e, Int64Text(e, n), Zeros(10), r);
    } else {
      OnlyParse(e, Int64Text(e, n), Int64Bytes(n), r);
    }
  }

  /** A text that decodes is parsed in one way only. */
  lemma OnlyParse(e: BaseEncoding, s: seq<byte>, data: seq<byte>, r: Result<int64, ParseError>)
    requires e.Valid() && Decodes(e, s, Ok(data))
    ensures Parses(e, s, r) <==> r == Number(data)
  {
    forall d | Decodes(e, s, d) ensures d == Ok(data) {
      DecodesIsFunctional(e, s, Ok(data), d);
    }
  }

  /** The bytes of a number spell its two's complement: itself, or itself and 2^64 when it is negative. */
  lemma BytesSpell(n: int64)
    ensures Value(Int64Bytes(n), 256) == if n >= 0 then n else n + 0x1_0000_0000_0000_0000
  {
    EightBytes();
    ValueToDigits(Unsigned(n), 256, 8);
  }

  /** Eight bytes or fewer are read, zero-extended, as the number whose bytes spell the same; more are refused. */
  lemma BytesAreRead(b: seq<byte>)
    ensures |b| > 8 ==> Number(b) == Err(TooLong)
    ensures |b| <= 8 ==> Number(b).Ok? && Value(Int64Bytes(Number(b).value), 256) == Value(b, 256)
  {
    if |b| <= 8 {
      ShortValue(b);
      BytesSpell(Number(b).value);
    }
  }

  /** A text is refused for the reason for which it does not decode, or because it decodes to too many bytes. */
  lemma ParseErrors(e: BaseEncoding, s: seq<byte>, r: Result<int64, ParseError>, d: Result<seq<byte>, DecodeError>)
    requires e.Valid() && Parses(e, s, r) && Decodes(e, s, d)
    ensures d.Err? ==> r == Err(Undecodable(d.error))
    ensures d.Ok? && |d.value| > 8 ==> r == Err(TooLong)
    ensures d.Ok? && |d.value| <= 8 ==>
      r.Ok? && Value(Int64Bytes(r.value), 256) == Value(d.value, 256)
  {
    forall d' | Decodes(e, s, d') ensures d' == d {
      DecodesIsFunctional(e, s, d, d');
    }
    if d.Ok? { BytesAreRead(d.value); }
  }

  /** No two numbers share a text, zero included. */
  lemma Int64TextInjective(e: BaseEncoding, m: int64, n: int64)
    requires Std32(e) || Std62(e)
    requires Int64Text(e, m) == Int64Text(e, n)
    ensures m == n
  {
    EncodedInjective(e, Int64Bytes(m), Int64Bytes(n));
    NumberOfBytes(m);
    NumberOfBytes(n);
  }

  lemma {:induction false} MinDigitsLength(v: nat, base: nat, n: nat)
    requires base >= 2
    ensures v < Pow(base, n) && n >= 1 ==> |MinDigits(v, base)| <= n
    ensures v >= Pow(base, n) ==> |MinDigits(v, base)| > n
    decreases n
  {
    PowPositive(base, n);
    if n >= 1 && v >= base {
      QuotientShrinks(v, base);
      MinDigitsLength(v / base, base, n - 1);
      if v < Pow(base, n) {
        QuotientBelow(v, base, Pow(base, n - 1));
      } else {
        QuotientAtLeast(v, base, Pow(base, n - 1));
      }
      if n == 1 { QuotientAtLeast(v, base, 1); }
    } else if n >= 1 {
      PowPositive(base, n - 1);
      MulMonotone(1, Pow(base, n - 1), base);
    }
  }

  lemma QuotientAtLeast(v: nat, d: nat, p: nat)
    requires d > 0 && v >= d * p
    ensures v / d >= p
  {
    Euclid(v, d);
    if v / d + 1 <= p {
      MulMonotone(v / d + 1, p, d);
      Distribute(v / d, 1, d);
      assert false;
    }
  }

  lemma PowGrows(small: nat, big: nat, n: nat)
    requires small <= big
    ensures Pow(small, n) <= Pow(big, n)
  {
    if n > 0 {
      PowGrows(small, big, n - 1);
      MulMonotone(small, big, Pow(small, n - 1));
      MulMonotone(Pow(small, n - 1), Pow(big, n - 1), big);
    }
  }

  /** A change from bytes to a smaller base never shortens, and lengthens by at most `extra`. */
  lemma RebasedLength(data: seq<byte>, base: nat, extra: nat)
    requires 2 <= base <= 256 && extra >= 1
    requires forall m :: 0 <= m <= |data| ==> Pow(256, m) <= Pow(base, m + extra)
    ensures |data| <= |Rebased(data, 256, base)| <= |data| + extra
  {
    var j := LeadingZeros(data);
    var m := |data| - j;
    var v := Value(data, 256);
    ValueDropZeros(data, j, 256);
    ValueBound(data[j..], 256);
    MinDigitsLength(v, base, m + extra);
    if m > 0 {
      ValueAtLeast(data[j..], 256);
      PowGrows(base, 256, m - 1);
      MinDigitsLength(v, base, m - 1);
    }
  }

  lemma {:induction false} RatioBound(base: nat, m: nat, extra: nat)
    requires 0 < base <= 256 && m <= 8 && Pow(256, 8) <= Pow(base, 8 + extra)
    ensures Pow(256, m) <= Pow(base, m + extra)
    decreases 8 - m
  {
    if m < 8 {
      RatioBound(base, m + 1, extra);
      MulMonotone(base, 256, Pow(base, m + extra));
    }
  }

  lemma Int64TextLength(e: BaseEncoding, n: int64)
    requires Std32(e) || Std62(e)
    ensures Std62(e) ==> 8 <= |Int64Text(e, n)| <= 11
    ensures Std32(e) ==> 8 <= |Int64Text(e, n)| <= 13
  {
    StandardEncoders(e);
    var extra := if e.base == 62 then 3 else 5;
    forall m | 0 <= m <= 8 ensures Pow(256, m) <= Pow(e.base, m + extra) {
      if e.base == 62 { SpareDigits62(m); } else { SpareDigits33(m); }
    }
    RebasedLength(Int64Bytes(n), e.base, extra);
  }

  lemma SpareDigits62(m: nat)
    requires m <= 8
    ensures Pow(256, m) <= Pow(62, m + 3)
  {
    assert Pow(256, 8) <= Pow(62, 11);
    RatioBound(62, m, 3);
  }

  lemma SpareDigits33(m: nat)
    requires m <= 8
    ensures Pow(256, m) <= Pow(33, m + 5)
  {
    assert Pow(256, 8) <= Pow(33, 13);
    RatioBound(33, m, 5);
  }
}
