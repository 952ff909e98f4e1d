/**
  The base64 encoding of section 4 of RFC 4648, defined over 24-bit groups, and
  the proof that the streaming encoder computes it.
 */
module Rfc4648 {
  import opened Common
  import opened Digits
  import opened BaseConv
  import opened BaseConvLaws

  /** The 6-bit fields of a 24-bit group, of 16 bits and of 8 bits; missing low bits are zero. */
  function Quad(a: nat, b: nat, c: nat): seq<nat> {
    var n := a * 65536 + b * 256 + c;
    [n / 262144, n / 4096 % 64, n / 64 % 64, n % 64]
  }

  function Triple(a: nat, b: nat): seq<nat> {
    var n := (a * 256 + b) * 4;
    [n / 4096, n / 64 % 64, n % 64]
  }

  function Double(a: nat): seq<nat> {
    var n := a * 16;
    [n / 64, n % 64]
  }

  lemma FieldsAreDigits(a: byte, b: byte, c: byte)
    ensures AllBelow(Quad(a, b, c), 64) && AllBelow(Triple(a, b), 64) && AllBelow(Double(a), 64)
  {
  }

  /**
    Three bytes are a 24-bit group of four symbols. A final quantum of 8 or 16 bits is
    completed with zero bits to two or three symbols and with padding to four.
   */
  ghost function GroupText(e: BaseEncoding, data: seq<byte>): seq<byte>
    requires |e.alphabet| == 64
  {
    if |data| == 0 then []
    else if |data| == 1 then
      FieldsAreDigits(data[0], 0, 0);
      Symbols(e, Double(data[0])) + [e.padChar, e.padChar]
    else if |data| == 2 then
      FieldsAreDigits(data[0], data[1], 0);
      Symbols(e, Triple(data[0], data[1])) + [e.padChar]
    else
      FieldsAreDigits(data[0], data[1], data[2]);
      Symbols(e, Quad(data[0], data[1], data[2])) + GroupText(e, data[3..])
  }

  /** Whole groups of symbols can be encoded on their own. */
  lemma BitEncodedConcat(a: seq<byte>, b: seq<byte>, k: nat, n: nat)
    requires 1 <= k <= 8 && 8 * |a| == n * k
    ensures BitEncoded(a + b, k) == BitEncoded(a, k) + BitEncoded(b, k)
  {
    CountsAdd(|a|, |b|, k, n);
    var x, y, whole := BitEncoded(a, k), BitEncoded(b, k), BitEncoded(a + b, k);
    ConcatValue(a, b, k, n);
    PowPositive(2, k);
    ValueInjective(whole, x + y, Pow(2, k));
  }

  lemma CountsAdd(a: nat, b: nat, k: nat, n: nat)
    requires 1 <= k <= 8 && 8 * a == n * k
    ensures SymbolCount(a, k) == n && SymbolCount(a + b, k) == n + SymbolCount(b, k)
    ensures SymbolCount(a + b, k) * k - 8 * (a + b) == SymbolCount(b, k) * k - 8 * b >= 0
  {
    SymbolCountBounds(a, k);
    SymbolCountBounds(b, k);
    SymbolCountBounds(a + b, k);
    Distribute(n, SymbolCount(b, k), k);
    SameMultiple(k, SymbolCount(a, k), n, 8 * a);
    SameMultiple(k, SymbolCount(a + b, k), n + SymbolCount(b, k), 8 * (a + b));
  }

  lemma ConcatValue(a: seq<byte>, b: seq<byte>, k: nat, n: nat)
    requires 1 <= k <= 8 && 8 * |a| == n * k
    ensures Value(BitEncoded(a + b, k), Pow(2, k))
            == Value(BitEncoded(a, k) + BitEncoded(b, k), Pow(2, k))
  {
    CountsAdd(|a|, |b|, k, n);
    var slack := SymbolCount(|b|, k) * k - 8 * |b|;
    EncodedValue(a + b, k, slack);
    ConcatShifted(a, b, slack);
    PartsShifted(a, b, k, n, slack);
  }

  /** The value of two encodings side by side, when the first fills its symbols. */
  lemma PartsShifted(a: seq<byte>, b: seq<byte>, k: nat, n: nat, slack: nat)
    requires 1 <= k <= 8 && 8 * |a| == n * k && SymbolCount(|b|, k) * k == 8 * |b| + slack
    ensures Value(BitEncoded(a, k) + BitEncoded(b, k), Pow(2, k))
            == Value(a, 256) * (Pow(256, |b|) * Pow(2, slack)) + Value(b, 256) * Pow(2, slack)
  {
    ValueConcat(BitEncoded(a, k), BitEncoded(b, k), Pow(2, k));
    WholeSymbols(a, k, n);
    EncodedValue(b, k, slack);
    SymbolsWeight(|b|, k, SymbolCount(|b|, k), slack);
    SameProduct(Value(BitEncoded(a, k), Pow(2, k)), Value(a, 256),
                Pow(Pow(2, k), SymbolCount(|b|, k)), Pow(256, |b|) * Pow(2, slack));
  }

  lemma SameProduct(x: nat, x': nat, y: nat, y': nat)
    requires x == x' && y == y'
    ensures x * y == x' * y'
  {
  }

  /** Data that fills its symbols is not shifted. */
  lemma WholeSymbols(a: seq<byte>, k: nat, n: nat)
    requires 1 <= k <= 8 && 8 * |a| == n * k
    ensures Value(BitEncoded(a, k), Pow(2, k)) == Value(a, 256)
  {
    CountsAdd(|a|, 0, k, n);
    EncodedValue(a, k, 0);
    TimesOne(Value(a, 256));
  }

  lemma TimesOne(n: nat)
    ensures n * Pow(2, 0) == n
  {
  }

  lemma SymbolsWeight(bytes: nat, k: nat, m: nat, slack: nat)
    requires m * k == 8 * bytes + slack
    ensures Pow(Pow(2, k), m) == Pow(256, bytes) * Pow(2, slack)
  {
    BytesArePowers(bytes);
    PowPow(2, k, m);
    assert k * m == m * k;
    PowAdd(2, 8 * bytes, slack);
  }

  lemma ConcatShifted(a: seq<byte>, b: seq<byte>, slack: nat)
    ensures Value(a + b, 256) * Pow(2, slack)
            == Value(a, 256) * (Pow(256, |b|) * Pow(2, slack)) + Value(b, 256) * Pow(2, slack)
  {
    ValueConcat(a, b, 256);
    ShiftSum(Value(a, 256), Pow(256, |b|), Value(b, 256), Pow(2, slack));
  }

  lemma ShiftSum(a: nat, p: nat, b: nat, q: nat)
    ensures (a * p + b) * q == a * (p * q) + b * q
  {
    Distribute(a * p, b, q);
    Associate(a, p, q);
  }

  lemma FieldsAddUp(a: byte, b: byte, c: byte)
    ensures Value(Quad(a, b, c), 64) == (a * 256 + b) * 256 + c
    ensures Value(Triple(a, b), 64) == (a * 256 + b) * 4
    ensures Value(Double(a), 64) == a * 16
  {
    FieldsOf(a * 65536 + b * 256 + c);
    FieldsOf((a * 256 + b) * 4);
    FieldsOf(a * 16);
  }

  lemma FieldsOf(n: nat)
    ensures Value([n / 262144, n / 4096 % 64, n / 64 % 64, n % 64], 64) == n
    ensures Value([n / 4096, n / 64 % 64, n % 64], 64) == n
    ensures Value([n / 64, n % 64], 64) == n
  {
    var x, y := n / 64, n / 4096;
    assert y == x / 64 && n / 262144 == y / 64;
    ValueOfFew(y / 64, y % 64, x % 64, n % 64, 64);
    ValueOfFew(y, x % 64, n % 64, 0, 64);
    ValueOfFew(x, n % 64, 0, 0, 64);
  }

  lemma QuantumDigits(data: seq<byte>, fields: seq<nat>, slack: nat)
    requires AllBelow(fields, 64) && |fields| * 6 == 8 * |data| + slack && slack < 6
    requires Value(fields, 64) == Value(data, 256) * Pow(2, slack)
    ensures BitEncoded(data, 6) == fields
  {
    assert Pow(2, 6) == 64;
    StreamedWhole(data, 6, fields);
  }

  lemma ThreeByteDigits(data: seq<byte>)
    requires |data| == 3
    ensures BitEncoded(data, 6) == Quad(data[0], data[1], data[2])
  {
    FieldsAreDigits(data[0], data[1], data[2]);
    FieldsAddUp(data[0], data[1], data[2]);
    ValueOfFew(data[0], data[1], data[2], 0, 256);
    assert data == [data[0], data[1], data[2]];
    assert Pow(2, 0) == 1;
    QuantumDigits(data, Quad(data[0], data[1], data[2]), 0);
  }

  lemma TwoByteDigits(data: seq<byte>)
    requires |data| == 2
    ensures BitEncoded(data, 6) == Triple(data[0], data[1])
  {
    FieldsAreDigits(data[0], data[1], 0);
    FieldsAddUp(data[0], data[1], 0);
    ValueOfFew(data[0], data[1], 0, 0, 256);
    assert data == [data[0], data[1]];
    assert Pow(2, 2) == 4;
    QuantumDigits(data, Triple(data[0], data[1]), 2);
  }

  lemma OneByteDigits(data: seq<byte>)
    requires |data| == 1
    ensures BitEncoded(data, 6) == Double(data[0])
  {
    FieldsAreDigits(data[0], 0, 0);
    FieldsAddUp(data[0], 0, 0);
    ValueOfFew(data[0], 0, 0, 0, 256);
    assert data == [data[0]];
    assert Pow(2, 4) == 16;
    QuantumDigits(data, Double(data[0]), 4);
  }

  lemma PaddingPerQuantum(e: BaseEncoding, n: nat)
    requires e.padChar != 0
    ensures PaddingNeeded(e, n + 3, 6) == PaddingNeeded(e, n, 6)
  {
    var x := SymbolCount(n, 6);
    assert SymbolCount(n + 3, 6) == x + 4;
    assert (x + 4) % 4 == x % 4;
  }

  /** With 64 symbols and a padding byte, EncodeToString is the base64 of the standard. */
  lemma {:induction false} EncodesBase64(e: BaseEncoding, data: seq<byte>)
    requires e.Valid() && e.base == 64 && e.padChar != 0
    ensures Encoded(e, data) == GroupText(e, data)
    decreases |data|
  {
    if |data| >= 3 {
      EncodesBase64(e, data[3..]);
      FirstGroup(e, data);
    } else if data != [] {
      LastQuantum(e, data);
    }
  }

  lemma LastQuantum(e: BaseEncoding, data: seq<byte>)
    requires e.Valid() && e.base == 64 && e.padChar != 0 && 1 <= |data| <= 2
    ensures Encoded(e, data) == GroupText(e, data)
  {
    assert SymbolCount(1, 6) == 2 && SymbolCount(2, 6) == 3;
    assert Log2Exact(64) == Some(6);
    var digits := BitEncoded(data, 6);
    if |data| == 1 {
      OneByteDigits(data);
      assert Padding(e, 2) == [e.padChar, e.padChar];
      assert Encoded(e, data) == Symbols(e, digits) + Padding(e, 2);
    } else {
      TwoByteDigits(data);
      assert Padding(e, 1) == [e.padChar];
      assert Encoded(e, data) == Symbols(e, digits) + Padding(e, 1);
    }
  }

  lemma FirstGroup(e: BaseEncoding, data: seq<byte>)
    requires e.Valid() && e.base == 64 && e.padChar != 0 && |data| >= 3
    ensures AllBelow(Quad(data[0], data[1], data[2]), 64)
    ensures Encoded(e, data) == Symbols(e, Quad(data[0], data[1], data[2])) + Encoded(e, data[3..])
  {
    var group, rest := data[..3], data[3..];
    FieldsAreDigits(data[0], data[1], data[2]);
    ThreeByteDigits(group);
    assert data == group + rest;
    BitEncodedConcat(group, rest, 6, 4);
    PaddingPerQuantum(e, |rest|);
    SymbolsConcat(e, BitEncoded(group, 6), BitEncoded(rest, 6));
    RestOfText(e, rest);
    assert Encoded(e, data) == Symbols(e, BitEncoded(data, 6)) + Padding(e, PaddingNeeded(e, |data|, 6));
  }

  lemma RestOfText(e: BaseEncoding, rest: seq<byte>)
    requires e.Valid() && e.base == 64
    ensures Encoded(e, rest) == Symbols(e, BitEncoded(rest, 6)) + Padding(e, PaddingNeeded(e, |rest|, 6))
  {
    if rest == [] {
      assert SymbolCount(0, 6) == 0;
    }
  }

  lemma SymbolsConcat(e: BaseEncoding, a: seq<nat>, b: seq<nat>)
    requires AllBelow(a, |e.alphabet|) && AllBelow(b, |e.alphabet|)
    ensures AllBelow(a + b, |e.alphabet|)
    ensures Symbols(e, a + b) == Symbols(e, a) + Symbols(e, b)
  {
  }
}
