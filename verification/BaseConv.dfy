/**
  The arbitrary-alphabet byte encoder of utils/encoding/baseconv: a streaming
  bit-buffer codec for alphabets of 2^k symbols and a repeated-division codec
  for every other alphabet, behind one pair of operations.

  Each method is proved equal to a specification function that mentions only
  the number the input denotes (`Encoded`, `Decodes`); `BaseConvLaws` proves
  what those functions promise.

  Go's shifts and masks on `uint32` are written as arithmetic: `x << n` is
  `x * 2^n` modulo 2^32, `x >> n` is a division by 2^n and a mask of n ones is a
  remainder by 2^n. An `|` always fills bits that the shift before it cleared,
  so it is an addition.
 */
module BaseConv {
  import opened Common
  import opened Digits

  const UINT32_RANGE: nat := 0x1_0000_0000

  datatype BaseEncoding = BaseEncoding(
    alphabet: seq<byte>, base: nat, decodeMap: map<byte, nat>, padChar: byte)
  {
    ghost predicate Valid() {
      && AcceptableAlphabet(alphabet, padChar)
      && base == |alphabet|
      && (forall i :: 0 <= i < |alphabet| ==> alphabet[i] in decodeMap && decodeMap[alphabet[i]] == i)
      && (forall c :: c in decodeMap ==> c in alphabet)
    }
  }

  datatype ConfigError = AlphabetTooShort | DuplicateCharacters | PaddingConflict

  datatype DecodeError = InvalidCharacter(symbol: byte, position: nat)

  ghost predicate AcceptableAlphabet(alphabet: seq<byte>, padChar: byte) {
    |alphabet| >= 2 && Distinct(alphabet) && (padChar != 0 ==> padChar !in alphabet)
  }

  method NewBaseEncodingWithPadding(alphabet: seq<byte>, padChar: byte)
    returns (r: Result<BaseEncoding, ConfigError>)
    ensures r.Ok? <==> AcceptableAlphabet(alphabet, padChar)
    ensures r.Ok? ==> r.value.Valid() && r.value.alphabet == alphabet && r.value.padChar == padChar
    ensures r == Err(AlphabetTooShort) <==> |alphabet| < 2
    ensures r == Err(DuplicateCharacters) <==> |alphabet| >= 2 && !Distinct(alphabet)
  {
    if |alphabet| < 2 {
      return Err(AlphabetTooShort);
    }
    var charMap: set<byte> := {};
    for i := 0 to |alphabet|
      invariant Distinct(alphabet[..i])
      invariant forall c :: c in charMap <==> c in alphabet[..i]
    {
      var symbol := alphabet[i];
      if symbol in charMap {
        assert exists j :: 0 <= j < i && alphabet[j] == symbol by {
          var j :| 0 <= j < i && alphabet[..i][j] == symbol;
          assert alphabet[j] == symbol;
        }
        return Err(DuplicateCharacters);
      }
      charMap := charMap + {symbol};
      assert alphabet[..i + 1] == alphabet[..i] + [symbol];
    }
    assert alphabet[..|alphabet|] == alphabet;
    if padChar != 0 && padChar in charMap {
      return Err(PaddingConflict);
    }
    var decodeMap: map<byte, nat> := map[];
    for i := 0 to |alphabet|
      invariant forall j :: 0 <= j < i ==> alphabet[j] in decodeMap && decodeMap[alphabet[j]] == j
      invariant forall c :: c in decodeMap ==> c in alphabet
    {
      decodeMap := decodeMap[alphabet[i] := i];
    }
    return Ok(BaseEncoding(alphabet, |alphabet|, decodeMap, padChar));
  }

  // ------------------------------------------------------------ specification

  /** The exact base-two logarithm of an alphabet size, when there is one. */
  function Log2Exact(base: nat): (k: Option<nat>)
    ensures k.Some? ==> 1 <= k.value <= 8 && Pow(2, k.value) == base
    ensures k.None? ==> forall j :: 1 <= j <= 8 ==> Pow(2, j) != base
  {
    SmallPowersOfTwo();
    if base == 2 then Some(1) else if base == 4 then Some(2)
    else if base == 8 then Some(3) else if base == 16 then Some(4)
    else if base == 32 then Some(5) else if base == 64 then Some(6)
    else if base == 128 then Some(7) else if base == 256 then Some(8)
    else None
  }

  function Symbols(e: BaseEncoding, digits: seq<nat>): (s: seq<byte>)
    requires AllBelow(digits, |e.alphabet|)
    ensures |s| == |digits|
  {
    seq(|digits|, i requires 0 <= i < |digits| => e.alphabet[digits[i]])
  }

  ghost predicate AllSymbols(e: BaseEncoding, s: seq<byte>) {
    forall i :: 0 <= i < |s| ==> s[i] in e.decodeMap
  }

  ghost function DigitsOf(e: BaseEncoding, s: seq<byte>): (digits: seq<nat>)
    requires AllSymbols(e, s)
    ensures |digits| == |s|
  {
    seq(|s|, i requires 0 <= i < |s| => e.decodeMap[s[i]])
  }

  lemma DigitsBelow(e: BaseEncoding, s: seq<byte>)
    requires e.Valid() && AllSymbols(e, s)
    ensures AllBelow(DigitsOf(e, s), e.base)
  {
    forall i | 0 <= i < |s| ensures e.decodeMap[s[i]] < e.base {
      var j :| 0 <= j < |e.alphabet| && e.alphabet[j] == s[i];
    }
  }

  /** How many symbols of `k` bits hold `n` bytes. */
  function SymbolCount(n: nat, k: nat): nat
    requires k > 0
  {
    (8 * n + k - 1) / k
  }

  lemma SymbolCountBounds(n: nat, k: nat)
    requires k > 0
    ensures 8 * n <= SymbolCount(n, k) * k < 8 * n + k
  {
    Euclid(8 * n + k - 1, k);
  }

  /** The bits of `data` followed by zero bits, as digits of `k` bits. */
  ghost function BitEncoded(data: seq<byte>, k: nat): (digits: seq<nat>)
    requires k > 0
    ensures |digits| == SymbolCount(|data|, k) && AllBelow(digits, Pow(2, k))
  {
    PowPositive(2, k);
    SymbolCountBounds(|data|, k);
    var n := SymbolCount(|data|, k);
    ToDigits(Value(data, 256) * Pow(2, n * k - 8 * |data|), Pow(2, k), n)
  }

  /** The whole bytes among the bits of `digits`; the bits left over are dropped. */
  ghost function BitDecoded(digits: seq<nat>, k: nat): (data: seq<nat>)
    ensures |data| == |digits| * k / 8 && AllBelow(data, 256)
  {
    PowPositive(2, |digits| * k % 8);
    ToDigits(Value(digits, Pow(2, k)) / Pow(2, |digits| * k % 8), 256, |digits| * k / 8)
  }

  /** Change of base that keeps one zero for each leading zero. */
  ghost function Rebased(ds: seq<nat>, from: nat, to: nat): (r: seq<nat>)
    requires to >= 2
    ensures AllBelow(r, to)
  {
    Zeros(LeadingZeros(ds)) + MinDigits(Value(ds, from), to)
  }

  function PaddingNeeded(e: BaseEncoding, n: nat, k: nat): nat
    requires k > 0
  {
    if e.padChar == 0 then 0
    else if k == 6 then (4 - SymbolCount(n, 6) % 4) % 4
    else if k == 5 then (8 - SymbolCount(n, 5) % 8) % 8
    else 0
  }

  ghost function Padding(e: BaseEncoding, count: nat): (s: seq<byte>)
    ensures |s| == count && forall i :: 0 <= i < count ==> s[i] == e.padChar
  {
    seq(count, i => e.padChar)
  }

  /** What EncodeToString returns. */
  ghost function Encoded(e: BaseEncoding, data: seq<byte>): seq<byte>
    requires e.Valid()
  {
    if data == [] then []
    else match Log2Exact(e.base)
      case None => Symbols(e, Rebased(data, 256, e.base))
      case Some(k) => Symbols(e, BitEncoded(data, k)) + Padding(e, PaddingNeeded(e, |data|, k))
  }

  /** The UTF-8 bytes of the rune with the given code point. */
  function RuneBytes(b: byte): seq<byte> {
    if b < 0x80 then [b] else [0xC0 + b / 64, 0x80 + b % 64]
  }

  predicate EndsWith(s: seq<byte>, cut: seq<byte>) {
    |cut| <= |s| && s[|s| - |cut|..] == cut
  }

  /** `s` without its trailing copies of `cut`. */
  ghost function TrimmedRight(s: seq<byte>, cut: seq<byte>): (t: seq<byte>)
    requires cut != []
    ensures |t| <= |s| && t == s[..|t|]
  {
    if EndsWith(s, cut) then TrimmedRight(s[..|s| - |cut|], cut) else s
  }

  ghost function Trimmed(e: BaseEncoding, s: seq<byte>): (t: seq<byte>)
    ensures |t| <= |s| && t == s[..|t|]
  {
    if e.padChar == 0 then s else TrimmedRight(s, RuneBytes(e.padChar))
  }

  /** The first position that does not hold an alphabet symbol. */
  ghost predicate FirstInvalid(e: BaseEncoding, s: seq<byte>, i: nat) {
    i < |s| && s[i] !in e.decodeMap && forall j :: 0 <= j < i ==> s[j] in e.decodeMap
  }

  ghost function DigitsDecoded(e: BaseEncoding, digits: seq<nat>): (data: seq<nat>)
    requires e.base >= 2
    ensures AllBelow(data, 256)
  {
    match Log2Exact(e.base)
    case None => Rebased(digits, e.base, 256)
    case Some(k) => BitDecoded(digits, k)
  }

  /** What DecodeString returns. */
  ghost predicate Decodes(e: BaseEncoding, encoded: seq<byte>, r: Result<seq<byte>, DecodeError>)
    requires e.Valid()
  {
    var data := Trimmed(e, encoded);
    if data == [] then r == Ok([])
    else if AllSymbols(e, data) then r == Ok(DigitsDecoded(e, DigitsOf(e, data)))
    else r.Err? && FirstInvalid(e, data, r.error.position) && r.error.symbol == data[r.error.position]
  }

  // ------------------------------------------------------------ bit streaming

  /**
    What the 32-bit buffer means: the emitted digits followed by the low `bits`
    bits of the buffer spell `n`. Nothing is said about its higher bits.
   */
  ghost predicate Streamed(n: nat, out: seq<nat>, k: nat, bits: nat, buffer: nat) {
    PowPositive(2, bits);
    n == Value(out, Pow(2, k)) * Pow(2, bits) + buffer % Pow(2, bits)
  }

  lemma Absorb(n: nat, out: seq<nat>, k: nat, bits: nat, buffer: nat, w: nat, b: nat)
    requires Streamed(n, out, k, bits, buffer)
    requires b < Pow(2, w) && bits + w <= 32
    ensures Streamed(n * Pow(2, w) + b, out, k, bits + w, (buffer * Pow(2, w) + b) % UINT32_RANGE)
  {
    var p, q := Pow(2, bits), Pow(2, w);
    PowPositive(2, bits);
    PowPositive(2, w);
    PowAdd(2, w, bits);
    ThirtyTwoBits(w + bits);
    WrapKeepsLow(buffer, p, q, b, Pow(2, 32 - w - bits));
    NestedRemainder(Value(out, Pow(2, k)), buffer % p, p, b, q);
  }

  lemma ThirtyTwoBits(n: nat)
    requires n <= 32
    ensures Pow(2, 32 - n) > 0 && Pow(2, n) * Pow(2, 32 - n) == UINT32_RANGE
  {
    PowPositive(2, 32 - n);
    PowAdd(2, n, 32 - n);
    WordRange();
  }

  lemma WordRange()
    ensures Pow(2, 32) == UINT32_RANGE
  {
    SmallPowersOfTwo();
    PowAdd(2, 8, 8);
    PowAdd(2, 16, 16);
  }

  /** Wrapping at 2^32 leaves the bits that still have to be emitted alone. */
  lemma WrapKeepsLow(buffer: nat, p: nat, q: nat, b: nat, k: nat)
    requires p > 0 && q > 0 && k > 0 && b < q && q * p * k == UINT32_RANGE
    ensures q * p > 0
    ensures (buffer * q + b) % UINT32_RANGE % (q * p) == buffer % p * q + b
  {
    var h, r := buffer / p, buffer % p;
    Euclid(buffer, p);
    NestedRemainder(h, r, p, b, q);
    var hi := LowPartOfTruncation(buffer * q + b, h, q * p, r * q + b, k);
    DivModUnique((buffer * q + b) % UINT32_RANGE, q * p, hi, r * q + b);
  }

  lemma Emit(n: nat, out: seq<nat>, k: nat, bits: nat, buffer: nat) returns (digit: nat)
    requires k <= bits && Streamed(n, out, k, bits, buffer)
    ensures Pow(2, bits - k) > 0 && Pow(2, k) > 0
    ensures digit == buffer / Pow(2, bits - k) % Pow(2, k) < Pow(2, k)
    ensures Streamed(n, out + [digit], k, bits - k, buffer)
  {
    var p, q := Pow(2, bits - k), Pow(2, k);
    PowPositive(2, bits - k);
    PowPositive(2, k);
    PowAdd(2, k, bits - k);
    digit := buffer / p % q;
    SplitLow(buffer, p, q);
    SplitTop(Value(out, q), q, digit, p, buffer % p);
    ValueSnoc(out, digit, q);
  }

  /** The low part of size `q * p` is a field of size `q` above a part of size `p`. */
  lemma SplitLow(n: nat, p: nat, q: nat)
    requires p > 0 && q > 0
    ensures q * p > 0 && n / p % q < q
    ensures n % (q * p) == n / p % q * p + n % p
  {
    var top, low := n / p, n % p;
    Euclid(n, p);
    var h, mid := top / q, top % q;
    Euclid(top, q);
    NestedRemainder(h, mid, q, low, p);
    assert q * p == p * q;
    DivModUnique(n, q * p, h, mid * p + low);
  }

  lemma SplitTop(h: nat, q: nat, mid: nat, p: nat, lo: nat)
    ensures h * (q * p) + (mid * p + lo) == (h * q + mid) * p + lo
  {
    Distribute(h * q, mid, p);
    Associate(h, q, p);
  }

  lemma Flush(n: nat, out: seq<nat>, k: nat, bits: nat, buffer: nat) returns (digit: nat)
    requires 0 < bits < k <= 8 && Streamed(n, out, k, bits, buffer)
    ensures Pow(2, k) > 0
    ensures digit == buffer * Pow(2, k - bits) % UINT32_RANGE % Pow(2, k) < Pow(2, k)
    ensures Value(out + [digit], Pow(2, k)) == n * Pow(2, k - bits)
  {
    PowPositive(2, k - bits);
    Absorb(n, out, k, bits, buffer, k - bits, 0);
    digit := Emit(n * Pow(2, k - bits), out, k, k, buffer * Pow(2, k - bits) % UINT32_RANGE);
  }

  method EncodeBitwise(e: BaseEncoding, data: seq<byte>, bitsPerChar: nat) returns (s: seq<byte>)
    requires e.Valid() && Log2Exact(e.base) == Some(bitsPerChar)
    ensures data == [] ==> s == []
    ensures data != [] ==> s == Encoded(e, data)
  {
    if |data| == 0 {
      return [];
    }
    var k := bitsPerChar;
    s := [];
    var buffer: nat, bitsInBuffer: nat := 0, 0;
    ghost var out: seq<nat> := [];
    for i := 0 to |data|
      invariant bitsInBuffer < k && |out| * k + bitsInBuffer == 8 * i
      invariant AllBelow(out, e.base) && s == Symbols(e, out)
      invariant Streamed(Value(data[..i], 256), out, k, bitsInBuffer, buffer)
    {
      AbsorbByte(data, i, out, k, bitsInBuffer, buffer);
      buffer := (buffer * 256 + data[i]) % UINT32_RANGE;
      bitsInBuffer := bitsInBuffer + 8;
      ghost var more;
      s, bitsInBuffer, more := WriteSymbols(e, k, buffer, bitsInBuffer, s, Value(data[..i + 1], 256), out);
      out := out + more;
      Distribute(|out| - |more|, |more|, k);
    }
    assert data[..|data|] == data;
    s := WriteLastSymbol(e, k, buffer, bitsInBuffer, s, data, out);
    var padding := PaddingFor(e, |data|, k);
    s := s + padding;
  }

  /** The bits left over by the loop become one more symbol, filled up with zero bits. */
  method WriteLastSymbol(e: BaseEncoding, k: nat, buffer: nat, bitsInBuffer: nat, s0: seq<byte>,
                         ghost data: seq<byte>, ghost out: seq<nat>)
    returns (s: seq<byte>)
    requires e.Valid() && Log2Exact(e.base) == Some(k)
    requires bitsInBuffer < k && |out| * k + bitsInBuffer == 8 * |data|
    requires AllBelow(out, e.base) && s0 == Symbols(e, out)
    requires Streamed(Value(data, 256), out, k, bitsInBuffer, buffer)
    ensures s == Symbols(e, BitEncoded(data, k))
  {
    s := s0;
    if bitsInBuffer == 0 {
      StreamedExactly(Value(data, 256), out, k, buffer);
      StreamedWhole(data, k, out);
    } else {
      ghost var digit := Flush(Value(data, 256), out, k, bitsInBuffer, buffer);
      var shifted := buffer * Pow(2, k - bitsInBuffer) % UINT32_RANGE;
      var index := shifted % Pow(2, k);
      s := s + [e.alphabet[index]];
      Distribute(|out|, 1, k);
      StreamedWhole(data, k, out + [index]);
    }
  }

  lemma StreamedExactly(n: nat, out: seq<nat>, k: nat, buffer: nat)
    requires Streamed(n, out, k, 0, buffer)
    ensures Value(out, Pow(2, k)) == n
  {
    assert Pow(2, 0) == 1;
  }

  lemma AbsorbByte(data: seq<byte>, i: nat, out: seq<nat>, k: nat, bits: nat, buffer: nat)
    requires i < |data| && bits <= 24 && Streamed(Value(data[..i], 256), out, k, bits, buffer)
    ensures Streamed(Value(data[..i + 1], 256), out, k, bits + 8, (buffer * 256 + data[i]) % UINT32_RANGE)
  {
    assert Pow(2, 8) == 256;
    Absorb(Value(data[..i], 256), out, k, bits, buffer, 8, data[i]);
    assert data[..i + 1] == data[..i] + [data[i]];
    ValueSnoc(data[..i], data[i], 256);
  }

  /** The inner loop of EncodeBitwise: writes symbols while the buffer holds one. */
  method WriteSymbols(e: BaseEncoding, k: nat, buffer: nat, bits0: nat, s0: seq<byte>,
                      ghost n: nat, ghost out: seq<nat>)
    returns (s: seq<byte>, bitsInBuffer: nat, ghost more: seq<nat>)
    requires e.Valid() && Log2Exact(e.base) == Some(k)
    requires AllBelow(out, e.base) && s0 == Symbols(e, out)
    requires Streamed(n, out, k, bits0, buffer)
    ensures AllBelow(out + more, e.base) && s == Symbols(e, out + more)
    ensures bitsInBuffer < k && |more| * k + bitsInBuffer == bits0
    ensures Streamed(n, out + more, k, bitsInBuffer, buffer)
  {
    s, bitsInBuffer, more := s0, bits0, [];
    assert out + more == out;
    while bitsInBuffer >= k
      invariant AllBelow(out + more, e.base) && s == Symbols(e, out + more)
      invariant |more| * k + bitsInBuffer == bits0
      invariant Streamed(n, out + more, k, bitsInBuffer, buffer)
      decreases bitsInBuffer
    {
      ghost var digit := Emit(n, out + more, k, bitsInBuffer, buffer);
      bitsInBuffer := bitsInBuffer - k;
      var index := buffer / Pow(2, bitsInBuffer) % Pow(2, k);
      s := s + [e.alphabet[index]];
      assert out + (more + [index]) == out + more + [index];
      more := more + [index];
      Distribute(|more| - 1, 1, k);
    }
  }

  method PaddingFor(e: BaseEncoding, inputBytes: nat, bitsPerChar: nat) returns (s: seq<byte>)
    requires bitsPerChar > 0
    ensures s == Padding(e, PaddingNeeded(e, inputBytes, bitsPerChar))
  {
    s := [];
    if e.padChar != 0 {
      var outputChars := (inputBytes * 8 + bitsPerChar - 1) / bitsPerChar;
      var paddingNeeded := 0;
      match bitsPerChar {
        case 6 => paddingNeeded := (4 - outputChars % 4) % 4;
        case 5 => paddingNeeded := (8 - outputChars % 8) % 8;
        case _ =>
      }
      for i := 0 to paddingNeeded
        invariant s == Padding(e, i)
      {
        s := s + [e.padChar];
      }
    }
  }

  /** Enough digits with the right value are the digits of the specification. */
  lemma StreamedWhole(data: seq<byte>, k: nat, out: seq<nat>)
    requires k > 0 && AllBelow(out, Pow(2, k))
    requires 8 * |data| <= |out| * k < 8 * |data| + k
    requires Value(out, Pow(2, k)) == Value(data, 256) * Pow(2, |out| * k - 8 * |data|)
    ensures out == BitEncoded(data, k)
  {
    PowPositive(2, k);
    SymbolCountBounds(|data|, k);
    SameMultiple(k, |out|, SymbolCount(|data|, k), 8 * |data|);
    ToDigitsUnique(out, Pow(2, k));
  }

  lemma SameMultiple(k: nat, a: nat, b: nat, n: nat)
    requires n <= a * k < n + k && n <= b * k < n + k
    ensures a == b
  {
    Distribute(a, 1, k);
    Distribute(b, 1, k);
    if a < b { MulMonotone(a + 1, b, k); }
    if b < a { MulMonotone(b + 1, a, k); }
  }

  // ----------------------------------------------------------- long division

  /** One pass of long division by `to`: quotient without leading zeros, remainder. */
  method DivideDigits(temp: seq<nat>, from: nat, to: nat) returns (quotient: seq<nat>, carry: nat)
    requires from >= 2 && to >= 2 && AllBelow(temp, from)
    ensures Value(temp, from) == Value(quotient, from) * to + carry && carry < to
    ensures AllBelow(quotient, from) && (quotient != [] ==> quotient[0] != 0)
  {
    quotient, carry := [], 0;
    for i := 0 to |temp|
      invariant Value(temp[..i], from) == Value(quotient, from) * to + carry && carry < to
      invariant AllBelow(quotient, from) && (quotient != [] ==> quotient[0] != 0)
    {
      DividePrefix(temp, i, quotient, carry, from, to);
      carry := carry * from + temp[i];
      if carry >= to || |quotient| > 0 {
        quotient := quotient + [carry / to];
      }
      carry := carry % to;
    }
    assert temp[..|temp|] == temp;
  }

  /** One more digit of the dividend gives one more of the quotient and a new remainder. */
  lemma DividePrefix(temp: seq<nat>, i: nat, quotient: seq<nat>, carry: nat, from: nat, to: nat)
    requires from >= 2 && to >= 2 && AllBelow(temp, from) && i < |temp| && carry < to
    requires Value(temp[..i], from) == Value(quotient, from) * to + carry
    ensures var c := carry * from + temp[i];
      && 0 <= c / to < from && 0 <= c % to < to
      && Value(temp[..i + 1], from) == Value(quotient + [c / to], from) * to + c % to
      && (c < to && quotient == [] ==> Value(temp[..i + 1], from) == Value(quotient, from) * to + c % to)
      && (c >= to ==> c / to != 0)
  {
    assert temp[..i + 1][..i] == temp[..i];
    DivideStep(Value(quotient, from), to, carry, from, temp[i]);
    ValueSnoc(quotient, (carry * from + temp[i]) / to, from);
  }

  lemma DivideStep(q: nat, to: nat, r: nat, from: nat, digit: nat)
    requires r < to && digit < from
    ensures var c := r * from + digit;
      && c / to < from && c % to < to
      && (c / to == 0 <==> c < to)
      && (q * to + r) * from + digit == (q * from + c / to) * to + c % to
  {
    var c := r * from + digit;
    MulMonotone(r + 1, to, from);
    Distribute(r, 1, from);
    QuotientBelow(c, to, from);
    Euclid(c, to);
    if c < to { DivModUnique(c, to, 0, c); }
    Distribute(q * to, r, from);
    Distribute(q * from, c / to, to);
    Associate(q, to, from);
    Associate(q, from, to);
    assert to * from == from * to;
  }

  /** The state of repeated division: `temp` is still to be converted, `digits` is done. */
  ghost predicate Converting(ds: seq<nat>, temp: seq<nat>, digits: seq<nat>, from: nat, to: nat) {
    && AllBelow(temp, from) && AllBelow(digits, to)
    && Value(ds, from) == Value(temp, from) * Pow(to, |digits|) + Value(digits, to)
    && (digits == [] ==> temp == ds) && (digits != [] ==> ds != [])
    && (digits != [] && temp != [] ==> temp[0] != 0)
    && (digits != [] && temp == [] ==> digits[0] != 0 || |digits| == 1)
  }

  /** Repeated division: the digits of the number `ds`, without leading zeros. */
  method ChangeBase(ds: seq<nat>, from: nat, to: nat) returns (digits: seq<nat>)
    requires from >= 2 && to >= 2 && AllBelow(ds, from)
    ensures digits == if ds == [] then [] else MinDigits(Value(ds, from), to)
  {
    var temp := ds;
    digits := [];
    while |temp| > 0
      invariant Converting(ds, temp, digits, from, to)
      decreases Value(temp, from), |temp|
    {
      var quotient, carry := DivideDigits(temp, from, to);
      ConvertStep(ds, temp, digits, quotient, carry, from, to);
      digits := [carry] + digits;
      temp := quotient;
    }
    ConvertDone(ds, digits, from, to);
  }

  lemma ConvertStep(ds: seq<nat>, temp: seq<nat>, digits: seq<nat>, quotient: seq<nat>, carry: nat,
                    from: nat, to: nat)
    requires from >= 2 && to >= 2 && temp != [] && Converting(ds, temp, digits, from, to)
    requires Value(temp, from) == Value(quotient, from) * to + carry && carry < to
    requires AllBelow(quotient, from) && (quotient != [] ==> quotient[0] != 0)
    ensures Converting(ds, quotient, [carry] + digits, from, to)
    ensures Value(quotient, from) <= Value(temp, from)
    ensures Value(quotient, from) == Value(temp, from) ==> quotient == []
  {
    PrependDigit(Value(quotient, from), carry, digits, to);
    QuotientDrops(temp, quotient, carry, from, to);
  }

  lemma ConvertDone(ds: seq<nat>, digits: seq<nat>, from: nat, to: nat)
    requires to >= 2 && Converting(ds, [], digits, from, to)
    ensures digits == if ds == [] then [] else MinDigits(Value(ds, from), to)
  {
    assert Value([], from) == 0;
    if digits != [] {
      MinDigitsUnique(digits, to);
    }
  }

  lemma QuotientDrops(temp: seq<nat>, quotient: seq<nat>, carry: nat, from: nat, to: nat)
    requires from >= 2 && to >= 2 && temp != []
    requires Value(temp, from) == Value(quotient, from) * to + carry
    requires quotient != [] ==> quotient[0] != 0
    ensures temp[0] != 0 && quotient == [] ==> carry != 0
    ensures quotient != [] ==> Value(quotient, from) < Value(temp, from)
    ensures Value(quotient, from) <= Value(temp, from)
  {
    if temp[0] != 0 { ValueAtLeast(temp, from); }
    if quotient != [] { ValueAtLeast(quotient, from); }
    Halves(Value(quotient, from), to, carry);
  }

  lemma Halves(q: nat, to: nat, r: nat)
    requires to >= 2
    ensures q <= q * to + r && (q > 0 ==> q < q * to + r) && (q == 0 ==> q * to + r == r)
  {
    MulMonotone(2, to, q);
  }

  lemma PrependDigit(q: nat, d: nat, digits: seq<nat>, to: nat)
    ensures (q * to + d) * Pow(to, |digits|) + Value(digits, to)
            == q * Pow(to, |digits| + 1) + Value([d] + digits, to)
  {
    ValueConcat([d], digits, to);
    assert Value([d], to) == d;
    SplitTop(q, to, d, Pow(to, |digits|), Value(digits, to));
  }

  /**
    The source finishes by writing one zero symbol if nothing has been written;
    `ChangeBase` always leaves a digit, so that line is never reached.
   */
  method EncodeMathematical(e: BaseEncoding, data: seq<byte>) returns (s: seq<byte>)
    requires e.Valid()
    ensures data == [] ==> s == []
    ensures data != [] ==> s == Symbols(e, Rebased(data, 256, e.base))
  {
    if |data| == 0 {
      return [];
    }
    var digits := ChangeBase(data, 256, e.base);
    var leadingZeros := CountLeading(data, 0);
    LeadingCount(data, leadingZeros);
    s := [];
    for i := 0 to leadingZeros
      invariant s == Symbols(e, Zeros(i))
    {
      s := s + [e.alphabet[0]];
    }
    assert Zeros(leadingZeros) + digits[..0] == Zeros(leadingZeros);
    for i := 0 to |digits|
      invariant s == Symbols(e, Zeros(leadingZeros) + digits[..i])
    {
      SymbolsSnoc(e, Zeros(leadingZeros) + digits[..i], digits[i]);
      assert Zeros(leadingZeros) + digits[..i + 1] == Zeros(leadingZeros) + digits[..i] + [digits[i]];
      s := s + [e.alphabet[digits[i]]];
    }
    assert digits[..|digits|] == digits;
  }

  lemma SymbolsSnoc(e: BaseEncoding, digits: seq<nat>, d: nat)
    requires AllBelow(digits, |e.alphabet|) && d < |e.alphabet|
    ensures AllBelow(digits + [d], |e.alphabet|)
    ensures Symbols(e, digits + [d]) == Symbols(e, digits) + [e.alphabet[d]]
  {
  }

  /** How many elements before the first one that is not `x`. */
  method CountLeading<T(==)>(s: seq<T>, x: T) returns (n: nat)
    ensures n <= |s| && (forall i :: 0 <= i < n ==> s[i] == x) && (n < |s| ==> s[n] != x)
  {
    n := 0;
    while n < |s| && s[n] == x
      invariant n <= |s| && forall i :: 0 <= i < n ==> s[i] == x
    {
      n := n + 1;
    }
  }

  lemma {:induction false} LeadingCount(ds: seq<nat>, n: nat)
    requires n <= |ds| && (forall i :: 0 <= i < n ==> ds[i] == 0) && (n < |ds| ==> ds[n] != 0)
    ensures LeadingZeros(ds) == n
  {
    if n > 0 {
      assert ds[0] == 0;
      LeadingCount(ds[1..], n - 1);
    }
  }

  method EncodeToString(e: BaseEncoding, data: seq<byte>) returns (s: seq<byte>)
    requires e.Valid()
    ensures s == Encoded(e, data)
  {
    if |data| == 0 {
      return [];
    }
    match Log2Exact(e.base) {
      case None => s := EncodeMathematical(e, data);
      case Some(k) => s := EncodeBitwise(e, data, k);
    }
  }

  // ---------------------------------------------------------------- decoding

  method DecodeBitwise(e: BaseEncoding, data: seq<byte>, bitsPerChar: nat) returns (r: seq<byte>)
    requires AllSymbols(e, data) && 1 <= bitsPerChar <= 8
    requires AllBelow(DigitsOf(e, data), Pow(2, bitsPerChar))
    ensures r == BitDecoded(DigitsOf(e, data), bitsPerChar)
  {
    var k := bitsPerChar;
    ghost var digits := DigitsOf(e, data);
    r := [];
    var buffer: nat, bitsInBuffer: nat := 0, 0;
    for i := 0 to |data|
      invariant bitsInBuffer < 8 && 8 * |r| + bitsInBuffer == i * k
      invariant Streamed(Value(digits[..i], Pow(2, k)), r, 8, bitsInBuffer, buffer)
    {
      var value := e.decodeMap[data[i]];
      AbsorbDigit(digits, i, r, k, bitsInBuffer, buffer);
      buffer := (buffer * Pow(2, k) + value) % UINT32_RANGE;
      bitsInBuffer := bitsInBuffer + k;
      Distribute(i, 1, k);
      r, bitsInBuffer := ReadBytes(buffer, bitsInBuffer, r, Value(digits[..i + 1], Pow(2, k)));
    }
    assert digits[..|data|] == digits;
    StreamedBytes(digits, k, r, bitsInBuffer, buffer);
  }

  lemma AbsorbDigit(digits: seq<nat>, i: nat, r: seq<nat>, k: nat, bits: nat, buffer: nat)
    requires i < |digits| && digits[i] < Pow(2, k) && bits + k <= 32
    requires Streamed(Value(digits[..i], Pow(2, k)), r, 8, bits, buffer)
    ensures Streamed(Value(digits[..i + 1], Pow(2, k)), r, 8, bits + k,
                     (buffer * Pow(2, k) + digits[i]) % UINT32_RANGE)
  {
    Absorb(Value(digits[..i], Pow(2, k)), r, 8, bits, buffer, k, digits[i]);
    assert digits[..i + 1] == digits[..i] + [digits[i]];
    ValueSnoc(digits[..i], digits[i], Pow(2, k));
  }

  /** The inner loop of DecodeBitwise: takes bytes while the buffer holds one. */
  method ReadBytes(buffer: nat, bits0: nat, r0: seq<byte>, ghost n: nat)
    returns (r: seq<byte>, bitsInBuffer: nat)
    requires Streamed(n, r0, 8, bits0, buffer)
    ensures bitsInBuffer < 8 && 8 * |r| + bitsInBuffer == 8 * |r0| + bits0
    ensures Streamed(n, r, 8, bitsInBuffer, buffer)
  {
    r, bitsInBuffer := r0, bits0;
    while bitsInBuffer >= 8
      invariant 8 * |r| + bitsInBuffer == 8 * |r0| + bits0
      invariant Streamed(n, r, 8, bitsInBuffer, buffer)
      decreases bitsInBuffer
    {
      ghost var digit := Emit(n, r, 8, bitsInBuffer, buffer);
      assert Pow(2, 8) == 256;
      bitsInBuffer := bitsInBuffer - 8;
      r := r + [buffer / Pow(2, bitsInBuffer) % 256];
    }
  }

  lemma StreamedBytes(digits: seq<nat>, k: nat, r: seq<nat>, bits: nat, buffer: nat)
    requires bits < 8 && 8 * |r| + bits == |digits| * k && AllBelow(r, 256)
    requires Streamed(Value(digits, Pow(2, k)), r, 8, bits, buffer)
    ensures r == BitDecoded(digits, k)
  {
    PowPositive(2, bits);
    assert Pow(2, 8) == 256;
    DivModUnique(Value(digits, Pow(2, k)), Pow(2, bits), Value(r, 256), buffer % Pow(2, bits));
    ToDigitsUnique(r, 256);
  }

  method DecodeMathematical(e: BaseEncoding, data: seq<byte>) returns (r: seq<byte>)
    requires e.Valid() && AllSymbols(e, data) && data != []
    ensures r == Rebased(DigitsOf(e, data), e.base, 256)
  {
    var leadingZeros := CountLeading(data, e.alphabet[0]);
    var digits: seq<nat> := [];
    for i := 0 to |data|
      invariant digits == DigitsOf(e, data)[..i]
    {
      digits := digits + [e.decodeMap[data[i]]];
    }
    assert digits == DigitsOf(e, data);
    DigitsBelow(e, data);
    LeadingSymbols(e, data, leadingZeros);
    var bytes := ChangeBase(digits, e.base, 256);
    r := Zeros(leadingZeros) + bytes;
  }

  lemma LeadingSymbols(e: BaseEncoding, data: seq<byte>, n: nat)
    requires e.Valid() && AllSymbols(e, data) && n <= |data|
    requires forall i :: 0 <= i < n ==> data[i] == e.alphabet[0]
    requires n < |data| ==> data[n] != e.alphabet[0]
    ensures LeadingZeros(DigitsOf(e, data)) == n
  {
    if n < |data| {
      var i :| 0 <= i < |e.alphabet| && e.alphabet[i] == data[n];
    }
    LeadingCount(DigitsOf(e, data), n);
  }

  method TrimRight(s: seq<byte>, cut: seq<byte>) returns (t: seq<byte>)
    requires cut != []
    ensures t == TrimmedRight(s, cut)
  {
    t := s;
    while EndsWith(t, cut)
      invariant TrimmedRight(t, cut) == TrimmedRight(s, cut)
      decreases |t|
    {
      t := t[..|t| - |cut|];
    }
  }

  method DecodeString(e: BaseEncoding, encoded: seq<byte>) returns (r: Result<seq<byte>, DecodeError>)
    requires e.Valid()
    ensures Decodes(e, encoded, r)
  {
    if |encoded| == 0 {
      return Ok([]);
    }
    var data := encoded;
    if e.padChar != 0 {
      data := TrimRight(encoded, RuneBytes(e.padChar));
    }
    if |data| == 0 {
      return Ok([]);
    }
    for i := 0 to |data|
      invariant forall j :: 0 <= j < i ==> data[j] in e.decodeMap
    {
      if data[i] !in e.decodeMap {
        return Err(InvalidCharacter(data[i], i));
      }
    }
    DigitsBelow(e, data);
    var bytes;
    match Log2Exact(e.base) {
      case None => bytes := DecodeMathematical(e, data);
      case Some(k) => bytes := DecodeBitwise(e, data, k);
    }
    return Ok(bytes);
  }
}
