/** Base32 without padding (section 6 of RFC 4648), over a 32-bit shift register that is never masked. */
module Base32 {
  import opened Arithmetic

  type Byte = x: int | 0 <= x < 256
  type Digit = x: int | 0 <= x < 32

  const B32: string := "ABCDEFGHIJKLMNOPQRSTUVWXYZ234567"
  const REGISTER: int := 0x1_0000_0000

  // ----- The 32-bit register, by its bit pattern: shifts drop what leaves it on the left. A shift leaves zeros on
  // the right, so that the bitwise `or` with what fits there is an addition.

  function Pow2(k: nat): (p: nat)
    ensures p >= 1
  {
    if k == 0 then 1 else 2 * Pow2(k - 1)
  }

  function ShiftLeft(value: int, k: nat): int
    requires 0 <= value < REGISTER
  {
    value * Pow2(k) % REGISTER
  }

  function ShiftRight(value: int, k: nat): int
    requires 0 <= value < REGISTER
  {
    value / Pow2(k)
  }

  // ----- Numbers in base 256 and base 32

  function Val256(bytes: seq<Byte>): nat {
    if bytes == [] then 0 else Val256(bytes[..|bytes| - 1]) * 256 + bytes[|bytes| - 1]
  }

  function Val32(digits: seq<Digit>): nat {
    if digits == [] then 0 else Val32(digits[..|digits| - 1]) * 32 + digits[|digits| - 1]
  }

  lemma {:induction false} Val256Injective(a: seq<Byte>, b: seq<Byte>)
    requires |a| == |b| && Val256(a) == Val256(b)
    ensures a == b
  {
    if a != [] {
      Val256Injective(a[..|a| - 1], b[..|b| - 1]);
    }
  }

  lemma {:induction false} Val32Injective(a: seq<Digit>, b: seq<Digit>)
    requires |a| == |b| && Val32(a) == Val32(b)
    ensures a == b
  {
    if a != [] {
      Val32Injective(a[..|a| - 1], b[..|b| - 1]);
    }
  }

  // ----- The alphabet

  function Symbol(d: Digit): char {
    B32[d]
  }

  /** Where a character first stands in a text, or -1. */
  function IndexIn(text: string, ch: char, from: nat): int
    requires from <= |text|
    decreases |text| - from
  {
    if from == |text| then -1 else if text[from] == ch then from else IndexIn(text, ch, from + 1)
  }

  function IndexOf(ch: char): int {
    IndexIn(B32, ch, 0)
  }

  lemma {:induction false} IndexInRange(text: string, ch: char, from: nat)
    requires from <= |text|
    ensures var i := IndexIn(text, ch, from); i == -1 || (from <= i < |text| && text[i] == ch)
    decreases |text| - from
  {
    if from < |text| && text[from] != ch { IndexInRange(text, ch, from + 1); }
  }

  lemma {:induction false} IndexInFirst(text: string, from: nat, i: nat)
    requires from <= i < |text|
    requires forall k :: from <= k < i ==> text[k] != text[i]
    ensures IndexIn(text, text[i], from) == i
    decreases i - from
  {
    if from < i { IndexInFirst(text, from + 1, i); }
  }

  lemma AlphabetPart1(i: nat)
    requires 0 <= i < 8
    ensures B32[i] as int == if i < 26 then 65 + i else 50 + i - 26
  {
    assert B32[0] == 'A' && B32[1] == 'B' && B32[2] == 'C' && B32[3] == 'D';
    assert B32[4] == 'E' && B32[5] == 'F' && B32[6] == 'G' && B32[7] == 'H';
  }

  lemma AlphabetPart2(i: nat)
    requires 8 <= i < 16
    ensures B32[i] as int == if i < 26 then 65 + i else 50 + i - 26
  {
    assert B32[8] == 'I' && B32[9] == 'J' && B32[10] == 'K' && B32[11] == 'L';
    assert B32[12] == 'M' && B32[13] == 'N' && B32[14] == 'O' && B32[15] == 'P';
  }

  lemma AlphabetPart3(i: nat)
    requires 16 <= i < 24
    ensures B32[i] as int == if i < 26 then 65 + i else 50 + i - 26
  {
    assert B32[16] == 'Q' && B32[17] == 'R' && B32[18] == 'S' && B32[19] == 'T';
    assert B32[20] == 'U' && B32[21] == 'V' && B32[22] == 'W' && B32[23] == 'X';
  }

  lemma AlphabetPart4(i: nat)
    requires 24 <= i < 32
    ensures B32[i] as int == if i < 26 then 65 + i else 50 + i - 26
  {
    assert B32[24] == 'Y' && B32[25] == 'Z' && B32[26] == '2' && B32[27] == '3';
    assert B32[28] == '4' && B32[29] == '5' && B32[30] == '6' && B32[31] == '7';
  }

  lemma AlphabetCodes(i: nat)
    requires i < 32
    ensures B32[i] as int == if i < 26 then 65 + i else 50 + i - 26
  {
    if i < 8 { AlphabetPart1(i); } else if i < 16 { AlphabetPart2(i); }
    else if i < 24 { AlphabetPart3(i); } else { AlphabetPart4(i); }
  }

  lemma SymbolIndex(i: nat)
    requires i < 32
    ensures IndexOf(B32[i]) == i
    ensures B32[i] != '=' && UpperCase(B32[i]) == [B32[i]]
  {
    AlphabetCodes(i);
    SymbolIsUpper(B32[i], B32[i] as int);
    hide UpperCase;
    forall k: nat | k < i ensures B32[k] != B32[i] {
      AlphabetCodes(k);
    }
    IndexInFirst(B32, 0, i);
  }

  lemma SymbolIsUpper(ch: char, code: int)
    requires code == ch as int && (65 <= code < 91 || 50 <= code < 56)
    ensures ch != '=' && UpperCase(ch) == [ch]
  {
  }

  lemma IndexIsDigit(ch: char)
    ensures -1 <= IndexOf(ch) < 32
  {
    IndexInRange(B32, ch, 0);
  }

  function SymbolsOf(digits: seq<Digit>): string {
    seq(|digits|, i requires 0 <= i < |digits| => Symbol(digits[i]))
  }

  lemma SymbolsAppend(digits: seq<Digit>, d: Digit)
    ensures SymbolsOf(digits + [d]) == SymbolsOf(digits) + [Symbol(d)]
  {
  }

  /** The digits of a text: characters outside the alphabet count for nothing. */
  function DigitsOf(text: string): seq<Digit> {
    if text == "" then []
    else
      IndexIsDigit(text[|text| - 1]);
      var i := IndexOf(text[|text| - 1]);
      DigitsOf(text[..|text| - 1]) + (if i == -1 then [] else [i])
  }

  lemma DigitsAppend(text: string, ch: char)
    ensures -1 <= IndexOf(ch) < 32
    ensures DigitsOf(text + [ch]) == DigitsOf(text) + (if IndexOf(ch) == -1 then [] else [IndexOf(ch)])
  {
    assert (text + [ch])[..|text|] == text;
    IndexIsDigit(ch);
  }

  lemma {:induction false} DigitsOfSymbols(digits: seq<Digit>)
    ensures DigitsOf(SymbolsOf(digits)) == digits
  {
    if digits != [] {
      var n := |digits| - 1;
      assert SymbolsOf(digits)[..n] == SymbolsOf(digits[..n]);
      DigitsOfSymbols(digits[..n]);
      SymbolIndex(digits[n]);
    }
  }

  // ----- Cleaning a text

  /**
   * The upper case of a character, as far as the alphabet goes. Beside a to z there are a dotless i, a long s, a
   * sharp s, seven ligatures and seven letters whose upper case is a letter with a mark; no other character has a
   * letter of the alphabet in its upper case.
   */
  function UpperCase(ch: char): string {
    var code := ch as int;
    if 0x61 <= code <= 0x7A then [(code - 32) as char]
    else if code == 0x131 then "I"
    else if code == 0x17F then "S"
    else if code == 0xDF then "SS"
    else if code == 0xFB00 then "FF"
    else if code == 0xFB01 then "FI"
    else if code == 0xFB02 then "FL"
    else if code == 0xFB03 then "FFI"
    else if code == 0xFB04 then "FFL"
    else if code == 0xFB05 || code == 0xFB06 then "ST"
    else if code == 0x149 then "\U{02BC}N"
    else if code == 0x1F0 then "J\U{030C}"
    else if code == 0x1E96 then "H\U{0331}"
    else if code == 0x1E97 then "T\U{0308}"
    else if code == 0x1E98 then "W\U{030A}"
    else if code == 0x1E99 then "Y\U{030A}"
    else if code == 0x1E9A then "A\U{02BE}"
    else [ch]
  }

  function UpperCased(text: string): string {
    if text == "" then "" else UpperCased(text[..|text| - 1]) + UpperCase(text[|text| - 1])
  }

  function StripPadding(text: string): string {
    if text != "" && text[|text| - 1] == '=' then StripPadding(text[..|text| - 1]) else text
  }

  function Clean(text: string): string {
    UpperCased(StripPadding(text))
  }

  /** A text over the alphabet is its own upper case. */
  lemma {:induction false} SymbolsAreUpper(digits: seq<Digit>)
    ensures UpperCased(SymbolsOf(digits)) == SymbolsOf(digits)
    ensures digits != [] ==> SymbolsOf(digits)[|digits| - 1] != '='
  {
    hide UpperCase, IndexOf;
    if digits != [] {
      var n := |digits| - 1;
      assert SymbolsOf(digits)[..n] == SymbolsOf(digits[..n]);
      SymbolsAreUpper(digits[..n]);
      SymbolIndex(digits[n]);
    }
  }

  /** Padding is undone, and a text over the alphabet is left alone. */
  lemma {:induction false} CleanPadded(digits: seq<Digit>, padding: string)
    requires forall k :: 0 <= k < |padding| ==> padding[k] == '='
    ensures Clean(SymbolsOf(digits) + padding) == SymbolsOf(digits)
  {
    hide UpperCase, UpperCased;
    var text := SymbolsOf(digits);
    if padding == "" {
      assert text + padding == text;
      SymbolsAreUpper(digits);
    } else {
      assert (text + padding)[..|text + padding| - 1] == text + padding[..|padding| - 1];
      CleanPadded(digits, padding[..|padding| - 1]);
    }
  }

  function Lower(ch: char): char {
    if 'A' <= ch <= 'Z' then (ch as int + 32) as char else ch
  }

  lemma LowerSymbol(i: nat)
    requires i < 32
    ensures UpperCase(Lower(B32[i])) == [B32[i]] && Lower(B32[i]) != '='
  {
    AlphabetCodes(i);
    LowerCode(B32[i], B32[i] as int);
  }

  lemma LowerCode(ch: char, code: int)
    requires code == ch as int && (65 <= code < 91 || 50 <= code < 56)
    ensures UpperCase(Lower(ch)) == [ch] && Lower(ch) != '='
  {
  }

  function LowerCased(text: string): string {
    seq(|text|, i requires 0 <= i < |text| => Lower(text[i]))
  }

  /** A text over the alphabet in lower case reads as the same digits. */
  lemma {:induction false} LowerCaseReads(digits: seq<Digit>)
    ensures DigitsOf(Clean(LowerCased(SymbolsOf(digits)))) == digits
  {
    LowerCaseUpper(digits);
    DigitsOfSymbols(digits);
    hide DigitsOf, UpperCased, UpperCase;
    if digits != [] { LowerSymbol(digits[|digits| - 1]); }
  }

  lemma {:induction false} LowerCaseUpper(digits: seq<Digit>)
    ensures UpperCased(LowerCased(SymbolsOf(digits))) == SymbolsOf(digits)
  {
    hide UpperCase, Lower;
    if digits != [] {
      var n := |digits| - 1;
      assert LowerCased(SymbolsOf(digits))[..n] == LowerCased(SymbolsOf(digits[..n]));
      LowerCaseUpper(digits[..n]);
      LowerSymbol(digits[n]);
    }
  }

  /** A character outside the alphabet changes nothing wherever it stands. */
  lemma {:induction false} ForeignIsSkipped(front: string, ch: char, back: string)
    requires ch !in B32
    ensures DigitsOf(front + [ch] + back) == DigitsOf(front + back)
  {
    if back == "" {
      assert front + [ch] + back == front + [ch] && front + back == front;
      ForeignHasNoIndex(B32, ch, 0);
      DigitsAppend(front, ch);
    } else {
      var n := |back| - 1;
      assert front + [ch] + back == (front + [ch] + back[..n]) + [back[n]];
      assert front + back == (front + back[..n]) + [back[n]];
      ForeignIsSkipped(front, ch, back[..n]);
      DigitsAppend(front + [ch] + back[..n], back[n]);
      DigitsAppend(front + back[..n], back[n]);
    }
  }

  lemma {:induction false} ForeignHasNoIndex(text: string, ch: char, from: nat)
    requires ch !in text && from <= |text|
    ensures IndexIn(text, ch, from) == -1
    decreases |text| - from
  {
    if from < |text| { ForeignHasNoIndex(text, ch, from + 1); }
  }

  // ----- What encoding and decoding come to

  /** As few digits as hold the bits of the bytes, and the same number, shifted to the left end. */
  ghost predicate Encodes(bytes: seq<Byte>, digits: seq<Digit>) {
    var pad := 5 * |digits| - 8 * |bytes|;
    && 0 <= pad < 5
    && Val32(digits) == Val256(bytes) * Pow2(pad)
  }

  /** As many whole bytes as the digits hold, from the left; the bits left over are dropped. */
  ghost predicate Decodes(digits: seq<Digit>, bytes: seq<Byte>) {
    var rest := 5 * |digits| - 8 * |bytes|;
    && 0 <= rest < 8
    && Val256(bytes) == Val32(digits) / Pow2(rest)
  }

  /** The length is the number of bits divided by five, rounded up. */
  lemma EncodedLength(bytes: seq<Byte>, digits: seq<Digit>)
    requires Encodes(bytes, digits)
    ensures |digits| == (8 * |bytes| + 4) / 5
  {
  }

  lemma EncodingIsUnique(bytes: seq<Byte>, d1: seq<Digit>, d2: seq<Digit>)
    requires Encodes(bytes, d1) && Encodes(bytes, d2)
    ensures d1 == d2
  {
    EncodedLength(bytes, d1);
    EncodedLength(bytes, d2);
    Val32Injective(d1, d2);
  }

  lemma DecodingIsUnique(digits: seq<Digit>, b1: seq<Byte>, b2: seq<Byte>)
    requires Decodes(digits, b1) && Decodes(digits, b2)
    ensures b1 == b2
  {
    assert |b1| == |b2|;
    Val256Injective(b1, b2);
  }

  /** Decoding undoes encoding, for bytes of any number. */
  lemma RoundTrip(bytes: seq<Byte>, digits: seq<Digit>, back: seq<Byte>)
    requires Encodes(bytes, digits) && Decodes(digits, back)
    ensures back == bytes
  {
    assert |back| == |bytes|;
    QuotientUnique(Val32(digits), Pow2(5 * |digits| - 8 * |bytes|), Val256(bytes), 0);
    Val256Injective(back, bytes);
  }

  // ----- Arithmetic of the register

  lemma {:induction false} Pow2Adds(a: nat, b: nat)
    ensures Pow2(a + b) == Pow2(a) * Pow2(b)
  {
    if a > 0 { Pow2Adds(a - 1, b); }
  }

  lemma Pow2Values()
    ensures Pow2(0) == 1 && Pow2(5) == 32 && Pow2(8) == 256 && Pow2(32) == REGISTER
  {
    assert Pow2(4) == 2 * Pow2(3) && Pow2(3) == 2 * Pow2(2) && Pow2(2) == 2 * Pow2(1) && Pow2(1) == 2 * Pow2(0);
    Pow2Adds(4, 4);
    Pow2Adds(8, 8);
    Pow2Adds(16, 16);
  }

  lemma Distribute(a: int, p: int, x: int, w: int)
    ensures (a * p + x) * w == a * (w * p) + x * w
  {
  }

  lemma Below(x: int, p: int, w: int)
    requires 0 <= x < p && w >= 1
    ensures 0 <= x * w <= w * p - w
  {
    assert x * w <= (p - 1) * w;
  }

  /** Scaling number and modulus scales the remainder. */
  lemma ScaledRemainder(value: int, w: int, m: int)
    requires w >= 1 && m >= 1
    ensures value * w % (w * m) == value % m * w
  {
    var h, l := value / m, value % m;
    assert value == h * m + l;
    Distribute(h, m, l, w);
    Below(l, m, w);
    assert w * m >= 1;
    QuotientUnique(value * w, w * m, h, l * w);
  }

  /** A remainder of a remainder, when the moduli divide. */
  lemma RemainderOfRemainder(x: int, m: int, k: int, low: int)
    requires m >= 1 && k >= 1
    requires 0 <= x % m + low < m
    ensures (x % (m * k) + low) % m == x % m + low
  {
    assert m * k >= 1;
    var c, q, r := x / (m * k), x / m, x % m;
    assert x == c * (m * k) + x % (m * k);
    assert x == q * m + r;
    assert c * (m * k) == c * k * m;
    var d := q - c * k;
    assert d * m == q * m - c * k * m;
    QuotientUnique(x % (m * k) + low, m, d, r + low);
  }

  /** Appending below the pending bits: what falls out of the register was not pending. */
  lemma AppendLow(value: int, w: int, p: int, k: int, low: int)
    requires w >= 1 && p >= 1 && k >= 1 && w * p * k == REGISTER
    requires 0 <= low < w
    ensures (value * w % REGISTER + low) % (w * p) == value % p * w + low
  {
    ScaledRemainder(value, w, p);
    Below(value % p, p, w);
    assert w * p >= 1;
    RemainderOfRemainder(value * w, w * p, k, low);
  }

  /** The pending bits are the top digit of them over the rest. */
  lemma TopDigit(value: int, w: int, t: int)
    requires w >= 1 && t >= 1
    ensures w * t >= 1 && value % (w * t) == value / t % w * t + value % t
  {
    var q, r, m := value / t, value % t, t * w;
    var a, d := q / w, q % w;
    assert m == w * t;
    AtLeastOnce(t, w);
    Distribute(a, w, d, t);
    Below(d, w, t);
    assert (a * w + d) * t == q * t;
    assert value == q * t + r;
    QuotientUnique(value, m, a, d * t + r);
  }

  /** The number read so far is what was put out, over the pending low bits of the register. */
  ghost predicate Pending(total: nat, out: nat, value: int, bits: nat) {
    0 <= value < REGISTER && total == out * Pow2(bits) + value % Pow2(bits)
  }

  lemma AppendPending(total: nat, out: nat, value: int, bits: nat, k: nat, low: int)
    requires Pending(total, out, value, bits)
    requires bits + k <= 32 && 0 <= low < Pow2(k)
    ensures ShiftLeft(value, k) + low < REGISTER
    ensures Pending(total * Pow2(k) + low, out, ShiftLeft(value, k) + low, bits + k)
  {
    ShiftLeftRoom(value, k, low);
    ShiftedPending(value, bits, k, low);
    Pow2Adds(k, bits);
    hide Pow2, ShiftLeft;
    Distribute(out, Pow2(bits), value % Pow2(bits), Pow2(k));
  }

  lemma ShiftedPending(value: int, bits: nat, k: nat, low: int)
    requires 0 <= value < REGISTER && bits + k <= 32 && 0 <= low < Pow2(k)
    ensures (ShiftLeft(value, k) + low) % Pow2(bits + k) == value % Pow2(bits) * Pow2(k) + low
  {
    Pow2Values();
    Pow2Adds(k, bits);
    Pow2Adds(k + bits, 32 - k - bits);
    hide Pow2;
    AppendLow(value, Pow2(k), Pow2(bits), Pow2(32 - k - bits), low);
  }

  /** A shift leaves room for what is appended. */
  lemma ShiftLeftRoom(value: int, k: nat, low: int)
    requires 0 <= value < REGISTER && k <= 32 && 0 <= low < Pow2(k)
    ensures ShiftLeft(value, k) + low < REGISTER
  {
    Pow2Values();
    Pow2Adds(k, 32 - k);
    hide Pow2;
    var w, room := Pow2(k), Pow2(32 - k);
    ScaledRemainder(value, w, room);
    Below(value % room, room, w);
  }

  lemma EmitPending(total: nat, out: nat, value: int, bits: nat, k: nat)
    requires Pending(total, out, value, bits) && k <= bits
    ensures Pending(total, out * Pow2(k) + ShiftRight(value, bits - k) % Pow2(k), value, bits - k)
  {
    Pow2Adds(k, bits - k);
    hide Pow2;
    var w, t := Pow2(k), Pow2(bits - k);
    TopDigit(value, w, t);
    Distribute(out, w, value / t % w, t);
    assert out * (t * w) == out * (w * t);
  }

  /** The last digit is the pending bits, shifted to its left end. */
  lemma LastDigit(total: nat, out: nat, value: int, bits: nat)
    requires Pending(total, out, value, bits) && bits <= 5
    ensures out * 32 + ShiftLeft(value, 5 - bits) % 32 == total * Pow2(5 - bits)
  {
    Pow2Values();
    Pow2Adds(5 - bits, bits);
    Pow2Adds(5, 27);
    hide Pow2;
    var w, p := Pow2(5 - bits), Pow2(bits);
    AppendLow(value, w, p, Pow2(27), 0);
    Distribute(out, p, value % p, w);
  }

  lemma Val256Append(bytes: seq<Byte>, b: Byte)
    ensures Val256(bytes + [b]) == Val256(bytes) * 256 + b
  {
    assert (bytes + [b])[..|bytes|] == bytes;
  }

  lemma Val32Append(digits: seq<Digit>, d: Digit)
    ensures Val32(digits + [d]) == Val32(digits) * 32 + d
  {
    assert (digits + [d])[..|digits|] == digits;
  }

  // ----- The states of the two loops

  lemma NothingPending(value: int, bits: nat)
    requires value == 0 && bits == 0
    ensures Pending(0, 0, value, bits)
  {
  }

  /** Nothing read, nothing put out, nothing pending. */
  lemma NothingRead(bytes: seq<Byte>, digits: seq<Digit>, value: int, bits: nat)
    requires bytes == [] && digits == [] && value == 0 && bits == 0
    ensures Encoding(bytes, digits, value, bits) && Decoding(digits, bytes, value, bits)
  {
    hide Pending;
    NothingPending(value, bits);
  }

  /** After some bytes: the digits put out, and fewer than 32 bits pending in the register. */
  ghost predicate Encoding(read: seq<Byte>, digits: seq<Digit>, value: int, bits: nat) {
    && 8 * |read| == 5 * |digits| + bits
    && Pending(Val256(read), Val32(digits), value, bits)
  }

  lemma ReadByte(read: seq<Byte>, digits: seq<Digit>, value: int, bits: nat, b: Byte)
    requires Encoding(read, digits, value, bits) && bits <= 24
    ensures 0 <= value < REGISTER && 0 <= ShiftLeft(value, 8) + b < REGISTER
    ensures Encoding(read + [b], digits, ShiftLeft(value, 8) + b, bits + 8)
  {
    Pow2Values();
    hide Pow2, ShiftLeft;
    Val256Append(read, b);
    AppendPending(Val256(read), Val32(digits), value, bits, 8, b);
  }

  lemma EmitDigit(read: seq<Byte>, digits: seq<Digit>, value: int, bits: nat)
    requires Encoding(read, digits, value, bits) && bits >= 5
    ensures 0 <= value < REGISTER
    ensures Encoding(read, digits + [ShiftRight(value, bits - 5) % 32], value, bits - 5)
  {
    Pow2Values();
    hide Pow2, ShiftRight;
    Val32Append(digits, ShiftRight(value, bits - 5) % 32);
    EmitPending(Val256(read), Val32(digits), value, bits, 5);
  }

  /** What is still pending makes the last digit. */
  lemma EncodingEnds(read: seq<Byte>, digits: seq<Digit>, value: int, bits: nat)
    requires Encoding(read, digits, value, bits) && bits < 5
    ensures 0 <= value < REGISTER
    ensures Encodes(read, if bits == 0 then digits else digits + [ShiftLeft(value, 5 - bits) % 32])
  {
    Pow2Values();
    LastDigit(Val256(read), Val32(digits), value, bits);
    hide Pow2, ShiftLeft;
    if bits > 0 { Val32Append(digits, ShiftLeft(value, 5 - bits) % 32); }
  }

  /** After some digits: the bytes put out, and fewer than 32 bits pending in the register. */
  ghost predicate Decoding(read: seq<Digit>, bytes: seq<Byte>, value: int, bits: nat) {
    && 5 * |read| == 8 * |bytes| + bits
    && Pending(Val32(read), Val256(bytes), value, bits)
  }

  lemma ReadDigit(read: seq<Digit>, bytes: seq<Byte>, value: int, bits: nat, d: Digit)
    requires Decoding(read, bytes, value, bits) && bits <= 27
    ensures 0 <= value < REGISTER && 0 <= ShiftLeft(value, 5) + d < REGISTER
    ensures Decoding(read + [d], bytes, ShiftLeft(value, 5) + d, bits + 5)
  {
    Pow2Values();
    hide Pow2, ShiftLeft;
    Val32Append(read, d);
    AppendPending(Val32(read), Val256(bytes), value, bits, 5, d);
  }

  lemma EmitByte(read: seq<Digit>, bytes: seq<Byte>, value: int, bits: nat)
    requires Decoding(read, bytes, value, bits) && bits >= 8
    ensures 0 <= value < REGISTER
    ensures Decoding(read, bytes + [ShiftRight(value, bits - 8) % 256], value, bits - 8)
  {
    Pow2Values();
    hide Pow2, ShiftRight;
    Val256Append(bytes, ShiftRight(value, bits - 8) % 256);
    EmitPending(Val32(read), Val256(bytes), value, bits, 8);
  }

  /** What is still pending is dropped. */
  lemma DecodingEnds(read: seq<Digit>, bytes: seq<Byte>, value: int, bits: nat)
    requires Decoding(read, bytes, value, bits) && bits < 8
    ensures Decodes(read, bytes)
  {
    QuotientUnique(Val32(read), Pow2(bits), Val256(bytes), value % Pow2(bits));
  }

  // ----- The two loops

  method Encode(bytes: seq<Byte>) returns (text: string)
    ensures Encodes(bytes, DigitsOf(text)) && text == SymbolsOf(DigitsOf(text))
    ensures |text| == (8 * |bytes| + 4) / 5
  {
    hide Pending, Val256, Val32, Symbol, ShiftLeft, ShiftRight;
    var bits, value := 0, 0;
    text := "";
    ghost var digits: seq<Digit> := [];
    assert bytes[..0] == [];
    NothingRead(bytes[..0], digits, value, bits);
    for i := 0 to |bytes|
      invariant 0 <= bits < 5 && 0 <= value < REGISTER
      invariant text == SymbolsOf(digits)
      invariant Encoding(bytes[..i], digits, value, bits)
    {
      assert bytes[..i + 1] == bytes[..i] + [bytes[i]];
      ReadByte(bytes[..i], digits, value, bits, bytes[i]);
      value := ShiftLeft(value, 8) + bytes[i];
      bits := bits + 8;
      while bits >= 5
        invariant 0 <= bits <= 12 && 0 <= value < REGISTER
        invariant text == SymbolsOf(digits)
        invariant Encoding(bytes[..i + 1], digits, value, bits)
      {
        EmitDigit(bytes[..i + 1], digits, value, bits);
        var d: Digit := ShiftRight(value, bits - 5) % 32;
        SymbolsAppend(digits, d);
        text := text + [Symbol(d)];
        digits := digits + [d];
        bits := bits - 5;
      }
    }
    assert bytes[..|bytes|] == bytes;
    EncodingEnds(bytes, digits, value, bits);
    if bits > 0 {
      var d: Digit := ShiftLeft(value, 5 - bits) % 32;
      SymbolsAppend(digits, d);
      text := text + [Symbol(d)];
      digits := digits + [d];
    }
    DigitsOfSymbols(digits);
    EncodedLength(bytes, digits);
  }

  method Decode(text: string) returns (bytes: seq<Byte>)
    ensures Decodes(DigitsOf(Clean(text)), bytes)
    ensures |bytes| == 5 * |DigitsOf(Clean(text))| / 8
  {
    hide Pending, Val256, Val32, ShiftLeft, ShiftRight, Clean, IndexOf;
    var clean := Clean(text);
    var bits, value := 0, 0;
    bytes := [];
    ghost var digits: seq<Digit> := [];
    assert clean[..0] == "" && DigitsOf("") == [];
    NothingRead(bytes, digits, value, bits);
    for i := 0 to |clean|
      invariant 0 <= bits < 8 && 0 <= value < REGISTER
      invariant digits == DigitsOf(clean[..i])
      invariant Decoding(digits, bytes, value, bits)
    {
      assert clean[..i + 1] == clean[..i] + [clean[i]];
      DigitsAppend(clean[..i], clean[i]);
      var idx := IndexOf(clean[i]);
      if idx == -1 {
        continue;
      }
      ReadDigit(digits, bytes, value, bits, idx);
      value := ShiftLeft(value, 5) + idx;
      digits := digits + [idx];
      bits := bits + 5;
      if bits >= 8 {
        EmitByte(digits, bytes, value, bits);
        var b: Byte := ShiftRight(value, bits - 8) % 256;
        bytes := bytes + [b];
        bits := bits - 8;
      }
    }
    assert clean[..|clean|] == clean;
    DecodingEnds(digits, bytes, value, bits);
  }

  /** Padding after the encoded text changes nothing: what was encoded comes back. */
  method EncodeThenDecode(bytes: seq<Byte>, padding: string) returns (text: string, back: seq<Byte>)
    requires forall k :: 0 <= k < |padding| ==> padding[k] == '='
    ensures back == bytes
  {
    text := Encode(bytes);
    ghost var digits := DigitsOf(text);
    CleanPadded(digits, padding);
    DigitsOfSymbols(digits);
    back := Decode(text + padding);
    RoundTrip(bytes, digits, back);
  }
}
