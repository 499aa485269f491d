/** Stellar amounts: minor units as decimal text, and back; the circulating supply as a sum of such texts. */
module Stellar {
  import opened Results
  import opened Decimal
  import opened Arithmetic

  // ----- Minor units to text

  function MinorToStellarAmount(minor: int, decimals: int): Result<string> {
    if decimals < 0 || decimals > 7 then Err(InvalidArgument)
    else
      var digits := PadStart(Print(if minor < 0 then -minor else minor), decimals + 1);
      var cut := if |digits| >= decimals then |digits| - decimals else 0;
      var fraction := if decimals > 0 then "." + digits[cut..] else "";
      Ok((if minor < 0 then "-" else "") + digits[..cut] + fraction)
  }

  // ----- Text to minor units

  /** White space and line ends, those of Unicode included. */
  predicate IsSpace(ch: char) {
    var code := ch as int;
    0x09 <= code <= 0x0D || code in {0x20, 0xA0, 0x1680, 0x2028, 0x2029, 0x202F, 0x205F, 0x3000, 0xFEFF}
    || 0x2000 <= code <= 0x200A
  }

  function TrimStart(s: string): string {
    if s != "" && IsSpace(s[0]) then TrimStart(s[1..]) else s
  }

  function TrimEnd(s: string): string {
    if s != "" && IsSpace(s[|s| - 1]) then TrimEnd(s[..|s| - 1]) else s
  }

  /** The text without its first minus sign, wherever it stands. */
  function DropMinus(s: string): string {
    if s == "" then "" else if s[0] == '-' then s[1..] else [s[0]] + DropMinus(s[1..])
  }

  /** What stands before the first point. */
  function BeforePoint(s: string): string {
    if s == "" || s[0] == '.' then "" else [s[0]] + BeforePoint(s[1..])
  }

  /** What stands between the first point and the next, if there is one. */
  function AfterPoint(s: string): string {
    if s == "" then "" else if s[0] == '.' then BeforePoint(s[1..]) else AfterPoint(s[1..])
  }

  /** Space around the digits is dropped, and no digits stand for zero; anything else is refused. */
  function ReadBig(s: string): Result<nat> {
    var digits := TrimEnd(TrimStart(s));
    if AllDigits(digits) then Ok(Read(digits)) else Err(InvalidArgument)
  }

  /** Digits have no space to drop. */
  lemma DigitsAreTrim(s: string)
    requires AllDigits(s)
    ensures TrimStart(s) == s && TrimEnd(s) == s
    ensures ReadBig(s) == Ok(Read(s))
  {
  }

  function Negative(amount: string): bool {
    var trimmed := TrimStart(amount);
    trimmed != "" && trimmed[0] == '-'
  }

  /** The first `decimals` digits of a fraction, filled up with zeros. */
  function Scale(fraction: string, decimals: nat): string {
    (fraction + Zeros(decimals))[..decimals]
  }

  function StellarAmountToMinor(amount: string, decimals: nat): Result<int> {
    var plain := DropMinus(amount);
    var whole :- ReadBig(BeforePoint(plain));
    var fraction :- ReadBig(Scale(AfterPoint(plain), decimals));
    var scaled := whole * Pow10(decimals) + fraction;
    Ok(if Negative(amount) then -scaled else scaled)
  }

  // ----- Space in front

  predicate AllSpace(s: string) {
    forall i :: 0 <= i < |s| ==> IsSpace(s[i])
  }

  /** Space in front of a text stays in front of what is cut from it, and is dropped at the end. */
  lemma {:induction false} SpaceBefore(w: string, s: string)
    requires AllSpace(w)
    ensures TrimStart(w + s) == TrimStart(s)
    ensures DropMinus(w + s) == w + DropMinus(s)
    ensures BeforePoint(w + s) == w + BeforePoint(s) && AfterPoint(w + s) == AfterPoint(s)
  {
    if w == "" {
      assert w + s == s && w + DropMinus(s) == DropMinus(s) && w + BeforePoint(s) == BeforePoint(s);
    } else {
      assert (w + s)[1..] == w[1..] + s && (w + s)[0] == w[0];
      SpaceBefore(w[1..], s);
      assert [w[0]] + (w[1..] + DropMinus(s)) == w + DropMinus(s);
      assert [w[0]] + (w[1..] + BeforePoint(s)) == w + BeforePoint(s);
    }
  }

  /** Space in front of an amount, sign or not, changes nothing. */
  lemma SpaceIsIgnored(w: string, s: string, decimals: nat)
    requires AllSpace(w)
    ensures StellarAmountToMinor(w + s, decimals) == StellarAmountToMinor(s, decimals)
  {
    SpaceBefore(w, s);
    SpaceBefore(w, DropMinus(s));
    SpaceBefore(w, BeforePoint(DropMinus(s)));
    hide DropMinus, BeforePoint, AfterPoint, TrimStart, TrimEnd, Read, Scale, Pow10;
  }

  // ----- Signs and points elsewhere

  lemma {:induction false} MinusDropped(front: string, back: string)
    requires '-' !in front
    ensures DropMinus(front + "-" + back) == front + back
  {
    var s := front + "-" + back;
    if front == "" {
      assert s[1..] == back && front + back == back;
    } else {
      assert s[1..] == front[1..] + "-" + back;
      MinusDropped(front[1..], back);
      assert [front[0]] + (front[1..] + back) == front + back;
    }
  }

  /** One minus sign behind other characters is ignored: without a sign in front the amount is what the rest says. */
  lemma MinusInsideIsIgnored(front: string, back: string, decimals: nat)
    requires '-' !in front && '-' !in back && exists i :: 0 <= i < |front| && !IsSpace(front[i])
    ensures StellarAmountToMinor(front + "-" + back, decimals) == StellarAmountToMinor(front + back, decimals)
  {
    MinusDropped(front, back);
    Unsigned(front + back);
    StartOf(front, "-" + back);
    StartOf(front, back);
    assert front + ("-" + back) == front + "-" + back;
    hide DropMinus, BeforePoint, AfterPoint, ReadBig, Scale, Pow10, TrimStart;
  }

  lemma {:induction false} StartOf(front: string, back: string)
    requires '-' !in front && exists i :: 0 <= i < |front| && !IsSpace(front[i])
    ensures !Negative(front + back)
  {
    assert (front + back)[1..] == front[1..] + back;
    if IsSpace(front[0]) {
      var i :| 0 <= i < |front| && !IsSpace(front[i]);
      assert front[1..][i - 1] == front[i];
      StartOf(front[1..], back);
    }
  }

  /** What stands behind a second point is ignored. */
  lemma SecondPointIsIgnored(whole: string, fraction: string, rest: string, decimals: nat)
    requires AllDigits(whole) && AllDigits(fraction) && '-' !in rest
    ensures StellarAmountToMinor(whole + "." + fraction + "." + rest, decimals)
         == StellarAmountToMinor(whole + "." + fraction, decimals)
  {
    var s, long := whole + "." + fraction, whole + "." + fraction + "." + rest;
    Unsigned(s);
    Unsigned(long);
    BeforeFirst(whole, fraction + "." + rest);
    BeforeFirst(whole, fraction);
    BeforeFirst(fraction, rest);
    NoPoint(fraction);
    assert whole + "." + (fraction + "." + rest) == long;
    assert TrimStart(s) == s && TrimStart(long) == long;
    hide DropMinus, BeforePoint, AfterPoint, ReadBig, Scale, Pow10, TrimStart;
  }

  lemma {:induction false} BeforeFirst(front: string, back: string)
    requires AllDigits(front)
    ensures BeforePoint(front + "." + back) == front && AfterPoint(front + "." + back) == BeforePoint(back)
  {
    var s := front + "." + back;
    if front == "" {
      assert s[1..] == back;
    } else {
      assert s[1..] == front[1..] + "." + back;
      BeforeFirst(front[1..], back);
      assert [front[0]] + front[1..] == front;
    }
  }

  // ----- Splitting a text that was put together

  lemma {:induction false} SplitAtPoint(whole: string, fraction: string)
    requires AllDigits(whole) && AllDigits(fraction)
    ensures BeforePoint(whole + "." + fraction) == whole
    ensures AfterPoint(whole + "." + fraction) == fraction
  {
    var s := whole + "." + fraction;
    if whole == "" {
      assert s[1..] == fraction;
      NoPoint(fraction);
    } else {
      assert s[1..] == whole[1..] + "." + fraction;
      SplitAtPoint(whole[1..], fraction);
      assert [whole[0]] + whole[1..] == whole;
    }
  }

  lemma {:induction false} NoPoint(digits: string)
    requires AllDigits(digits)
    ensures BeforePoint(digits) == digits && AfterPoint(digits) == "" && DropMinus(digits) == digits
  {
    if digits != "" {
      NoPoint(digits[1..]);
      assert [digits[0]] + digits[1..] == digits;
    }
  }

  /** A text of digits and a point has no sign to drop. */
  lemma {:induction false} Unsigned(s: string)
    requires forall i :: 0 <= i < |s| ==> s[i] != '-'
    ensures DropMinus(s) == s
  {
    if s != "" {
      Unsigned(s[1..]);
      assert [s[0]] + s[1..] == s;
    }
  }

  function Pointed(digits: string, decimals: nat): string
    requires |digits| > decimals
  {
    digits[..|digits| - decimals] + (if decimals > 0 then "." + digits[|digits| - decimals..] else "")
  }

  /** Both texts of an unsigned amount are the digits they were cut from. */
  lemma PointedSplits(digits: string, decimals: nat)
    requires AllDigits(digits) && |digits| > decimals
    ensures var whole, fraction, text := digits[..|digits| - decimals], digits[|digits| - decimals..],
                                         Pointed(digits, decimals);
            && (forall i :: 0 <= i < |text| ==> IsDigit(text[i]) || text[i] == '.')
            && text != "" && IsDigit(text[0])
            && BeforePoint(text) == whole && Scale(AfterPoint(text), decimals) == fraction
  {
    var cut := |digits| - decimals;
    var whole, fraction := digits[..cut], digits[cut..];
    if decimals > 0 {
      SplitAtPoint(whole, fraction);
      hide BeforePoint, AfterPoint;
      assert whole + ("." + fraction) == whole + "." + fraction;
      assert (fraction + Zeros(decimals))[..decimals] == fraction;
    } else {
      NoPoint(digits);
      hide BeforePoint, AfterPoint;
      assert whole == digits && fraction == "";
      assert whole + "" == digits;
      assert Scale("", 0) == "";
    }
  }

  /** And they read back as the number. */
  lemma UnsignedRoundTrip(digits: string, decimals: nat)
    requires AllDigits(digits) && |digits| > decimals
    ensures var text := Pointed(digits, decimals);
            && (forall i :: 0 <= i < |text| ==> IsDigit(text[i]) || text[i] == '.')
            && text != "" && IsDigit(text[0])
            && ReadBig(BeforePoint(text)).Ok? && ReadBig(Scale(AfterPoint(text), decimals)).Ok?
            && ReadBig(BeforePoint(text)).value * Pow10(decimals) + ReadBig(Scale(AfterPoint(text), decimals)).value
               == Read(digits)
  {
    hide ReadBig, BeforePoint, AfterPoint, Scale, Pointed, Read, Pow10, TrimStart, TrimEnd;
    PointedSplits(digits, decimals);
    var cut := |digits| - decimals;
    var whole, fraction := digits[..cut], digits[cut..];
    assert whole + fraction == digits;
    ReadConcat(whole, fraction);
    DigitsAreTrim(whole);
    DigitsAreTrim(fraction);
  }

  /** A sign before an unsigned amount is found, and dropped. */
  lemma SignedText(plain: string)
    requires plain != "" && forall i :: 0 <= i < |plain| ==> IsDigit(plain[i]) || plain[i] == '.'
    ensures !Negative(plain) && DropMinus(plain) == plain
    ensures Negative("-" + plain) && DropMinus("-" + plain) == plain
  {
    Unsigned(plain);
    assert ("-" + plain)[1..] == plain;
  }

  /** The digits of a magnitude, at least one of them before the point. */
  function DigitsFor(magnitude: nat, decimals: nat): string {
    PadStart(Print(magnitude), decimals + 1)
  }

  lemma DigitsRead(magnitude: nat, decimals: nat)
    ensures var digits := DigitsFor(magnitude, decimals);
            AllDigits(digits) && |digits| > decimals && Read(digits) == magnitude
  {
    ReadPrint(magnitude);
    ReadPadded(Print(magnitude), decimals + 1);
    hide Print, PadStart, Read;
  }

  lemma TextShape(minor: int, decimals: int, magnitude: nat)
    requires 0 <= decimals <= 7 && magnitude == if minor < 0 then -minor else minor
    requires |DigitsFor(magnitude, decimals)| > decimals
    ensures MinorToStellarAmount(minor, decimals).Ok?
    ensures MinorToStellarAmount(minor, decimals).value
         == (if minor < 0 then "-" else "") + Pointed(DigitsFor(magnitude, decimals), decimals)
  {
    hide Print, PadStart, Read;
    var digits := DigitsFor(magnitude, decimals);
    var cut := |digits| - decimals;
    var sign := if minor < 0 then "-" else "";
    var fraction := if decimals > 0 then "." + digits[cut..] else "";
    assert sign + digits[..cut] + fraction == sign + (digits[..cut] + fraction);
    assert Pointed(digits, decimals) == digits[..cut] + fraction;
  }

  lemma PointedReads(digits: string, decimals: nat, negative: bool)
    requires AllDigits(digits) && |digits| > decimals
    ensures var read := StellarAmountToMinor((if negative then "-" else "") + Pointed(digits, decimals), decimals);
            && read.Ok?
            && (if negative then read.value + Read(digits) == 0 else read.value == Read(digits))
  {
    var plain := Pointed(digits, decimals);
    UnsignedRoundTrip(digits, decimals);
    SignedText(plain);
    hide Read, Pow10, Scale, BeforePoint, AfterPoint, DropMinus, Negative, TrimStart, ReadBig, Pointed;
    assert "" + plain == plain;
  }

  /** Every whole number of minor units, at every precision Stellar has, comes back from its text. */
  lemma AmountRoundTrip(minor: int, decimals: int)
    ensures MinorToStellarAmount(minor, decimals).Ok? <==> 0 <= decimals <= 7
    ensures 0 <= decimals <= 7 ==>
              StellarAmountToMinor(MinorToStellarAmount(minor, decimals).value, decimals) == Ok(minor)
  {
    if 0 <= decimals <= 7 { SupportedRoundTrip(minor, decimals); }
    hide StellarAmountToMinor, PadStart, Print;
  }

  lemma SupportedRoundTrip(minor: int, decimals: int)
    requires 0 <= decimals <= 7
    ensures MinorToStellarAmount(minor, decimals).Ok?
    ensures StellarAmountToMinor(MinorToStellarAmount(minor, decimals).value, decimals) == Ok(minor)
  {
    hide MinorToStellarAmount, StellarAmountToMinor, Pointed, DigitsFor, Read;
    var magnitude := if minor < 0 then -minor else minor;
    DigitsRead(magnitude, decimals);
    TextShape(minor, decimals, magnitude);
    PointedReads(DigitsFor(magnitude, decimals), decimals, minor < 0);
  }

  /**
   * The text of an amount has a sign exactly when it is negative, at least one digit before the point and no needless
   * zero there, and after the point exactly as many digits as decimals; without decimals there is no point.
   */
  lemma TextMeans(minor: int, decimals: int) returns (whole: string, fraction: string)
    requires 0 <= decimals <= 7
    ensures AllDigits(whole) && AllDigits(fraction) && |whole| >= 1 && |fraction| == decimals
    ensures |whole| > 1 ==> whole[0] != '0'
    ensures MinorToStellarAmount(minor, decimals).Ok?
    ensures MinorToStellarAmount(minor, decimals).value
         == (if minor < 0 then "-" else "") + (whole + (if decimals > 0 then "." + fraction else ""))
  {
    var magnitude := if minor < 0 then -minor else minor;
    DigitsRead(magnitude, decimals);
    TextShape(minor, decimals, magnitude);
    NoNeedlessZero(magnitude, decimals);
    hide MinorToStellarAmount, DigitsFor;
    var digits := DigitsFor(magnitude, decimals);
    whole, fraction := digits[..|digits| - decimals], digits[|digits| - decimals..];
  }

  lemma NoNeedlessZero(magnitude: nat, decimals: nat)
    ensures var digits := DigitsFor(magnitude, decimals); |digits| > decimals + 1 ==> digits[0] != '0'
  {
    ReadPrint(magnitude);
  }

  // ----- The supply

  /** An unsigned decimal text: digits, and perhaps a point and more digits. */
  datatype Amount = Amount(whole: string, fraction: string)

  predicate Valid(a: Amount) {
    AllDigits(a.whole) && AllDigits(a.fraction)
  }

  function TextOf(a: Amount): string {
    if a.fraction == "" then a.whole else a.whole + "." + a.fraction
  }

  function Ratio(x: nat, y: nat): real
    requires y >= 1
  {
    x as real / y as real
  }

  function Quotient(x: nat, y: nat): nat
    requires y >= 1
  {
    x / y
  }

  function Numerator(a: Amount, decimals: nat): nat
    requires Valid(a)
  {
    Read(a.whole + a.fraction) * Pow10(decimals)
  }

  /** The exact number an amount stands for, in minor units. */
  function Exact(a: Amount, decimals: nat): real
    requires Valid(a)
  {
    Ratio(Numerator(a, decimals), Pow10(|a.fraction|))
  }

  /** The sum getSupply folds over the balance components; an absent component counts as "0". */
  function Supply(parts: seq<Option<string>>, decimals: nat): Result<int> {
    if parts == [] then Ok(0)
    else
      var earlier :- Supply(parts[..|parts| - 1], decimals);
      var last :- StellarAmountToMinor(parts[|parts| - 1].GetOr("0"), decimals);
      Ok(earlier + last)
  }

  lemma SupplyOfOneMore(parts: seq<Option<string>>, last: Option<string>, decimals: nat)
    ensures Supply(parts + [last], decimals)
         == var earlier := Supply(parts, decimals);
            if earlier.Err? then earlier
            else
              var read := StellarAmountToMinor(last.GetOr("0"), decimals);
              if read.Err? then read else Ok(earlier.value + read.value)
  {
    hide StellarAmountToMinor;
    assert (parts + [last])[..|parts|] == parts;
  }

  /** An absent component adds nothing, wherever it stands. */
  lemma {:induction false} AbsentAddsNothing(front: seq<Option<string>>, back: seq<Option<string>>, decimals: nat)
    ensures Supply(front + [None] + back, decimals) == Supply(front + back, decimals)
  {
    hide Supply, StellarAmountToMinor;
    if back == [] {
      ZeroReads(decimals);
      SupplyOfOneMore(front, None, decimals);
      assert front + [None] + back == front + [None] && front + back == front;
    } else {
      var n := |back| - 1;
      assert front + [None] + back == front + [None] + back[..n] + [back[n]];
      assert front + back == front + back[..n] + [back[n]];
      SupplyOfOneMore(front + [None] + back[..n], back[n], decimals);
      SupplyOfOneMore(front + back[..n], back[n], decimals);
      AbsentAddsNothing(front, back[..n], decimals);
    }
  }

  lemma ZeroReads(decimals: nat)
    ensures StellarAmountToMinor("0", decimals) == Ok(0)
  {
    UnsignedSplits(Amount("0", ""), decimals);
    ScaleReads("", decimals);
    assert "0"[..0] == "" && Read("0") == 0;
    hide StellarAmountToMinor, Scale;
    QuotientOf(0, Pow10(0), 0, 0);
  }

  function ExactSum(parts: seq<Amount>, decimals: nat): real
    requires forall i :: 0 <= i < |parts| ==> Valid(parts[i])
  {
    if parts == [] then 0.0 else ExactSum(parts[..|parts| - 1], decimals) + Exact(parts[|parts| - 1], decimals)
  }

  lemma FloorOfQuotient(x: nat, y: nat)
    requires y >= 1
    ensures Ratio(x, y).Floor == Quotient(x, y)
  {
    var q, r := x / y, x % y;
    assert x == q * y + r;
    var f := x as real / y as real;
    assert f * y as real == x as real;
    assert (q * y) as real == q as real * y as real;
    assert (f - q as real) * y as real == r as real;
    assert 0.0 <= f - q as real < 1.0 by {
      if f - q as real < 0.0 { Negated(f - q as real, y as real); }
      if f - q as real >= 1.0 { AtLeastWhole(f - q as real, y as real); }
    }
  }

  lemma Negated(a: real, b: real)
    requires a < 0.0 && b > 0.0
    ensures a * b < 0.0
  {
  }

  lemma AtLeastWhole(a: real, b: real)
    requires a >= 1.0 && b > 0.0
    ensures a * b >= b
  {
  }

  // Arithmetic over the digits, on plain numbers.

  lemma QuotientOf(x: nat, m: nat, q: nat, r: nat)
    requires m >= 1 && r < m && x == q * m + r
    ensures Quotient(x, m) == q
  {
    QuotientUnique(x, m, q, r);
  }

  lemma MultipliedQuotient(x: nat, more: nat, p: nat, d: nat)
    requires p >= 1 && d == more * p
    ensures Quotient(x * d, p) == x * more
  {
    assert x * d == x * more * p;
    QuotientOf(x * d, p, x * more, 0);
  }

  lemma TruncatedQuotient(x: nat, kept: nat, dropped: nat, p: nat, d: nat, m: nat)
    requires p >= 1 && d >= 1 && dropped < p
    requires x == kept * p + dropped && m == p * d && m >= 1
    ensures Quotient(x * d, m) == kept
  {
    Regroup(kept, dropped, d, p);
    assert kept * d * p == kept * m;
    assert dropped * d <= (p - 1) * d;
    assert (p - 1) * d == m - d;
    QuotientOf(x * d, m, kept, dropped * d);
  }

  lemma Regroup(whole: nat, fraction: nat, d: nat, p: nat)
    ensures (whole * p + fraction) * d == whole * d * p + fraction * d
  {
  }

  lemma SumTimes(a: nat, b: nat, p: nat)
    ensures (a + b) * p == a * p + b * p
  {
  }

  lemma WholeAndFraction(x: nat, whole: nat, fraction: nat, d: nat, p: nat)
    requires p >= 1 && x == whole * p + fraction
    ensures Quotient(x * d, p) == whole * d + Quotient(fraction * d, p)
  {
    var q, r := fraction * d / p, fraction * d % p;
    assert fraction * d == p * q + r;
    Regroup(whole, fraction, d, p);
    SumTimes(whole * d, q, p);
    QuotientOf(x * d, p, whole * d + q, r);
  }

  lemma NothingLeft(x: nat, whole: nat, fraction: nat, more: nat, p: nat, d: nat)
    requires p >= 1 && d == more * p && x == whole * p + fraction
    ensures Ratio(x * d, p) == (whole * d + fraction * more) as real
  {
    var q := whole * d + fraction * more;
    Regroup(whole, fraction, d, p);
    assert fraction * d == fraction * more * p;
    assert x * d == q * p;
    assert (q * p) as real == q as real * p as real;
  }

  /** Dropping digits of a fraction divides, adding zeros multiplies. */
  lemma ScaleReads(fraction: string, decimals: nat)
    requires AllDigits(fraction)
    ensures AllDigits(Scale(fraction, decimals))
    ensures Read(Scale(fraction, decimals)) == Quotient(Read(fraction) * Pow10(decimals), Pow10(|fraction|))
  {
    if |fraction| <= decimals {
      ZerosAdded(fraction, decimals);
      hide Pow10, Read, Scale, Quotient;
      MultipliedQuotient(Read(fraction), Pow10(decimals - |fraction|), Pow10(|fraction|), Pow10(decimals));
    } else {
      DigitsDropped(fraction, decimals);
    }
  }

  lemma ZerosAdded(fraction: string, decimals: nat)
    requires AllDigits(fraction) && |fraction| <= decimals
    ensures AllDigits(Scale(fraction, decimals))
    ensures Read(Scale(fraction, decimals)) == Read(fraction) * Pow10(decimals - |fraction|)
    ensures Pow10(decimals) == Pow10(decimals - |fraction|) * Pow10(|fraction|)
  {
    var k := |fraction|;
    assert Scale(fraction, decimals) == fraction + Zeros(decimals)[..decimals - k];
    ZerosPrefix(decimals, decimals - k);
    Pow10Adds(decimals - k, k);
    hide Pow10, Read, Scale, Zeros;
    ReadConcat(fraction, Zeros(decimals - k));
    ReadZeros(decimals - k);
  }

  lemma DigitsDropped(fraction: string, decimals: nat)
    requires AllDigits(fraction) && |fraction| > decimals
    ensures AllDigits(Scale(fraction, decimals))
    ensures Read(Scale(fraction, decimals)) == Quotient(Read(fraction) * Pow10(decimals), Pow10(|fraction|))
  {
    var k := |fraction|;
    var kept, dropped := fraction[..decimals], fraction[decimals..];
    assert Scale(fraction, decimals) == kept;
    assert kept + dropped == fraction;
    hide Pow10, Read, Scale, Quotient;
    ReadConcat(kept, dropped);
    ReadBounded(dropped);
    Pow10Adds(k - decimals, decimals);
    TruncatedQuotient(Read(fraction), Read(kept), Read(dropped), Pow10(k - decimals), Pow10(decimals), Pow10(k));
  }

  lemma {:induction false} ZerosPrefix(n: nat, k: nat)
    requires k <= n
    ensures Zeros(n)[..k] == Zeros(k)
  {
    if k < n {
      ZerosPrefix(n - 1, k);
      assert Zeros(n)[..k] == Zeros(n - 1)[..k];
    } else {
      assert Zeros(n)[..k] == Zeros(n);
    }
  }

  lemma ReadingDivides(a: Amount, decimals: nat)
    requires Valid(a)
    ensures StellarAmountToMinor(TextOf(a), decimals).Ok?
    ensures StellarAmountToMinor(TextOf(a), decimals).value == Quotient(Numerator(a, decimals), Pow10(|a.fraction|))
  {
    UnsignedSplits(a, decimals);
    ScaleReads(a.fraction, decimals);
    hide Pow10, Read, Scale, StellarAmountToMinor, TextOf, Quotient;
    ReadConcat(a.whole, a.fraction);
    WholeAndFraction(Read(a.whole + a.fraction), Read(a.whole), Read(a.fraction), Pow10(decimals),
                     Pow10(|a.fraction|));
  }

  /** Reading an amount truncates the exact number. */
  lemma ReadingTruncates(a: Amount, decimals: nat)
    requires Valid(a)
    ensures StellarAmountToMinor(TextOf(a), decimals).Ok?
    ensures StellarAmountToMinor(TextOf(a), decimals).value == Exact(a, decimals).Floor
  {
    hide Pow10, Numerator, StellarAmountToMinor, TextOf, Ratio, Quotient;
    ReadingDivides(a, decimals);
    FloorOfQuotient(Numerator(a, decimals), Pow10(|a.fraction|));
  }

  /** It is exact when no digit is dropped. */
  lemma ReadingIsExact(a: Amount, decimals: nat)
    requires Valid(a) && |a.fraction| <= decimals
    ensures StellarAmountToMinor(TextOf(a), decimals).Ok?
    ensures StellarAmountToMinor(TextOf(a), decimals).value as real == Exact(a, decimals)
  {
    var k := |a.fraction|;
    UnsignedSplits(a, decimals);
    ZerosAdded(a.fraction, decimals);
    hide Pow10, Read, Scale, StellarAmountToMinor, TextOf, Ratio;
    ReadConcat(a.whole, a.fraction);
    NothingLeft(Read(a.whole + a.fraction), Read(a.whole), Read(a.fraction), Pow10(decimals - k), Pow10(k),
                Pow10(decimals));
  }

  /** An unsigned text splits into its digits, and reads as what they make. */
  lemma UnsignedSplits(a: Amount, decimals: nat)
    requires Valid(a)
    ensures AllDigits(Scale(a.fraction, decimals))
    ensures StellarAmountToMinor(TextOf(a), decimals).Ok?
    ensures StellarAmountToMinor(TextOf(a), decimals).value
         == Read(a.whole) * Pow10(decimals) + Read(Scale(a.fraction, decimals))
  {
    ScaleReads(a.fraction, decimals);
    TextSplits(a);
    hide Scale, BeforePoint, AfterPoint, DropMinus, Negative, TextOf, Read, Pow10, Quotient;
    assert AllDigits(a.whole);
  }

  lemma TextSplits(a: Amount)
    requires Valid(a)
    ensures var text := TextOf(a);
            && !Negative(text) && DropMinus(text) == text
            && BeforePoint(text) == a.whole && AfterPoint(text) == a.fraction
  {
    var text := TextOf(a);
    Unsigned(text);
    if a.fraction == "" { NoPoint(a.whole); } else { SplitAtPoint(a.whole, a.fraction); }
    assert TrimStart(text) == text;
  }

  /** The texts of a list of amounts, as the record's components. */
  function Texts(parts: seq<Amount>): seq<Option<string>> {
    seq(|parts|, i requires 0 <= i < |parts| => Some(TextOf(parts[i])))
  }

  ghost predicate AllValid(parts: seq<Amount>) {
    forall i :: 0 <= i < |parts| ==> Valid(parts[i])
  }

  /** The total is below the exact sum by less than one minor unit for each component. */
  lemma {:induction false} TotalNearSum(parts: seq<Amount>, decimals: nat)
    requires AllValid(parts)
    ensures Supply(Texts(parts), decimals).Ok?
    ensures var total := Supply(Texts(parts), decimals).value as real;
            && total <= ExactSum(parts, decimals)
            && (parts != [] ==> ExactSum(parts, decimals) < total + |parts| as real)
            && ((forall i :: 0 <= i < |parts| ==> |parts[i].fraction| <= decimals) ==>
                  total == ExactSum(parts, decimals))
  {
    if parts != [] {
      var n := |parts| - 1;
      assert Texts(parts)[..n] == Texts(parts[..n]);
      assert forall i :: 0 <= i < n ==> parts[..n][i] == parts[i];
      TotalNearSum(parts[..n], decimals);
      ReadingTruncates(parts[n], decimals);
      if |parts[n].fraction| <= decimals { ReadingIsExact(parts[n], decimals); }
      hide Exact, StellarAmountToMinor, TextOf;
      assert Texts(parts)[n].GetOr("0") == TextOf(parts[n]);
    }
  }

  /**
   * The supply of n components is at most the truncation of the exact sum and at least that minus n - 1 minor units
   * (5 for the six of Horizon), and is exact when no component has more fractional digits than the asset.
   */
  lemma SupplyBound(parts: seq<Amount>, decimals: nat)
    requires AllValid(parts) && parts != []
    ensures Supply(Texts(parts), decimals).Ok?
    ensures var total, exact := Supply(Texts(parts), decimals).value, ExactSum(parts, decimals).Floor;
            && exact - (|parts| - 1) <= total <= exact
            && ((forall i :: 0 <= i < |parts| ==> |parts[i].fraction| <= decimals) ==>
                  total == exact && total as real == ExactSum(parts, decimals))
  {
    TotalNearSum(parts, decimals);
  }

  function Nines(n: nat): (parts: seq<Amount>)
    ensures |parts| == n && AllValid(parts)
  {
    if n == 0 then [] else Nines(n - 1) + [Amount("0", "9")]
  }

  /** The bound is reached: six components of nine tenths of a minor unit each, 5.4 in all, are read as nothing. */
  lemma SupplyBoundIsTight()
    ensures Supply(Texts(Nines(6)), 0) == Ok(0)
    ensures ExactSum(Nines(6), 0).Floor == 5
  {
    NinesAdd(6);
  }

  lemma NineTenths()
    ensures var nine := Amount("0", "9");
            Valid(nine) && Exact(nine, 0) == 0.9 && StellarAmountToMinor(TextOf(nine), 0) == Ok(0)
  {
    var nine := Amount("0", "9");
    var s := nine.whole + nine.fraction;
    assert s[..1] == "0" && "0"[..0] == "";
    assert Read("0") == 0 && Read(s) == 9;
    assert Pow10(1) == 10 * Pow10(0);
    ReadingTruncates(nine, 0);
  }

  lemma {:induction false} NinesAdd(n: nat)
    ensures Supply(Texts(Nines(n)), 0).Ok? && Supply(Texts(Nines(n)), 0).value == 0
    ensures ExactSum(Nines(n), 0) == 0.9 * n as real
  {
    if n > 0 {
      NineTenths();
      hide Exact, StellarAmountToMinor, TextOf;
      NinesAdd(n - 1);
      assert Nines(n)[..n - 1] == Nines(n - 1);
      assert Texts(Nines(n))[..n - 1] == Texts(Nines(n - 1));
    }
  }
}
