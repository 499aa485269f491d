/** Canonical JSON: sorting, printing, and reading back (sections 2 and 7 of RFC 8259). */
module CanonicalJson {
  import opened Results
  import opened Decimal

  /** A UTF-16 code unit. */
  type Unit = x: int | 0 <= x < 0x10000
  type Text = seq<Unit>

  /** A payload value. Numbers are whole and small enough to print without an exponent. */
  datatype Json =
    | Null
    | Bool(value: bool)
    | Num(n: int)
    | Big(n: int)
    | Str(text: Text)
    | Arr(items: seq<Json>)
    | Obj(fields: seq<Field>)

  /** An own property; the fields of an object stand in the order they were added. */
  datatype Field = Field(key: Text, value: Json)

  const QUOTE: Unit := 0x22
  const BACKSLASH: Unit := 0x5C
  const COMMA: Unit := 0x2C
  const COLON: Unit := 0x3A
  const MINUS: Unit := 0x2D
  const OPEN_ARRAY: Unit := 0x5B
  const CLOSE_ARRAY: Unit := 0x5D
  const OPEN_OBJECT: Unit := 0x7B
  const CLOSE_OBJECT: Unit := 0x7D
  const NULL_TEXT: Text := [0x6E, 0x75, 0x6C, 0x6C]
  const TRUE_TEXT: Text := [0x74, 0x72, 0x75, 0x65]
  const FALSE_TEXT: Text := [0x66, 0x61, 0x6C, 0x73, 0x65]

  // ----- Which values are meant

  ghost predicate DistinctKeys(fields: seq<Field>) {
    forall i, j :: 0 <= i < j < |fields| ==> fields[i].key != fields[j].key
  }

  /** Every object has each key once. */
  ghost predicate WellFormed(v: Json) {
    match v
    case Arr(items) => forall i :: 0 <= i < |items| ==> WellFormed(items[i])
    case Obj(fields) => DistinctKeys(fields) && forall i :: 0 <= i < |fields| ==> WellFormed(fields[i].value)
    case _ => true
  }

  /** No bigint is left. */
  ghost predicate Plain(v: Json) {
    match v
    case Big(_) => false
    case Arr(items) => AllPlain(items)
    case Obj(fields) => FieldsPlain(fields)
    case _ => true
  }

  ghost predicate AllPlain(items: seq<Json>) {
    forall i :: 0 <= i < |items| ==> Plain(items[i])
  }

  ghost predicate FieldsPlain(fields: seq<Field>) {
    forall i :: 0 <= i < |fields| ==> Plain(fields[i].value)
  }

  // ----- The order of keys

  /** Code unit by code unit, a prefix first. */
  predicate Before(a: Text, b: Text) {
    if a == [] then true
    else if b == [] then false
    else if a[0] != b[0] then a[0] < b[0]
    else Before(a[1..], b[1..])
  }

  lemma {:induction false} BeforeTotal(a: Text, b: Text)
    ensures Before(a, b) || Before(b, a)
    ensures Before(a, b) && Before(b, a) ==> a == b
  {
    if a != [] && b != [] && a[0] == b[0] {
      BeforeTotal(a[1..], b[1..]);
      assert a == [a[0]] + a[1..] && b == [b[0]] + b[1..];
    }
  }

  lemma {:induction false} BeforeTransitive(a: Text, b: Text, c: Text)
    requires Before(a, b) && Before(b, c)
    ensures Before(a, c)
  {
    if a != [] && b != [] && c != [] && a[0] == b[0] == c[0] {
      BeforeTransitive(a[1..], b[1..], c[1..]);
    }
  }

  // ----- Sorting

  function InsertField(sorted: seq<Field>, f: Field): seq<Field> {
    if sorted == [] || !Before(f.key, sorted[|sorted| - 1].key) then sorted + [f]
    else InsertField(sorted[..|sorted| - 1], f) + [sorted[|sorted| - 1]]
  }

  function SortFields(fields: seq<Field>): seq<Field> {
    if fields == [] then [] else InsertField(SortFields(fields[..|fields| - 1]), fields[|fields| - 1])
  }

  function DecimalText(n: int): Text {
    Ascii(PrintInt(n))
  }

  function UnitOf(ch: char): Unit
    requires IsDigit(ch) || ch == '-'
  {
    ch as int
  }

  function Ascii(s: string): Text
    requires forall i :: 0 <= i < |s| ==> IsDigit(s[i]) || s[i] == '-'
  {
    seq(|s|, i requires 0 <= i < |s| => UnitOf(s[i]))
  }

  /** Bigints become decimal strings, arrays go item by item, objects by sorted key. */
  function Canon(v: Json): Json {
    match v
    case Big(n) => Str(DecimalText(n))
    case Arr(items) => Arr(CanonItems(items))
    case Obj(fields) => Obj(SortFields(CanonFields(fields)))
    case _ => v
  }

  function CanonItems(items: seq<Json>): (r: seq<Json>)
    ensures |r| == |items|
    ensures forall i :: 0 <= i < |items| ==> r[i] == Canon(items[i])
  {
    seq(|items|, i requires 0 <= i < |items| => Canon(items[i]))
  }

  function CanonFields(fields: seq<Field>): (r: seq<Field>)
    ensures |r| == |fields|
    ensures forall i :: 0 <= i < |fields| ==> r[i] == Field(fields[i].key, Canon(fields[i].value))
  {
    seq(|fields|, i requires 0 <= i < |fields| => Field(fields[i].key, Canon(fields[i].value)))
  }

  // ----- What it means for two payloads to be the same

  /** Equal up to the order of keys, a bigint being its decimal string. */
  ghost predicate Same(a: Json, b: Json)
    decreases a
  {
    match a
    case Null => b.Null?
    case Bool(x) => b == Bool(x)
    case Num(n) => b == Num(n)
    case Big(n) => b == Big(n) || b == Str(DecimalText(n))
    case Str(s) => b == Str(s) || (b.Big? && s == DecimalText(b.n))
    case Arr(items) =>
      b.Arr? && |items| == |b.items| && forall i :: 0 <= i < |items| ==> Same(items[i], b.items[i])
    case Obj(fields) => b.Obj? && SameFields(fields, b.fields)
  }

  /** Each field of one object is a field of the other. */
  ghost predicate SameFields(a: seq<Field>, b: seq<Field>)
    decreases a, 1
  {
    && (forall i :: 0 <= i < |a| ==> FoundIn(a[i], b))
    && (forall j :: 0 <= j < |b| ==> MetIn(b[j], a))
  }

  ghost predicate FoundIn(f: Field, others: seq<Field>)
    decreases f, 1
  {
    exists j :: 0 <= j < |others| && SameField(f, others[j])
  }

  ghost predicate MetIn(g: Field, fields: seq<Field>)
    decreases fields, 0
  {
    exists i :: 0 <= i < |fields| && SameField(fields[i], g)
  }

  ghost predicate SameField(f: Field, g: Field)
    decreases f, 0
  {
    f.key == g.key && Same(f.value, g.value)
  }

  // ----- Printing

  predicate IsHigh(u: Unit) { 0xD800 <= u < 0xDC00 }
  predicate IsLow(u: Unit) { 0xDC00 <= u < 0xE000 }

  function HexDigit(d: int): Unit
    requires 0 <= d < 16
  {
    if d < 10 then 0x30 + d else 0x61 + d - 10
  }

  function Hex4(u: Unit): (t: Text)
    ensures |t| == 4
  {
    [HexDigit(u / 4096), HexDigit(u / 256 % 16), HexDigit(u / 16 % 16), HexDigit(u % 16)]
  }

  /** A code unit inside a string: control characters, quotes, backslashes and lone surrogates are escaped. */
  function Escape(u: Unit): Text {
    if u == 0x22 then [BACKSLASH, 0x22]
    else if u == 0x5C then [BACKSLASH, 0x5C]
    else if u == 0x08 then [BACKSLASH, 0x62]
    else if u == 0x09 then [BACKSLASH, 0x74]
    else if u == 0x0A then [BACKSLASH, 0x6E]
    else if u == 0x0C then [BACKSLASH, 0x66]
    else if u == 0x0D then [BACKSLASH, 0x72]
    else if u < 0x20 || IsHigh(u) || IsLow(u) then [BACKSLASH, 0x75] + Hex4(u)
    else [u]
  }

  /** A surrogate pair is copied. */
  function Body(s: Text): Text {
    if s == [] then []
    else if IsHigh(s[0]) && |s| > 1 && IsLow(s[1]) then [s[0], s[1]] + Body(s[2..])
    else Escape(s[0]) + Body(s[1..])
  }

  function Quote(s: Text): Text {
    [QUOTE] + Body(s) + [QUOTE]
  }

  function Print(v: Json): Text
    requires Plain(v)
  {
    match v
    case Null => NULL_TEXT
    case Bool(b) => if b then TRUE_TEXT else FALSE_TEXT
    case Num(n) => DecimalText(n)
    case Str(s) => Quote(s)
    case Arr(items) => [OPEN_ARRAY] + PrintItems(items) + [CLOSE_ARRAY]
    case Obj(fields) => [OPEN_OBJECT] + PrintFields(fields) + [CLOSE_OBJECT]
  }

  function PrintItems(items: seq<Json>): Text
    requires AllPlain(items)
  {
    if items == [] then []
    else if |items| == 1 then Print(items[0])
    else Print(items[0]) + [COMMA] + PrintItems(items[1..])
  }

  function PrintField(f: Field): Text
    requires Plain(f.value)
  {
    Quote(f.key) + [COLON] + Print(f.value)
  }

  function PrintFields(fields: seq<Field>): Text
    requires FieldsPlain(fields)
  {
    if fields == [] then []
    else if |fields| == 1 then PrintField(fields[0])
    else PrintField(fields[0]) + [COMMA] + PrintFields(fields[1..])
  }

  // ----- Reading

  datatype Parsed<+T> = Fail | Done(value: T, rest: Text)

  function HexValue(u: Unit): Option<int> {
    if 0x30 <= u <= 0x39 then Some(u - 0x30)
    else if 0x61 <= u <= 0x66 then Some(u - 0x61 + 10)
    else if 0x41 <= u <= 0x46 then Some(u - 0x41 + 10)
    else None
  }

  function ReadHex4(t: Text): Parsed<Unit>
    requires |t| >= 4
  {
    var a, b, c, d := HexValue(t[0]), HexValue(t[1]), HexValue(t[2]), HexValue(t[3]);
    if a.None? || b.None? || c.None? || d.None? then Fail
    else
      var u := a.value * 4096 + b.value * 256 + c.value * 16 + d.value;
      if 0 <= u < 0x10000 then Done(u, t[4..]) else Fail
  }

  function SimpleEscape(u: Unit): Option<Unit> {
    if u == 0x22 || u == 0x5C || u == 0x2F then Some(u)
    else if u == 0x62 then Some(0x08)
    else if u == 0x66 then Some(0x0C)
    else if u == 0x6E then Some(0x0A)
    else if u == 0x72 then Some(0x0D)
    else if u == 0x74 then Some(0x09)
    else None
  }

  /** One code unit of a string, written plainly or escaped. */
  function ReadUnit(t: Text): (r: Parsed<Unit>)
    requires t != []
    ensures r.Done? ==> |r.rest| < |t|
  {
    if t[0] == BACKSLASH then
      if |t| < 2 then Fail
      else if t[1] == 0x75 then (if |t| < 6 then Fail else ReadHex4(t[2..]))
      else match SimpleEscape(t[1])
        case Some(u) => Done(u, t[2..])
        case None => Fail
    else if t[0] < 0x20 then Fail
    else Done(t[0], t[1..])
  }

  /** The rest of a string, up to its closing quote. */
  function ReadBody(t: Text): (r: Parsed<Text>)
    ensures r.Done? ==> |r.rest| < |t|
    decreases |t|
  {
    if t == [] then Fail
    else if t[0] == QUOTE then Done([], t[1..])
    else match ReadUnit(t)
      case Fail => Fail
      case Done(u, rest) =>
        match ReadBody(rest)
        case Fail => Fail
        case Done(s, after) => Done([u] + s, after)
  }

  predicate UnitIsDigit(u: Unit) {
    0x30 <= u <= 0x39
  }

  /** How many digits stand at the front. */
  function DigitRun(t: Text): (k: nat)
    ensures k <= |t| && forall i :: 0 <= i < k ==> UnitIsDigit(t[i])
  {
    if t != [] && UnitIsDigit(t[0]) then 1 + DigitRun(t[1..]) else 0
  }

  function CharOf(u: Unit): (ch: char)
    requires UnitIsDigit(u)
    ensures IsDigit(ch)
  {
    u as char
  }

  function FromAscii(t: Text): (s: string)
    requires forall i :: 0 <= i < |t| ==> UnitIsDigit(t[i])
    ensures AllDigits(s)
  {
    seq(|t|, i requires 0 <= i < |t| => CharOf(t[i]))
  }

  /** A natural number without needless zeros in front. */
  function ReadNat(t: Text): (r: Parsed<nat>)
    ensures r.Done? ==> |r.rest| < |t|
  {
    var k := DigitRun(t);
    if k == 0 || (k > 1 && t[0] == 0x30) then Fail else Done(Read(FromAscii(t[..k])), t[k..])
  }

  function ReadNumber(t: Text): (r: Parsed<Json>)
    ensures r.Done? ==> |r.rest| < |t|
  {
    if t != [] && t[0] == MINUS then
      match ReadNat(t[1..])
      case Fail => Fail
      case Done(n, rest) => Done(Num(0 - n), rest)
    else
      match ReadNat(t)
      case Fail => Fail
      case Done(n, rest) => Done(Num(n), rest)
  }

  function ReadWord(t: Text, word: Text, v: Json): (r: Parsed<Json>)
    requires word != []
    ensures r.Done? ==> |r.rest| < |t|
  {
    if word <= t then Done(v, t[|word|..]) else Fail
  }

  function ReadValue(t: Text): (r: Parsed<Json>)
    ensures r.Done? ==> |r.rest| < |t|
    decreases |t|, 0
  {
    if t == [] then Fail
    else if t[0] == 0x6E then ReadWord(t, NULL_TEXT, Null)
    else if t[0] == 0x74 then ReadWord(t, TRUE_TEXT, Bool(true))
    else if t[0] == 0x66 then ReadWord(t, FALSE_TEXT, Bool(false))
    else if t[0] == QUOTE then
      match ReadBody(t[1..])
      case Fail => Fail
      case Done(s, rest) => Done(Str(s), rest)
    else if t[0] == OPEN_ARRAY then
      if |t| > 1 && t[1] == CLOSE_ARRAY then Done(Arr([]), t[2..])
      else match ReadItems(t[1..])
        case Fail => Fail
        case Done(items, rest) => Done(Arr(items), rest)
    else if t[0] == OPEN_OBJECT then
      if |t| > 1 && t[1] == CLOSE_OBJECT then Done(Obj([]), t[2..])
      else match ReadFields(t[1..])
        case Fail => Fail
        case Done(fields, rest) => Done(Obj(fields), rest)
    else ReadNumber(t)
  }

  /** Items up to the closing bracket. */
  function ReadItems(t: Text): (r: Parsed<seq<Json>>)
    ensures r.Done? ==> |r.rest| < |t|
    decreases |t|, 1
  {
    match ReadValue(t)
    case Fail => Fail
    case Done(v, rest) =>
      if rest == [] then Fail
      else if rest[0] == CLOSE_ARRAY then Done([v], rest[1..])
      else if rest[0] != COMMA then Fail
      else match ReadItems(rest[1..])
        case Fail => Fail
        case Done(more, after) => Done([v] + more, after)
  }

  function ReadField(t: Text): (r: Parsed<Field>)
    ensures r.Done? ==> |r.rest| < |t|
    decreases |t|, 1
  {
    if t == [] || t[0] != QUOTE then Fail
    else match ReadBody(t[1..])
      case Fail => Fail
      case Done(key, rest) =>
        if rest == [] || rest[0] != COLON then Fail
        else match ReadValue(rest[1..])
          case Fail => Fail
          case Done(v, after) => Done(Field(key, v), after)
  }

  /** Fields up to the closing brace. */
  function ReadFields(t: Text): (r: Parsed<seq<Field>>)
    ensures r.Done? ==> |r.rest| < |t|
    decreases |t|, 2
  {
    match ReadField(t)
    case Fail => Fail
    case Done(f, rest) =>
      if rest == [] then Fail
      else if rest[0] == CLOSE_OBJECT then Done([f], rest[1..])
      else if rest[0] != COMMA then Fail
      else match ReadFields(rest[1..])
        case Fail => Fail
        case Done(more, after) => Done([f] + more, after)
  }

  /** A whole text that is one value. */
  function Parse(t: Text): Option<Json> {
    match ReadValue(t)
    case Fail => None
    case Done(v, rest) => if rest == [] then Some(v) else None
  }

  // ----- Reading gives back what was printed

  lemma HexDigitBack(d: int)
    requires 0 <= d < 16
    ensures HexValue(HexDigit(d)) == Some(d)
  {
  }

  lemma HexDigits(u: Unit)
    ensures u / 4096 < 16
    ensures u == u / 4096 * 4096 + u / 256 % 16 * 256 + u / 16 % 16 * 16 + u % 16
  {
    assert u / 4096 == u / 256 / 16 && u / 256 == u / 16 / 16;
  }

  lemma HexBack(u: Unit, rest: Text)
    ensures ReadHex4(Hex4(u) + rest) == Done(u, rest)
  {
    HexDigits(u);
    HexDigitBack(u / 4096);
    HexDigitBack(u / 256 % 16);
    HexDigitBack(u / 16 % 16);
    HexDigitBack(u % 16);
    hide HexDigit, HexValue;
    var t := Hex4(u) + rest;
    assert t[0] == HexDigit(u / 4096) && t[1] == HexDigit(u / 256 % 16);
    assert t[2] == HexDigit(u / 16 % 16) && t[3] == HexDigit(u % 16);
    assert t[4..] == rest;
  }

  lemma EscapeBack(u: Unit, rest: Text)
    ensures Escape(u) != [] && Escape(u)[0] != QUOTE
    ensures ReadUnit(Escape(u) + rest) == Done(u, rest)
  {
    hide ReadHex4, Hex4;
    var t := Escape(u) + rest;
    if |Escape(u)| == 1 {
      assert t[1..] == rest;
    } else if Escape(u)[1] == 0x75 {
      HexBack(u, rest);
      assert t[2..] == Hex4(u) + rest;
    } else {
      assert t[2..] == rest;
    }
  }

  lemma PlainUnitBack(u: Unit, rest: Text)
    requires u >= 0x20 && u != QUOTE && u != BACKSLASH
    ensures ReadUnit([u] + rest) == Done(u, rest)
  {
  }

  lemma BodyStep(u: Unit, front: Text, s: Text, t: Text, rest: Text)
    requires front != [] && front[0] != QUOTE && ReadUnit(front + t) == Done(u, t)
    requires ReadBody(t) == Done(s, rest)
    ensures ReadBody(front + t) == Done([u] + s, rest)
  {
  }

  lemma {:induction false} BodyBack(s: Text, rest: Text)
    ensures ReadBody(Body(s) + [QUOTE] + rest) == Done(s, rest)
    decreases |s|, 1
  {
    if s == [] {
      assert Body(s) + [QUOTE] + rest == [QUOTE] + rest;
    } else if IsHigh(s[0]) && |s| > 1 && IsLow(s[1]) {
      PairBack(s, rest);
    } else {
      SingleBack(s, rest);
    }
  }

  lemma {:induction false} SingleBack(s: Text, rest: Text)
    requires s != [] && !(IsHigh(s[0]) && |s| > 1 && IsLow(s[1]))
    ensures ReadBody(Body(s) + [QUOTE] + rest) == Done(s, rest)
    decreases |s|, 0
  {
    hide ReadBody, ReadUnit, Escape;
    var tail := Body(s[1..]) + [QUOTE] + rest;
    assert Body(s) == Escape(s[0]) + Body(s[1..]);
    hide Body;
    BodyBack(s[1..], rest);
    Regroup(Escape(s[0]), Body(s[1..]), [QUOTE], rest);
    EscapeBack(s[0], tail);
    BodyStep(s[0], Escape(s[0]), s[1..], tail, rest);
    assert [s[0]] + s[1..] == s;
  }

  lemma {:induction false} PairBack(s: Text, rest: Text)
    requires |s| > 1 && IsHigh(s[0]) && IsLow(s[1])
    ensures ReadBody(Body(s) + [QUOTE] + rest) == Done(s, rest)
    decreases |s|, 0
  {
    var tail := Body(s[2..]) + [QUOTE] + rest;
    BodyBack(s[2..], rest);
    assert Body(s) + [QUOTE] + rest == [s[0]] + ([s[1]] + tail);
    PlainUnitBack(s[1], tail);
    PlainUnitBack(s[0], [s[1]] + tail);
    hide Body, ReadBody, ReadUnit;
    BodyStep(s[1], [s[1]], s[2..], tail, rest);
    var front, back := [s[0]], [s[1]] + tail;
    BodyStep(s[0], front, [s[1]] + s[2..], back, rest);
    assert [s[0]] + ([s[1]] + s[2..]) == s;
  }

  /** What may follow a number without being taken for part of it. */
  predicate EndsNumber(rest: Text) {
    rest == [] || !UnitIsDigit(rest[0])
  }

  lemma {:induction false} RunStops(digits: Text, rest: Text)
    requires forall i :: 0 <= i < |digits| ==> UnitIsDigit(digits[i])
    requires EndsNumber(rest)
    ensures DigitRun(digits + rest) == |digits|
  {
    if digits == [] {
      assert digits + rest == rest;
    } else {
      assert (digits + rest)[1..] == digits[1..] + rest;
      RunStops(digits[1..], rest);
    }
  }

  lemma NatBack(n: nat, rest: Text)
    requires EndsNumber(rest)
    ensures Print10(n) != [] && UnitIsDigit(Print10(n)[0])
    ensures ReadNat(Print10(n) + rest) == Done(n, rest)
  {
    var digits := Print10(n);
    var t := digits + rest;
    RunStops(digits, rest);
    assert t[..|digits|] == digits && t[|digits|..] == rest;
    assert FromAscii(digits) == Decimal.Print(n);
    ReadPrint(n);
    NoNeedlessZero(n);
  }

  lemma NoNeedlessZero(n: nat)
    ensures |Decimal.Print(n)| > 1 ==> Decimal.Print(n)[0] != '0'
  {
    ReadPrint(n);
  }

  /** The digits of a natural number as text. */
  function Print10(n: nat): (t: Text)
    ensures forall i :: 0 <= i < |t| ==> UnitIsDigit(t[i])
  {
    Ascii(Decimal.Print(n))
  }

  lemma NumberBack(n: int, rest: Text)
    requires EndsNumber(rest)
    ensures DecimalText(n) != [] && (DecimalText(n)[0] == MINUS || UnitIsDigit(DecimalText(n)[0]))
    ensures ReadNumber(DecimalText(n) + rest) == Done(Num(n), rest)
  {
    TextOfNumber(n);
    if n < 0 { NegativeBack(-n, rest); } else { NatBack(n, rest); }
    hide ReadNat, Print10, DecimalText;
  }

  lemma NegativeBack(n: nat, rest: Text)
    requires EndsNumber(rest)
    ensures ReadNumber([MINUS] + Print10(n) + rest) == Done(Num(0 - n), rest)
  {
    NatBack(n, rest);
    hide ReadNat, Print10;
    assert ([MINUS] + Print10(n) + rest)[1..] == Print10(n) + rest;
  }

  lemma TextOfNumber(n: int)
    ensures n < 0 ==> DecimalText(n) == [MINUS] + Print10(-n)
    ensures n >= 0 ==> DecimalText(n) == Print10(n)
  {
  }

  /** No printed value starts like the end of an array or of an object. */
  lemma PrintStarts(v: Json)
    requires Plain(v)
    ensures Print(v) != [] && Print(v)[0] != CLOSE_ARRAY && Print(v)[0] != CLOSE_OBJECT
  {
    if v.Num? { NumberBack(v.n, []); }
  }

  lemma HeadAndTail(items: seq<Json>)
    requires items != [] && AllPlain(items)
    ensures Plain(items[0]) && AllPlain(items[1..])
    ensures PrintItems(items)
         == if |items| == 1 then Print(items[0]) else Print(items[0]) + [COMMA] + PrintItems(items[1..])
  {
    assert Plain(items[0]);
    assert AllPlain(items[1..]);
    hide AllPlain, Plain, Print;
  }

  lemma ItemsShape(items: seq<Json>, tail: Text)
    requires items != [] && AllPlain(items)
    ensures Plain(items[0]) && AllPlain(items[1..])
    ensures PrintItems(items) != [] && PrintItems(items)[0] != CLOSE_ARRAY
    ensures PrintItems(items) + tail
         == Print(items[0]) + (if |items| == 1 then tail else [COMMA] + (PrintItems(items[1..]) + tail))
  {
    hide AllPlain, Plain, Print, PrintItems;
    HeadAndTail(items);
    PrintStarts(items[0]);
  }

  lemma HeadAndTailFields(fields: seq<Field>)
    requires fields != [] && FieldsPlain(fields)
    ensures Plain(fields[0].value) && FieldsPlain(fields[1..])
    ensures PrintFields(fields)
         == if |fields| == 1 then PrintField(fields[0])
            else PrintField(fields[0]) + [COMMA] + PrintFields(fields[1..])
  {
    assert Plain(fields[0].value);
    assert FieldsPlain(fields[1..]);
    hide FieldsPlain, Plain, Print, PrintField;
  }

  lemma FieldsShape(fields: seq<Field>, tail: Text)
    requires fields != [] && FieldsPlain(fields)
    ensures Plain(fields[0].value) && FieldsPlain(fields[1..])
    ensures PrintFields(fields) != [] && PrintFields(fields)[0] == QUOTE
    ensures PrintFields(fields) + tail
         == PrintField(fields[0]) + (if |fields| == 1 then tail else [COMMA] + (PrintFields(fields[1..]) + tail))
  {
    hide FieldsPlain, Plain, Print, PrintField, PrintFields, Body;
    HeadAndTailFields(fields);
    FieldStarts(fields[0]);
    var first := PrintField(fields[0]);
    if |fields| > 1 {
      var others := PrintFields(fields[1..]);
      Regroup(first, [COMMA], others, tail);
    }
  }

  lemma Regroup(a: Text, b: Text, c: Text, d: Text)
    ensures a + b + c + d == a + (b + (c + d)) == a + (b + c + d)
  {
  }

  lemma FieldStarts(f: Field)
    requires Plain(f.value)
    ensures PrintField(f) != [] && PrintField(f)[0] == QUOTE
  {
    hide Body, Print;
  }

  lemma NothingPrinted(items: seq<Json>, fields: seq<Field>)
    ensures items == [] ==> AllPlain(items) && PrintItems(items) == []
    ensures fields == [] ==> FieldsPlain(fields) && PrintFields(fields) == []
  {
  }

  lemma FieldShape(f: Field, tail: Text)
    requires Plain(f.value)
    ensures PrintField(f) + tail == [QUOTE] + (Body(f.key) + [QUOTE] + ([COLON] + (Print(f.value) + tail)))
  {
    hide Print, Body;
  }

  lemma LastItem(t: Text, v: Json, rest: Text)
    requires ReadValue(t) == Done(v, [CLOSE_ARRAY] + rest)
    ensures ReadItems(t) == Done([v], rest)
  {
    hide ReadValue;
    assert ([CLOSE_ARRAY] + rest)[1..] == rest;
  }

  lemma NextItem(t: Text, v: Json, next: Text, more: seq<Json>, rest: Text)
    requires ReadValue(t) == Done(v, [COMMA] + next)
    requires ReadItems(next) == Done(more, rest)
    ensures ReadItems(t) == Done([v] + more, rest)
  {
    hide ReadValue;
    assert ([COMMA] + next)[1..] == next;
  }

  lemma LastField(t: Text, f: Field, rest: Text)
    requires ReadField(t) == Done(f, [CLOSE_OBJECT] + rest)
    ensures ReadFields(t) == Done([f], rest)
  {
    hide ReadField;
    assert ([CLOSE_OBJECT] + rest)[1..] == rest;
  }

  lemma NextField(t: Text, f: Field, next: Text, more: seq<Field>, rest: Text)
    requires ReadField(t) == Done(f, [COMMA] + next)
    requires ReadFields(next) == Done(more, rest)
    ensures ReadFields(t) == Done([f] + more, rest)
  {
    hide ReadField;
    assert ([COMMA] + next)[1..] == next;
  }

  lemma OneField(key: Text, text: Text, v: Json, rest: Text)
    requires ReadBody(text) == Done(key, [COLON] + rest)
    ensures ReadField([QUOTE] + text)
         == match ReadValue(rest) case Fail => Fail case Done(v, after) => Done(Field(key, v), after)
  {
    hide ReadBody, ReadValue;
    assert ([QUOTE] + text)[1..] == text;
    assert ([COLON] + rest)[1..] == rest;
  }

  lemma {:induction false} ValueBack(v: Json, rest: Text)
    requires Plain(v) && EndsNumber(rest)
    ensures ReadValue(Print(v) + rest) == Done(v, rest)
    decreases v, 0
  {
    var t := Print(v) + rest;
    match v
    case Null => assert t[..4] == NULL_TEXT && t[4..] == rest;
    case Bool(b) => WordBack(b, rest);
    case Num(n) => NumberBack(n, rest);
    case Str(s) => StringBack(s, rest);
    case Arr(items) => ArrayBack(items, rest);
    case Obj(fields) => ObjectBack(fields, rest);
  }

  lemma WordBack(b: bool, rest: Text)
    ensures ReadValue(Print(Bool(b)) + rest) == Done(Bool(b), rest)
  {
    var t := Print(Bool(b)) + rest;
    if b { assert t[..4] == TRUE_TEXT && t[4..] == rest; } else { assert t[..5] == FALSE_TEXT && t[5..] == rest; }
  }

  lemma StringBack(s: Text, rest: Text)
    ensures ReadValue(Quote(s) + rest) == Done(Str(s), rest)
  {
    var t := Quote(s) + rest;
    BodyBack(s, rest);
    hide Body, ReadBody;
    assert t[1..] == Body(s) + [QUOTE] + rest;
  }

  lemma {:induction false} ArrayBack(items: seq<Json>, rest: Text)
    requires AllPlain(items)
    ensures ReadValue(Print(Arr(items)) + rest) == Done(Arr(items), rest)
    decreases items, 2
  {
    hide PrintItems, AllPlain, ReadItems;
    var t := Print(Arr(items)) + rest;
    if items == [] {
      NothingPrinted(items, []);
      assert t == [OPEN_ARRAY, CLOSE_ARRAY] + rest;
      assert t[2..] == rest;
    } else {
      ItemsShape(items, []);
      ItemsBack(items, rest);
      assert t[1..] == PrintItems(items) + ([CLOSE_ARRAY] + rest);
    }
  }

  lemma {:induction false} ItemsBack(items: seq<Json>, rest: Text)
    requires items != [] && AllPlain(items)
    ensures ReadItems(PrintItems(items) + ([CLOSE_ARRAY] + rest)) == Done(items, rest)
    decreases items, 1
  {
    hide Print, PrintItems, ReadItems, ReadValue, Plain, AllPlain;
    var tail := [CLOSE_ARRAY] + rest;
    ItemsShape(items, tail);
    if |items| == 1 {
      ValueBack(items[0], tail);
      LastItem(Print(items[0]) + tail, items[0], rest);
      assert items == [items[0]];
    } else {
      var next := PrintItems(items[1..]) + tail;
      ValueBack(items[0], [COMMA] + next);
      ItemsBack(items[1..], rest);
      NextItem(Print(items[0]) + ([COMMA] + next), items[0], next, items[1..], rest);
      assert items == [items[0]] + items[1..];
    }
  }

  lemma {:induction false} FieldBack(f: Field, rest: Text)
    requires Plain(f.value) && EndsNumber(rest)
    ensures ReadField(PrintField(f) + rest) == Done(f, rest)
    decreases f, 1
  {
    hide Print, PrintField, ReadField, ReadValue, Plain, Body, ReadBody;
    var after := [COLON] + (Print(f.value) + rest);
    FieldShape(f, rest);
    BodyBack(f.key, after);
    ValueBack(f.value, rest);
    OneField(f.key, Body(f.key) + [QUOTE] + after, f.value, Print(f.value) + rest);
  }

  lemma {:induction false} ObjectBack(fields: seq<Field>, rest: Text)
    requires FieldsPlain(fields)
    ensures ReadValue(Print(Obj(fields)) + rest) == Done(Obj(fields), rest)
    decreases fields, 3
  {
    hide PrintFields, FieldsPlain, ReadFields;
    var t := Print(Obj(fields)) + rest;
    if fields == [] {
      NothingPrinted([], fields);
      assert t == [OPEN_OBJECT, CLOSE_OBJECT] + rest;
      assert t[2..] == rest;
    } else {
      FieldsShape(fields, []);
      FieldsBack(fields, rest);
      assert t[1..] == PrintFields(fields) + ([CLOSE_OBJECT] + rest);
    }
  }

  lemma {:induction false} FieldsBack(fields: seq<Field>, rest: Text)
    requires fields != [] && FieldsPlain(fields)
    ensures ReadFields(PrintFields(fields) + ([CLOSE_OBJECT] + rest)) == Done(fields, rest)
    decreases fields, 2
  {
    hide Print, PrintField, PrintFields, ReadFields, ReadField, Plain, FieldsPlain;
    var tail := [CLOSE_OBJECT] + rest;
    FieldsShape(fields, tail);
    if |fields| == 1 {
      FieldBack(fields[0], tail);
      LastField(PrintField(fields[0]) + tail, fields[0], rest);
      assert fields == [fields[0]];
    } else {
      var next := PrintFields(fields[1..]) + tail;
      FieldBack(fields[0], [COMMA] + next);
      FieldsBack(fields[1..], rest);
      NextField(PrintField(fields[0]) + ([COMMA] + next), fields[0], next, fields[1..], rest);
      assert fields == [fields[0]] + fields[1..];
    }
  }

  /** Every printed value is read back as itself, so no two values print alike. */
  lemma ParsePrint(v: Json)
    requires Plain(v)
    ensures Parse(Print(v)) == Some(v)
  {
    ValueBack(v, []);
    assert Print(v) + [] == Print(v);
  }

  // ----- Sorting is by key and loses nothing

  ghost predicate SortedByKey(fields: seq<Field>) {
    forall i, j :: 0 <= i < j < |fields| ==> Before(fields[i].key, fields[j].key) && fields[i].key != fields[j].key
  }

  ghost predicate AllBefore(fields: seq<Field>, key: Text) {
    forall i :: 0 <= i < |fields| ==> Before(fields[i].key, key) && fields[i].key != key
  }

  ghost predicate SameMembers(a: seq<Field>, b: seq<Field>) {
    forall f :: f in a <==> f in b
  }

  lemma {:induction false} InsertHolds(sorted: seq<Field>, f: Field)
    ensures forall g :: g in InsertField(sorted, f) <==> g in sorted || g == f
    ensures |InsertField(sorted, f)| == |sorted| + 1
  {
    if sorted != [] && Before(f.key, sorted[|sorted| - 1].key) {
      var n := |sorted| - 1;
      InsertHolds(sorted[..n], f);
      assert sorted == sorted[..n] + [sorted[n]];
    }
  }

  lemma {:induction false} InsertAllBefore(sorted: seq<Field>, f: Field, key: Text)
    requires AllBefore(sorted, key) && Before(f.key, key) && f.key != key
    ensures AllBefore(InsertField(sorted, f), key)
  {
    if sorted != [] && Before(f.key, sorted[|sorted| - 1].key) {
      InsertAllBefore(sorted[..|sorted| - 1], f, key);
    }
  }

  lemma {:induction false} InsertSorted(sorted: seq<Field>, f: Field)
    requires SortedByKey(sorted)
    requires forall i :: 0 <= i < |sorted| ==> sorted[i].key != f.key
    ensures SortedByKey(InsertField(sorted, f))
  {
    if sorted != [] {
      var n := |sorted| - 1;
      if Before(f.key, sorted[n].key) {
        InsertSorted(sorted[..n], f);
        InsertAllBefore(sorted[..n], f, sorted[n].key);
      } else {
        BeforeTotal(f.key, sorted[n].key);
        forall i | 0 <= i < |sorted| ensures Before(sorted[i].key, f.key) {
          if i < n { BeforeTransitive(sorted[i].key, sorted[n].key, f.key); }
        }
      }
    }
  }

  lemma {:induction false} SortHolds(fields: seq<Field>)
    ensures SameMembers(SortFields(fields), fields)
    ensures |SortFields(fields)| == |fields|
  {
    if fields != [] {
      var n := |fields| - 1;
      SortHolds(fields[..n]);
      InsertHolds(SortFields(fields[..n]), fields[n]);
      assert fields == fields[..n] + [fields[n]];
    }
  }

  lemma {:induction false} SortSorts(fields: seq<Field>)
    requires DistinctKeys(fields)
    ensures SortedByKey(SortFields(fields))
  {
    if fields != [] {
      var n := |fields| - 1;
      var front := SortFields(fields[..n]);
      SortSorts(fields[..n]);
      SortHolds(fields[..n]);
      forall i | 0 <= i < |front| ensures front[i].key != fields[n].key {
        assert front[i] in fields[..n];
      }
      InsertSorted(front, fields[n]);
    }
  }

  /** Nothing in a sorted list comes after its last field. */
  lemma LastIsLast(a: seq<Field>, f: Field)
    requires SortedByKey(a) && f in a
    ensures f == a[|a| - 1] || (Before(f.key, a[|a| - 1].key) && f.key != a[|a| - 1].key)
  {
    hide Before;
    var i :| 0 <= i < |a| && a[i] == f;
  }

  lemma LastAgrees(a: seq<Field>, b: seq<Field>)
    requires SortedByKey(a) && SortedByKey(b) && SameMembers(a, b) && a != [] && b != []
    ensures a[|a| - 1] == b[|b| - 1]
  {
    var f, g := a[|a| - 1], b[|b| - 1];
    assert f in a && g in b;
    LastIsLast(a, g);
    LastIsLast(b, f);
    BeforeTotal(f.key, g.key);
  }

  lemma {:induction false} FrontMembers(a: seq<Field>, f: Field)
    requires SortedByKey(a) && a != []
    ensures f in a[..|a| - 1] <==> f in a && f != a[|a| - 1]
  {
    hide Before;
    var n := |a| - 1;
    assert a == a[..n] + [a[n]];
  }

  lemma DropLast(a: seq<Field>, b: seq<Field>)
    requires SortedByKey(a) && SortedByKey(b) && SameMembers(a, b) && a != [] && b != []
    ensures a[|a| - 1] == b[|b| - 1]
    ensures SameMembers(a[..|a| - 1], b[..|b| - 1])
  {
    LastAgrees(a, b);
    hide SortedByKey;
    var front, other := a[..|a| - 1], b[..|b| - 1];
    forall f ensures f in front <==> f in other {
      FrontMembers(a, f);
      FrontMembers(b, f);
    }
  }

  /** Of the same fields there is one sorted list. */
  lemma {:induction false} SortedUnique(a: seq<Field>, b: seq<Field>)
    requires SortedByKey(a) && SortedByKey(b) && SameMembers(a, b)
    ensures a == b
    decreases |a|
  {
    if a != [] { assert a[0] in b; }
    if b != [] { assert b[0] in a; }
    if a != [] {
      DropLast(a, b);
      SortedUnique(a[..|a| - 1], b[..|b| - 1]);
      assert a == a[..|a| - 1] + [a[|a| - 1]] && b == b[..|b| - 1] + [b[|b| - 1]];
    }
  }

  // ----- What the canonical form keeps

  lemma {:induction false} CanonPlain(v: Json)
    ensures Plain(Canon(v))
  {
    match v
    case Arr(items) =>
      forall i | 0 <= i < |items| ensures Plain(CanonItems(items)[i]) { CanonPlain(items[i]); }
    case Obj(fields) =>
      var canon := CanonFields(fields);
      forall i | 0 <= i < |fields| ensures Plain(canon[i].value) { CanonPlain(fields[i].value); }
      SortHolds(canon);
      var sorted := SortFields(canon);
      forall i | 0 <= i < |sorted| ensures Plain(sorted[i].value) {
        assert sorted[i] in canon;
      }
    case _ =>
  }

  lemma CanonKeysDistinct(fields: seq<Field>)
    requires DistinctKeys(fields)
    ensures DistinctKeys(CanonFields(fields))
  {
  }

  /** Two objects have one canonical form exactly when their canonical fields are the same set. */
  lemma ObjectsAgree(a: seq<Field>, b: seq<Field>)
    requires DistinctKeys(a) && DistinctKeys(b)
    ensures SortFields(CanonFields(a)) == SortFields(CanonFields(b)) <==> SameMembers(CanonFields(a), CanonFields(b))
  {
    var ca, cb := CanonFields(a), CanonFields(b);
    CanonKeysDistinct(a);
    CanonKeysDistinct(b);
    SortSorts(ca);
    SortSorts(cb);
    SortHolds(ca);
    SortHolds(cb);
    hide CanonFields, SortFields, SortedByKey;
    if SameMembers(ca, cb) { SortedUnique(SortFields(ca), SortFields(cb)); }
  }

  /** The canonical forms of two payloads are equal exactly when the payloads are the same. */
  lemma {:induction false} CanonEqualExactlyWhenSame(a: Json, b: Json)
    requires WellFormed(a) && WellFormed(b)
    ensures Canon(a) == Canon(b) <==> Same(a, b)
    decreases a
  {
    match a
    case Arr(items) =>
      if b.Arr? { ArraysSame(items, b.items); }
    case Obj(fields) =>
      if b.Obj? { ObjectsSame(fields, b.fields); }
    case Big(n) => if b.Big? { DecimalTextsDiffer(n, b.n); }
    case _ =>
  }

  lemma {:induction false} ArraysSame(a: seq<Json>, b: seq<Json>)
    requires WellFormed(Arr(a)) && WellFormed(Arr(b))
    ensures Canon(Arr(a)) == Canon(Arr(b)) <==> Same(Arr(a), Arr(b))
    decreases a, 0
  {
    forall i | 0 <= i < |a| && i < |b| ensures CanonItems(a)[i] == CanonItems(b)[i] <==> Same(a[i], b[i]) {
      CanonEqualExactlyWhenSame(a[i], b[i]);
    }
  }

  lemma {:induction false} ObjectsSame(a: seq<Field>, b: seq<Field>)
    requires WellFormed(Obj(a)) && WellFormed(Obj(b))
    ensures Canon(Obj(a)) == Canon(Obj(b)) <==> Same(Obj(a), Obj(b))
    decreases a, 0
  {
    forall i, j | 0 <= i < |a| && 0 <= j < |b|
      ensures CanonFields(a)[i] == CanonFields(b)[j] <==> SameField(a[i], b[j])
    {
      CanonEqualExactlyWhenSame(a[i].value, b[j].value);
    }
    ObjectsAgree(a, b);
    SameFieldsAreMembers(a, b, CanonFields(a), CanonFields(b));
    hide SameMembers, SameFields, CanonFields, SortFields;
  }

  ghost predicate Fieldwise(a: seq<Field>, b: seq<Field>, ca: seq<Field>, cb: seq<Field>) {
    && |ca| == |a| && |cb| == |b|
    && forall i, j :: 0 <= i < |a| && 0 <= j < |b| ==> (ca[i] == cb[j] <==> SameField(a[i], b[j]))
  }

  lemma SameFieldsAreMembers(a: seq<Field>, b: seq<Field>, ca: seq<Field>, cb: seq<Field>)
    requires Fieldwise(a, b, ca, cb)
    ensures SameFields(a, b) <==> SameMembers(ca, cb)
  {
    hide SameField;
    forall i | 0 <= i < |a| ensures FoundIn(a[i], b) <==> ca[i] in cb {
      FoundInCanon(a[i], b, ca[i], cb);
    }
    forall j | 0 <= j < |b| ensures MetIn(b[j], a) <==> cb[j] in ca {
      MetInCanon(b[j], a, cb[j], ca);
    }
    MembersBothWays(ca, cb);
    hide FoundIn, MetIn, SameMembers, Fieldwise;
  }

  lemma MembersBothWays(ca: seq<Field>, cb: seq<Field>)
    ensures SameMembers(ca, cb)
       <==> (forall i :: 0 <= i < |ca| ==> ca[i] in cb) && (forall j :: 0 <= j < |cb| ==> cb[j] in ca)
  {
  }

  lemma FoundInCanon(f: Field, others: seq<Field>, cf: Field, canon: seq<Field>)
    requires |canon| == |others|
    requires forall j :: 0 <= j < |others| ==> (cf == canon[j] <==> SameField(f, others[j]))
    ensures FoundIn(f, others) <==> cf in canon
  {
    hide SameField;
  }

  lemma MetInCanon(g: Field, fields: seq<Field>, cg: Field, canon: seq<Field>)
    requires |canon| == |fields|
    requires forall i :: 0 <= i < |fields| ==> (canon[i] == cg <==> SameField(fields[i], g))
    ensures MetIn(g, fields) <==> cg in canon
  {
    hide SameField;
  }

  lemma DecimalTextInjective(n: int, m: int)
    requires DecimalText(n) == DecimalText(m)
    ensures n == m
  {
    var a, b := PrintInt(n), PrintInt(m);
    assert |a| == |DecimalText(n)| && |b| == |DecimalText(m)|;
    forall i | 0 <= i < |a| ensures a[i] == b[i] {
      assert DecimalText(n)[i] == DecimalText(m)[i];
    }
    PrintIntInjective(n, m);
  }

  lemma DecimalTextsDiffer(n: int, m: int)
    ensures DecimalText(n) == DecimalText(m) <==> n == m
  {
    if DecimalText(n) == DecimalText(m) { DecimalTextInjective(n, m); }
  }

  // ----- Main results

  /** `JSON.stringify` of the sorted value. */
  function Canonicalize(v: Json): Text {
    CanonPlain(v);
    Print(Canon(v))
  }

  /** Two payloads have one canonical text exactly when they are equal up to key order and bigint as string. */
  lemma CanonicalizeIsFaithful(a: Json, b: Json)
    requires WellFormed(a) && WellFormed(b)
    ensures Canonicalize(a) == Canonicalize(b) <==> Same(a, b)
  {
    CanonEqualExactlyWhenSame(a, b);
    CanonPlain(a);
    CanonPlain(b);
    ParsePrint(Canon(a));
    ParsePrint(Canon(b));
    hide Print, Parse, Canon, Same, WellFormed;
  }

  /** The text reads back as the sorted value, and as nothing else. */
  lemma CanonicalizeReadsBack(v: Json)
    ensures Parse(Canonicalize(v)) == Some(Canon(v))
  {
    CanonPlain(v);
    ParsePrint(Canon(v));
  }

  /** The sort is by key whatever the values: it can be done before or after they are made canonical. */
  lemma {:induction false} SortCommutes(fields: seq<Field>)
    ensures SortFields(CanonFields(fields)) == CanonFields(SortFields(fields))
  {
    if fields != [] {
      var n := |fields| - 1;
      assert CanonFields(fields)[..n] == CanonFields(fields[..n]);
      SortCommutes(fields[..n]);
      InsertCommutes(SortFields(fields[..n]), fields[n]);
    }
  }

  lemma {:induction false} InsertCommutes(sorted: seq<Field>, f: Field)
    ensures InsertField(CanonFields(sorted), Field(f.key, Canon(f.value))) == CanonFields(InsertField(sorted, f))
  {
    if sorted != [] {
      var n := |sorted| - 1;
      assert CanonFields(sorted)[..n] == CanonFields(sorted[..n]);
      InsertCommutes(sorted[..n], f);
    }
  }

  /** What is sorted stays as it is: sorting twice is sorting once. */
  lemma {:induction false} SortValueIdempotent(v: Json)
    requires WellFormed(v)
    ensures Canon(Canon(v)) == Canon(v)
  {
    match v
    case Arr(items) =>
      forall i | 0 <= i < |items| ensures Canon(CanonItems(items)[i]) == CanonItems(items)[i] {
        SortValueIdempotent(items[i]);
      }
    case Obj(fields) =>
      var canon := CanonFields(fields);
      forall i | 0 <= i < |fields| ensures Canon(canon[i].value) == canon[i].value {
        SortValueIdempotent(fields[i].value);
      }
      SortedObjectFixed(fields, canon);
    case _ =>
  }

  lemma SortedObjectFixed(fields: seq<Field>, canon: seq<Field>)
    requires DistinctKeys(fields) && canon == CanonFields(fields)
    requires forall i :: 0 <= i < |canon| ==> Canon(canon[i].value) == canon[i].value
    ensures Canon(Obj(SortFields(canon))) == Obj(SortFields(canon))
  {
    var sorted := SortFields(canon);
    CanonKeysDistinct(fields);
    SortSorts(canon);
    SortHolds(canon);
    forall i | 0 <= i < |sorted| ensures CanonFields(sorted)[i] == sorted[i] {
      assert sorted[i] in canon;
    }
    assert CanonFields(sorted) == sorted;
    SortSorts(sorted);
    SortHolds(sorted);
    SortedUnique(SortFields(sorted), sorted);
  }

  lemma {:induction false} CanonWellFormed(v: Json)
    requires WellFormed(v)
    ensures WellFormed(Canon(v))
  {
    match v
    case Arr(items) =>
      forall i | 0 <= i < |items| ensures WellFormed(CanonItems(items)[i]) { CanonWellFormed(items[i]); }
    case Obj(fields) =>
      var canon := CanonFields(fields);
      forall i | 0 <= i < |fields| ensures WellFormed(canon[i].value) { CanonWellFormed(fields[i].value); }
      CanonKeysDistinct(fields);
      SortSorts(canon);
      SortHolds(canon);
      var sorted := SortFields(canon);
      forall i | 0 <= i < |sorted| ensures WellFormed(sorted[i].value) {
        assert sorted[i] in canon;
      }
    case _ =>
  }

  /** A payload is the same as its sorted form, and signing the one is signing the other. */
  lemma SortedIsSame(v: Json)
    requires WellFormed(v)
    ensures Same(v, Canon(v)) && Canonicalize(Canon(v)) == Canonicalize(v)
  {
    CanonWellFormed(v);
    SortValueIdempotent(v);
    CanonEqualExactlyWhenSame(v, Canon(v));
    hide Canon, WellFormed, Same;
  }

  // ----- The order of the keys

  /** One key is a proper prefix of the other, or smaller in the first code unit where they differ. */
  ghost predicate Precedes(p: Text, q: Text) {
    || (|p| < |q| && q[..|p|] == p)
    || exists k :: 0 <= k < |p| && k < |q| && p[..k] == q[..k] && p[k] < q[k]
  }

  lemma BeforeMeansPrefix(a: Text, b: Text)
    requires |a| <= |b| && b[..|a|] == a
    ensures Before(a, b)
    decreases |a|
  {
    if a != [] {
      assert b[..|a|][0] == b[0];
      assert b[1..][..|a| - 1] == b[..|a|][1..];
      BeforeMeansPrefix(a[1..], b[1..]);
    }
  }

  lemma BeforeFromUnit(a: Text, b: Text, k: nat)
    requires k < |a| && k < |b| && a[..k] == b[..k] && a[k] < b[k]
    ensures Before(a, b) && a != b
    decreases k
  {
    if k > 0 {
      assert a[0] == a[..k][0] == b[..k][0] == b[0];
      assert a[1..][..k - 1] == a[..k][1..] && b[1..][..k - 1] == b[..k][1..];
      BeforeFromUnit(a[1..], b[1..], k - 1);
    }
  }

  lemma {:induction false} BeforeHasReason(a: Text, b: Text)
    requires Before(a, b) && a != b
    ensures Precedes(a, b)
    decreases |a|
  {
    if a == [] {
      assert b[..|a|] == a;
    } else if a[0] != b[0] {
      assert a[..0] == b[..0] && a[0] < b[0];
    } else {
      assert a == [a[0]] + a[1..] && b == [b[0]] + b[1..];
      BeforeHasReason(a[1..], b[1..]);
      if |a| < |b| && b[1..][..|a| - 1] == a[1..] {
        assert b[..|a|] == [b[0]] + b[1..][..|a| - 1];
      } else {
        var k :| 0 <= k < |a[1..]| && k < |b[1..]| && a[1..][..k] == b[1..][..k] && a[1..][k] < b[1..][k];
        assert a[..k + 1] == [a[0]] + a[1..][..k] && b[..k + 1] == [b[0]] + b[1..][..k];
        assert a[k + 1] < b[k + 1];
      }
    }
  }

  /** The order the fields are sorted by is that of their code units. */
  lemma BeforeMeans(a: Text, b: Text)
    ensures Before(a, b) && a != b <==> Precedes(a, b)
  {
    if Before(a, b) && a != b { BeforeHasReason(a, b); }
    if Precedes(a, b) {
      if |a| < |b| && b[..|a|] == a {
        BeforeMeansPrefix(a, b);
      } else {
        var k :| 0 <= k < |a| && k < |b| && a[..k] == b[..k] && a[k] < b[k];
        BeforeFromUnit(a, b, k);
      }
    }
  }

  /** In every object, at every depth, each key precedes the next. */
  ghost predicate KeysAscend(v: Json) {
    match v
    case Arr(items) => forall i :: 0 <= i < |items| ==> KeysAscend(items[i])
    case Obj(fields) =>
      && (forall i :: 0 <= i < |fields| - 1 ==> Precedes(fields[i].key, fields[i + 1].key))
      && (forall i :: 0 <= i < |fields| ==> KeysAscend(fields[i].value))
    case _ => true
  }

  lemma SortedPrecedes(fields: seq<Field>)
    requires SortedByKey(fields)
    ensures forall i :: 0 <= i < |fields| - 1 ==> Precedes(fields[i].key, fields[i + 1].key)
  {
    hide Before, Precedes;
    forall i | 0 <= i < |fields| - 1 ensures Precedes(fields[i].key, fields[i + 1].key) {
      BeforeMeans(fields[i].key, fields[i + 1].key);
    }
  }

  /** The sorted value has the keys of every object ascending by UTF-16 code unit. */
  lemma {:induction false} CanonKeysAscend(v: Json)
    requires WellFormed(v)
    ensures KeysAscend(Canon(v))
  {
    match v
    case Arr(items) =>
      forall i | 0 <= i < |items| ensures KeysAscend(CanonItems(items)[i]) { CanonKeysAscend(items[i]); }
    case Obj(fields) =>
      var canon := CanonFields(fields);
      forall i | 0 <= i < |fields| ensures KeysAscend(canon[i].value) { CanonKeysAscend(fields[i].value); }
      SortedObjectAscends(fields, canon);
    case _ =>
  }

  lemma SortedObjectAscends(fields: seq<Field>, canon: seq<Field>)
    requires DistinctKeys(fields) && canon == CanonFields(fields)
    requires forall i :: 0 <= i < |canon| ==> KeysAscend(canon[i].value)
    ensures KeysAscend(Obj(SortFields(canon)))
  {
    var sorted := SortFields(canon);
    CanonKeysDistinct(fields);
    SortSorts(canon);
    SortHolds(canon);
    SortedPrecedes(sorted);
    hide SortFields, CanonFields, Precedes, SortedByKey, DistinctKeys;
    forall i | 0 <= i < |sorted| ensures KeysAscend(sorted[i].value) {
      assert sorted[i] in canon;
    }
  }

  /** So do the objects that reading the canonical text returns. */
  lemma CanonicalTextAscends(v: Json)
    requires WellFormed(v)
    ensures Parse(Canonicalize(v)).Some? && KeysAscend(Parse(Canonicalize(v)).value)
  {
    hide *;
    CanonicalizeReadsBack(v);
    CanonKeysAscend(v);
  }

  // ----- The characters of the text

  /** The code units of a text in ASCII. */
  function Codes(s: string): Text
    requires forall i :: 0 <= i < |s| ==> s[i] as int < 128
  {
    seq(|s|, i requires 0 <= i < |s| => CodeOf(s[i]))
  }

  function CodeOf(ch: char): Unit
    requires ch as int < 128
  {
    ch as int
  }

  /** Words and punctuation are those of JSON. */
  lemma Punctuation()
    ensures Print(Null) == Codes("null") && Print(Bool(true)) == Codes("true") && Print(Bool(false)) == Codes("false")
    ensures Print(Arr([])) == Codes("[]") && Print(Obj([])) == Codes("{}")
    ensures [QUOTE] == Codes("\"") && [BACKSLASH] == Codes("\\") && [COMMA] == Codes(",") && [COLON] == Codes(":")
    ensures [OPEN_ARRAY] + [CLOSE_ARRAY] == Codes("[]") && [OPEN_OBJECT] + [CLOSE_OBJECT] == Codes("{}")
  {
  }

  /** A lower-case hexadecimal digit. */
  predicate IsLowerHex(u: Unit) {
    '0' as int <= u <= '9' as int || 'a' as int <= u <= 'f' as int
  }

  predicate Surrogate(u: Unit) {
    0xD800 <= u <= 0xDFFF
  }

  /**
   * Outside of pairs, a code unit is written as itself unless it is a control character, a quote, a backslash or a
   * surrogate. Seven of these have a letter or sign of their own; the others take four lower-case hexadecimal digits.
   */
  lemma EscapeMeans(u: Unit)
    ensures u >= 0x20 && u != CodeOf('\"') && u != CodeOf('\\') && !Surrogate(u) ==> Escape(u) == [u]
    ensures Escape(CodeOf('\"')) == Codes("\\\"") && Escape(CodeOf('\\')) == Codes("\\\\")
    ensures Escape(8) == Codes("\\b") && Escape(9) == Codes("\\t") && Escape(10) == Codes("\\n")
    ensures Escape(12) == Codes("\\f") && Escape(13) == Codes("\\r")
    ensures Surrogate(u) || (u < 0x20 && u !in {8, 9, 10, 12, 13}) ==>
              var t := Escape(u);
              && |t| == 6 && t[..2] == Codes("\\u")
              && (forall i :: 2 <= i < 6 ==> IsLowerHex(t[i]))
              && ReadHex4(t[2..]) == Done(u, [])
  {
    if Surrogate(u) || (u < 0x20 && u !in {8, 9, 10, 12, 13}) {
      HexBack(u, []);
      assert Escape(u)[2..] == Hex4(u) + [];
    }
  }

  /** A high surrogate with its low one. */
  predicate PairAt(s: Text) {
    |s| > 1 && 0xD800 <= s[0] < 0xDC00 && 0xDC00 <= s[1] < 0xE000
  }

  /** A string is its units one after the other, a surrogate pair as it stands. */
  lemma BodyMeans(s: Text)
    ensures s == [] ==> Body(s) == []
    ensures s != [] && !PairAt(s) ==> Body(s) == Escape(s[0]) + Body(s[1..])
    ensures PairAt(s) ==> Body(s) == [s[0], s[1]] + Body(s[2..])
  {
    hide Escape;
  }

  lemma QuoteMeans(s: Text)
    ensures Quote(s) == Codes("\"") + Body(s) + Codes("\"")
  {
    hide Body;
    assert [QUOTE] == Codes("\"");
  }

  // ----- The recursion

  function IndexOfKey(fields: seq<Field>, key: Text): (i: nat)
    requires exists k :: 0 <= k < |fields| && fields[k].key == key
    ensures i < |fields| && fields[i].key == key
  {
    if fields[0].key == key then 0 else 1 + IndexOfKey(fields[1..], key)
  }

  lemma InFields(fields: seq<Field>, byKey: seq<Field>, k: nat)
    requires SameMembers(byKey, fields) && k < |byKey|
    ensures exists i :: 0 <= i < |fields| && fields[i] == byKey[k]
  {
    assert byKey[k] in fields;
  }

  /** Objects are filled anew, key by key in sorted order. */
  method SortValue(v: Json) returns (r: Json)
    requires WellFormed(v)
    ensures r == Canon(v)
    decreases v
  {
    hide SortFields, SameMembers, DecimalText;
    match v
    case Big(n) => r := Str(DecimalText(n));
    case Arr(items) =>
      var sorted: seq<Json> := [];
      for i := 0 to |items|
        invariant |sorted| == i && forall k :: 0 <= k < i ==> sorted[k] == Canon(items[k])
      {
        var item := SortValue(items[i]);
        sorted := sorted + [item];
      }
      assert sorted == CanonItems(items);
      r := Arr(sorted);
    case Obj(fields) =>
      var byKey := SortFields(fields);
      SortHolds(fields);
      var out: seq<Field> := [];
      for k := 0 to |byKey|
        invariant |out| == k
        invariant forall j :: 0 <= j < k ==> out[j] == Field(byKey[j].key, Canon(byKey[j].value))
      {
        InFields(fields, byKey, k);
        var i := IndexOfKey(fields, byKey[k].key);
        assert fields[i] == byKey[k];
        var value := SortValue(fields[i].value);
        out := out + [Field(byKey[k].key, value)];
      }
      assert out == CanonFields(byKey);
      SortCommutes(fields);
      r := Obj(out);
    case _ => r := v;
  }
}
