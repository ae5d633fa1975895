/**
 * Lossless JSON text: integers of any size keep their digits (packages/core-ts/src/json.ts).
 *
 * Texts and strings are sequences of UTF-16 code units, as in the language the source is written in. A
 * number whose value is a safe integer is `Num`; any other double is `Float`, named by the text it is
 * written as, which is `null` for the ones that are not finite.
 * What `Number` makes of a literal that is no safe integer is the parameter `host`.
 */
module JsonText {
  import opened Digits
  import opened Wrappers

  type Unit = u: int | 0 <= u < 0x1_0000

  type Text = seq<Unit>

  const MAX_SAFE := 9007199254740991

  type Safe = n: int | -MAX_SAFE <= n <= MAX_SAFE

  /** A value as the language holds it; `Absent` is a function, a symbol or undefined. */
  datatype Value =
    | Absent
    | Null
    | Bool(truth: bool)
    | Num(count: Safe)
    | Float(written: Text)
    | Big(digits: int)
    | Str(text: Text)
    | Arr(items: seq<Value>)
    | Obj(members: seq<Member>)

  /** An own property, in the order the language lists them. */
  datatype Member = Member(key: Text, value: Value)

  /** What reading at an index gives: a result and the index after it, or the index at fault. */
  datatype Parsed<T> = Parsed(value: T, next: nat) | Fault(at: nat)

  const QUOTE: Unit := 0x22
  const PLUS: Unit := 0x2B
  const COMMA: Unit := 0x2C
  const MINUS: Unit := 0x2D
  const POINT: Unit := 0x2E
  const SLASH: Unit := 0x2F
  const ZERO: Unit := 0x30
  const COLON: Unit := 0x3A
  const OPEN_ARRAY: Unit := 0x5B
  const BACKSLASH: Unit := 0x5C
  const CLOSE_ARRAY: Unit := 0x5D
  const OPEN_OBJECT: Unit := 0x7B
  const CLOSE_OBJECT: Unit := 0x7D
  const TRUE: Text := [0x74, 0x72, 0x75, 0x65]
  const FALSE: Text := [0x66, 0x61, 0x6C, 0x73, 0x65]
  const NULL: Text := [0x6E, 0x75, 0x6C, 0x6C]

  /** The unit at an index, nothing past the end. */
  predicate Has(t: Text, i: nat, u: Unit) { i < |t| && t[i] == u }

  /** A word at an index. */
  predicate At(t: Text, i: nat, w: Text) { i + |w| <= |t| && t[i..i + |w|] == w }

  predicate IsSpace(u: Unit) { u == 0x20 || u == 0x09 || u == 0x0A || u == 0x0D }

  function Space(t: Text, i: nat): (j: nat)
    requires i <= |t|
    ensures i <= j <= |t|
    decreases |t| - i
  {
    if i < |t| && IsSpace(t[i]) then Space(t, i + 1) else i
  }

  // ---- Numbers ----

  predicate IsDigitUnit(u: Unit) { 0x30 <= u <= 0x39 }

  predicate DigitUnits(t: Text) { forall i :: 0 <= i < |t| ==> IsDigitUnit(t[i]) }

  function Chars(t: Text): (s: string)
    requires DigitUnits(t)
    ensures |s| == |t| && AllDigits(s)
  {
    seq(|t|, i requires 0 <= i < |t| => '0' + (t[i] - 0x30) as char)
  }

  function Units(s: string): (t: Text)
    requires AllDigits(s)
    ensures |t| == |s| && DigitUnits(t)
  {
    seq(|s|, i requires 0 <= i < |s| => s[i] as int)
  }

  /** The end of the run of digits at an index. */
  function Run(t: Text, i: nat): (j: nat)
    requires i <= |t|
    ensures i <= j <= |t|
    decreases |t| - i
  {
    if i < |t| && IsDigitUnit(t[i]) then Run(t, i + 1) else i
  }

  /** The end of the integer at an index: a sign, then zero alone or digits with no leading zero. */
  function IntEnd(t: Text, i: nat): (end: Option<nat>)
    requires i <= |t|
    ensures end.Some? ==> i < end.value <= |t|
  {
    var j := if Has(t, i, MINUS) then i + 1 else i;
    if Has(t, j, ZERO) then Some(j + 1)
    else if j < |t| && IsDigitUnit(t[j]) then Some(Run(t, j))
    else None
  }

  function FractionEnd(t: Text, i: nat): (j: nat)
    requires i <= |t|
    ensures i <= j <= |t|
  {
    if Has(t, i, POINT) && Run(t, i + 1) > i + 1 then Run(t, i + 1) else i
  }

  predicate IsExponentMark(u: Unit) { u == 0x65 || u == 0x45 }

  function ExponentEnd(t: Text, i: nat): (j: nat)
    requires i <= |t|
    ensures i <= j <= |t|
  {
    if i < |t| && IsExponentMark(t[i]) then
      var k := if Has(t, i + 1, PLUS) || Has(t, i + 1, MINUS) then i + 2 else i + 1;
      if Run(t, k) > k then Run(t, k) else i
    else i
  }

  /** The digits of an integer literal. */
  function Magnitude(lexeme: Text): Text {
    if Has(lexeme, 0, MINUS) then lexeme[1..] else lexeme
  }

  predicate IsInteger(lexeme: Text) { Magnitude(lexeme) != [] && DigitUnits(Magnitude(lexeme)) }

  /** The integer an integer literal says. */
  function IntegerOf(lexeme: Text): int
    requires IsInteger(lexeme)
  {
    var n: int := ValueOf(Chars(Magnitude(lexeme)));
    if Has(lexeme, 0, MINUS) then -n else n
  }

  predicate IsSafe(n: int) { -MAX_SAFE <= n <= MAX_SAFE }

  /** A literal as a double: exact on the safe integers, and only there a safe integer. */
  function AsDouble(host: Text -> Value, lexeme: Text): Value {
    if IsInteger(lexeme) && IsSafe(IntegerOf(lexeme)) then Num(IntegerOf(lexeme)) else host(lexeme)
  }

  /** A literal with an unsafe integer kept whole. */
  function AsExact(host: Text -> Value, lexeme: Text): Value {
    if IsInteger(lexeme) && !IsSafe(IntegerOf(lexeme)) then Big(IntegerOf(lexeme)) else AsDouble(host, lexeme)
  }

  /** The longest number at an index. */
  function NumberEnd(t: Text, i: nat): (end: Option<nat>)
    requires i <= |t|
    ensures end.Some? ==> i < end.value <= |t|
  {
    var end := IntEnd(t, i);
    if end.None? then None else Some(ExponentEnd(t, FractionEnd(t, end.value)))
  }

  function ReadNumber(read: Text -> Value, t: Text, i: nat): (r: Parsed<Value>)
    requires i <= |t|
    ensures r.Parsed? ==> i < r.next <= |t|
  {
    var end := NumberEnd(t, i);
    if end.None? then Fault(i) else Parsed(read(t[i..end.value]), end.value)
  }

  // ---- Strings ----

  function HexValue(u: Unit): Option<nat> {
    if 0x30 <= u <= 0x39 then Some(u - 0x30)
    else if 0x41 <= u <= 0x46 then Some(u - 0x41 + 10)
    else if 0x61 <= u <= 0x66 then Some(u - 0x61 + 10)
    else None
  }

  function HexDigit(n: nat): Unit
    requires n < 16
  {
    if n < 10 then 0x30 + n else 0x61 + (n - 10)
  }

  /** A code unit written as four hexadecimal digits after `\u`. */
  function HexEscape(u: Unit): Text {
    [BACKSLASH, 0x75, HexDigit(u / 4096), HexDigit(u / 256 % 16), HexDigit(u / 16 % 16), HexDigit(u % 16)]
  }

  function ReadHex(t: Text, i: nat): Option<Unit> {
    if i + 4 > |t| || HexValue(t[i]).None? || HexValue(t[i + 1]).None? || HexValue(t[i + 2]).None? || HexValue(t[i + 3]).None?
    then None
    else
      var a, b, c, d := HexValue(t[i]).value, HexValue(t[i + 1]).value, HexValue(t[i + 2]).value, HexValue(t[i + 3]).value;
      Some(((a * 16 + b) * 16 + c) * 16 + d)
  }

  /** What a single letter after a backslash stands for. */
  function Escaped(u: Unit): Option<Unit> {
    if u == QUOTE || u == BACKSLASH || u == SLASH then Some(u)
    else if u == 0x62 then Some(0x08)
    else if u == 0x66 then Some(0x0C)
    else if u == 0x6E then Some(0x0A)
    else if u == 0x72 then Some(0x0D)
    else if u == 0x74 then Some(0x09)
    else None
  }

  /** The letter a unit is escaped by. */
  function ShortEscape(u: Unit): Option<Unit> {
    if u == QUOTE || u == BACKSLASH then Some(u)
    else if u == 0x08 then Some(0x62)
    else if u == 0x0C then Some(0x66)
    else if u == 0x0A then Some(0x6E)
    else if u == 0x0D then Some(0x72)
    else if u == 0x09 then Some(0x74)
    else None
  }

  /** The rest of a string from inside its quotes. */
  function StringRest(t: Text, i: nat, taken: Text): (r: Option<(Text, nat)>)
    requires i <= |t|
    ensures r.Some? ==> i < r.value.1 <= |t|
    decreases |t| - i
  {
    if i == |t| || t[i] < 0x20 then None
    else if t[i] == QUOTE then Some((taken, i + 1))
    else if t[i] != BACKSLASH then StringRest(t, i + 1, taken + [t[i]])
    else if i + 1 == |t| then None
    else if t[i + 1] == 0x75 then
      var u := ReadHex(t, i + 2);
      if u.None? then None else StringRest(t, i + 6, taken + [u.value])
    else
      var u := Escaped(t[i + 1]);
      if u.None? then None else StringRest(t, i + 2, taken + [u.value])
  }

  function ReadString(t: Text, i: nat): (r: Parsed<Text>)
    requires i < |t|
    ensures r.Parsed? ==> i < r.next <= |t|
  {
    if t[i] != QUOTE then Fault(i)
    else
      var rest := StringRest(t, i + 1, []);
      if rest.None? then Fault(i) else Parsed(rest.value.0, rest.value.1)
  }

  predicate IsHigh(u: Unit) { 0xD800 <= u < 0xDC00 }

  predicate IsLow(u: Unit) { 0xDC00 <= u < 0xE000 }

  /** The inside of a string's JSON form: controls and unpaired surrogates are escaped. */
  function Inside(s: Text): Text {
    if s == [] then []
    else if |s| > 1 && IsHigh(s[0]) && IsLow(s[1]) then s[..2] + Inside(s[2..])
    else EscapeUnit(s[0]) + Inside(s[1..])
  }

  function EscapeUnit(u: Unit): Text {
    if ShortEscape(u).Some? then [BACKSLASH, ShortEscape(u).value]
    else if u < 0x20 || IsHigh(u) || IsLow(u) then HexEscape(u)
    else [u]
  }

  function Quoted(s: Text): Text { [QUOTE] + (Inside(s) + [QUOTE]) }

  // ---- Objects ----

  /** The array index a key is the canonical text of: such keys are listed first, in order. */
  function KeyIndex(key: Text): Option<nat> {
    if key == [] || !DigitUnits(key) || (|key| > 1 && key[0] == ZERO) then None
    else
      var n := ValueOf(Chars(key));
      if n < 0xFFFF_FFFF then Some(n) else None
  }

  /** How many members come before the array index `n`. */
  function Slot(members: seq<Member>, n: nat): (k: nat)
    ensures k <= |members|
  {
    if members == [] || KeyIndex(members[0].key).None? || KeyIndex(members[0].key).value >= n then 0
    else 1 + Slot(members[1..], n)
  }

  function Place(members: seq<Member>, key: Text): (k: nat)
    ensures k <= |members|
    ensures k < |members| ==> members[k].key == key
    ensures forall i :: 0 <= i < k ==> members[i].key != key
  {
    if members == [] || members[0].key == key then 0 else 1 + Place(members[1..], key)
  }

  /** Defining a property: in its place when it is there, else where the language lists it. */
  function Put(members: seq<Member>, key: Text, value: Value): seq<Member> {
    var at := Place(members, key);
    if at < |members| then members[at := Member(key, value)]
    else
      var n := KeyIndex(key);
      var k := if n.Some? then Slot(members, n.value) else |members|;
      members[..k] + [Member(key, value)] + members[k..]
  }

  // ---- Reading a value ----

  function ReadValue(read: Text -> Value, t: Text, start: nat): (r: Parsed<Value>)
    requires start <= |t|
    ensures r.Parsed? ==> start < r.next <= |t|
    decreases |t| - start, 1
  {
    var i := Space(t, start);
    if Has(t, i, OPEN_OBJECT) then
      var j := Space(t, i + 1);
      if Has(t, j, CLOSE_OBJECT) then Parsed(Obj([]), j + 1)
      else
        match ReadMembers(read, t, j, [])
        case Parsed(members, next) => Parsed(Obj(members), next)
        case Fault(at) => Fault(at)
    else if Has(t, i, OPEN_ARRAY) then
      var j := Space(t, i + 1);
      if Has(t, j, CLOSE_ARRAY) then Parsed(Arr([]), j + 1)
      else
        match ReadItems(read, t, j, [])
        case Parsed(items, next) => Parsed(Arr(items), next)
        case Fault(at) => Fault(at)
    else if Has(t, i, QUOTE) then
      match ReadString(t, i)
      case Parsed(text, next) => Parsed(Str(text), next)
      case Fault(at) => Fault(at)
    else if Has(t, i, MINUS) || (i < |t| && IsDigitUnit(t[i])) then ReadNumber(read, t, i)
    else if At(t, i, TRUE) then Parsed(Bool(true), i + 4)
    else if At(t, i, FALSE) then Parsed(Bool(false), i + 5)
    else if At(t, i, NULL) then Parsed(Null, i + 4)
    else Fault(i)
  }

  /** The items from an index to the closing bracket, after those already read. */
  function ReadItems(read: Text -> Value, t: Text, i: nat, items: seq<Value>): (r: Parsed<seq<Value>>)
    requires i <= |t|
    ensures r.Parsed? ==> i < r.next <= |t|
    decreases |t| - i, 2
  {
    match ReadValue(read, t, i)
    case Fault(at) => Fault(at)
    case Parsed(item, next) =>
      var j := Space(t, next);
      if Has(t, j, CLOSE_ARRAY) then Parsed(items + [item], j + 1)
      else if Has(t, j, COMMA) then ReadItems(read, t, j + 1, items + [item])
      else Fault(j)
  }

  /** A key, its colon and its value. */
  function ReadMember(read: Text -> Value, t: Text, start: nat): (r: Parsed<Member>)
    requires start <= |t|
    ensures r.Parsed? ==> start < r.next <= |t|
    decreases |t| - start, 2
  {
    var i := Space(t, start);
    if !Has(t, i, QUOTE) then Fault(i)
    else
      match ReadString(t, i)
      case Fault(at) => Fault(at)
      case Parsed(key, after) =>
        var j := Space(t, after);
        if !Has(t, j, COLON) then Fault(j)
        else
          match ReadValue(read, t, j + 1)
          case Fault(at) => Fault(at)
          case Parsed(value, next) => Parsed(Member(key, value), next)
  }

  /** The members from an index to the closing brace, added to those already read. */
  function ReadMembers(read: Text -> Value, t: Text, i: nat, members: seq<Member>): (r: Parsed<seq<Member>>)
    requires i <= |t|
    ensures r.Parsed? ==> i < r.next <= |t|
    decreases |t| - i, 3
  {
    match ReadMember(read, t, i)
    case Fault(at) => Fault(at)
    case Parsed(m, next) =>
      var k := Space(t, next);
      if Has(t, k, CLOSE_OBJECT) then Parsed(Put(members, m.key, m.value), k + 1)
      else if Has(t, k, COMMA) then ReadMembers(read, t, k + 1, Put(members, m.key, m.value))
      else Fault(k)
  }

  /** A whole text read as one value. */
  function ReadDocument(read: Text -> Value, t: Text): Parsed<Value> {
    match ReadValue(read, t, 0)
    case Fault(at) => Fault(at)
    case Parsed(value, next) =>
      var j := Space(t, next);
      if j == |t| then Parsed(value, j) else Fault(j)
  }

  // ---- Writing a value ----

  function IntegerText(n: int): Text {
    if n < 0 then [MINUS] + Units(Itoa(-n)) else Units(Itoa(n))
  }

  function Join(parts: seq<Text>): Text {
    if parts == [] then [] else if |parts| == 1 then parts[0] else parts[0] + ([COMMA] + Join(parts[1..]))
  }

  /** A value's text; none for a value JSON has no form for. */
  function Write(v: Value): Option<Text> {
    match v
    case Absent => None
    case Null => Some(NULL)
    case Bool(truth) => Some(if truth then TRUE else FALSE)
    case Num(n) => Some(IntegerText(n))
    case Float(written) => Some(written)
    case Big(n) => Some(IntegerText(n))
    case Str(text) => Some(Quoted(text))
    case Arr(items) => Some([OPEN_ARRAY] + (Join(ItemTexts(items)) + [CLOSE_ARRAY]))
    case Obj(members) => Some([OPEN_OBJECT] + (Join(MemberTexts(members)) + [CLOSE_OBJECT]))
  }

  function ItemTexts(items: seq<Value>): (texts: seq<Text>)
    ensures |texts| == |items|
  {
    if items == [] then []
    else
      var text := Write(items[0]);
      [if text.Some? then text.value else NULL] + ItemTexts(items[1..])
  }

  function MemberText(key: Text, text: Text): Text { Quoted(key) + ([COLON] + text) }

  function MemberTexts(members: seq<Member>): seq<Text> {
    if members == [] then []
    else
      var text := Write(members[0].value);
      (if text.Some? then [MemberText(members[0].key, text.value)] else []) + MemberTexts(members[1..])
  }
}
