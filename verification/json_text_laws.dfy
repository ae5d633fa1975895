/** What writing JSON text and reading it back keeps. */
module JsonTextLaws {
  import opened Digits
  import opened JsonText
  import opened Sequences
  import opened Wrappers

  // ---- Numbers ----

  /** No number goes on at an index. */
  predicate Stops(t: Text, i: nat) {
    i < |t| ==> !IsDigitUnit(t[i]) && t[i] != POINT && t[i] != PLUS && t[i] != MINUS && !IsExponentMark(t[i])
  }

  /** A literal a number can be written as. */
  predicate IsNumber(w: Text) {
    w != [] && (w[0] == MINUS || IsDigitUnit(w[0])) && NumberEnd(w, 0) == Some(|w|)
  }

  lemma UnitAt(t: Text, i: nat, w: Text, k: nat)
    requires At(t, i, w) && k < |w|
    ensures t[i + k] == w[k]
  {
    assert t[i..i + |w|][k] == w[k];
  }

  lemma HasAt(t: Text, i: nat, w: Text, k: nat, u: Unit)
    requires At(t, i, w) && k <= |w| && Stops(t, i + |w|)
    requires IsDigitUnit(u) || u == POINT || u == PLUS || u == MINUS
    ensures Has(t, i + k, u) <==> Has(w, k, u)
  {
    if k < |w| { UnitAt(t, i, w, k); }
  }

  lemma {:induction false} RunAt(t: Text, i: nat, w: Text, k: nat)
    requires At(t, i, w) && k <= |w| && Stops(t, i + |w|)
    ensures Run(t, i + k) == i + Run(w, k)
    decreases |w| - k
  {
    if k < |w| {
      UnitAt(t, i, w, k);
      RunAt(t, i, w, k + 1);
    }
  }

  lemma IntEndAt(t: Text, i: nat, w: Text)
    requires At(t, i, w) && Stops(t, i + |w|) && IntEnd(w, 0).Some?
    ensures IntEnd(t, i) == Some(i + IntEnd(w, 0).value)
  {
    HasAt(t, i, w, 0, MINUS);
    var k := if Has(w, 0, MINUS) then 1 else 0;
    HasAt(t, i, w, k, ZERO);
    if k < |w| { UnitAt(t, i, w, k); }
    RunAt(t, i, w, k);
  }

  lemma FractionEndAt(t: Text, i: nat, w: Text, k: nat)
    requires At(t, i, w) && Stops(t, i + |w|) && k <= |w|
    ensures FractionEnd(t, i + k) == i + FractionEnd(w, k)
  {
    HasAt(t, i, w, k, POINT);
    if k < |w| { RunAt(t, i, w, k + 1); }
  }

  lemma ExponentEndAt(t: Text, i: nat, w: Text, k: nat)
    requires At(t, i, w) && Stops(t, i + |w|) && k <= |w|
    ensures ExponentEnd(t, i + k) == i + ExponentEnd(w, k)
  {
    if k < |w| {
      UnitAt(t, i, w, k);
      HasAt(t, i, w, k + 1, PLUS);
      HasAt(t, i, w, k + 1, MINUS);
      RunAt(t, i, w, k + 1);
      if k + 1 < |w| { RunAt(t, i, w, k + 2); }
    }
  }

  /** A literal is read whole wherever it stands. */
  lemma NumberEndAt(t: Text, i: nat, w: Text)
    requires At(t, i, w) && Stops(t, i + |w|) && IsNumber(w)
    ensures NumberEnd(t, i) == Some(i + |w|)
  {
    IntEndAt(t, i, w);
    var k := IntEnd(w, 0).value;
    FractionEndAt(t, i, w, k);
    var l := FractionEnd(w, k);
    ExponentEndAt(t, i, w, l);
  }

  lemma {:induction false} RunAll(t: Text, i: nat)
    requires i <= |t| && DigitUnits(t[i..])
    ensures Run(t, i) == |t|
    decreases |t| - i
  {
    if i < |t| {
      assert t[i..][0] == t[i];
      assert t[i + 1..] == t[i..][1..];
      RunAll(t, i + 1);
    }
  }

  lemma CharsUnits(s: string)
    requires AllDigits(s)
    ensures Chars(Units(s)) == s
  {}

  /** An integer's text says that integer, and is a number a reader takes whole. */
  lemma IntegerTextReads(n: int)
    ensures IsInteger(IntegerText(n)) && IntegerOf(IntegerText(n)) == n
    ensures IsNumber(IntegerText(n))
  {
    var s := Itoa(if n < 0 then -n else n);
    var w := IntegerText(n);
    ItoaValue(if n < 0 then -n else n);
    CharsUnits(s);
    assert IsDigitUnit(Units(s)[0]);
    var k := if n < 0 then 1 else 0;
    assert w[k..] == Units(s);
    assert Magnitude(w) == Units(s);
    assert w[k] == Units(s)[0];
    if w[k] != ZERO {
      RunAll(w, k);
    }
    assert IntEnd(w, 0) == Some(|w|);
  }

  // ---- Strings ----

  lemma HexDigitReads(n: nat)
    requires n < 16
    ensures HexValue(HexDigit(n)) == Some(n)
  {}

  lemma HexDigitsSay(u: Unit)
    ensures ((u / 4096 * 16 + u / 256 % 16) * 16 + u / 16 % 16) * 16 + u % 16 == u
  {}

  lemma HexEscapeReads(u: Unit, t: Text, i: nat)
    requires At(t, i, HexEscape(u))
    ensures t[i] == BACKSLASH && t[i + 1] == 0x75 && ReadHex(t, i + 2) == Some(u)
  {
    var w := HexEscape(u);
    HexDigitReads(u / 4096);
    HexDigitReads(u / 256 % 16);
    HexDigitReads(u / 16 % 16);
    HexDigitReads(u % 16);
    UnitAt(t, i, w, 0);
    UnitAt(t, i, w, 1);
    UnitAt(t, i, w, 2);
    UnitAt(t, i, w, 3);
    UnitAt(t, i, w, 4);
    UnitAt(t, i, w, 5);
    HexDigitsSay(u);
  }

  lemma AtSplit(t: Text, i: nat, a: Text, b: Text)
    requires At(t, i, a + b)
    ensures At(t, i, a) && At(t, i + |a|, b)
  {
    var u := t[i..i + |a + b|];
    assert t[i..i + |a|] == u[..|a|];
    assert t[i + |a|..i + |a| + |b|] == u[|a|..];
  }

  /** One escaped unit read inside a string. */
  lemma EscapeReads(u: Unit, t: Text, i: nat, taken: Text)
    requires At(t, i, EscapeUnit(u))
    ensures StringRest(t, i, taken) == StringRest(t, i + |EscapeUnit(u)|, taken + [u])
  {
    var w := EscapeUnit(u);
    UnitAt(t, i, w, 0);
    if ShortEscape(u).Some? {
      UnitAt(t, i, w, 1);
      assert Escaped(t[i + 1]) == Some(u);
    } else if |w| > 1 {
      HexEscapeReads(u, t, i);
    }
  }

  lemma PairReads(a: Unit, b: Unit, t: Text, i: nat, taken: Text)
    requires IsHigh(a) && IsLow(b) && At(t, i, [a, b])
    ensures StringRest(t, i, taken) == StringRest(t, i + 2, taken + [a] + [b])
  {
    UnitAt(t, i, [a, b], 0);
    UnitAt(t, i, [a, b], 1);
    assert StringRest(t, i, taken) == StringRest(t, i + 1, taken + [a]);
  }

  /** How many units of a string are written together. */
  function Width(s: Text): (n: nat)
    requires s != []
    ensures 1 <= n <= |s|
  {
    if |s| > 1 && IsHigh(s[0]) && IsLow(s[1]) then 2 else 1
  }

  function FirstInside(s: Text): Text
    requires s != []
  {
    if Width(s) == 2 then s[..2] else EscapeUnit(s[0])
  }

  lemma FirstReads(s: Text, t: Text, i: nat, taken: Text)
    requires s != [] && At(t, i, FirstInside(s))
    ensures StringRest(t, i, taken) == StringRest(t, i + |FirstInside(s)|, taken + s[..Width(s)])
  {
    if Width(s) == 2 {
      assert s[..2] == [s[0], s[1]];
      PairReads(s[0], s[1], t, i, taken);
      assert taken + [s[0]] + [s[1]] == taken + s[..2];
    } else {
      EscapeReads(s[0], t, i, taken);
      assert [s[0]] == s[..1];
    }
  }

  /** A string's JSON form reads back as the string, unpaired surrogates included. */
  lemma {:induction false} InsideReads(s: Text, t: Text, i: nat, taken: Text)
    requires At(t, i, Inside(s) + [QUOTE])
    ensures StringRest(t, i, taken) == Some((taken + s, i + |Inside(s)| + 1))
  {
    AtSplit(t, i, Inside(s), [QUOTE]);
    if s == [] {
      UnitAt(t, i, [QUOTE], 0);
      assert taken + s == taken;
    } else {
      var n, first := Width(s), FirstInside(s);
      assert Inside(s) == first + Inside(s[n..]);
      AtSplit(t, i, first, Inside(s[n..]));
      FirstReads(s, t, i, taken);
      AtAgain(t, i, first, Inside(s[n..]), [QUOTE]);
      InsideReads(s[n..], t, i + |first|, taken + s[..n]);
      Regrouped(taken, s[..n], s[n..]);
      assert s[..n] + s[n..] == s;
    }
  }

  lemma AtAgain(t: Text, i: nat, a: Text, b: Text, c: Text)
    requires At(t, i, (a + b) + c)
    ensures At(t, i + |a|, b + c)
  {
    assert (a + b) + c == a + (b + c);
    AtSplit(t, i, a, b + c);
  }

  lemma QuotedReads(s: Text, t: Text, i: nat)
    requires At(t, i, Quoted(s))
    ensures Has(t, i, QUOTE) && ReadString(t, i) == Parsed(s, i + |Quoted(s)|)
  {
    AtSplit(t, i, [QUOTE], Inside(s) + [QUOTE]);
    UnitAt(t, i, [QUOTE], 0);
    InsideReads(s, t, i + 1, []);
    assert [] + s == s;
  }

  // ---- Values ----

  /** The first key is listed before the second. */
  predicate Before(a: Text, b: Text) {
    a != b && (KeyIndex(b).Some? ==> KeyIndex(a).Some? && KeyIndex(a).value < KeyIndex(b).value)
  }

  /** Members as an object lists them: array indices first, ascending, and no key twice. */
  predicate Ordered(members: seq<Member>) {
    forall i, j :: 0 <= i < j < |members| ==> Before(members[i].key, members[j].key)
  }

  /** A value the language can hold: objects in their listing order, doubles written as numbers. */
  predicate WellFormed(v: Value) {
    match v
    case Float(written) => written == NULL || IsNumber(written)
    case Arr(items) => WellFormedItems(items)
    case Obj(members) => Ordered(members) && WellFormedMembers(members)
    case _ => true
  }

  predicate WellFormedItems(items: seq<Value>) {
    items != [] ==> WellFormed(items[0]) && WellFormedItems(items[1..])
  }

  predicate WellFormedMembers(members: seq<Member>) {
    members != [] ==> WellFormed(members[0].value) && WellFormedMembers(members[1..])
  }

  /** No value without a JSON form anywhere. */
  predicate Whole(v: Value) {
    match v
    case Absent => false
    case Arr(items) => WholeItems(items)
    case Obj(members) => WholeMembers(members)
    case _ => true
  }

  predicate WholeItems(items: seq<Value>) {
    items != [] ==> Whole(items[0]) && WholeItems(items[1..])
  }

  predicate WholeMembers(members: seq<Member>) {
    members != [] ==> Whole(members[0].value) && WholeMembers(members[1..])
  }

  /** A value with every number as its text reads. */
  function Reread(read: Text -> Value, v: Value): Value {
    match v
    case Num(n) => read(IntegerText(n))
    case Float(written) => if written == NULL then Null else read(written)
    case Big(n) => read(IntegerText(n))
    case Arr(items) => Arr(RereadItems(read, items))
    case Obj(members) => Obj(RereadMembers(read, members))
    case _ => v
  }

  function RereadItems(read: Text -> Value, items: seq<Value>): seq<Value> {
    if items == [] then [] else [Reread(read, items[0])] + RereadItems(read, items[1..])
  }

  function RereadMembers(read: Text -> Value, members: seq<Member>): seq<Member> {
    if members == [] then []
    else [Member(members[0].key, Reread(read, members[0].value))] + RereadMembers(read, members[1..])
  }

  lemma {:induction false} SlotLast(members: seq<Member>, n: nat)
    requires forall i :: 0 <= i < |members| ==> KeyIndex(members[i].key).Some? && KeyIndex(members[i].key).value < n
    ensures Slot(members, n) == |members|
  {
    if members != [] { SlotLast(members[1..], n); }
  }

  /** A key listed after all the others is put last. */
  lemma PutLast(members: seq<Member>, key: Text, value: Value)
    requires forall i :: 0 <= i < |members| ==> Before(members[i].key, key)
    ensures Put(members, key, value) == members + [Member(key, value)]
  {
    assert Place(members, key) == |members|;
    if KeyIndex(key).Some? { SlotLast(members, KeyIndex(key).value); }
    assert members[..|members|] == members;
  }

  lemma StaysPut(t: Text, i: nat)
    requires i < |t| && !IsSpace(t[i])
    ensures Space(t, i) == i
  {}

  lemma NumberReads(read: Text -> Value, w: Text, t: Text, i: nat)
    requires IsNumber(w) && At(t, i, w) && Stops(t, i + |w|)
    ensures ReadValue(read, t, i) == Parsed(read(w), i + |w|)
  {
    UnitAt(t, i, w, 0);
    StaysPut(t, i);
    NumberEndAt(t, i, w);
  }

  lemma IntegerReads(read: Text -> Value, n: int, t: Text, i: nat)
    requires At(t, i, IntegerText(n)) && Stops(t, i + |IntegerText(n)|)
    ensures ReadValue(read, t, i) == Parsed(read(IntegerText(n)), i + |IntegerText(n)|)
  {
    IntegerTextReads(n);
    NumberReads(read, IntegerText(n), t, i);
  }

  lemma WordReads(read: Text -> Value, v: Value, t: Text, i: nat)
    requires v.Null? || v.Bool?
    requires At(t, i, Write(v).value)
    ensures ReadValue(read, t, i) == Parsed(v, i + |Write(v).value|)
  {
    var w := Write(v).value;
    UnitAt(t, i, w, 0);
    StaysPut(t, i);
    assert At(t, i, TRUE) ==> t[i] == TRUE[0] by { if At(t, i, TRUE) { UnitAt(t, i, TRUE, 0); } }
    assert At(t, i, FALSE) ==> t[i] == FALSE[0] by { if At(t, i, FALSE) { UnitAt(t, i, FALSE, 0); } }
  }

  lemma StringReads(read: Text -> Value, s: Text, t: Text, i: nat)
    requires At(t, i, Quoted(s))
    ensures ReadValue(read, t, i) == Parsed(Str(s), i + |Quoted(s)|)
  {
    QuotedReads(s, t, i);
    StaysPut(t, i);
  }

  /** What follows a list's first part. */
  function Following(parts: seq<Text>, close: Unit): Text {
    if parts == [] then [close] else [COMMA] + (Join(parts) + [close])
  }

  lemma JoinSplit(parts: seq<Text>, close: Unit)
    requires parts != []
    ensures Join(parts) + [close] == parts[0] + Following(parts[1..], close)
  {
    if |parts| > 1 {
      assert (parts[0] + ([COMMA] + Join(parts[1..]))) + [close] == parts[0] + ([COMMA] + (Join(parts[1..]) + [close]));
    }
  }

  /** A list's parts and its closing bracket stand at an index. */
  predicate ListAt(t: Text, i: nat, parts: seq<Text>, close: Unit) { At(t, i, Join(parts) + [close]) }

  lemma FollowingAt(t: Text, j: nat, parts: seq<Text>, close: Unit)
    requires close == CLOSE_ARRAY || close == CLOSE_OBJECT
    requires At(t, j, Following(parts, close))
    ensures j < |t| && Stops(t, j) && Space(t, j) == j
    ensures if parts == [] then t[j] == close else t[j] == COMMA && ListAt(t, j + 1, parts, close)
  {
    UnitAt(t, j, Following(parts, close), 0);
    if parts != [] { AtSplit(t, j, [COMMA], Join(parts) + [close]); }
  }

  /** A list's first part, what follows it, and the rest of the list. */
  lemma PartAt(t: Text, i: nat, parts: seq<Text>, close: Unit)
    requires close == CLOSE_ARRAY || close == CLOSE_OBJECT
    requires parts != [] && ListAt(t, i, parts, close)
    ensures var j := i + |parts[0]|;
            && At(t, i, parts[0]) && j < |t| && Stops(t, j) && Space(t, j) == j
            && (|parts| == 1 ==> t[j] == close && |Join(parts)| == j - i)
            && (|parts| > 1 ==> t[j] == COMMA && ListAt(t, j + 1, parts[1..], close)
                                && |Join(parts)| == j + 1 - i + |Join(parts[1..])|)
  {
    FirstAt(t, i, parts, close);
    FollowingAt(t, i + |parts[0]|, parts[1..], close);
  }

  lemma FirstAt(t: Text, i: nat, parts: seq<Text>, close: Unit)
    requires parts != [] && ListAt(t, i, parts, close)
    ensures At(t, i, parts[0]) && At(t, i + |parts[0]|, Following(parts[1..], close))
  {
    JoinSplit(parts, close);
    AtSplit(t, i, parts[0], Following(parts[1..], close));
  }

  /** A written value starts with a unit of its own. */
  lemma FirstUnit(v: Value)
    requires WellFormed(v) && Whole(v)
    ensures var w := Write(v).value;
            w != [] && !IsSpace(w[0]) && w[0] != CLOSE_ARRAY
  {
    match v
    case Num(n) => IntegerTextReads(n);
    case Big(n) => IntegerTextReads(n);
    case _ =>
  }

  /** A value written in a text is read back from it, each number as its literal reads. */
  lemma {:induction false} ValueReads(read: Text -> Value, v: Value, t: Text, i: nat)
    requires WellFormed(v) && Whole(v) && At(t, i, Write(v).value) && Stops(t, i + |Write(v).value|)
    ensures ReadValue(read, t, i) == Parsed(Reread(read, v), i + |Write(v).value|)
    decreases v, 1
  {
    match v
    case Null => WordReads(read, v, t, i);
    case Bool(truth) => WordReads(read, v, t, i);
    case Num(n) => IntegerReads(read, n, t, i);
    case Big(n) => IntegerReads(read, n, t, i);
    case Float(written) =>
      if written == NULL { WordReads(read, Null, t, i); } else { NumberReads(read, written, t, i); }
    case Str(text) => StringReads(read, text, t, i);
    case Arr(items) => ArrayReads(read, items, t, i);
    case Obj(members) => ObjectReads(read, members, t, i);
  }

  lemma ArrayStep(read: Text -> Value, t: Text, i: nat, items: seq<Value>, next: nat)
    requires i + 1 < |t| && t[i] == OPEN_ARRAY && Space(t, i) == i && Space(t, i + 1) == i + 1
    ensures t[i + 1] == CLOSE_ARRAY ==> ReadValue(read, t, i) == Parsed(Arr([]), i + 2)
    ensures t[i + 1] != CLOSE_ARRAY && ReadItems(read, t, i + 1, []) == Parsed(items, next) ==>
              ReadValue(read, t, i) == Parsed(Arr(items), next)
  {}

  lemma ObjectStep(read: Text -> Value, t: Text, i: nat, members: seq<Member>, next: nat)
    requires i + 1 < |t| && t[i] == OPEN_OBJECT && Space(t, i) == i && Space(t, i + 1) == i + 1
    ensures t[i + 1] == CLOSE_OBJECT ==> ReadValue(read, t, i) == Parsed(Obj([]), i + 2)
    ensures t[i + 1] != CLOSE_OBJECT && ReadMembers(read, t, i + 1, []) == Parsed(members, next) ==>
              ReadValue(read, t, i) == Parsed(Obj(members), next)
  {}

  /** An opening bracket, and what stands inside and behind it. */
  lemma OpenAt(t: Text, i: nat, open: Unit, rest: Text)
    requires At(t, i, [open] + rest) && rest != []
    requires !IsSpace(open) && !IsSpace(rest[0])
    ensures i + 1 < |t| && t[i] == open && t[i + 1] == rest[0] && At(t, i + 1, rest)
    ensures Space(t, i) == i && Space(t, i + 1) == i + 1
  {
    AtSplit(t, i, [open], rest);
    UnitAt(t, i, [open], 0);
    UnitAt(t, i + 1, rest, 0);
  }

  lemma ItemTextsCons(items: seq<Value>)
    requires items != [] && WholeItems(items)
    ensures Write(items[0]).Some? && ItemTexts(items)[0] == Write(items[0]).value && ItemTexts(items)[1..] == ItemTexts(items[1..])
  {}

  lemma ItemsStart(items: seq<Value>)
    requires items != [] && WellFormedItems(items) && WholeItems(items)
    ensures var w := Join(ItemTexts(items)); w != [] && !IsSpace(w[0]) && w[0] != CLOSE_ARRAY
  {
    FirstUnit(items[0]);
    ItemTextsCons(items);
    JoinSplit(ItemTexts(items), CLOSE_ARRAY);
    assert (Join(ItemTexts(items)) + [CLOSE_ARRAY])[0] == Write(items[0]).value[0];
  }

  lemma {:induction false} ArrayReads(read: Text -> Value, items: seq<Value>, t: Text, i: nat)
    requires WellFormedItems(items) && WholeItems(items) && At(t, i, [OPEN_ARRAY] + (Join(ItemTexts(items)) + [CLOSE_ARRAY]))
    ensures ReadValue(read, t, i) == Parsed(Arr(RereadItems(read, items)), i + |Join(ItemTexts(items))| + 2)
    decreases items, 2
  {
    if items != [] { ItemsStart(items); }
    OpenAt(t, i, OPEN_ARRAY, Join(ItemTexts(items)) + [CLOSE_ARRAY]);
    var again := RereadItems(read, items);
    if items != [] {
      ItemsRead(read, items, [], t, i + 1);
      assert [] + again == again;
    }
    ArrayStep(read, t, i, again, i + |Join(ItemTexts(items))| + 2);
  }

  lemma {:induction false} ItemStep(read: Text -> Value, t: Text, i: nat, taken: seq<Value>, item: Value, next: nat)
    requires i <= |t| && next < |t| && ReadValue(read, t, i) == Parsed(item, next) && Space(t, next) == next
    ensures t[next] == CLOSE_ARRAY ==> ReadItems(read, t, i, taken) == Parsed(taken + [item], next + 1)
    ensures t[next] == COMMA ==> ReadItems(read, t, i, taken) == ReadItems(read, t, next + 1, taken + [item])
  {}

  lemma RereadItemsCons(read: Text -> Value, items: seq<Value>, taken: seq<Value>)
    requires items != []
    ensures taken + RereadItems(read, items) == (taken + [Reread(read, items[0])]) + RereadItems(read, items[1..])
    ensures |items| == 1 ==> taken + RereadItems(read, items) == taken + [Reread(read, items[0])]
  {
    Regrouped(taken, [Reread(read, items[0])], RereadItems(read, items[1..]));
  }

  /** Once its text reads, a list's first item is taken and the rest are read. */
  lemma ItemTail(read: Text -> Value, value: Value, parts: seq<Text>, taken: seq<Value>, t: Text, i: nat)
    requires i <= |t| && parts != [] && ListAt(t, i, parts, CLOSE_ARRAY)
    requires ReadValue(read, t, i) == Parsed(value, i + |parts[0]|)
    ensures var next := i + |parts[0]| + 1;
            && next <= |t|
            && (|parts| == 1 ==> |Join(parts)| + 1 == next - i
                                 && ReadItems(read, t, i, taken) == Parsed(taken + [value], next))
            && (|parts| > 1 ==> |Join(parts)| == next - i + |Join(parts[1..])|
                                && ListAt(t, next, parts[1..], CLOSE_ARRAY)
                                && ReadItems(read, t, i, taken) == ReadItems(read, t, next, taken + [value]))
  {
    PartAt(t, i, parts, CLOSE_ARRAY);
    ItemStep(read, t, i, taken, value, i + |parts[0]|);
  }

  lemma ItemHead(parts: seq<Text>, t: Text, i: nat)
    requires parts != [] && ListAt(t, i, parts, CLOSE_ARRAY)
    ensures i + |parts[0]| < |t| && At(t, i, parts[0]) && Stops(t, i + |parts[0]|)
  {
    PartAt(t, i, parts, CLOSE_ARRAY);
  }

  /** The items written in a list are read back in order, to its bracket. */
  lemma {:induction false} ItemsRead(read: Text -> Value, items: seq<Value>, taken: seq<Value>, t: Text, i: nat)
    requires items != [] && WellFormedItems(items) && WholeItems(items)
    requires ListAt(t, i, ItemTexts(items), CLOSE_ARRAY)
    ensures ReadItems(read, t, i, taken) == Parsed(taken + RereadItems(read, items), i + |Join(ItemTexts(items))| + 1)
    decreases items, 1
  {
    var value, parts := Reread(read, items[0]), ItemTexts(items);
    ItemTextsCons(items);
    ItemHead(parts, t, i);
    ValueReads(read, items[0], t, i);
    ItemTail(read, value, parts, taken, t, i);
    RereadItemsCons(read, items, taken);
    if items[1..] != [] {
      ItemsRead(read, items[1..], taken + [value], t, i + |parts[0]| + 1);
    }
  }

  lemma {:induction false} MembersCount(members: seq<Member>)
    requires WholeMembers(members)
    ensures |MemberTexts(members)| == |members|
  {
    if members != [] {
      MembersCount(members[1..]);
    }
  }

  lemma MemberTextsCons(members: seq<Member>)
    requires members != [] && WholeMembers(members)
    ensures var parts := MemberTexts(members);
            && |parts| == |members| && Write(members[0].value).Some?
            && parts[0] == MemberText(members[0].key, Write(members[0].value).value)
            && parts[1..] == MemberTexts(members[1..])
  {
    MembersCount(members);
    assert MemberTexts(members) == [MemberText(members[0].key, Write(members[0].value).value)] + MemberTexts(members[1..]);
  }

  lemma MembersStart(members: seq<Member>)
    requires members != [] && WholeMembers(members)
    ensures Join(MemberTexts(members)) != [] && Join(MemberTexts(members))[0] == QUOTE
  {
    MemberTextsCons(members);
    JoinSplit(MemberTexts(members), CLOSE_OBJECT);
    assert (Join(MemberTexts(members)) + [CLOSE_OBJECT])[0] == MemberTexts(members)[0][0] == QUOTE;
  }

  lemma {:induction false} ObjectReads(read: Text -> Value, members: seq<Member>, t: Text, i: nat)
    requires Ordered(members) && WellFormedMembers(members) && WholeMembers(members)
    requires At(t, i, [OPEN_OBJECT] + (Join(MemberTexts(members)) + [CLOSE_OBJECT]))
    ensures ReadValue(read, t, i) == Parsed(Obj(RereadMembers(read, members)), i + |Join(MemberTexts(members))| + 2)
    decreases members, 2
  {
    var rest := Join(MemberTexts(members)) + [CLOSE_OBJECT];
    if members != [] { MembersStart(members); }
    OpenAt(t, i, OPEN_OBJECT, rest);
    var again := RereadMembers(read, members);
    if members != [] {
      MembersRead(read, members, [], t, i + 1);
      assert [] + again == again;
    }
    ObjectStep(read, t, i, again, i + |Join(MemberTexts(members))| + 2);
  }

  /** A key and its value, read together. */
  lemma MemberReads(key: Text, w: Text, t: Text, i: nat)
    requires At(t, i, MemberText(key, w))
    ensures var colon := i + |Quoted(key)|;
            && Space(t, i) == i && Has(t, i, QUOTE)
            && ReadString(t, i) == Parsed(key, colon)
            && Space(t, colon) == colon && Has(t, colon, COLON)
            && At(t, colon + 1, w)
  {
    AtSplit(t, i, Quoted(key), [COLON] + w);
    AtSplit(t, i + |Quoted(key)|, [COLON], w);
    QuotedReads(key, t, i);
    UnitAt(t, i + |Quoted(key)|, [COLON], 0);
    StaysPut(t, i);
    StaysPut(t, i + |Quoted(key)|);
  }

  lemma {:induction false} MemberWhole(read: Text -> Value, t: Text, i: nat, key: Text, colon: nat, value: Value, next: nat)
    requires KeyAt(t, i, key, colon) && ReadValue(read, t, colon + 1) == Parsed(value, next)
    ensures ReadMember(read, t, i) == Parsed(Member(key, value), next)
  {}

  lemma {:induction false} MemberStep(read: Text -> Value, t: Text, i: nat, taken: seq<Member>, m: Member, next: nat)
    requires i <= |t| && next < |t| && ReadMember(read, t, i) == Parsed(m, next) && Space(t, next) == next
    ensures t[next] == CLOSE_OBJECT ==> ReadMembers(read, t, i, taken) == Parsed(Put(taken, m.key, m.value), next + 1)
    ensures t[next] == COMMA ==> ReadMembers(read, t, i, taken) == ReadMembers(read, t, next + 1, Put(taken, m.key, m.value))
  {}

  lemma RereadMembersCons(read: Text -> Value, members: seq<Member>, taken: seq<Member>)
    requires members != []
    ensures taken + RereadMembers(read, members) ==
            (taken + [Member(members[0].key, Reread(read, members[0].value))]) + RereadMembers(read, members[1..])
  {
    Regrouped(taken, [Member(members[0].key, Reread(read, members[0].value))], RereadMembers(read, members[1..]));
  }

  /** Every key of the first list is listed before every key of the second. */
  predicate AllBefore(a: seq<Member>, b: seq<Member>) {
    forall j, k :: 0 <= j < |a| && 0 <= k < |b| ==> Before(a[j].key, b[k].key)
  }

  lemma AllBeforeNext(taken: seq<Member>, members: seq<Member>, next: Member)
    requires members != [] && next.key == members[0].key && Ordered(members) && AllBefore(taken, members)
    ensures AllBefore(taken + [next], members[1..]) && Ordered(members[1..])
  {}

  lemma PutNext(taken: seq<Member>, members: seq<Member>, value: Value)
    requires members != [] && AllBefore(taken, members)
    ensures Put(taken, members[0].key, value) == taken + [Member(members[0].key, value)]
  {
    PutLast(taken, members[0].key, value);
  }

  /** A key and its colon stand at an index, and a value after them. */
  predicate KeyAt(t: Text, i: nat, key: Text, colon: nat) {
    && i < |t| && colon < |t|
    && Space(t, i) == i && t[i] == QUOTE && ReadString(t, i) == Parsed(key, colon)
    && Space(t, colon) == colon && t[colon] == COLON
  }

  /** Where a list's first member has its value, and what ends it. */
  lemma MemberHead(key: Text, w: Text, parts: seq<Text>, t: Text, i: nat) returns (colon: nat)
    requires parts != [] && parts[0] == MemberText(key, w) && ListAt(t, i, parts, CLOSE_OBJECT)
    ensures KeyAt(t, i, key, colon) && colon + 1 + |w| == i + |parts[0]| && At(t, colon + 1, w) && Stops(t, i + |parts[0]|)
  {
    colon := i + |Quoted(key)|;
    PartAt(t, i, parts, CLOSE_OBJECT);
    MemberReads(key, w, t, i);
  }

  /** Once its value reads, a list's first member is put and the rest are read. */
  lemma MemberTail(read: Text -> Value, key: Text, colon: nat, value: Value, parts: seq<Text>, taken: seq<Member>, t: Text, i: nat)
    requires parts != [] && ListAt(t, i, parts, CLOSE_OBJECT)
    requires KeyAt(t, i, key, colon) && ReadValue(read, t, colon + 1) == Parsed(value, i + |parts[0]|)
    ensures var next := i + |parts[0]| + 1;
            && next <= |t|
            && (|parts| == 1 ==> |Join(parts)| + 1 == next - i
                                 && ReadMembers(read, t, i, taken) == Parsed(Put(taken, key, value), next))
            && (|parts| > 1 ==> |Join(parts)| == next - i + |Join(parts[1..])|
                                && ListAt(t, next, parts[1..], CLOSE_OBJECT)
                                && ReadMembers(read, t, i, taken) == ReadMembers(read, t, next, Put(taken, key, value)))
  {
    PartAt(t, i, parts, CLOSE_OBJECT);
    MemberWhole(read, t, i, key, colon, value, i + |parts[0]|);
    MemberStep(read, t, i, taken, Member(key, value), i + |parts[0]|);
  }

  /** What the first member adds to those already read, and what is left. */
  lemma MembersOnward(read: Text -> Value, members: seq<Member>, taken: seq<Member>)
    requires members != [] && Ordered(members) && AllBefore(taken, members)
    ensures var next := Member(members[0].key, Reread(read, members[0].value));
            && Put(taken, next.key, next.value) == taken + [next]
            && taken + RereadMembers(read, members) == (taken + [next]) + RereadMembers(read, members[1..])
            && AllBefore(taken + [next], members[1..]) && Ordered(members[1..])
            && (members[1..] == [] ==> taken + RereadMembers(read, members) == taken + [next])
  {
    var next := Member(members[0].key, Reread(read, members[0].value));
    PutNext(taken, members, next.value);
    RereadMembersCons(read, members, taken);
    AllBeforeNext(taken, members, next);
    if members[1..] == [] {
      assert RereadMembers(read, members[1..]) == [];
      assert (taken + [next]) + [] == taken + [next];
    }
  }

  /** The members written in an object are read back in order, to its brace. */
  lemma {:induction false} MembersRead(read: Text -> Value, members: seq<Member>, taken: seq<Member>, t: Text, i: nat)
    requires members != [] && Ordered(members) && AllBefore(taken, members)
    requires WellFormedMembers(members) && WholeMembers(members)
    requires ListAt(t, i, MemberTexts(members), CLOSE_OBJECT)
    ensures ReadMembers(read, t, i, taken) == Parsed(taken + RereadMembers(read, members), i + |Join(MemberTexts(members))| + 1)
    decreases members, 1
  {
    var key, value, parts := members[0].key, Reread(read, members[0].value), MemberTexts(members);
    MemberTextsCons(members);
    var next := i + |parts[0]|;
    var colon := MemberHead(key, Write(members[0].value).value, parts, t, i);
    ValueReads(read, members[0].value, t, colon + 1);
    MemberTail(read, key, colon, value, parts, taken, t, i);
    MembersOnward(read, members, taken);
    if members[1..] != [] {
      MembersRead(read, members[1..], taken + [Member(key, value)], t, next + 1);
    }
  }
}
