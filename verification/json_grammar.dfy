/**
 * The texts of section 2 of RFC 8259, with every choice a writer has: white space, escapes, the spelling
 * of numbers and repeated keys.
 */
module JsonGrammar {
  import opened JsonText
  import opened JsonTextLaws
  import opened Sequences
  import opened Wrappers

  // ---- Numerals ----

  datatype Exponent = Exponent(mark: Unit, sign: Text, digits: Text)

  datatype Numeral = Numeral(negative: bool, whole: Text, fraction: Option<Text>, exponent: Option<Exponent>)

  /** Digits, at least one. */
  predicate SomeDigits(t: Text) { t != [] && DigitUnits(t) }

  predicate ValidNumeral(n: Numeral) {
    && SomeDigits(n.whole) && (|n.whole| > 1 ==> n.whole[0] != ZERO)
    && (n.fraction.Some? ==> SomeDigits(n.fraction.value))
    && (n.exponent.Some? ==>
          var e := n.exponent.value;
          (e.mark == 0x65 || e.mark == 0x45) && (e.sign == [] || e.sign == [PLUS] || e.sign == [MINUS]) && SomeDigits(e.digits))
  }

  function WholeText(n: Numeral): Text { (if n.negative then [MINUS] else []) + n.whole }

  function FractionText(n: Numeral): Text { if n.fraction.Some? then [POINT] + n.fraction.value else [] }

  function ExponentText(n: Numeral): Text {
    if n.exponent.Some? then [n.exponent.value.mark] + (n.exponent.value.sign + n.exponent.value.digits) else []
  }

  function NumeralText(n: Numeral): Text { WholeText(n) + (FractionText(n) + ExponentText(n)) }

  // ---- Strings ----

  /** One unit of a string as it may be written: itself, a letter after a backslash, or four hex digits. */
  datatype Glyph = Plain(unit: Unit) | Short(unit: Unit, letter: Unit) | Hex(unit: Unit, upper: seq<bool>)

  /** The letters that stand for a unit after a backslash. */
  predicate Stands(letter: Unit, unit: Unit) {
    || (letter == unit && (unit == 0x22 || unit == 0x5C || unit == 0x2F))
    || (letter == 0x62 && unit == 8) || (letter == 0x66 && unit == 12) || (letter == 0x6E && unit == 10)
    || (letter == 0x72 && unit == 13) || (letter == 0x74 && unit == 9)
  }

  predicate ValidGlyph(g: Glyph) {
    match g
    case Plain(unit) => unit >= 0x20 && unit != QUOTE && unit != BACKSLASH
    case Short(unit, letter) => Stands(letter, unit)
    case Hex(_, upper) => |upper| == 4
  }

  predicate ValidGlyphs(glyphs: seq<Glyph>) { forall i :: 0 <= i < |glyphs| ==> ValidGlyph(glyphs[i]) }

  /** A hex digit of either case. */
  function HexLetter(n: nat, upper: bool): (u: Unit)
    requires n < 16
    ensures HexValue(u) == Some(n)
  {
    if n < 10 then 0x30 + n else if upper then 0x41 + (n - 10) else 0x61 + (n - 10)
  }

  function HexText(unit: Unit, upper: seq<bool>): (t: Text)
    requires |upper| == 4
    ensures |t| == 4
  {
    [HexLetter(unit / 4096, upper[0]), HexLetter(unit / 256 % 16, upper[1]),
     HexLetter(unit / 16 % 16, upper[2]), HexLetter(unit % 16, upper[3])]
  }

  function GlyphText(g: Glyph): (t: Text)
    requires ValidGlyph(g)
    ensures t != []
  {
    match g
    case Plain(unit) => [unit]
    case Short(_, letter) => [BACKSLASH, letter]
    case Hex(unit, upper) => [BACKSLASH, 0x75] + HexText(unit, upper)
  }

  /** The inside of a string, and the quote that closes it. */
  function GlyphsText(glyphs: seq<Glyph>): Text
    requires ValidGlyphs(glyphs)
  {
    if glyphs == [] then [QUOTE] else GlyphText(glyphs[0]) + GlyphsText(glyphs[1..])
  }

  function StringText(glyphs: seq<Glyph>): Text
    requires ValidGlyphs(glyphs)
  {
    [QUOTE] + GlyphsText(glyphs)
  }

  /** The string that glyphs spell. */
  function Meant(glyphs: seq<Glyph>): Text { if glyphs == [] then [] else [glyphs[0].unit] + Meant(glyphs[1..]) }

  // ---- Values ----

  /** Space, tab, line feed and carriage return. */
  const WHITE: Text := [0x20, 0x09, 0x0A, 0x0D]

  predicate White(t: Text) { forall i :: 0 <= i < |t| ==> t[i] in WHITE }

  /** A value as it may be written. */
  datatype Layout =
    | Word(value: Value)
    | Number(numeral: Numeral)
    | Glyphs(glyphs: seq<Glyph>)
    | List(gap: Text, items: seq<Spaced>)
    | Object(gap: Text, entries: seq<Entry>)

  /** A value and the white space around it. */
  datatype Spaced = Spaced(before: Text, value: Layout, after: Text)

  /** A key, white space before it and its colon, and its value. */
  datatype Entry = Entry(before: Text, key: seq<Glyph>, gap: Text, value: Spaced)

  predicate Valid(l: Layout) {
    match l
    case Word(value) => value.Null? || value.Bool?
    case Number(numeral) => ValidNumeral(numeral)
    case Glyphs(glyphs) => ValidGlyphs(glyphs)
    case List(gap, items) => White(gap) && ValidItems(items)
    case Object(gap, entries) => White(gap) && ValidEntries(entries)
  }

  predicate ValidSpaced(s: Spaced) { White(s.before) && Valid(s.value) && White(s.after) }

  predicate ValidItems(items: seq<Spaced>) { items != [] ==> ValidSpaced(items[0]) && ValidItems(items[1..]) }

  predicate ValidEntry(e: Entry) { White(e.before) && ValidGlyphs(e.key) && White(e.gap) && ValidSpaced(e.value) }

  predicate ValidEntries(entries: seq<Entry>) { entries != [] ==> ValidEntry(entries[0]) && ValidEntries(entries[1..]) }

  function LayoutText(l: Layout): Text
    requires Valid(l)
  {
    match l
    case Word(value) => if value == Null then NULL else if value == Bool(true) then TRUE else FALSE
    case Number(numeral) => NumeralText(numeral)
    case Glyphs(glyphs) => StringText(glyphs)
    case List(gap, items) => [OPEN_ARRAY] + (gap + ItemsText(items))
    case Object(gap, entries) => [OPEN_OBJECT] + (gap + EntriesText(entries))
  }

  function SpacedText(s: Spaced): Text
    requires ValidSpaced(s)
  {
    s.before + (LayoutText(s.value) + s.after)
  }

  /** Items with commas between them, and the bracket that closes them. */
  function ItemsText(items: seq<Spaced>): Text
    requires ValidItems(items)
  {
    if items == [] then [CLOSE_ARRAY]
    else if |items| == 1 then SpacedText(items[0]) + [CLOSE_ARRAY]
    else SpacedText(items[0]) + ([COMMA] + ItemsText(items[1..]))
  }

  function KeyText(e: Entry): Text
    requires ValidGlyphs(e.key)
  {
    e.before + (StringText(e.key) + (e.gap + [COLON]))
  }

  function EntryText(e: Entry): Text
    requires ValidEntry(e)
  {
    KeyText(e) + SpacedText(e.value)
  }

  /** Entries with commas between them, and the brace that closes them. */
  function EntriesText(entries: seq<Entry>): Text
    requires ValidEntries(entries)
  {
    if entries == [] then [CLOSE_OBJECT]
    else if |entries| == 1 then EntryText(entries[0]) + [CLOSE_OBJECT]
    else EntryText(entries[0]) + ([COMMA] + EntriesText(entries[1..]))
  }

  /** The value that is written: nothing of the white space or of the spelling of strings. */
  function Meaning(read: Text -> Value, l: Layout): Value {
    match l
    case Word(value) => value
    case Number(numeral) => read(NumeralText(numeral))
    case Glyphs(glyphs) => Str(Meant(glyphs))
    case List(_, items) => Arr(ItemMeanings(read, items))
    case Object(_, entries) => Obj(Defined([], EntryMeanings(read, entries)))
  }

  function ItemMeanings(read: Text -> Value, items: seq<Spaced>): seq<Value> {
    if items == [] then [] else [Meaning(read, items[0].value)] + ItemMeanings(read, items[1..])
  }

  function EntryMeanings(read: Text -> Value, entries: seq<Entry>): seq<Member> {
    if entries == [] then []
    else [Member(Meant(entries[0].key), Meaning(read, entries[0].value.value))] + EntryMeanings(read, entries[1..])
  }

  /** The members of an object after more are defined in turn. */
  function Defined(members: seq<Member>, more: seq<Member>): seq<Member>
    decreases |more|
  {
    if more == [] then members else Defined(Put(members, more[0].key, more[0].value), more[1..])
  }

  // ---- A repeated key ----

  /** The value at a key, when there is one. */
  function ValueAt(members: seq<Member>, key: Text): Option<Value> {
    if Place(members, key) < |members| then Some(members[Place(members, key)].value) else None
  }

  /** The value at the last of a list of members that has a key. */
  function LastAt(members: seq<Member>, key: Text): Option<Value> {
    if members == [] then None
    else
      var last := members[|members| - 1];
      if last.key == key then Some(last.value) else LastAt(members[..|members| - 1], key)
  }

  lemma {:induction false} PlaceConcat(a: seq<Member>, b: seq<Member>, key: Text)
    ensures Place(a + b, key) == if Place(a, key) < |a| then Place(a, key) else |a| + Place(b, key)
  {
    if a == [] {
      assert a + b == b;
    } else {
      assert (a + b)[1..] == a[1..] + b;
      PlaceConcat(a[1..], b, key);
    }
  }

  lemma {:induction false} ValueConcat(a: seq<Member>, b: seq<Member>, key: Text)
    ensures ValueAt(a + b, key) == if ValueAt(a, key).Some? then ValueAt(a, key) else ValueAt(b, key)
  {
    PlaceConcat(a, b, key);
  }

  lemma {:induction false} PutPlaced(members: seq<Member>, at: nat, m: Member, other: Text)
    requires Place(members, m.key) == at < |members|
    ensures ValueAt(members[at := m], other) == if other == m.key then Some(m.value) else ValueAt(members, other)
  {
    var after := members[at := m];
    assert forall i :: 0 <= i < |members| ==> after[i].key == members[i].key;
    assert Place(after, other) == Place(members, other);
  }

  lemma {:induction false} PutBetween(a: seq<Member>, m: Member, b: seq<Member>, other: Text)
    requires ValueAt(a + b, m.key).None?
    ensures ValueAt((a + [m]) + b, other) == if other == m.key then Some(m.value) else ValueAt(a + b, other)
  {
    ValueConcat(a + [m], b, other);
    ValueConcat(a, [m], other);
    ValueConcat(a, b, other);
  }

  lemma {:induction false} PutInserted(members: seq<Member>, m: Member, k: nat, other: Text)
    requires Place(members, m.key) == |members| && k <= |members|
    ensures ValueAt(members[..k] + [m] + members[k..], other) == if other == m.key then Some(m.value) else ValueAt(members, other)
  {
    assert members == members[..k] + members[k..];
    PutBetween(members[..k], m, members[k..], other);
  }

  /** Defining a property changes its own value and no other. */
  lemma {:induction false} PutAt(members: seq<Member>, key: Text, value: Value, other: Text)
    ensures ValueAt(Put(members, key, value), other) == if other == key then Some(value) else ValueAt(members, other)
  {
    if Place(members, key) < |members| {
      PutPlaced(members, Place(members, key), Member(key, value), other);
    } else {
      var n := KeyIndex(key);
      PutInserted(members, Member(key, value), if n.Some? then Slot(members, n.value) else |members|, other);
    }
  }

  lemma {:induction false} DefinedSnoc(members: seq<Member>, more: seq<Member>, m: Member)
    ensures Defined(members, more + [m]) == Put(Defined(members, more), m.key, m.value)
    decreases |more|
  {
    if more == [] {
      assert (more + [m])[1..] == [];
    } else {
      assert (more + [m])[1..] == more[1..] + [m];
      DefinedSnoc(Put(members, more[0].key, more[0].value), more[1..], m);
    }
  }

  /** Of a key written more than once the last value counts. */
  lemma {:induction false} LastCounts(more: seq<Member>, key: Text)
    ensures ValueAt(Defined([], more), key) == LastAt(more, key)
    decreases |more|
  {
    if more != [] {
      var before, last := more[..|more| - 1], more[|more| - 1];
      assert more == before + [last];
      DefinedSnoc([], before, last);
      PutAt(Defined([], before), last.key, last.value, key);
      LastCounts(before, key);
    }
  }
}
