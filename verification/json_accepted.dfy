/** The reader accepts the texts of the grammar and no other, each with what it means. */
module JsonAccepted {
  import opened JsonGrammar
  import opened JsonPlaced
  import opened JsonRoundTrip
  import opened JsonSettled
  import opened JsonSpelled
  import opened JsonText
  import opened JsonTextLaws
  import opened Sequences
  import opened Wrappers

  // ---- Numerals ----

  lemma {:induction false} RunIsDigits(t: Text, i: nat)
    requires i <= |t|
    ensures DigitUnits(t[i..Run(t, i)])
    decreases |t| - i
  {
    if i < |t| && IsDigitUnit(t[i]) {
      RunIsDigits(t, i + 1);
      assert t[i..Run(t, i)] == [t[i]] + t[i + 1..Run(t, i + 1)];
    }
  }

  lemma WholeIs(w: Text) returns (whole: Text)
    requires IntEnd(w, 0).Some?
    ensures SomeDigits(whole) && (|whole| > 1 ==> whole[0] != ZERO)
    ensures w[..IntEnd(w, 0).value] == (if Has(w, 0, MINUS) then [MINUS] else []) + whole
  {
    var k := if Has(w, 0, MINUS) then 1 else 0;
    RunIsDigits(w, k);
    whole := w[k..IntEnd(w, 0).value];
    assert w[..IntEnd(w, 0).value] == w[..k] + whole;
  }

  lemma FractionIs(w: Text, a: nat) returns (fraction: Option<Text>)
    requires a <= |w|
    ensures fraction.Some? ==> SomeDigits(fraction.value)
    ensures w[a..FractionEnd(w, a)] == if fraction.Some? then [POINT] + fraction.value else []
  {
    var b := FractionEnd(w, a);
    fraction := None;
    if b > a {
      RunIsDigits(w, a + 1);
      fraction := Some(w[a + 1..b]);
      assert w[a..b] == [w[a]] + w[a + 1..b];
    }
  }

  predicate ValidExponent(e: Option<Exponent>) {
    ValidNumeral(Numeral(false, [ZERO], None, e))
  }

  lemma ExponentIs(w: Text, b: nat) returns (e: Option<Exponent>)
    requires b <= |w|
    ensures ValidExponent(e)
    ensures w[b..ExponentEnd(w, b)] == if e.Some? then [e.value.mark] + (e.value.sign + e.value.digits) else []
  {
    var j := ExponentEnd(w, b);
    e := None;
    if b < j {
      var k := if Has(w, b + 1, PLUS) || Has(w, b + 1, MINUS) then b + 2 else b + 1;
      RunIsDigits(w, k);
      e := Some(Exponent(w[b], w[b + 1..k], w[k..j]));
      assert w[b..j] == [w[b]] + (w[b + 1..k] + w[k..j]);
    }
  }

  lemma InThree(w: Text, a: nat, b: nat)
    requires a <= b <= |w|
    ensures w == w[..a] + (w[a..b] + w[b..|w|])
  {}

  /** A number read whole is a numeral of the grammar. */
  lemma NumberIsNumeral(w: Text) returns (n: Numeral)
    requires IsNumber(w)
    ensures ValidNumeral(n) && NumeralText(n) == w
  {
    var a := IntEnd(w, 0).value;
    var b := FractionEnd(w, a);
    var whole := WholeIs(w);
    var fraction := FractionIs(w, a);
    var exponent := ExponentIs(w, b);
    InThree(w, a, b);
    n := Numeral(Has(w, 0, MINUS), whole, fraction, exponent);
  }

  // ---- Strings ----

  lemma HexIs(t: Text, i: nat) returns (upper: seq<bool>)
    requires ReadHex(t, i).Some?
    ensures |upper| == 4 && Stand(t, i, HexText(ReadHex(t, i).value, upper))
  {
    var a, b, c, d := HexValue(t[i]).value, HexValue(t[i + 1]).value, HexValue(t[i + 2]).value, HexValue(t[i + 3]).value;
    var u := ReadHex(t, i).value;
    HexParts(a, b, c, d);
    upper := [t[i] < 0x61, t[i + 1] < 0x61, t[i + 2] < 0x61, t[i + 3] < 0x61];
    assert HexText(u, upper) == [t[i], t[i + 1], t[i + 2], t[i + 3]];
  }

  lemma HexParts(a: nat, b: nat, c: nat, d: nat)
    requires a < 16 && b < 16 && c < 16 && d < 16
    ensures var u := ((a * 16 + b) * 16 + c) * 16 + d;
            u / 4096 == a && u / 256 % 16 == b && u / 16 % 16 == c && u % 16 == d
  {}

  /** What is read of a string at an index is a glyph there. */
  lemma GlyphIs(t: Text, i: nat, taken: Text) returns (g: Glyph)
    requires i < |t| && t[i] != QUOTE && StringRest(t, i, taken).Some?
    ensures ValidGlyph(g) && Stand(t, i, GlyphText(g))
    ensures StringRest(t, i, taken) == StringRest(t, i + |GlyphText(g)|, taken + [g.unit])
  {
    if t[i] != BACKSLASH {
      g := Plain(t[i]);
    } else if t[i + 1] == 0x75 {
      var upper := HexIs(t, i + 2);
      g := Hex(ReadHex(t, i + 2).value, upper);
      var w := HexText(g.unit, upper);
      forall k | 0 <= k < 6 ensures t[i + k] == GlyphText(g)[k] {
        if k >= 2 { assert t[i + 2 + (k - 2)] == w[k - 2]; }
      }
    } else {
      g := Short(Escaped(t[i + 1]).value, t[i + 1]);
    }
  }

  lemma {:induction false} StringIsGlyphs(t: Text, i: nat, taken: Text) returns (glyphs: seq<Glyph>)
    requires i <= |t| && StringRest(t, i, taken).Some?
    ensures ValidGlyphs(glyphs) && GlyphsEnd(t, i, glyphs) == Some(StringRest(t, i, taken).value.1)
    ensures StringRest(t, i, taken).value.0 == taken + Meant(glyphs)
    decreases |t| - i
  {
    if t[i] == QUOTE {
      glyphs := [];
      assert taken + [] == taken;
    } else {
      var g := GlyphIs(t, i, taken);
      var rest := StringIsGlyphs(t, i + |GlyphText(g)|, taken + [g.unit]);
      glyphs := [g] + rest;
      assert glyphs[1..] == rest;
      Regrouped(taken, [g.unit], Meant(rest));
    }
  }

  // ---- White space ----

  lemma {:induction false} GapIs(t: Text, i: nat) returns (gap: Text)
    requires i <= |t|
    ensures White(gap) && EndOf(t, i, gap) == Some(Space(t, i))
    decreases |t| - i
  {
    gap := [];
    if i < |t| && IsSpace(t[i]) {
      var rest := GapIs(t, i + 1);
      gap := [t[i]] + rest;
      EndOfBoth(t, i, [t[i]], rest);
      UnitEndIs(t, i, t[i]);
    }
  }

  // ---- Values ----

  /** A layout that stands where a value was read and means that value. */
  predicate LaidOut(read: Text -> Value, t: Text, i: nat, l: Layout, r: Parsed<Value>) {
    r.Parsed? && Valid(l) && LayoutEnd(t, i, l) == Some(r.next) && Meaning(read, l) == r.value
  }

  /** What is read as a value is a value of the grammar, with its meaning. */
  lemma {:induction false} ValueIsLaid(read: Text -> Value, t: Text, start: nat) returns (l: Layout)
    requires start <= |t| && ReadValue(read, t, start).Parsed?
    ensures LaidOut(read, t, Space(t, start), l, ReadValue(read, t, start))
    decreases |t| - start, 1
  {
    var i := Space(t, start);
    SpaceTwice(t, start);
    ValueAfterGap(read, t, start, i);
    if Has(t, i, OPEN_OBJECT) {
      l := ObjectIsLaid(read, t, i);
    } else if Has(t, i, OPEN_ARRAY) {
      l := ListIsLaid(read, t, i);
    } else {
      l := AtomIsLaid(read, t, i);
    }
  }

  lemma {:induction false} AtomIsLaid(read: Text -> Value, t: Text, i: nat) returns (l: Layout)
    requires i <= |t| && Space(t, i) == i && !Has(t, i, OPEN_OBJECT) && !Has(t, i, OPEN_ARRAY) && ReadValue(read, t, i).Parsed?
    ensures LaidOut(read, t, i, l, ReadValue(read, t, i))
  {
    if Has(t, i, QUOTE) {
      var glyphs := StringIsGlyphs(t, i + 1, []);
      assert [] + Meant(glyphs) == Meant(glyphs);
      l := Glyphs(glyphs);
    } else if Has(t, i, MINUS) || (i < |t| && IsDigitUnit(t[i])) {
      l := NumberIsLaid(read, t, i);
    } else {
      var v := ReadValue(read, t, i).value;
      l := Word(v);
      StandIsAt(t, i, LayoutText(l));
    }
  }

  lemma {:induction false} ReadsLiteral(read: Text -> Value, t: Text, i: nat) returns (w: Text)
    requires i <= |t| && ReadNumber(read, t, i).Parsed?
    ensures IsNumber(w) && Stand(t, i, w) && ReadNumber(read, t, i) == Parsed(read(w), i + |w|)
  {
    LiteralIsNumber(t, i);
    w := LiteralAt(t, i).value;
    StandIsAt(t, i, w);
  }

  lemma {:induction false} NumberIsLaid(read: Text -> Value, t: Text, i: nat) returns (l: Layout)
    requires i <= |t| && ReadNumber(read, t, i).Parsed?
    ensures LaidOut(read, t, i, l, ReadNumber(read, t, i))
  {
    var w := ReadsLiteral(read, t, i);
    var n := NumberIsNumeral(w);
    l := Number(n);
  }

  lemma {:induction false} ReadsList(read: Text -> Value, t: Text, i: nat)
    requires Has(t, i, OPEN_ARRAY) && Space(t, i) == i
    ensures var j := Space(t, i + 1);
            if Has(t, j, CLOSE_ARRAY) then ReadValue(read, t, i) == Parsed(Arr([]), j + 1)
            else
              var r := ReadItems(read, t, j, []);
              if r.Parsed? then ReadValue(read, t, i) == Parsed(Arr(r.value), r.next) else ReadValue(read, t, i).Fault?
  {}

  lemma {:induction false} ListIsLaid(read: Text -> Value, t: Text, i: nat) returns (l: Layout)
    requires Has(t, i, OPEN_ARRAY) && Space(t, i) == i && ReadValue(read, t, i).Parsed?
    ensures LaidOut(read, t, i, l, ReadValue(read, t, i))
    decreases |t| - i, 0
  {
    var j := Space(t, i + 1);
    var gap := GapIs(t, i + 1);
    var items: seq<Spaced> := [];
    ReadsList(read, t, i);
    if !Has(t, j, CLOSE_ARRAY) {
      items := ItemsAreLaid(read, t, j, []);
      assert [] + ItemMeanings(read, items) == ItemMeanings(read, items);
    }
    l := List(gap, items);
    assert LayoutEnd(t, i, l) == ItemsEnd(t, j, items);
  }

  lemma {:induction false} ReadsObject(read: Text -> Value, t: Text, i: nat)
    requires Has(t, i, OPEN_OBJECT) && Space(t, i) == i
    ensures var j := Space(t, i + 1);
            if Has(t, j, CLOSE_OBJECT) then ReadValue(read, t, i) == Parsed(Obj([]), j + 1)
            else
              var r := ReadMembers(read, t, j, []);
              if r.Parsed? then ReadValue(read, t, i) == Parsed(Obj(r.value), r.next) else ReadValue(read, t, i).Fault?
  {}

  lemma {:induction false} ObjectIsLaid(read: Text -> Value, t: Text, i: nat) returns (l: Layout)
    requires Has(t, i, OPEN_OBJECT) && Space(t, i) == i && ReadValue(read, t, i).Parsed?
    ensures LaidOut(read, t, i, l, ReadValue(read, t, i))
    decreases |t| - i, 0
  {
    var j := Space(t, i + 1);
    var gap := GapIs(t, i + 1);
    var entries: seq<Entry> := [];
    ReadsObject(read, t, i);
    if !Has(t, j, CLOSE_OBJECT) { entries := MembersAreLaid(read, t, j, []); }
    l := Object(gap, entries);
    assert LayoutEnd(t, i, l) == EntriesEnd(t, j, entries);
  }

  /** A value with the white space on either side. */
  lemma {:induction false} SpacedIsLaid(read: Text -> Value, t: Text, i: nat) returns (s: Spaced)
    requires i <= |t| && ReadValue(read, t, i).Parsed?
    ensures ValidSpaced(s) && SpacedEnd(t, i, s) == Some(Space(t, ReadValue(read, t, i).next))
    ensures Meaning(read, s.value) == ReadValue(read, t, i).value
    decreases |t| - i, 2
  {
    var before := GapIs(t, i);
    var l := ValueIsLaid(read, t, i);
    var after := GapIs(t, ReadValue(read, t, i).next);
    s := Spaced(before, l, after);
  }

  /** Items that stand where a list was read, behind those already taken. */
  predicate ItemsLaid(read: Text -> Value, t: Text, i: nat, taken: seq<Value>, items: seq<Spaced>, r: Parsed<seq<Value>>) {
    && r.Parsed? && items != [] && ValidItems(items) && ItemsEnd(t, i, items) == Some(r.next)
    && r.value == taken + ItemMeanings(read, items)
  }

  lemma {:induction false} ItemLast(read: Text -> Value, t: Text, i: nat, taken: seq<Value>, s: Spaced, j: nat)
    requires ValidSpaced(s) && SpacedEnd(t, i, s) == Some(j) && Has(t, j, CLOSE_ARRAY)
    ensures ItemsLaid(read, t, i, taken, [s], Parsed(taken + [Meaning(read, s.value)], j + 1))
  {}

  lemma {:induction false} ItemThen(read: Text -> Value, t: Text, i: nat, taken: seq<Value>, s: Spaced, more: seq<Value>, j: nat,
                                    rest: seq<Spaced>, r: Parsed<seq<Value>>)
    requires ValidSpaced(s) && SpacedEnd(t, i, s) == Some(j) && Has(t, j, COMMA)
    requires more == taken + [Meaning(read, s.value)] && ItemsLaid(read, t, j + 1, more, rest, r)
    ensures ItemsLaid(read, t, i, taken, [s] + rest, r)
  {
    assert ([s] + rest)[1..] == rest;
    MeaningsCons(taken, Meaning(read, s.value), ItemMeanings(read, rest));
  }

  lemma {:induction false} ItemsGoOn(read: Text -> Value, t: Text, i: nat, taken: seq<Value>)
    requires i <= |t| && ReadItems(read, t, i, taken).Parsed?
    ensures ReadValue(read, t, i).Parsed?
    ensures var j, more := Space(t, ReadValue(read, t, i).next), taken + [ReadValue(read, t, i).value];
            if Has(t, j, CLOSE_ARRAY) then ReadItems(read, t, i, taken) == Parsed(more, j + 1)
            else
              && Has(t, j, COMMA) && ReadItems(read, t, j + 1, more).Parsed?
              && ReadItems(read, t, i, taken) == ReadItems(read, t, j + 1, more)
  {}

  lemma {:induction false} FirstItemIsLaid(read: Text -> Value, t: Text, i: nat, taken: seq<Value>) returns (s: Spaced, j: nat, more: seq<Value>)
    requires i <= |t| && ReadItems(read, t, i, taken).Parsed?
    ensures ValidSpaced(s) && SpacedEnd(t, i, s) == Some(j) && i < j < |t| && more == taken + [Meaning(read, s.value)]
    ensures if Has(t, j, CLOSE_ARRAY) then ReadItems(read, t, i, taken) == Parsed(more, j + 1)
            else
              && Has(t, j, COMMA) && ReadItems(read, t, j + 1, more).Parsed?
              && ReadItems(read, t, i, taken) == ReadItems(read, t, j + 1, more)
    decreases |t| - i, 3
  {
    ItemsGoOn(read, t, i, taken);
    s := SpacedIsLaid(read, t, i);
    j := Space(t, ReadValue(read, t, i).next);
    more := taken + [ReadValue(read, t, i).value];
  }

  lemma {:induction false} ItemsAreLaid(read: Text -> Value, t: Text, i: nat, taken: seq<Value>) returns (items: seq<Spaced>)
    requires i <= |t| && ReadItems(read, t, i, taken).Parsed?
    ensures ItemsLaid(read, t, i, taken, items, ReadItems(read, t, i, taken))
    decreases |t| - i, 4
  {
    var s, j, more := FirstItemIsLaid(read, t, i, taken);
    if Has(t, j, CLOSE_ARRAY) {
      items := [s];
      ItemLast(read, t, i, taken, s, j);
    } else {
      var rest := ItemsAreLaid(read, t, j + 1, more);
      items := [s] + rest;
      ItemThen(read, t, i, taken, s, more, j, rest, ReadItems(read, t, j + 1, more));
    }
  }

  // ---- Objects ----

  lemma {:induction false} KeyIsLaid(t: Text, i: nat, value: Spaced) returns (e: Entry)
    requires i <= |t| && Has(t, Space(t, i), QUOTE) && ReadString(t, Space(t, i)).Parsed?
    requires Has(t, Space(t, ReadString(t, Space(t, i)).next), COLON)
    ensures White(e.before) && ValidGlyphs(e.key) && White(e.gap) && e.value == value
    ensures KeyEnd(t, i, e) == Some(Space(t, ReadString(t, Space(t, i)).next) + 1)
    ensures Meant(e.key) == ReadString(t, Space(t, i)).value
  {
    var before := GapIs(t, i);
    var glyphs := StringIsGlyphs(t, Space(t, i) + 1, []);
    var gap := GapIs(t, ReadString(t, Space(t, i)).next);
    assert [] + Meant(glyphs) == Meant(glyphs);
    e := Entry(before, glyphs, gap, value);
  }

  lemma {:induction false} EntryIsLaid(read: Text -> Value, t: Text, i: nat) returns (e: Entry, j: nat)
    requires i <= |t| && ReadMember(read, t, i).Parsed?
    ensures ValidEntry(e) && EntryEnd(t, i, e) == Some(j) && ReadsTo(t, ReadMember(read, t, i), MemberMeant(read, e), j)
    decreases |t| - i, 3
  {
    var colon := Space(t, ReadString(t, Space(t, i)).next);
    var value := SpacedIsLaid(read, t, colon + 1);
    e := KeyIsLaid(t, i, value);
    j := Space(t, ReadMember(read, t, i).next);
  }

  /** Entries that stand where an object was read, behind the members already defined. */
  predicate EntriesLaid(read: Text -> Value, t: Text, i: nat, taken: seq<Member>, entries: seq<Entry>, r: Parsed<seq<Member>>) {
    && r.Parsed? && entries != [] && ValidEntries(entries) && EntriesEnd(t, i, entries) == Some(r.next)
    && r.value == Defined(taken, EntryMeanings(read, entries))
  }

  lemma {:induction false} EntryLast(read: Text -> Value, t: Text, i: nat, taken: seq<Member>, e: Entry, more: seq<Member>, j: nat)
    requires ValidEntry(e) && EntryEnd(t, i, e) == Some(j) && Has(t, j, CLOSE_OBJECT)
    requires more == Put(taken, MemberMeant(read, e).key, MemberMeant(read, e).value)
    ensures EntriesLaid(read, t, i, taken, [e], Parsed(more, j + 1))
  {
    DefinedCons(taken, MemberMeant(read, e), []);
  }

  lemma {:induction false} EntryThen(read: Text -> Value, t: Text, i: nat, taken: seq<Member>, e: Entry, more: seq<Member>, j: nat,
                                     rest: seq<Entry>, r: Parsed<seq<Member>>)
    requires ValidEntry(e) && EntryEnd(t, i, e) == Some(j) && Has(t, j, COMMA)
    requires more == Put(taken, MemberMeant(read, e).key, MemberMeant(read, e).value)
    requires EntriesLaid(read, t, j + 1, more, rest, r)
    ensures EntriesLaid(read, t, i, taken, [e] + rest, r)
  {
    assert ([e] + rest)[1..] == rest;
    DefinedCons(taken, MemberMeant(read, e), EntryMeanings(read, rest));
  }

  lemma {:induction false} MemberCame(read: Text -> Value, t: Text, i: nat, taken: seq<Member>)
    requires i <= |t| && ReadMembers(read, t, i, taken).Parsed?
    ensures ReadMember(read, t, i).Parsed?
  {}

  lemma {:induction false} MembersGoOn(read: Text -> Value, t: Text, i: nat, taken: seq<Member>, m: Member, j: nat, more: seq<Member>)
    requires i <= |t| && ReadMembers(read, t, i, taken).Parsed?
    requires ReadsTo(t, ReadMember(read, t, i), m, j) && more == Put(taken, m.key, m.value)
    ensures i < j < |t|
    ensures if Has(t, j, CLOSE_OBJECT) then ReadMembers(read, t, i, taken) == Parsed(more, j + 1)
            else
              && Has(t, j, COMMA) && ReadMembers(read, t, j + 1, more).Parsed?
              && ReadMembers(read, t, i, taken) == ReadMembers(read, t, j + 1, more)
  {}

  lemma {:induction false} MembersAreLaid(read: Text -> Value, t: Text, i: nat, taken: seq<Member>) returns (entries: seq<Entry>)
    requires i <= |t| && ReadMembers(read, t, i, taken).Parsed?
    ensures EntriesLaid(read, t, i, taken, entries, ReadMembers(read, t, i, taken))
    decreases |t| - i, 5
  {
    MemberCame(read, t, i, taken);
    var e, j := EntryIsLaid(read, t, i);
    var m := MemberMeant(read, e);
    var more := Put(taken, m.key, m.value);
    MembersGoOn(read, t, i, taken, m, j, more);
    if Has(t, j, CLOSE_OBJECT) {
      entries := [e];
      EntryLast(read, t, i, taken, e, more, j);
    } else {
      var rest := MembersAreLaid(read, t, j + 1, more);
      entries := [e] + rest;
      EntryThen(read, t, i, taken, e, more, j, rest, ReadMembers(read, t, i, taken));
    }
  }

  // ---- Documents ----

  /** The text spelled, and what it means. */
  ghost predicate Spells(read: Text -> Value, s: Spaced, t: Text, v: Value) {
    ValidSpaced(s) && SpacedText(s) == t && Meaning(read, s.value) == v
  }

  lemma EndsWithText(s: Spaced, t: Text)
    requires ValidSpaced(s)
    ensures SpacedEnd(t, 0, s) == Some(|t|) <==> SpacedText(s) == t
  {
    var w := SpacedText(s);
    SpacedStands(t, 0, s);
    StandIsAt(t, 0, w);
    assert t[..|t|] == t;
  }

  /** Exactly the texts of the grammar are accepted, whole, each with the value it means. */
  lemma AcceptedExactly(read: Text -> Value, t: Text, v: Value)
    ensures ReadDocument(read, t) == Parsed(v, |t|) <==> exists s: Spaced :: Spells(read, s, t, v)
  {
    if ReadDocument(read, t) == Parsed(v, |t|) {
      var s := SpacedIsLaid(read, t, 0);
      EndsWithText(s, t);
      assert Spells(read, s, t, v);
    }
    if s: Spaced :| Spells(read, s, t, v) {
      EndsWithText(s, t);
      TextReads(read, s, t);
    }
  }

  /** Every other text is refused, one with anything behind its value included. */
  lemma RefusedExactly(read: Text -> Value, t: Text)
    ensures ReadDocument(read, t).Fault? <==> forall s: Spaced :: ValidSpaced(s) ==> SpacedText(s) != t
  {
    if ReadDocument(read, t).Parsed? {
      var s := SpacedIsLaid(read, t, 0);
      EndsWithText(s, t);
    }
    if s: Spaced :| ValidSpaced(s) && SpacedText(s) == t {
      EndsWithText(s, t);
      TextReads(read, s, t);
    }
  }

  // ---- White space ----

  /** A value written with no white space. */
  function Bare(l: Layout): Layout {
    match l
    case List(_, items) => List([], BareItems(items))
    case Object(_, entries) => Object([], BareEntries(entries))
    case _ => l
  }

  function BareItems(items: seq<Spaced>): seq<Spaced> {
    if items == [] then [] else [Spaced([], Bare(items[0].value), [])] + BareItems(items[1..])
  }

  function BareEntries(entries: seq<Entry>): seq<Entry> {
    if entries == [] then []
    else [Entry([], entries[0].key, [], Spaced([], Bare(entries[0].value.value), []))] + BareEntries(entries[1..])
  }

  lemma {:induction false} BareMeansSame(read: Text -> Value, l: Layout)
    ensures Meaning(read, Bare(l)) == Meaning(read, l)
  {
    match l
    case List(_, items) => BareItemsMeanSame(read, items);
    case Object(_, entries) => BareEntriesMeanSame(read, entries);
    case _ =>
  }

  lemma {:induction false} BareItemsMeanSame(read: Text -> Value, items: seq<Spaced>)
    ensures ItemMeanings(read, BareItems(items)) == ItemMeanings(read, items)
  {
    if items != [] {
      assert BareItems(items)[1..] == BareItems(items[1..]);
      BareMeansSame(read, items[0].value);
      BareItemsMeanSame(read, items[1..]);
    }
  }

  lemma {:induction false} BareEntriesMeanSame(read: Text -> Value, entries: seq<Entry>)
    ensures EntryMeanings(read, BareEntries(entries)) == EntryMeanings(read, entries)
  {
    if entries != [] {
      assert BareEntries(entries)[1..] == BareEntries(entries[1..]);
      BareMeansSame(read, entries[0].value.value);
      BareEntriesMeanSame(read, entries[1..]);
    }
  }

  /** Texts that differ only in white space between tokens are read as the same value. */
  lemma WhiteSpaceIsNothing(read: Text -> Value, a: Spaced, b: Spaced)
    requires ValidSpaced(a) && ValidSpaced(b) && Bare(a.value) == Bare(b.value)
    ensures exists v: Value ::
              ReadDocument(read, SpacedText(a)) == Parsed(v, |SpacedText(a)|) && ReadDocument(read, SpacedText(b)) == Parsed(v, |SpacedText(b)|)
  {
    var v := Meaning(read, a.value);
    BareMeansSame(read, a.value);
    BareMeansSame(read, b.value);
    assert Spells(read, a, SpacedText(a), v) && Spells(read, b, SpacedText(b), v);
    AcceptedExactly(read, SpacedText(a), v);
    AcceptedExactly(read, SpacedText(b), v);
  }
}
