/** Where the texts of the grammar stand in a longer text. */
module JsonPlaced {
  import opened JsonGrammar
  import opened JsonText
  import opened Wrappers

  // ---- The end of what stands at an index, none when it does not ----

  /** The units of a text from an index on. */
  predicate Stand(t: Text, i: nat, w: Text) { i + |w| <= |t| && forall k :: 0 <= k < |w| ==> t[i + k] == w[k] }

  function EndOf(t: Text, i: nat, w: Text): Option<nat> { if Stand(t, i, w) then Some(i + |w|) else None }

  function UnitEnd(t: Text, i: nat, u: Unit): Option<nat> { if Has(t, i, u) then Some(i + 1) else None }

  function GlyphsEnd(t: Text, i: nat, glyphs: seq<Glyph>): Option<nat>
    requires ValidGlyphs(glyphs)
    decreases |glyphs|
  {
    if glyphs == [] then UnitEnd(t, i, QUOTE)
    else
      var j := EndOf(t, i, GlyphText(glyphs[0]));
      if j.None? then None else GlyphsEnd(t, j.value, glyphs[1..])
  }

  function StringEnd(t: Text, i: nat, glyphs: seq<Glyph>): Option<nat>
    requires ValidGlyphs(glyphs)
  {
    var j := UnitEnd(t, i, QUOTE);
    if j.None? then None else GlyphsEnd(t, j.value, glyphs)
  }

  function LayoutEnd(t: Text, i: nat, l: Layout): Option<nat>
    requires Valid(l)
    decreases l, 1
  {
    match l
    case Word(_) => EndOf(t, i, LayoutText(l))
    case Number(numeral) => EndOf(t, i, NumeralText(numeral))
    case Glyphs(glyphs) => StringEnd(t, i, glyphs)
    case List(gap, items) =>
      var j := if Has(t, i, OPEN_ARRAY) then EndOf(t, i + 1, gap) else None;
      if j.None? then None else ItemsEnd(t, j.value, items)
    case Object(gap, entries) =>
      var j := if Has(t, i, OPEN_OBJECT) then EndOf(t, i + 1, gap) else None;
      if j.None? then None else EntriesEnd(t, j.value, entries)
  }

  function SpacedEnd(t: Text, i: nat, s: Spaced): Option<nat>
    requires ValidSpaced(s)
    decreases s, 0
  {
    var j := EndOf(t, i, s.before);
    var k := if j.None? then None else LayoutEnd(t, j.value, s.value);
    if k.None? then None else EndOf(t, k.value, s.after)
  }

  /** Items and the bracket behind them. */
  function ItemsEnd(t: Text, i: nat, items: seq<Spaced>): Option<nat>
    requires ValidItems(items)
    decreases items, 0
  {
    if items == [] then UnitEnd(t, i, CLOSE_ARRAY)
    else
      var j := SpacedEnd(t, i, items[0]);
      if j.None? then None
      else if |items| == 1 then UnitEnd(t, j.value, CLOSE_ARRAY)
      else if Has(t, j.value, COMMA) then ItemsEnd(t, j.value + 1, items[1..])
      else None
  }

  /** A key, and the colon behind it. */
  function KeyEnd(t: Text, i: nat, e: Entry): Option<nat>
    requires ValidGlyphs(e.key)
  {
    var j := EndOf(t, i, e.before);
    var k := if j.None? then None else StringEnd(t, j.value, e.key);
    var l := if k.None? then None else EndOf(t, k.value, e.gap);
    if l.None? then None else UnitEnd(t, l.value, COLON)
  }

  function EntryEnd(t: Text, i: nat, e: Entry): Option<nat>
    requires ValidEntry(e)
    decreases e, 0
  {
    var j := KeyEnd(t, i, e);
    if j.None? then None else SpacedEnd(t, j.value, e.value)
  }

  /** Entries and the brace behind them. */
  function EntriesEnd(t: Text, i: nat, entries: seq<Entry>): Option<nat>
    requires ValidEntries(entries)
    decreases entries, 0
  {
    if entries == [] then UnitEnd(t, i, CLOSE_OBJECT)
    else
      var j := EntryEnd(t, i, entries[0]);
      if j.None? then None
      else if |entries| == 1 then UnitEnd(t, j.value, CLOSE_OBJECT)
      else if Has(t, j.value, COMMA) then EntriesEnd(t, j.value + 1, entries[1..])
      else None
  }

  // ---- That is where their texts stand ----

  lemma StandIsAt(t: Text, i: nat, w: Text)
    ensures Stand(t, i, w) <==> At(t, i, w)
  {
    if At(t, i, w) {
      forall k | 0 <= k < |w| ensures t[i + k] == w[k] { assert t[i..i + |w|][k] == w[k]; }
    }
  }

  /** One text behind another stands where they stand together. */
  lemma EndOfBoth(t: Text, i: nat, a: Text, b: Text)
    ensures EndOf(t, i, a + b) == var j := EndOf(t, i, a); if j.None? then None else EndOf(t, j.value, b)
  {
    var m := i + |a|;
    if Stand(t, i, a + b) {
      forall k | 0 <= k < |a| ensures t[i + k] == a[k] { assert t[i + k] == (a + b)[k]; }
      forall k | 0 <= k < |b| ensures t[m + k] == b[k] { assert t[i + (|a| + k)] == (a + b)[|a| + k]; }
      assert Stand(t, i, a) && Stand(t, m, b);
    } else if Stand(t, i, a) && Stand(t, m, b) {
      forall k | 0 <= k < |a + b| ensures t[i + k] == (a + b)[k] {
        if k >= |a| { assert t[m + (k - |a|)] == b[k - |a|]; }
      }
    }
  }

  lemma UnitEndIs(t: Text, i: nat, u: Unit)
    ensures EndOf(t, i, [u]) == UnitEnd(t, i, u)
  {
    assert [u][0] == u;
    if UnitEnd(t, i, u).Some? { assert Stand(t, i, [u]); }
  }

  lemma {:induction false} GlyphsStand(t: Text, i: nat, glyphs: seq<Glyph>)
    requires ValidGlyphs(glyphs)
    ensures GlyphsEnd(t, i, glyphs) == EndOf(t, i, GlyphsText(glyphs))
    decreases |glyphs|
  {
    if glyphs == [] {
      UnitEndIs(t, i, QUOTE);
    } else {
      var a := GlyphText(glyphs[0]);
      EndOfBoth(t, i, a, GlyphsText(glyphs[1..]));
      GlyphsStand(t, i + |a|, glyphs[1..]);
    }
  }

  lemma {:induction false} StringStands(t: Text, i: nat, glyphs: seq<Glyph>)
    requires ValidGlyphs(glyphs)
    ensures StringEnd(t, i, glyphs) == EndOf(t, i, StringText(glyphs))
  {
    EndOfBoth(t, i, [QUOTE], GlyphsText(glyphs));
    UnitEndIs(t, i, QUOTE);
    GlyphsStand(t, i + 1, glyphs);
  }

  lemma {:induction false} BracketsStand(t: Text, i: nat, open: Unit, gap: Text, inside: Text)
    ensures EndOf(t, i, [open] + (gap + inside)) ==
            var j := if Has(t, i, open) then EndOf(t, i + 1, gap) else None; if j.None? then None else EndOf(t, j.value, inside)
  {
    EndOfBoth(t, i, [open], gap + inside);
    UnitEndIs(t, i, open);
    EndOfBoth(t, i + 1, gap, inside);
  }

  lemma {:induction false} ThreeStand(t: Text, i: nat, a: Text, b: Text, c: Text)
    ensures EndOf(t, i, a + (b + c)) ==
            var j := EndOf(t, i, a);
            var k := if j.None? then None else EndOf(t, j.value, b);
            if k.None? then None else EndOf(t, k.value, c)
  {
    EndOfBoth(t, i, a, b + c);
    EndOfBoth(t, i + |a|, b, c);
  }

  /** A value's text ends where the value does. */
  lemma {:induction false} LayoutStands(t: Text, i: nat, l: Layout)
    requires Valid(l)
    ensures LayoutEnd(t, i, l) == EndOf(t, i, LayoutText(l))
    decreases l, 1
  {
    match l
    case Word(_) =>
    case Number(_) =>
    case Glyphs(glyphs) => StringStands(t, i, glyphs);
    case List(gap, items) =>
      BracketsStand(t, i, OPEN_ARRAY, gap, ItemsText(items));
      ItemsStand(t, i + 1 + |gap|, items);
    case Object(gap, entries) =>
      BracketsStand(t, i, OPEN_OBJECT, gap, EntriesText(entries));
      EntriesStand(t, i + 1 + |gap|, entries);
  }

  lemma {:induction false} SpacedStands(t: Text, i: nat, s: Spaced)
    requires ValidSpaced(s)
    ensures SpacedEnd(t, i, s) == EndOf(t, i, SpacedText(s))
    decreases s, 0
  {
    ThreeStand(t, i, s.before, LayoutText(s.value), s.after);
    LayoutStands(t, i + |s.before|, s.value);
  }

  /** What stands behind an item or an entry: the closing bracket, or a comma and the rest. */
  lemma {:induction false} CloseStands(t: Text, i: nat, first: Text, close: Unit)
    ensures EndOf(t, i, first + [close]) == var j := EndOf(t, i, first); if j.None? then None else UnitEnd(t, j.value, close)
  {
    EndOfBoth(t, i, first, [close]);
    UnitEndIs(t, i + |first|, close);
  }

  lemma {:induction false} CommaStands(t: Text, i: nat, first: Text, rest: Text)
    ensures EndOf(t, i, first + ([COMMA] + rest)) ==
            var j := EndOf(t, i, first);
            if j.Some? && Has(t, j.value, COMMA) then EndOf(t, j.value + 1, rest) else None
  {
    ThreeStand(t, i, first, [COMMA], rest);
    UnitEndIs(t, i + |first|, COMMA);
  }

  lemma {:induction false} FirstStands(t: Text, i: nat, items: seq<Spaced>, first: Text, rest: Text)
    requires items != [] && ValidItems(items) && SpacedEnd(t, i, items[0]) == EndOf(t, i, first)
    requires var j := i + |first| + 1;
             |items| > 1 ==> ItemsEnd(t, j, items[1..]) == EndOf(t, j, rest)
    ensures ItemsEnd(t, i, items) == EndOf(t, i, if |items| == 1 then first + [CLOSE_ARRAY] else first + ([COMMA] + rest))
  {
    if |items| == 1 { CloseStands(t, i, first, CLOSE_ARRAY); } else { CommaStands(t, i, first, rest); }
  }

  lemma {:induction false} ItemsStand(t: Text, i: nat, items: seq<Spaced>)
    requires ValidItems(items)
    ensures ItemsEnd(t, i, items) == EndOf(t, i, ItemsText(items))
    decreases items, 0
  {
    if items == [] {
      UnitEndIs(t, i, CLOSE_ARRAY);
    } else {
      var first := SpacedText(items[0]);
      SpacedStands(t, i, items[0]);
      ItemsStand(t, i + |first| + 1, items[1..]);
      FirstStands(t, i, items, first, ItemsText(items[1..]));
    }
  }

  lemma {:induction false} KeyFrom(t: Text, i: nat, e: Entry, key: Text, colon: Text)
    requires ValidGlyphs(e.key) && StringEnd(t, i + |e.before|, e.key) == EndOf(t, i + |e.before|, key)
    requires var k := i + |e.before| + |key|;
             EndOf(t, k, colon) == var l := EndOf(t, k, e.gap); if l.None? then None else UnitEnd(t, l.value, COLON)
    ensures KeyEnd(t, i, e) == EndOf(t, i, e.before + (key + colon))
  {
    EndOfBoth(t, i, e.before, key + colon);
    if Stand(t, i, e.before) { EndOfBoth(t, i + |e.before|, key, colon); }
  }

  lemma {:induction false} KeyStands(t: Text, i: nat, e: Entry)
    requires ValidGlyphs(e.key)
    ensures KeyEnd(t, i, e) == EndOf(t, i, KeyText(e))
  {
    StringStands(t, i + |e.before|, e.key);
    CloseStands(t, i + |e.before| + |StringText(e.key)|, e.gap, COLON);
    KeyFrom(t, i, e, StringText(e.key), e.gap + [COLON]);
  }

  lemma {:induction false} EntryStands(t: Text, i: nat, e: Entry)
    requires ValidEntry(e)
    ensures EntryEnd(t, i, e) == EndOf(t, i, EntryText(e))
    decreases e, 0
  {
    EndOfBoth(t, i, KeyText(e), SpacedText(e.value));
    KeyStands(t, i, e);
    SpacedStands(t, i + |KeyText(e)|, e.value);
  }

  lemma {:induction false} EntriesStand(t: Text, i: nat, entries: seq<Entry>)
    requires ValidEntries(entries)
    ensures EntriesEnd(t, i, entries) == EndOf(t, i, EntriesText(entries))
    decreases entries, 0
  {
    if entries == [] {
      UnitEndIs(t, i, CLOSE_OBJECT);
    } else {
      var first := EntryText(entries[0]);
      EntryStands(t, i, entries[0]);
      if |entries| == 1 {
        CloseStands(t, i, first, CLOSE_OBJECT);
      } else {
        CommaStands(t, i, first, EntriesText(entries[1..]));
        EntriesStand(t, i + |first| + 1, entries[1..]);
      }
    }
  }
}
