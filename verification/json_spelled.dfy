/** Every JSON text is read as what it means, however it is spelled. */
module JsonSpelled {
  import opened JsonGrammar
  import opened JsonPlaced
  import opened JsonText
  import opened JsonTextLaws
  import opened Sequences
  import opened Wrappers

  // ---- Numerals ----

  lemma {:induction false} RunOver(t: Text, i: nat, digits: Text)
    requires At(t, i, digits) && DigitUnits(digits)
    requires i + |digits| < |t| ==> !IsDigitUnit(t[i + |digits|])
    ensures Run(t, i) == i + |digits|
    decreases |digits|
  {
    if digits != [] {
      UnitAt(t, i, digits, 0);
      AtSplit(t, i, digits[..1], digits[1..]) by { assert digits == digits[..1] + digits[1..]; }
      RunOver(t, i + 1, digits[1..]);
    }
  }

  /** What may follow each part of a numeral. */
  lemma PartsAt(n: Numeral)
    requires ValidNumeral(n)
    ensures var w, a := NumeralText(n), |WholeText(n)|;
            && At(w, 0, WholeText(n)) && At(w, a, FractionText(n)) && At(w, a + |FractionText(n)|, ExponentText(n))
            && |w| == a + |FractionText(n)| + |ExponentText(n)|
            && (a < |w| ==> !IsDigitUnit(w[a]))
            && (n.fraction.None? ==> !Has(w, a, POINT))
            && (a + |FractionText(n)| < |w| ==> !IsDigitUnit(w[a + |FractionText(n)|]))
            && (n.exponent.None? ==> a + |FractionText(n)| == |w|)
  {
    var w, a := NumeralText(n), |WholeText(n)|;
    assert w[0..|w|] == w;
    AtSplit(w, 0, WholeText(n), FractionText(n) + ExponentText(n));
    AtSplit(w, a, FractionText(n), ExponentText(n));
    var b := a + |FractionText(n)|;
    if n.fraction.Some? { UnitAt(w, a, FractionText(n), 0); }
    if n.exponent.Some? { UnitAt(w, b, ExponentText(n), 0); }
  }

  lemma WholeEnds(n: Numeral)
    requires ValidNumeral(n)
    ensures IntEnd(NumeralText(n), 0) == Some(|WholeText(n)|)
    ensures NumeralText(n)[0] == MINUS || IsDigitUnit(NumeralText(n)[0])
  {
    PartsAt(n);
    var w := NumeralText(n);
    var k := if n.negative then 1 else 0;
    UnitAt(w, 0, WholeText(n), 0);
    AtSplit(w, 0, if n.negative then [MINUS] else [], n.whole);
    UnitAt(w, k, n.whole, 0);
    RunOver(w, k, n.whole);
  }

  lemma FractionEnds(n: Numeral)
    requires ValidNumeral(n)
    ensures FractionEnd(NumeralText(n), |WholeText(n)|) == |WholeText(n)| + |FractionText(n)|
  {
    PartsAt(n);
    if n.fraction.Some? {
      var w, a := NumeralText(n), |WholeText(n)|;
      UnitAt(w, a, FractionText(n), 0);
      AtSplit(w, a, [POINT], n.fraction.value);
      RunOver(w, a + 1, n.fraction.value);
    }
  }

  /** The parts of an exponent, where they stand. */
  lemma {:induction false} ExponentAt(mark: Unit, sign: Text, digits: Text, w: Text, b: nat)
    requires (sign == [] || sign == [PLUS] || sign == [MINUS]) && SomeDigits(digits)
    requires At(w, b, [mark] + (sign + digits)) && |w| == b + 1 + |sign| + |digits|
    ensures w[b] == mark && At(w, b + 1 + |sign|, digits) && IsDigitUnit(w[b + 1 + |sign|])
    ensures sign != [] ==> w[b + 1] == sign[0]
  {
    AtSplit(w, b, [mark], sign + digits);
    UnitAt(w, b, [mark], 0);
    AtSplit(w, b + 1, sign, digits);
    UnitAt(w, b + 1 + |sign|, digits, 0);
    if sign != [] { UnitAt(w, b + 1, sign, 0); }
  }

  lemma {:induction false} ExponentEndIs(mark: Unit, sign: Text, digits: Text, w: Text, b: nat)
    requires (sign == [] || sign == [PLUS] || sign == [MINUS]) && SomeDigits(digits) && IsExponentMark(mark)
    requires At(w, b, [mark] + (sign + digits)) && |w| == b + 1 + |sign| + |digits|
    ensures ExponentEnd(w, b) == |w|
  {
    ExponentAt(mark, sign, digits, w, b);
    RunOver(w, b + 1 + |sign|, digits);
  }

  lemma {:induction false} ExponentEnds(n: Numeral)
    requires ValidNumeral(n)
    ensures ExponentEnd(NumeralText(n), |WholeText(n)| + |FractionText(n)|) == |NumeralText(n)|
  {
    PartsAt(n);
    if n.exponent.Some? {
      var e := n.exponent.value;
      ExponentEndIs(e.mark, e.sign, e.digits, NumeralText(n), |WholeText(n)| + |FractionText(n)|);
    }
  }

  /** A numeral of the grammar is a number read whole. */
  lemma NumeralIsNumber(n: Numeral)
    requires ValidNumeral(n)
    ensures IsNumber(NumeralText(n))
  {
    WholeEnds(n);
    FractionEnds(n);
    ExponentEnds(n);
  }

  // ---- Strings ----

  lemma HexReads(unit: Unit, upper: seq<bool>, t: Text, i: nat)
    requires |upper| == 4 && At(t, i, HexText(unit, upper))
    ensures ReadHex(t, i) == Some(unit)
  {
    var w := HexText(unit, upper);
    UnitAt(t, i, w, 0);
    UnitAt(t, i, w, 1);
    UnitAt(t, i, w, 2);
    UnitAt(t, i, w, 3);
    HexDigitsSay(unit);
  }

  lemma {:induction false} GlyphReads(g: Glyph, t: Text, i: nat, taken: Text)
    requires ValidGlyph(g) && At(t, i, GlyphText(g))
    ensures StringRest(t, i, taken) == StringRest(t, i + |GlyphText(g)|, taken + [g.unit])
  {
    var w := GlyphText(g);
    UnitAt(t, i, w, 0);
    if |w| > 1 { UnitAt(t, i, w, 1); }
    if g.Hex? {
      AtSplit(t, i, [BACKSLASH, 0x75], HexText(g.unit, g.upper));
      HexReads(g.unit, g.upper, t, i + 2);
    }
  }

  lemma {:induction false} GlyphsRead(glyphs: seq<Glyph>, t: Text, i: nat, taken: Text)
    requires ValidGlyphs(glyphs) && GlyphsEnd(t, i, glyphs).Some?
    ensures i <= |t| && StringRest(t, i, taken) == Some((taken + Meant(glyphs), GlyphsEnd(t, i, glyphs).value))
    decreases |glyphs|
  {
    if glyphs == [] {
      assert taken + Meant(glyphs) == taken;
    } else {
      var g := glyphs[0];
      StandIsAt(t, i, GlyphText(g));
      GlyphReads(g, t, i, taken);
      GlyphsRead(glyphs[1..], t, i + |GlyphText(g)|, taken + [g.unit]);
      Regrouped(taken, [g.unit], Meant(glyphs[1..]));
    }
  }

  lemma {:induction false} SpelledReads(glyphs: seq<Glyph>, t: Text, i: nat)
    requires ValidGlyphs(glyphs) && StringEnd(t, i, glyphs).Some?
    ensures Has(t, i, QUOTE) && ReadString(t, i) == Parsed(Meant(glyphs), StringEnd(t, i, glyphs).value)
  {
    GlyphsRead(glyphs, t, i + 1, []);
    assert [] + Meant(glyphs) == Meant(glyphs);
  }

  // ---- White space ----

  lemma {:induction false} GapSkipped(t: Text, i: nat, gap: Text)
    requires White(gap) && Stand(t, i, gap)
    ensures Space(t, i) == Space(t, i + |gap|)
    decreases |gap|
  {
    if gap != [] {
      assert t[i + 0] == gap[0];
      forall k | 0 <= k < |gap| - 1 ensures t[i + 1 + k] == gap[1..][k] { assert t[i + (k + 1)] == gap[k + 1]; }
      GapSkipped(t, i + 1, gap[1..]);
    }
  }

  lemma {:induction false} SpaceTwice(t: Text, i: nat)
    requires i <= |t|
    ensures Space(t, Space(t, i)) == Space(t, i)
    decreases |t| - i
  {
    if i < |t| && IsSpace(t[i]) { SpaceTwice(t, i + 1); }
  }

  lemma {:induction false} ValueAfterGap(read: Text -> Value, t: Text, i: nat, j: nat)
    requires i <= |t| && j <= |t| && Space(t, i) == Space(t, j)
    ensures ReadValue(read, t, i) == ReadValue(read, t, j)
  {}

  lemma {:induction false} ItemsAfterGap(read: Text -> Value, t: Text, i: nat, j: nat, taken: seq<Value>)
    requires i <= |t| && j <= |t| && Space(t, i) == Space(t, j)
    ensures ReadItems(read, t, i, taken) == ReadItems(read, t, j, taken)
  {
    ValueAfterGap(read, t, i, j);
  }

  lemma {:induction false} MemberAfterGap(read: Text -> Value, t: Text, i: nat, j: nat)
    requires i <= |t| && j <= |t| && Space(t, i) == Space(t, j)
    ensures ReadMember(read, t, i) == ReadMember(read, t, j)
  {}

  /** The members read once the first of them is. */
  function AfterMember(read: Text -> Value, t: Text, first: Parsed<Member>, taken: seq<Member>): Parsed<seq<Member>>
    requires first.Parsed? ==> first.next <= |t|
  {
    match first
    case Fault(at) => Fault(at)
    case Parsed(m, next) =>
      var k, more := Space(t, next), Put(taken, m.key, m.value);
      if Has(t, k, CLOSE_OBJECT) then Parsed(more, k + 1)
      else if Has(t, k, COMMA) then ReadMembers(read, t, k + 1, more)
      else Fault(k)
  }

  lemma {:induction false} MembersFirst(read: Text -> Value, t: Text, i: nat, taken: seq<Member>)
    requires i <= |t|
    ensures ReadMembers(read, t, i, taken) == AfterMember(read, t, ReadMember(read, t, i), taken)
  {}

  lemma {:induction false} MembersAfterGap(read: Text -> Value, t: Text, i: nat, j: nat, taken: seq<Member>)
    requires i <= |t| && j <= |t| && Space(t, i) == Space(t, j)
    ensures ReadMembers(read, t, i, taken) == ReadMembers(read, t, j, taken)
  {
    MemberAfterGap(read, t, i, j);
    MembersFirst(read, t, i, taken);
    MembersFirst(read, t, j, taken);
  }

  /** What follows a value in a list, an object or a document, white space aside. */
  predicate Ends(t: Text, i: nat) {
    i <= |t| && (i < |t| ==> t[i] == COMMA || t[i] == CLOSE_ARRAY || t[i] == CLOSE_OBJECT)
  }

  lemma {:induction false} EndReached(t: Text, i: nat, after: Text)
    requires White(after) && Stand(t, i, after) && Ends(t, i + |after|)
    ensures Space(t, i) == i + |after| && Stops(t, i)
  {
    GapSkipped(t, i, after);
    if after != [] { assert t[i + 0] == after[0]; }
  }

  // ---- Values ----

  lemma {:induction false} NumeralReads(read: Text -> Value, n: Numeral, t: Text, i: nat)
    requires ValidNumeral(n) && Stand(t, i, NumeralText(n)) && Stops(t, i + |NumeralText(n)|)
    ensures ReadValue(read, t, i) == Parsed(read(NumeralText(n)), i + |NumeralText(n)|)
  {
    NumeralIsNumber(n);
    StandIsAt(t, i, NumeralText(n));
    NumberReads(read, NumeralText(n), t, i);
  }

  /** A value is read as it means, however it is spelled. */
  lemma {:induction false} LayoutReads(read: Text -> Value, l: Layout, t: Text, i: nat)
    requires Valid(l) && LayoutEnd(t, i, l).Some? && Stops(t, LayoutEnd(t, i, l).value)
    ensures i <= |t| && ReadValue(read, t, i) == Parsed(Meaning(read, l), LayoutEnd(t, i, l).value)
    decreases l, 1
  {
    match l
    case Word(value) =>
      StandIsAt(t, i, LayoutText(l));
      WordReads(read, value, t, i);
    case Number(numeral) => NumeralReads(read, numeral, t, i);
    case Glyphs(glyphs) =>
      SpelledReads(glyphs, t, i);
      StaysPut(t, i);
    case List(gap, items) => WholeListReads(read, gap, items, t, i);
    case Object(gap, entries) => WholeObjectReads(read, gap, entries, t, i);
  }

  lemma {:induction false} WholeListReads(read: Text -> Value, gap: Text, items: seq<Spaced>, t: Text, i: nat)
    requires Valid(List(gap, items)) && LayoutEnd(t, i, List(gap, items)).Some?
    ensures i <= |t| && ReadValue(read, t, i) == Parsed(Arr(ItemMeanings(read, items)), LayoutEnd(t, i, List(gap, items)).value)
    decreases items, 2
  {
    var k := i + 1 + |gap|;
    GapSkipped(t, i + 1, gap);
    if items != [] {
      SpacedItemsRead(read, items, [], t, k);
      assert [] + ItemMeanings(read, items) == ItemMeanings(read, items);
    }
    ListStarts(read, t, i, k, ItemMeanings(read, items), ItemsEnd(t, k, items).value);
  }

  lemma {:induction false} WholeObjectReads(read: Text -> Value, gap: Text, entries: seq<Entry>, t: Text, i: nat)
    requires Valid(Object(gap, entries)) && LayoutEnd(t, i, Object(gap, entries)).Some?
    ensures i <= |t|
    ensures ReadValue(read, t, i) ==
            Parsed(Obj(Defined([], EntryMeanings(read, entries))), LayoutEnd(t, i, Object(gap, entries)).value)
    decreases entries, 2
  {
    var k := i + 1 + |gap|;
    GapSkipped(t, i + 1, gap);
    if entries != [] { EntryByEntry(read, entries, [], t, k); }
    ObjectStarts(read, t, i, k, Defined([], EntryMeanings(read, entries)), EntriesEnd(t, k, entries).value);
  }

  /** What a value and the white space around it are read as. */
  predicate ReadsTo<T(==)>(t: Text, r: Parsed<T>, value: T, end: nat) {
    r.Parsed? && r.value == value && r.next <= |t| && Space(t, r.next) == end
  }

  lemma {:induction false} SpacedReads(read: Text -> Value, s: Spaced, t: Text, i: nat)
    requires ValidSpaced(s) && SpacedEnd(t, i, s).Some? && Ends(t, SpacedEnd(t, i, s).value)
    ensures i <= |t| && ReadsTo(t, ReadValue(read, t, i), Meaning(read, s.value), SpacedEnd(t, i, s).value)
    decreases s, 0
  {
    var j := i + |s.before|;
    EndReached(t, LayoutEnd(t, j, s.value).value, s.after);
    LayoutReads(read, s.value, t, j);
    GapSkipped(t, i, s.before);
    ValueAfterGap(read, t, i, j);
  }

  lemma NotAt(t: Text, j: nat, w: Text)
    requires w != [] && j < |t| && t[j] != w[0]
    ensures !At(t, j, w)
  {
    assert !At(t, j, w) by { if j + |w| <= |t| { assert t[j..j + |w|][0] == t[j]; } }
  }

  /** A closing bracket begins no value. */
  lemma {:induction false} CloseBeginsNone(read: Text -> Value, t: Text, j: nat)
    requires Has(t, j, CLOSE_ARRAY)
    ensures ReadValue(read, t, j).Fault?
  {
    StaysPut(t, j);
    NotAt(t, j, TRUE);
    NotAt(t, j, FALSE);
    NotAt(t, j, NULL);
  }

  lemma {:induction false} ListStarts(read: Text -> Value, t: Text, i: nat, k: nat, items: seq<Value>, next: nat)
    requires i < k <= |t| && t[i] == OPEN_ARRAY && Space(t, i + 1) == Space(t, k)
    ensures Has(t, k, CLOSE_ARRAY) ==> ReadValue(read, t, i) == Parsed(Arr([]), k + 1)
    ensures ReadItems(read, t, k, []) == Parsed(items, next) ==> ReadValue(read, t, i) == Parsed(Arr(items), next)
  {
    var j := Space(t, k);
    SpaceTwice(t, k);
    StaysPut(t, i);
    ItemsAfterGap(read, t, k, j, []);
    if Has(t, j, CLOSE_ARRAY) { CloseBeginsNone(read, t, j); }
  }

  lemma {:induction false} ItemOnward(read: Text -> Value, t: Text, i: nat, taken: seq<Value>, item: Value, j: nat)
    requires i <= |t| && ReadsTo(t, ReadValue(read, t, i), item, j)
    ensures Has(t, j, CLOSE_ARRAY) ==> ReadItems(read, t, i, taken) == Parsed(taken + [item], j + 1)
    ensures Has(t, j, COMMA) ==> ReadItems(read, t, i, taken) == ReadItems(read, t, j + 1, taken + [item])
  {}

  lemma MeaningsCons(taken: seq<Value>, item: Value, rest: seq<Value>)
    ensures (taken + [item]) + rest == taken + ([item] + rest)
    ensures rest == [] ==> taken + ([item] + rest) == taken + [item]
  {}

  lemma {:induction false} SpacedItemsRead(read: Text -> Value, items: seq<Spaced>, taken: seq<Value>, t: Text, i: nat)
    requires items != [] && ValidItems(items) && ItemsEnd(t, i, items).Some?
    ensures i <= |t| && ReadItems(read, t, i, taken) == Parsed(taken + ItemMeanings(read, items), ItemsEnd(t, i, items).value)
    decreases items, 1
  {
    var item, j := Meaning(read, items[0].value), SpacedEnd(t, i, items[0]).value;
    SpacedReads(read, items[0], t, i);
    ItemOnward(read, t, i, taken, item, j);
    MeaningsCons(taken, item, ItemMeanings(read, items[1..]));
    if |items| > 1 { SpacedItemsRead(read, items[1..], taken + [item], t, j + 1); }
  }

  // ---- Objects ----

  /** A key and its colon are read from an index. */
  predicate KeyThen(t: Text, i: nat, key: Text, colon: nat) {
    && i <= |t| && Has(t, Space(t, i), QUOTE) && Has(t, colon, COLON)
    && ReadsTo(t, ReadString(t, Space(t, i)), key, colon)
  }

  lemma {:induction false} UpTo(t: Text, i: nat, gap: Text, j: nat)
    requires White(gap) && EndOf(t, i, gap) == Some(j) && j < |t| && !IsSpace(t[j])
    ensures Space(t, i) == j
  {
    GapSkipped(t, i, gap);
    StaysPut(t, j);
  }

  lemma {:induction false} KeyReads(e: Entry, t: Text, i: nat)
    requires White(e.before) && ValidGlyphs(e.key) && White(e.gap) && KeyEnd(t, i, e).Some?
    ensures KeyEnd(t, i, e).value > 0 && KeyThen(t, i, Meant(e.key), KeyEnd(t, i, e).value - 1)
  {
    var j := i + |e.before|;
    var after := StringEnd(t, j, e.key).value;
    SpelledReads(e.key, t, j);
    UpTo(t, i, e.before, j);
    UpTo(t, after, e.gap, after + |e.gap|);
  }

  lemma {:induction false} MemberOf(read: Text -> Value, t: Text, i: nat, m: Member, next: nat, end: nat)
    requires next > 0 && KeyThen(t, i, m.key, next - 1)
    requires next <= |t| && ReadsTo(t, ReadValue(read, t, next), m.value, end)
    ensures i <= |t| && ReadsTo(t, ReadMember(read, t, i), m, end)
  {}

  /** The member an entry means. */
  function MemberMeant(read: Text -> Value, e: Entry): Member { Member(Meant(e.key), Meaning(read, e.value.value)) }

  lemma {:induction false} EntryReads(read: Text -> Value, e: Entry, t: Text, i: nat)
    requires ValidEntry(e) && EntryEnd(t, i, e).Some? && Ends(t, EntryEnd(t, i, e).value)
    ensures i <= |t| && ReadsTo(t, ReadMember(read, t, i), MemberMeant(read, e), EntryEnd(t, i, e).value)
    decreases e, 0
  {
    var next := KeyEnd(t, i, e).value;
    KeyReads(e, t, i);
    SpacedReads(read, e.value, t, next);
    MemberOf(read, t, i, MemberMeant(read, e), next, EntryEnd(t, i, e).value);
  }

  lemma {:induction false} ObjectStarts(read: Text -> Value, t: Text, i: nat, k: nat, members: seq<Member>, next: nat)
    requires i < k <= |t| && t[i] == OPEN_OBJECT && Space(t, i + 1) == Space(t, k)
    ensures Has(t, k, CLOSE_OBJECT) ==> ReadValue(read, t, i) == Parsed(Obj([]), k + 1)
    ensures ReadMembers(read, t, k, []) == Parsed(members, next) ==> ReadValue(read, t, i) == Parsed(Obj(members), next)
  {
    var j := Space(t, k);
    SpaceTwice(t, k);
    StaysPut(t, i);
    MembersAfterGap(read, t, k, j, []);
    assert Has(t, j, CLOSE_OBJECT) ==> ReadMember(read, t, j).Fault?;
  }

  lemma {:induction false} EntryOnward(read: Text -> Value, t: Text, i: nat, taken: seq<Member>, m: Member, j: nat)
    requires i <= |t| && ReadsTo(t, ReadMember(read, t, i), m, j)
    ensures Has(t, j, CLOSE_OBJECT) ==> ReadMembers(read, t, i, taken) == Parsed(Put(taken, m.key, m.value), j + 1)
    ensures Has(t, j, COMMA) ==> ReadMembers(read, t, i, taken) == ReadMembers(read, t, j + 1, Put(taken, m.key, m.value))
  {}

  lemma {:induction false} DefinedCons(taken: seq<Member>, m: Member, more: seq<Member>)
    ensures Defined(taken, [m] + more) == Defined(Put(taken, m.key, m.value), more)
  {
    assert ([m] + more)[1..] == more;
  }

  lemma {:induction false} FirstEntryReads(read: Text -> Value, entries: seq<Entry>, taken: seq<Member>, t: Text, i: nat, more: seq<Member>, j: nat)
    requires entries != [] && ValidEntries(entries) && EntriesEnd(t, i, entries).Some? && EntryEnd(t, i, entries[0]) == Some(j)
    requires i <= |t| && ReadsTo(t, ReadMember(read, t, i), MemberMeant(read, entries[0]), j)
    requires more == Put(taken, MemberMeant(read, entries[0]).key, MemberMeant(read, entries[0]).value)
    ensures |entries| == 1 ==> ReadMembers(read, t, i, taken) == Parsed(more, EntriesEnd(t, i, entries).value)
    ensures |entries| > 1 ==>
              && EntriesEnd(t, j + 1, entries[1..]) == EntriesEnd(t, i, entries)
              && j + 1 <= |t| && ReadMembers(read, t, i, taken) == ReadMembers(read, t, j + 1, more)
  {
    EntryOnward(read, t, i, taken, MemberMeant(read, entries[0]), j);
  }

  lemma {:induction false} EntryByEntry(read: Text -> Value, entries: seq<Entry>, taken: seq<Member>, t: Text, i: nat)
    requires entries != [] && ValidEntries(entries) && EntriesEnd(t, i, entries).Some?
    ensures i <= |t|
    ensures ReadMembers(read, t, i, taken) ==
            Parsed(Defined(taken, EntryMeanings(read, entries)), EntriesEnd(t, i, entries).value)
    decreases entries, 1
  {
    var m, j := MemberMeant(read, entries[0]), EntryEnd(t, i, entries[0]).value;
    var more := Put(taken, m.key, m.value);
    EntryReads(read, entries[0], t, i);
    FirstEntryReads(read, entries, taken, t, i, more, j);
    DefinedCons(taken, m, EntryMeanings(read, entries[1..]));
    if |entries| > 1 { EntryByEntry(read, entries[1..], more, t, j + 1); }
  }

  /** A whole text is read as its value means, to its end. */
  lemma {:induction false} TextReads(read: Text -> Value, s: Spaced, t: Text)
    requires ValidSpaced(s) && SpacedEnd(t, 0, s) == Some(|t|)
    ensures ReadDocument(read, t) == Parsed(Meaning(read, s.value), |t|)
  {
    SpacedReads(read, s, t, 0);
  }
}
