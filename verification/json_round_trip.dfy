/** Round trips of JSON text, and the fast path of its parser. */
module JsonRoundTrip {
  import opened Digits
  import opened JsonText
  import opened JsonTextLaws
  import opened Wrappers

  /** Every number a double, as the language's own parser reads it. */
  function Doubles(host: Text -> Value): Text -> Value { w => AsDouble(host, w) }

  /** Every unsafe integer kept whole. */
  function Exact(host: Text -> Value): Text -> Value { w => AsExact(host, w) }

  // ---- Writing then reading ----

  /** A value without what JSON has no form for: null in a list, left out of an object. */
  function Pruned(v: Value): Value {
    match v
    case Arr(items) => Arr(PrunedItems(items))
    case Obj(members) => Obj(PrunedMembers(members))
    case _ => v
  }

  function PrunedItems(items: seq<Value>): seq<Value> {
    if items == [] then [] else [if items[0].Absent? then Null else Pruned(items[0])] + PrunedItems(items[1..])
  }

  function PrunedMembers(members: seq<Member>): seq<Member> {
    if members == [] then []
    else
      (if members[0].value.Absent? then [] else [Member(members[0].key, Pruned(members[0].value))]) + PrunedMembers(members[1..])
  }

  lemma {:induction false} SameText(v: Value)
    ensures Write(Pruned(v)) == Write(v)
    decreases v, 0
  {
    match v
    case Arr(items) => SameItemTexts(items);
    case Obj(members) => SameMemberTexts(members);
    case _ =>
  }

  lemma {:induction false} SameItemTexts(items: seq<Value>)
    ensures ItemTexts(PrunedItems(items)) == ItemTexts(items)
    decreases items, 0
  {
    if items != [] {
      SameText(items[0]);
      SameItemTexts(items[1..]);
      assert PrunedItems(items)[1..] == PrunedItems(items[1..]);
    }
  }

  lemma {:induction false} SameMemberTexts(members: seq<Member>)
    ensures MemberTexts(PrunedMembers(members)) == MemberTexts(members)
    decreases members, 0
  {
    if members != [] {
      SameText(members[0].value);
      SameMemberTexts(members[1..]);
      if members[0].value.Absent? {
        assert PrunedMembers(members) == PrunedMembers(members[1..]);
      } else {
        assert PrunedMembers(members)[1..] == PrunedMembers(members[1..]);
      }
    }
  }

  /** Members left out leave the others in order. */
  lemma {:induction false} PrunedInOrder(members: seq<Member>, first: Text)
    requires Ordered(members) && forall i :: 0 <= i < |members| ==> Before(first, members[i].key)
    ensures Ordered(PrunedMembers(members)) && forall i :: 0 <= i < |PrunedMembers(members)| ==> Before(first, PrunedMembers(members)[i].key)
  {
    if members != [] {
      var rest := PrunedMembers(members[1..]);
      PrunedInOrder(members[1..], members[0].key);
      PrunedInOrder(members[1..], first);
      if members[0].value.Absent? {
        assert PrunedMembers(members) == rest;
      } else {
        assert PrunedMembers(members) == [Member(members[0].key, Pruned(members[0].value))] + rest;
      }
    }
  }

  lemma PrunedOrdered(members: seq<Member>)
    requires Ordered(members)
    ensures Ordered(PrunedMembers(members))
  {
    if members != [] {
      var rest := PrunedMembers(members[1..]);
      PrunedInOrder(members[1..], members[0].key);
      assert members[0].value.Absent? ==> PrunedMembers(members) == rest;
      assert !members[0].value.Absent? ==> PrunedMembers(members) == [Member(members[0].key, Pruned(members[0].value))] + rest;
    }
  }

  lemma {:induction false} PrunedIsWhole(v: Value)
    requires WellFormed(v) && !v.Absent?
    ensures WellFormed(Pruned(v)) && Whole(Pruned(v))
    decreases v, 0
  {
    match v
    case Arr(items) => PrunedItemsWhole(items);
    case Obj(members) =>
      PrunedMembersWhole(members);
      PrunedOrdered(members);
    case _ =>
  }

  lemma {:induction false} PrunedItemsWhole(items: seq<Value>)
    requires WellFormedItems(items)
    ensures WellFormedItems(PrunedItems(items)) && WholeItems(PrunedItems(items))
    decreases items, 0
  {
    if items != [] {
      PrunedItemsWhole(items[1..]);
      if !items[0].Absent? { PrunedIsWhole(items[0]); }
      assert PrunedItems(items)[1..] == PrunedItems(items[1..]);
    }
  }

  lemma {:induction false} PrunedMembersWhole(members: seq<Member>)
    requires WellFormedMembers(members)
    ensures WellFormedMembers(PrunedMembers(members)) && WholeMembers(PrunedMembers(members))
    decreases members, 0
  {
    if members != [] {
      PrunedMembersWhole(members[1..]);
      if members[0].value.Absent? {
        assert PrunedMembers(members) == PrunedMembers(members[1..]);
      } else {
        PrunedIsWhole(members[0].value);
        assert PrunedMembers(members)[1..] == PrunedMembers(members[1..]);
      }
    }
  }

  lemma DocumentReads(read: Text -> Value, v: Value)
    requires WellFormed(v) && Whole(v)
    ensures Write(v).Some? && ReadDocument(read, Write(v).value) == Parsed(Reread(read, v), |Write(v).value|)
  {
    var t := Write(v).value;
    assert t[0..0 + |t|] == t;
    ValueReads(read, v, t, 0);
  }

  /** What is written is read back: every number as its text reads, what has no JSON form pruned. */
  lemma WrittenReads(read: Text -> Value, v: Value)
    requires WellFormed(v)
    ensures Write(v).None? <==> v.Absent?
    ensures !v.Absent? ==> ReadDocument(read, Write(v).value) == Parsed(Reread(read, Pruned(v)), |Write(v).value|)
  {
    if !v.Absent? {
      PrunedIsWhole(v);
      DocumentReads(read, Pruned(v));
      SameText(v);
    }
  }

  /** Every number in a value is of some kind. */
  predicate AllNumbers(kind: Value -> bool, v: Value) {
    match v
    case Num(_) => kind(v)
    case Big(_) => kind(v)
    case Float(_) => kind(v)
    case Arr(items) => AllNumbersIn(kind, items)
    case Obj(members) => AllNumbersOf(kind, members)
    case _ => true
  }

  predicate AllNumbersIn(kind: Value -> bool, items: seq<Value>) {
    items != [] ==> AllNumbers(kind, items[0]) && AllNumbersIn(kind, items[1..])
  }

  predicate AllNumbersOf(kind: Value -> bool, members: seq<Member>) {
    members != [] ==> AllNumbers(kind, members[0].value) && AllNumbersOf(kind, members[1..])
  }

  /** A finite double that is not written as an integer literal. */
  predicate Spelled(written: Text) { written != NULL && !IsInteger(written) }

  /**
   * What a double's decimal form is for: reading it gives the double back. Integer literals are left out,
   * since the parser does not read them as doubles when they are unsafe.
   */
  function ShortForm(host: Text -> Value): Value -> bool {
    (v: Value) => v.Float? && Spelled(v.written) ==> host(v.written) == v
  }

  /** A number that is told from the others by its text: no safe big integer, no double but a spelled one. */
  function Distinct(): Value -> bool {
    (v: Value) => (v.Big? ==> !IsSafe(v.digits)) && (v.Float? ==> Spelled(v.written))
  }

  lemma IntegerReread(host: Text -> Value, n: int)
    ensures Exact(host)(IntegerText(n)) == if IsSafe(n) then Num(n) else Big(n)
  {
    IntegerTextReads(n);
  }

  lemma {:induction false} RereadIsSame(host: Text -> Value, v: Value)
    requires !v.Absent? && WellFormed(v) && AllNumbers(ShortForm(host), v)
    ensures Reread(Exact(host), Pruned(v)) == v <==> Whole(v) && AllNumbers(Distinct(), v)
    decreases v, 0
  {
    match v
    case Num(n) => IntegerReread(host, n);
    case Big(n) => IntegerReread(host, n);
    case Float(written) => assert ShortForm(host)(v);
    case Arr(items) => RereadItemsSame(host, items);
    case Obj(members) => RereadMembersSame(host, members);
    case _ =>
  }

  lemma {:induction false} RereadItemsSame(host: Text -> Value, items: seq<Value>)
    requires WellFormedItems(items) && AllNumbersIn(ShortForm(host), items)
    ensures RereadItems(Exact(host), PrunedItems(items)) == items <==> WholeItems(items) && AllNumbersIn(Distinct(), items)
    decreases items, 0
  {
    if items != [] {
      var first := if items[0].Absent? then Null else Pruned(items[0]);
      RereadItemsSame(host, items[1..]);
      if !items[0].Absent? { RereadIsSame(host, items[0]); }
      assert PrunedItems(items) == [first] + PrunedItems(items[1..]);
      HeadAndTail(Reread(Exact(host), first), RereadItems(Exact(host), PrunedItems(items[1..])), items);
    }
  }

  lemma HeadAndTail<T>(head: T, tail: seq<T>, all: seq<T>)
    requires all != []
    ensures [head] + tail == all <==> head == all[0] && tail == all[1..]
  {
    assert ([head] + tail)[1..] == tail;
    assert all == [all[0]] + all[1..];
  }

  lemma {:induction false} NoMoreMembers(read: Text -> Value, members: seq<Member>)
    ensures |RereadMembers(read, PrunedMembers(members))| <= |members|
  {
    if members != [] {
      NoMoreMembers(read, members[1..]);
      if members[0].value.Absent? {
        assert PrunedMembers(members) == PrunedMembers(members[1..]);
      } else {
        assert PrunedMembers(members)[1..] == PrunedMembers(members[1..]);
      }
    }
  }

  lemma {:induction false} RereadMembersSame(host: Text -> Value, members: seq<Member>)
    requires WellFormedMembers(members) && AllNumbersOf(ShortForm(host), members)
    ensures RereadMembers(Exact(host), PrunedMembers(members)) == members <==>
            WholeMembers(members) && AllNumbersOf(Distinct(), members)
    decreases members, 0
  {
    if members != [] {
      var rest := PrunedMembers(members[1..]);
      if members[0].value.Absent? {
        assert PrunedMembers(members) == rest;
        NoMoreMembers(Exact(host), members[1..]);
      } else {
        RereadMembersSame(host, members[1..]);
        RereadIsSame(host, members[0].value);
        var first := Member(members[0].key, Pruned(members[0].value));
        assert PrunedMembers(members) == [first] + rest;
        HeadAndTail(Member(first.key, Reread(Exact(host), first.value)), RereadMembers(Exact(host), rest), members);
      }
    }
  }

  // ---- The fast path ----

  predicate LongRunAt(t: Text, i: nat) { i + 16 <= |t| && DigitUnits(t[i..i + 16]) }

  /** Some run of sixteen digits. */
  predicate LongRun(t: Text) { exists i: nat :: i < |t| && LongRunAt(t, i) }

  /** Reading a text: by the language's own parser when no run of digits is long. */
  function Parse(host: Text -> Value, t: Text): Parsed<Value> {
    if !LongRun(t) then ReadDocument(Doubles(host), t) else ReadDocument(Exact(host), t)
  }

  /** The literal of the number at an index. */
  function LiteralAt(t: Text, i: nat): (w: Option<Text>)
    requires i <= |t|
  {
    var end := NumberEnd(t, i);
    if end.None? then None else Some(t[i..end.value])
  }

  /** Two readings agree on every number in a text. */
  ghost predicate Agree(a: Text -> Value, b: Text -> Value, t: Text) {
    forall i: nat :: i <= |t| && LiteralAt(t, i).Some? ==> a(LiteralAt(t, i).value) == b(LiteralAt(t, i).value)
  }

  lemma SameNumber(a: Text -> Value, b: Text -> Value, t: Text, i: nat)
    requires i <= |t| && Agree(a, b, t)
    ensures ReadNumber(a, t, i) == ReadNumber(b, t, i)
  {
    assert LiteralAt(t, i).Some? ==> a(LiteralAt(t, i).value) == b(LiteralAt(t, i).value);
  }

  /** What a value at an index is made of reads alike. */
  predicate PartsAlike(a: Text -> Value, b: Text -> Value, t: Text, i: nat)
    requires i <= |t|
  {
    if Has(t, i, OPEN_OBJECT) then ReadMembers(a, t, Space(t, i + 1), []) == ReadMembers(b, t, Space(t, i + 1), [])
    else if Has(t, i, OPEN_ARRAY) then ReadItems(a, t, Space(t, i + 1), []) == ReadItems(b, t, Space(t, i + 1), [])
    else ReadNumber(a, t, i) == ReadNumber(b, t, i)
  }

  lemma {:induction false} SameValue(a: Text -> Value, b: Text -> Value, t: Text, start: nat)
    requires start <= |t| && Agree(a, b, t)
    ensures ReadValue(a, t, start) == ReadValue(b, t, start)
    decreases |t| - start, 1
  {
    var i := Space(t, start);
    if Has(t, i, OPEN_OBJECT) {
      SameMembers(a, b, t, Space(t, i + 1), []);
    } else if Has(t, i, OPEN_ARRAY) {
      SameItems(a, b, t, Space(t, i + 1), []);
    } else {
      SameNumber(a, b, t, i);
    }
    assert PartsAlike(a, b, t, i);
    SameParts(a, b, t, start);
  }

  /** A value reads alike when what it is made of does. */
  lemma {:induction false} SameParts(a: Text -> Value, b: Text -> Value, t: Text, start: nat)
    requires start <= |t| && PartsAlike(a, b, t, Space(t, start))
    ensures ReadValue(a, t, start) == ReadValue(b, t, start)
  {}

  lemma {:induction false} SameItems(a: Text -> Value, b: Text -> Value, t: Text, i: nat, items: seq<Value>)
    requires i <= |t| && Agree(a, b, t)
    ensures ReadItems(a, t, i, items) == ReadItems(b, t, i, items)
    decreases |t| - i, 2
  {
    SameValue(a, b, t, i);
    match ReadValue(a, t, i)
    case Fault(_) =>
    case Parsed(item, next) =>
      var j := Space(t, next);
      if !Has(t, j, CLOSE_ARRAY) && Has(t, j, COMMA) { SameItems(a, b, t, j + 1, items + [item]); }
  }

  lemma {:induction false} SameMember(a: Text -> Value, b: Text -> Value, t: Text, start: nat)
    requires start <= |t| && Agree(a, b, t)
    ensures ReadMember(a, t, start) == ReadMember(b, t, start)
    decreases |t| - start, 2
  {
    var i := Space(t, start);
    if Has(t, i, QUOTE) && ReadString(t, i).Parsed? {
      var j := Space(t, ReadString(t, i).next);
      if Has(t, j, COLON) { SameValue(a, b, t, j + 1); }
    }
  }

  lemma {:induction false} SameMembers(a: Text -> Value, b: Text -> Value, t: Text, i: nat, members: seq<Member>)
    requires i <= |t| && Agree(a, b, t)
    ensures ReadMembers(a, t, i, members) == ReadMembers(b, t, i, members)
    decreases |t| - i, 3
  {
    SameMember(a, b, t, i);
    match ReadMember(a, t, i)
    case Fault(_) =>
    case Parsed(m, next) =>
      var k := Space(t, next);
      if !Has(t, k, CLOSE_OBJECT) && Has(t, k, COMMA) { SameMembers(a, b, t, k + 1, Put(members, m.key, m.value)); }
  }

  lemma ShortIsSafe(w: Text)
    requires IsInteger(w) && |Magnitude(w)| <= 15
    ensures IsSafe(IntegerOf(w))
  {
    var s := Chars(Magnitude(w));
    ValueBound(s);
    Pow10Add(|s|, 15 - |s|);
    MulMonotone(1, Pow10(15 - |s|), Pow10(|s|));
    assert Pow10(5) == 100000;
    Pow10Add(5, 5);
    Pow10Add(5, 10);
  }

  /** A text with no run of sixteen digits holds no unsafe integer literal. */
  lemma ShortLiterals(t: Text, i: nat)
    requires i <= |t| && !LongRun(t) && LiteralAt(t, i).Some?
    ensures var w := LiteralAt(t, i).value; IsInteger(w) ==> IsSafe(IntegerOf(w))
  {
    var w := LiteralAt(t, i).value;
    if IsInteger(w) {
      var k := if Has(w, 0, MINUS) then 1 else 0;
      var m := Magnitude(w);
      if |m| >= 16 {
        assert m == w[k..] && w[k..][..16] == w[k..k + 16] == t[i + k..i + k + 16];
        assert LongRunAt(t, i + k);
      } else {
        ShortIsSafe(w);
      }
    }
  }

  /** The fast path loses no digit: every text reads as the lossless parser reads it. */
  lemma FastPathIsLossless(host: Text -> Value, t: Text)
    ensures Parse(host, t) == ReadDocument(Exact(host), t)
  {
    if !LongRun(t) {
      forall i: nat | i <= |t| && LiteralAt(t, i).Some?
        ensures Doubles(host)(LiteralAt(t, i).value) == Exact(host)(LiteralAt(t, i).value)
      {
        ShortLiterals(t, i);
      }
      SameValue(Doubles(host), Exact(host), t, 0);
    }
  }

  /**
   * Exactly which values come back as they were: those JSON has a form for throughout, with every big
   * integer unsafe and every double finite and not written as an integer literal.
   */
  lemma RoundTripExactly(host: Text -> Value, v: Value)
    requires WellFormed(v) && !v.Absent? && AllNumbers(ShortForm(host), v)
    ensures Write(v).Some?
    ensures Parse(host, Write(v).value) == Parsed(v, |Write(v).value|) <==> Whole(v) && AllNumbers(Distinct(), v)
  {
    WrittenReads(Exact(host), v);
    FastPathIsLossless(host, Write(v).value);
    RereadIsSame(host, v);
  }

  /** Null, booleans, strings and integers, each number in the form its size asks for, in lists and objects. */
  predicate Plain(v: Value) {
    match v
    case Absent => false
    case Float(_) => false
    case Big(n) => !IsSafe(n)
    case Arr(items) => PlainItems(items)
    case Obj(members) => Ordered(members) && PlainMembers(members)
    case _ => true
  }

  predicate PlainItems(items: seq<Value>) {
    items != [] ==> Plain(items[0]) && PlainItems(items[1..])
  }

  predicate PlainMembers(members: seq<Member>) {
    members != [] ==> Plain(members[0].value) && PlainMembers(members[1..])
  }

  lemma {:induction false} PlainIsKept(host: Text -> Value, v: Value)
    requires Plain(v)
    ensures WellFormed(v) && Whole(v) && AllNumbers(Distinct(), v) && AllNumbers(ShortForm(host), v)
    decreases v, 0
  {
    match v
    case Arr(items) => PlainItemsKept(host, items);
    case Obj(members) => PlainMembersKept(host, members);
    case _ =>
  }

  lemma {:induction false} PlainItemsKept(host: Text -> Value, items: seq<Value>)
    requires PlainItems(items)
    ensures WellFormedItems(items) && WholeItems(items)
    ensures AllNumbersIn(Distinct(), items) && AllNumbersIn(ShortForm(host), items)
    decreases items, 0
  {
    if items != [] {
      PlainIsKept(host, items[0]);
      PlainItemsKept(host, items[1..]);
    }
  }

  lemma {:induction false} PlainMembersKept(host: Text -> Value, members: seq<Member>)
    requires PlainMembers(members)
    ensures WellFormedMembers(members) && WholeMembers(members)
    ensures AllNumbersOf(Distinct(), members) && AllNumbersOf(ShortForm(host), members)
    decreases members, 0
  {
    if members != [] {
      PlainIsKept(host, members[0].value);
      PlainMembersKept(host, members[1..]);
    }
  }

  /** Printing then parsing is the identity on JSON trees, whatever the size of their integers. */
  lemma RoundTrip(host: Text -> Value, v: Value)
    requires Plain(v)
    ensures Write(v).Some? && Parse(host, Write(v).value) == Parsed(v, |Write(v).value|)
  {
    PlainIsKept(host, v);
    RoundTripExactly(host, v);
  }
}
