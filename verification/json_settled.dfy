/** What a parsed document is like, and when writing and reading it again changes nothing. */
module JsonSettled {
  import opened Digits
  import opened JsonRoundTrip
  import opened JsonText
  import opened JsonTextLaws
  import opened Wrappers

  /** A value that can be written in full, with every number of a kind. */
  predicate Sound(kind: Value -> bool, v: Value) { WellFormed(v) && Whole(v) && AllNumbers(kind, v) }

  predicate SoundItems(kind: Value -> bool, items: seq<Value>) {
    forall i :: 0 <= i < |items| ==> Sound(kind, items[i])
  }

  predicate SoundMembers(kind: Value -> bool, members: seq<Member>) {
    forall i :: 0 <= i < |members| ==> Sound(kind, members[i].value)
  }

  lemma {:induction false} SoundArray(kind: Value -> bool, items: seq<Value>)
    requires SoundItems(kind, items)
    ensures Sound(kind, Arr(items))
  {
    if items != [] { SoundArray(kind, items[1..]); }
  }

  lemma {:induction false} SoundObject(kind: Value -> bool, members: seq<Member>)
    ensures SoundMembers(kind, members) <==>
            WellFormedMembers(members) && WholeMembers(members) && AllNumbersOf(kind, members)
  {
    if members != [] {
      SoundObject(kind, members[1..]);
      assert forall i :: 0 < i < |members| ==> members[i] == members[1..][i - 1];
      assert SoundMembers(kind, members) ==> Sound(kind, members[0].value);
    }
  }

  // ---- Keys stay in order ----

  /** Two keys with one array index are the same key. */
  lemma IndexIsKey(a: Text, b: Text)
    requires KeyIndex(a).Some? && KeyIndex(a) == KeyIndex(b)
    ensures a == b
  {
    CanonicalKey(a);
    CanonicalKey(b);
  }

  lemma CanonicalKey(a: Text)
    requires KeyIndex(a).Some?
    ensures a == Units(Itoa(KeyIndex(a).value))
  {
    ItoaOfValue(Chars(a));
    assert Units(Chars(a)) == a;
  }

  lemma {:induction false} SlotDivides(members: seq<Member>, n: nat)
    ensures var k := Slot(members, n);
            && (forall i :: 0 <= i < k ==> KeyIndex(members[i].key).Some? && KeyIndex(members[i].key).value < n)
            && (k < |members| && KeyIndex(members[k].key).Some? ==> KeyIndex(members[k].key).value >= n)
  {
    if Slot(members, n) > 0 {
      SlotDivides(members[1..], n);
      assert forall i :: 0 < i < |members| ==> members[i] == members[1..][i - 1];
    }
  }

  /** Where a new key goes: behind every member listed before it, before every other. */
  lemma PlaceDivides(members: seq<Member>, key: Text)
    requires Ordered(members) && Place(members, key) == |members|
    ensures var k := if KeyIndex(key).Some? then Slot(members, KeyIndex(key).value) else |members|;
            && (forall i :: 0 <= i < k ==> Before(members[i].key, key))
            && (forall i :: k <= i < |members| ==> Before(key, members[i].key))
  {
    if KeyIndex(key).Some? {
      var n := KeyIndex(key).value;
      var k := Slot(members, n);
      SlotDivides(members, n);
      forall i | k <= i < |members| ensures Before(key, members[i].key) {
        assert k < i ==> Before(members[k].key, members[i].key);
        AfterIndex(key, members[k].key, members[i].key);
      }
    }
  }

  lemma AfterIndex(key: Text, next: Text, later: Text)
    requires KeyIndex(key).Some? && key != next && key != later && (next == later || Before(next, later))
    requires KeyIndex(next).Some? ==> KeyIndex(next).value >= KeyIndex(key).value
    ensures Before(key, later)
  {
    if KeyIndex(next) == KeyIndex(key) { IndexIsKey(next, key); }
  }

  /** Defining a property keeps keys distinct and in listing order. */
  lemma PutKeepsOrder(members: seq<Member>, key: Text, value: Value)
    requires Ordered(members)
    ensures Ordered(Put(members, key, value))
  {
    if Place(members, key) == |members| {
      PlaceDivides(members, key);
    }
  }

  lemma PutKeepsSound(kind: Value -> bool, members: seq<Member>, key: Text, value: Value)
    requires Sound(kind, Obj(members)) && Sound(kind, value)
    ensures Sound(kind, Obj(Put(members, key, value)))
  {
    SoundObject(kind, members);
    PutKeepsOrder(members, key, value);
    SoundObject(kind, Put(members, key, value));
  }

  // ---- Literals are numbers ----

  /** Cutting a text after a run of digits leaves the run. */
  lemma {:induction false} RunCut(t: Text, i: nat, j: nat, k: nat)
    requires i <= k <= j <= |t| && Run(t, k) <= j
    ensures Run(t[i..j], k - i) == Run(t, k) - i
    decreases j - k
  {
    if k < j && IsDigitUnit(t[k]) { RunCut(t, i, j, k + 1); }
  }

  lemma IntEndCut(t: Text, i: nat, j: nat)
    requires i <= j <= |t| && IntEnd(t, i).Some? && IntEnd(t, i).value <= j
    ensures IntEnd(t[i..j], 0) == Some(IntEnd(t, i).value - i)
    ensures t[i] == MINUS || IsDigitUnit(t[i])
  {
    var k := if Has(t, i, MINUS) then i + 1 else i;
    if !Has(t, k, ZERO) { RunCut(t, i, j, k); }
  }

  lemma FractionEndCut(t: Text, i: nat, j: nat, k: nat)
    requires i <= k <= j <= |t| && FractionEnd(t, k) <= j
    requires FractionEnd(t, k) == k && Has(t, k, POINT) ==> j == k
    ensures FractionEnd(t[i..j], k - i) == FractionEnd(t, k) - i
  {
    if Has(t, k, POINT) && k < j { RunCut(t, i, j, k + 1); }
  }

  lemma ExponentEndCut(t: Text, i: nat, k: nat)
    requires i <= k <= |t|
    ensures ExponentEnd(t[i..ExponentEnd(t, k)], k - i) == ExponentEnd(t, k) - i
  {
    var j := ExponentEnd(t, k);
    if j > k {
      var signed := Has(t, k + 1, PLUS) || Has(t, k + 1, MINUS);
      RunCut(t, i, j, if signed then k + 2 else k + 1);
    }
  }

  /** What is read as a number is a number, whole, on its own. */
  lemma LiteralIsNumber(t: Text, i: nat)
    requires i <= |t| && LiteralAt(t, i).Some?
    ensures IsNumber(LiteralAt(t, i).value)
  {
    var a := IntEnd(t, i).value;
    var b := FractionEnd(t, a);
    var j := ExponentEnd(t, b);
    IntEndCut(t, i, j);
    FractionEndCut(t, i, j, a);
    ExponentEndCut(t, i, b);
  }

  // ---- Parsed documents ----

  /** Every literal reads as a number of a kind, which can be written. */
  ghost predicate ReadsSound(kind: Value -> bool, read: Text -> Value) {
    forall w :: IsNumber(w) ==> Sound(kind, read(w))
  }

  lemma {:induction false} ValueSound(kind: Value -> bool, read: Text -> Value, t: Text, start: nat)
    requires start <= |t| && ReadsSound(kind, read)
    ensures ReadValue(read, t, start).Parsed? ==> Sound(kind, ReadValue(read, t, start).value)
    decreases |t| - start, 1
  {
    var i := Space(t, start);
    if Has(t, i, OPEN_OBJECT) {
      var j := Space(t, i + 1);
      if !Has(t, j, CLOSE_OBJECT) { MembersSound(kind, read, t, j, []); }
    } else if Has(t, i, OPEN_ARRAY) {
      var j := Space(t, i + 1);
      if !Has(t, j, CLOSE_ARRAY) {
        ItemsSound(kind, read, t, j, []);
        var r := ReadItems(read, t, j, []);
        if r.Parsed? { SoundArray(kind, r.value); }
      }
    } else if LiteralAt(t, i).Some? {
      LiteralIsNumber(t, i);
      assert Sound(kind, read(LiteralAt(t, i).value));
    }
  }

  lemma {:induction false} ItemsSound(kind: Value -> bool, read: Text -> Value, t: Text, i: nat, items: seq<Value>)
    requires i <= |t| && ReadsSound(kind, read) && SoundItems(kind, items)
    ensures ReadItems(read, t, i, items).Parsed? ==> SoundItems(kind, ReadItems(read, t, i, items).value)
    decreases |t| - i, 2
  {
    ValueSound(kind, read, t, i);
    match ReadValue(read, t, i)
    case Fault(_) =>
    case Parsed(item, next) =>
      var j := Space(t, next);
      if !Has(t, j, CLOSE_ARRAY) && Has(t, j, COMMA) { ItemsSound(kind, read, t, j + 1, items + [item]); }
  }

  lemma {:induction false} MemberSound(kind: Value -> bool, read: Text -> Value, t: Text, start: nat)
    requires start <= |t| && ReadsSound(kind, read)
    ensures ReadMember(read, t, start).Parsed? ==> Sound(kind, ReadMember(read, t, start).value.value)
    decreases |t| - start, 2
  {
    var i := Space(t, start);
    if Has(t, i, QUOTE) && ReadString(t, i).Parsed? {
      var j := Space(t, ReadString(t, i).next);
      if Has(t, j, COLON) { ValueSound(kind, read, t, j + 1); }
    }
  }

  lemma {:induction false} MembersSound(kind: Value -> bool, read: Text -> Value, t: Text, i: nat, members: seq<Member>)
    requires i <= |t| && ReadsSound(kind, read) && Sound(kind, Obj(members))
    ensures ReadMembers(read, t, i, members).Parsed? ==> Sound(kind, Obj(ReadMembers(read, t, i, members).value))
    decreases |t| - i, 3
  {
    MemberSound(kind, read, t, i);
    match ReadMember(read, t, i)
    case Fault(_) =>
    case Parsed(m, next) =>
      PutKeepsSound(kind, members, m.key, m.value);
      var k, put := Space(t, next), Put(members, m.key, m.value);
      if !Has(t, k, CLOSE_OBJECT) && Has(t, k, COMMA) { MembersSound(kind, read, t, k + 1, put); }
  }

  /**
   * Every literal reads as a double: a safe integer, or one named by the text it is written as, which
   * when spelled reads as that double.
   */
  ghost predicate ReadsDoubles(host: Text -> Value) {
    forall w :: IsNumber(w) ==>
      var v := host(w);
      (v.Num? || v.Float?) && WellFormed(v) && ShortForm(host)(v)
  }

  /** A number as the lossless parser makes it. */
  function Made(host: Text -> Value): Value -> bool {
    (v: Value) => (v.Big? ==> !IsSafe(v.digits)) && ShortForm(host)(v)
  }

  lemma ExactMakes(host: Text -> Value)
    requires ReadsDoubles(host)
    ensures ReadsSound(Made(host), Exact(host))
  {
    forall w | IsNumber(w) ensures Sound(Made(host), Exact(host)(w)) {
      var v := Exact(host)(w);
      assert host(w).Num? || host(w).Float?;
      assert Made(host)(v);
    }
  }

  /** A kind of number a caller can check: a double that is finite and not written as an integer literal, or no double. */
  function SpelledDouble(): Value -> bool {
    (v: Value) => v.Float? ==> Spelled(v.written)
  }

  lemma {:induction false} KindWidens(p: Value -> bool, q: Value -> bool, v: Value)
    requires (forall n :: p(n) ==> q(n)) && AllNumbers(p, v)
    ensures AllNumbers(q, v)
    decreases v, 0
  {
    match v
    case Arr(items) => KindWidensIn(p, q, items);
    case Obj(members) => KindWidensOf(p, q, members);
    case _ =>
  }

  lemma {:induction false} KindWidensIn(p: Value -> bool, q: Value -> bool, items: seq<Value>)
    requires (forall n :: p(n) ==> q(n)) && AllNumbersIn(p, items)
    ensures AllNumbersIn(q, items)
    decreases items, 0
  {
    if items != [] {
      KindWidens(p, q, items[0]);
      KindWidensIn(p, q, items[1..]);
    }
  }

  lemma {:induction false} KindWidensOf(p: Value -> bool, q: Value -> bool, members: seq<Member>)
    requires (forall n :: p(n) ==> q(n)) && AllNumbersOf(p, members)
    ensures AllNumbersOf(q, members)
    decreases members, 0
  {
    if members != [] {
      KindWidens(p, q, members[0].value);
      KindWidensOf(p, q, members[1..]);
    }
  }

  /** Among the numbers the parser makes, the doubles alone decide whether a value is told by its text. */
  lemma {:induction false} MadeIsDistinct(host: Text -> Value, v: Value)
    requires AllNumbers(Made(host), v)
    ensures AllNumbers(Distinct(), v) <==> AllNumbers(SpelledDouble(), v)
    decreases v, 0
  {
    match v
    case Arr(items) => MadeIsDistinctIn(host, items);
    case Obj(members) => MadeIsDistinctOf(host, members);
    case _ =>
  }

  lemma {:induction false} MadeIsDistinctIn(host: Text -> Value, items: seq<Value>)
    requires AllNumbersIn(Made(host), items)
    ensures AllNumbersIn(Distinct(), items) <==> AllNumbersIn(SpelledDouble(), items)
    decreases items, 0
  {
    if items != [] {
      MadeIsDistinct(host, items[0]);
      MadeIsDistinctIn(host, items[1..]);
    }
  }

  lemma {:induction false} MadeIsDistinctOf(host: Text -> Value, members: seq<Member>)
    requires AllNumbersOf(Made(host), members)
    ensures AllNumbersOf(Distinct(), members) <==> AllNumbersOf(SpelledDouble(), members)
    decreases members, 0
  {
    if members != [] {
      MadeIsDistinct(host, members[0].value);
      MadeIsDistinctOf(host, members[1..]);
    }
  }

  /**
   * Every document that was read can be written, and what was written reads again. It is the same value
   * exactly when every double in it is finite and not written as an integer literal.
   */
  lemma ReadWriteRead(host: Text -> Value, t: Text)
    requires ReadsDoubles(host) && Parse(host, t).Parsed?
    ensures var v := Parse(host, t).value;
            && Write(v).Some?
            && Parse(host, Write(v).value).Parsed?
            && (Parse(host, Write(v).value).value == v <==> AllNumbers(SpelledDouble(), v))
  {
    var v := Parse(host, t).value;
    FastPathIsLossless(host, t);
    ExactMakes(host);
    ValueSound(Made(host), Exact(host), t, 0);
    KindWidens(Made(host), ShortForm(host), v);
    MadeIsDistinct(host, v);
    DocumentReads(Exact(host), v);
    FastPathIsLossless(host, Write(v).value);
    RoundTripExactly(host, v);
  }

  /** One and twenty zeros, with an exponent. */
  const HUGE: Text := [0x31, 0x65, 0x32, 0x30]

  lemma HugeIsNumber()
    ensures IsNumber(HUGE) && !IsInteger(HUGE)
  {
    var t := HUGE;
    assert t[1] == 0x65;
    assert Run(t, 4) == 4 && Run(t, 3) == 4 && Run(t, 2) == 4;
    assert Run(t, 1) == 1 && Run(t, 0) == 1;
  }

  lemma NumberParses(host: Text -> Value, w: Text)
    requires IsNumber(w)
    ensures Parse(host, w) == Parsed(AsExact(host, w), |w|)
  {
    FastPathIsLossless(host, w);
    assert w[0..0 + |w|] == w;
    NumberReads(Exact(host), w, w, 0);
  }

  /** A double that is an unsafe integer is not kept: `1e20` is written without an exponent and read as a big integer. */
  lemma ExponentIsLost(host: Text -> Value)
    requires host(HUGE) == Float(IntegerText(100000000000000000000))
    ensures Parse(host, HUGE) == Parsed(Float(IntegerText(100000000000000000000)), |HUGE|)
    ensures var w := IntegerText(100000000000000000000); Parse(host, w) == Parsed(Big(100000000000000000000), |w|)
  {
    HugeIsNumber();
    NumberParses(host, HUGE);
    IntegerTextReads(100000000000000000000);
    NumberParses(host, IntegerText(100000000000000000000));
  }
}
