/** Where the issues of a failed decode point (packages/core-go/validation.go, errors.go). */
module GoIssues {
  import opened Digits
  import opened GoCodec
  import opened JsonPointer
  import opened SortedKeys
  import opened Wrappers

  // ---- Places ----

  /** One step from a value into it. */
  datatype Token = Key(key: string) | Index(i: nat)

  function TokenText(token: Token): string {
    match token
    case Key(key) => "/" + Escape(key)
    case Index(i) => "/" + Itoa(i)
  }

  /** The pointer that takes these steps. */
  function PointerText(at: seq<Token>): string {
    if at == [] then "" else TokenText(at[0]) + PointerText(at[1..])
  }

  /**
   * The type refuses the document at this place, for this reason: taking the steps through the type and
   * the document together comes to a value that the type there does not accept, or to an absent member
   * that it requires.
   */
  ghost predicate RefusedAt(t: Type, doc: Json, at: seq<Token>, problem: Problem)
    decreases t, 0
  {
    match t
    case Leaf(codec) => at == [] && problem == Mismatch && codec.decode(doc).None?
    case PointerTo(elem) => !doc.Null? && RefusedAt(elem, doc, at, problem)
    case SliceOf(elem) =>
      if at == [] then problem == Mismatch && !doc.Null? && !doc.Arr?
      else
        doc.Arr? && at[0].Index? && at[0].i < |doc.items| && RefusedAt(elem, doc.items[at[0].i], at[1..], problem)
    case MapOf(elem) =>
      if at == [] then problem == Mismatch && !doc.Null? && !doc.Obj?
      else
        doc.Obj? && at[0].Key? && at[0].key in doc.members && RefusedAt(elem, doc.members[at[0].key], at[1..], problem)
    case Record(fields) =>
      if at == [] then problem == Mismatch && !doc.Obj?
      else
        doc.Obj? && at[0].Key? &&
        exists j :: 0 <= j < |fields| && fields[j].key == at[0].key && RefusedIn(fields[j], doc.members, at[1..], problem)
    case Union(variants) =>
      && (forall j :: 0 <= j < |variants| ==> Decode(variants[j], doc, false).Failure?)
      && ((at == [] && problem == NoVariant) || exists j :: 0 <= j < |variants| && RefusedAt(variants[j], doc, at, problem))
    case Tuple(positions) =>
      if at == [] then problem == Mismatch && (!doc.Arr? || |doc.items| != |positions|)
      else
        doc.Arr? && |doc.items| == |positions| && at[0].Index? && at[0].i < |positions| &&
        RefusedAt(positions[at[0].i], doc.items[at[0].i], at[1..], problem)
  }

  /** A field refuses the object it is looked up in: absent, null, or not of its type at a place inside it. */
  ghost predicate RefusedIn(f: Field, members: map<string, Json>, at: seq<Token>, problem: Problem)
    decreases f, 0
  {
    if f.key !in members then at == [] && problem == MissingKey && IsRequired(f.presence)
    else if members[f.key].Null? && !IsNullable(f.presence) then at == [] && problem == NullValue
    else RefusedAt(f.typ, members[f.key], at, problem)
  }

  /** An issue's pointer leads to a place where the type refuses the document, for the reason it gives. */
  ghost predicate Leads(t: Type, doc: Json, issue: Issue) {
    exists at :: issue.path == PointerText(at) && RefusedAt(t, doc, at, issue.problem)
  }

  ghost predicate AllLead(t: Type, doc: Json, issues: seq<Issue>) {
    forall i :: 0 <= i < |issues| ==> Leads(t, doc, issues[i])
  }

  /** What evaluating a pointer comes to, by what is wrong there. */
  predicate Resolves(doc: Json, path: string, problem: Problem) {
    match Resolve(doc, path)
    case Found(value) => problem != MissingKey && (problem == NullValue ==> value == Null)
    case Absent(members, key) => problem == MissingKey && key !in members
    case Broken => false
  }

  lemma PointerStarts(at: seq<Token>)
    ensures PointerText(at) == "" <==> at == []
    ensures PointerText(at) == "" || PointerText(at)[0] == '/'
  {}

  lemma ResolveFirst(doc: Json, at: seq<Token>)
    requires at != []
    requires at[0].Key? ==> doc.Obj?
    requires at[0].Index? ==> doc.Arr? && at[0].i < |doc.items|
    ensures var rest := PointerText(at[1..]);
            Resolve(doc, PointerText(at)) ==
            match at[0]
            case Key(key) =>
              if key in doc.members then Resolve(doc.members[key], rest) else if rest == "" then Absent(doc.members, key) else Broken
            case Index(i) => Resolve(doc.items[i], rest)
  {
    var rest := PointerText(at[1..]);
    PointerStarts(at[1..]);
    match at[0]
    case Key(key) => ResolveKey(doc.members, key, rest);
    case Index(i) => ResolveIndex(doc.items, i, rest);
  }

  /** A place of refusal is one its pointer evaluates to: a value there, or the one member an object there lacks. */
  lemma {:induction false} RefusedResolves(t: Type, doc: Json, at: seq<Token>, problem: Problem)
    requires RefusedAt(t, doc, at, problem)
    ensures Resolves(doc, PointerText(at), problem)
    decreases t, 0
  {
    match t
    case Leaf(_) =>
    case PointerTo(elem) => RefusedResolves(elem, doc, at, problem);
    case SliceOf(elem) =>
      if at != [] {
        ResolveFirst(doc, at);
        RefusedResolves(elem, doc.items[at[0].i], at[1..], problem);
      }
    case MapOf(elem) =>
      if at != [] {
        ResolveFirst(doc, at);
        RefusedResolves(elem, doc.members[at[0].key], at[1..], problem);
      }
    case Record(fields) =>
      if at != [] {
        ResolveFirst(doc, at);
        var j :| 0 <= j < |fields| && fields[j].key == at[0].key && RefusedIn(fields[j], doc.members, at[1..], problem);
        FieldResolves(fields[j], doc.members, at[1..], problem);
      }
    case Union(variants) =>
      if !(at == [] && problem == NoVariant) {
        var j :| 0 <= j < |variants| && RefusedAt(variants[j], doc, at, problem);
        RefusedResolves(variants[j], doc, at, problem);
      }
    case Tuple(positions) =>
      if at != [] {
        ResolveFirst(doc, at);
        RefusedResolves(positions[at[0].i], doc.items[at[0].i], at[1..], problem);
      }
  }

  lemma {:induction false} FieldResolves(f: Field, members: map<string, Json>, at: seq<Token>, problem: Problem)
    requires RefusedIn(f, members, at, problem)
    ensures if f.key in members then Resolves(members[f.key], PointerText(at), problem) else at == [] && problem == MissingKey
    decreases f, 0
  {
    if f.key in members && !(members[f.key].Null? && !IsNullable(f.presence)) {
      RefusedResolves(f.typ, members[f.key], at, problem);
    }
  }

  // ---- What the standard library's own walk keeps ----

  /** The same issues at places that may have lost their first steps. */
  predicate Shortened(a: seq<Issue>, b: seq<Issue>) {
    && |a| == |b|
    && forall i :: 0 <= i < |a| ==> |a[i].path| <= |b[i].path| && a[i].problem == b[i].problem
  }

  /** Two decodings with the same value, or with the same issues at places that may be shorter in the first. */
  predicate Alike(a: Decoded, b: Decoded) {
    if a.Success? then a == b else b.Failure? && Shortened(a.error, b.error)
  }

  /** Walked by the standard library a document decodes to the same value or fails all the same. */
  lemma {:induction false} PlainIsAlike(t: Type, doc: Json)
    ensures Alike(Decode(t, doc, true), Decode(t, doc, false))
    decreases t, 0
  {
    match t
    case PointerTo(elem) => if !doc.Null? { PlainIsAlike(elem, doc); }
    case SliceOf(elem) => if doc.Arr? { PlainItemsAlike(elem, doc.items, 0, []); }
    case MapOf(elem) => if doc.Obj? { PlainMembersAlike(elem, doc.members, Sorted(doc.members.Keys), 0, map[]); }
    case _ =>
  }

  lemma {:induction false} PlainItemsAlike(elem: Type, items: seq<Json>, i: nat, out: seq<Value>)
    requires i <= |items|
    ensures Alike(DecodeItems(elem, items, true, i, out), DecodeItems(elem, items, false, i, out))
    decreases elem, 1, |items| - i
  {
    if i < |items| {
      PlainIsAlike(elem, items[i]);
      var r := Decode(elem, items[i], true);
      if r.Success? { PlainItemsAlike(elem, items, i + 1, out + [r.value]); }
    }
  }

  lemma {:induction false} PlainMembersAlike(elem: Type, members: map<string, Json>, keys: seq<string>, i: nat, out: map<string, Value>)
    requires i <= |keys| && forall k :: k in keys ==> k in members
    ensures Alike(DecodeMembers(elem, members, true, keys, i, out), DecodeMembers(elem, members, false, keys, i, out))
    decreases elem, 1, |keys| - i
  {
    if i < |keys| {
      PlainIsAlike(elem, members[keys[i]]);
      var r := Decode(elem, members[keys[i]], true);
      if r.Success? { PlainMembersAlike(elem, members, keys, i + 1, out[keys[i] := r.value]); }
    }
  }

  /** A type that accepts every document, so that nothing in a list or map of it is ever refused. */
  ghost predicate RefusesNone(t: Type) { forall doc :: Decode(t, doc, false).Success? }

  /** No list or map, reached through pointers alone, with an element type that refuses some document. */
  ghost predicate KeepsPlace(t: Type) {
    match t
    case PointerTo(elem) => KeepsPlace(elem)
    case SliceOf(elem) => RefusesNone(elem)
    case MapOf(elem) => RefusesNone(elem)
    case _ => true
  }

  lemma {:induction false} KeepsPlaceSame(t: Type, doc: Json)
    requires KeepsPlace(t)
    ensures Decode(t, doc, true) == Decode(t, doc, false)
    decreases t
  {
    match t
    case PointerTo(elem) => if !doc.Null? { KeepsPlaceSame(elem, doc); }
    case SliceOf(elem) =>
      if doc.Arr? {
        AcceptsItems(elem, doc.items, 0, []);
        PlainItemsAlike(elem, doc.items, 0, []);
      }
    case MapOf(elem) =>
      if doc.Obj? {
        AcceptsMembers(elem, doc.members, Sorted(doc.members.Keys), 0, map[]);
        PlainMembersAlike(elem, doc.members, Sorted(doc.members.Keys), 0, map[]);
      }
    case _ =>
  }

  lemma {:induction false} AcceptsItems(elem: Type, items: seq<Json>, i: nat, out: seq<Value>)
    requires RefusesNone(elem) && i <= |items|
    ensures DecodeItems(elem, items, false, i, out).Success?
    decreases |items| - i
  {
    if i < |items| { AcceptsItems(elem, items, i + 1, out + [Decode(elem, items[i], false).value]); }
  }

  lemma {:induction false} AcceptsMembers(elem: Type, members: map<string, Json>, keys: seq<string>, i: nat, out: map<string, Value>)
    requires RefusesNone(elem) && i <= |keys| && forall k :: k in keys ==> k in members
    ensures DecodeMembers(elem, members, false, keys, i, out).Success?
    decreases |keys| - i
  {
    if i < |keys| {
      AcceptsMembers(elem, members, keys, i + 1, out[keys[i] := Decode(elem, members[keys[i]], false).value]);
    }
  }

  /** A failed decode whose first issue is about the whole document. */
  ghost predicate RefusedWhole(t: Type, doc: Json, plain: bool) {
    Decode(t, doc, plain).Failure? && Decode(t, doc, plain).error[0].path == ""
  }

  lemma {:induction false} UnionRefusesWhole(variants: seq<Type>, doc: Json, k: nat, issues: seq<Issue>)
    requires k <= |variants| && issues != [] && issues[0].path == ""
    ensures var r := DecodeVariants(variants, doc, k, issues); r.Failure? ==> r.error[0].path == ""
    decreases |variants| - k
  {
    if k < |variants| {
      var r := Decode(variants[k], doc, false);
      if r.Failure? { UnionRefusesWhole(variants, doc, k + 1, issues + r.error); }
    }
  }

  /** A type that refuses a document refuses one as a whole, and one that is not null when it did. */
  lemma {:induction false} RefusesAWhole(t: Type, doc: Json) returns (whole: Json)
    requires Decode(t, doc, false).Failure?
    ensures RefusedWhole(t, whole, true) && RefusedWhole(t, whole, false)
    ensures !doc.Null? ==> !whole.Null?
    decreases t
  {
    match t
    case Leaf(_) => whole := doc;
    case PointerTo(elem) => whole := RefusesAWhole(elem, doc);
    case Union(variants) =>
      UnionRefusesWhole(variants, doc, 0, [Issue("", NoVariant)]);
      whole := doc;
    case _ => whole := Atom("");
  }

  /** A document on which a list or map walked by the standard library loses the place of its first issue. */
  lemma {:induction false} LosesPlace(t: Type) returns (doc: Json)
    requires !KeepsPlace(t)
    ensures RefusedWhole(t, doc, true)
    ensures doc.Arr? || doc.Obj?
    ensures Decode(t, doc, false).Failure? && Decode(t, doc, false).error[0].path != ""
    ensures !exists problem :: RefusedAt(t, doc, [], problem)
    decreases t
  {
    match t
    case PointerTo(elem) =>
      doc := LosesPlace(elem);
    case SliceOf(elem) =>
      var refused :| Decode(elem, refused, false).Failure?;
      var whole := RefusesAWhole(elem, refused);
      doc := Arr([whole]);
      assert Decode(t, doc, true) == Failure(Decode(elem, whole, true).error);
      assert Decode(t, doc, false) == Failure(Prefixed("/" + Itoa(0), Decode(elem, whole, false).error));
    case MapOf(elem) =>
      var refused :| Decode(elem, refused, false).Failure?;
      var whole := RefusesAWhole(elem, refused);
      doc := Obj(map["" := whole]);
      var keys := Sorted(doc.members.Keys);
      assert |keys| == 1 && keys[0] in keys && keys[0] == "";
      assert Decode(t, doc, true) == Failure(Decode(elem, whole, true).error);
      assert Decode(t, doc, false) == Failure(Prefixed("/" + Escape(""), Decode(elem, whole, false).error));
  }

  /**
   * Exactly which types the standard library's own walk decodes alike on every document: those in which
   * it walks no list or map with an element type that refuses anything.
   */
  lemma PlainIsSameExactly(t: Type)
    ensures (forall doc :: Decode(t, doc, true) == Decode(t, doc, false)) <==> KeepsPlace(t)
  {
    if KeepsPlace(t) {
      forall doc ensures Decode(t, doc, true) == Decode(t, doc, false) { KeepsPlaceSame(t, doc); }
    } else {
      var doc := LosesPlace(t);
    }
  }

  /** Such an element type is no list, map, record or tuple: those refuse a number. */
  lemma RefusesNoneIsNoContainer(t: Type)
    requires RefusesNone(t)
    ensures !t.SliceOf? && !t.MapOf? && !t.Record? && !t.Tuple?
  {
    assert Decode(t, Atom("0"), false).Success?;
  }

  // ---- Issues lead to where they are ----

  predicate DistinctKeys(fields: seq<Field>) {
    forall i, j :: 0 <= i < j < |fields| ==> fields[i].key != fields[j].key
  }

  ghost predicate Locatable(t: Type)
    decreases t
  {
    match t
    case Leaf(_) => true
    case PointerTo(elem) => Locatable(elem)
    case SliceOf(elem) => Locatable(elem)
    case MapOf(elem) => Locatable(elem)
    case Record(fields) =>
      && DistinctKeys(fields)
      && forall f :: f in fields ==> Locatable(f.typ) && (f.presence.OptionalNullable? ==> KeepsPlace(f.typ))
    case Union(variants) => forall v :: v in variants ==> Locatable(v)
    case Tuple(positions) => forall p :: p in positions ==> Locatable(p)
  }

  /** The place of an issue, one step further in than where it was found. */
  lemma OneStepIn(t: Type, doc: Json, inner: Type, value: Json, token: Token, issues: seq<Issue>)
    requires AllLead(inner, value, issues)
    requires forall at, problem :: RefusedAt(inner, value, at, problem) ==> RefusedAt(t, doc, [token] + at, problem)
    ensures AllLead(t, doc, Prefixed(TokenText(token), issues))
  {
    forall i | 0 <= i < |issues| ensures Leads(t, doc, Located(TokenText(token), issues[i])) {
      assert Leads(inner, value, issues[i]);
      var at :| issues[i].path == PointerText(at) && RefusedAt(inner, value, at, issues[i].problem);
      assert ([token] + at)[1..] == at;
      assert RefusedAt(t, doc, [token] + at, issues[i].problem);
      assert PointerText([token] + at) == TokenText(token) + PointerText(at);
    }
  }

  lemma LeadsHere(t: Type, doc: Json, problem: Problem)
    requires RefusedAt(t, doc, [], problem)
    ensures AllLead(t, doc, [Issue("", problem)])
  {
    assert PointerText([]) == "";
    assert Leads(t, doc, Issue("", problem));
  }

  lemma LeadsThroughPointer(elem: Type, doc: Json, issues: seq<Issue>)
    requires !doc.Null? && AllLead(elem, doc, issues)
    ensures AllLead(PointerTo(elem), doc, issues)
  {
    forall i | 0 <= i < |issues| ensures Leads(PointerTo(elem), doc, issues[i]) {
      assert Leads(elem, doc, issues[i]);
      var at :| issues[i].path == PointerText(at) && RefusedAt(elem, doc, at, issues[i].problem);
      assert RefusedAt(PointerTo(elem), doc, at, issues[i].problem);
    }
  }

  /** Every issue of a failed decode leads to a place where its type refuses the document, for its reason. */
  lemma {:induction false} IssuesLead(t: Type, doc: Json)
    requires Locatable(t) && Decode(t, doc, false).Failure?
    ensures AllLead(t, doc, Decode(t, doc, false).error)
    decreases t, 0
  {
    match t
    case Leaf(_) => LeadsHere(t, doc, Mismatch);
    case PointerTo(elem) =>
      IssuesLead(elem, doc);
      LeadsThroughPointer(elem, doc, Decode(elem, doc, false).error);
    case SliceOf(elem) => if doc.Arr? { ItemsLead(elem, doc.items, 0, []); } else { LeadsHere(t, doc, Mismatch); }
    case MapOf(elem) =>
      if doc.Obj? { MembersLead(elem, doc.members, Sorted(doc.members.Keys), 0, map[]); } else { LeadsHere(t, doc, Mismatch); }
    case Record(fields) =>
      if doc.Obj? { FieldsLead(fields, doc.members, 0, Filling(doc.members, [], [])); } else { LeadsHere(t, doc, Mismatch); }
    case Union(variants) =>
      AllRefuse(variants, doc, 0, [Issue("", NoVariant)]);
      LeadsHere(t, doc, NoVariant);
      VariantsLead(variants, doc, 0, [Issue("", NoVariant)]);
    case Tuple(positions) =>
      if doc.Arr? && |doc.items| == |positions| { PositionsLead(positions, doc.items, 0, []); } else { LeadsHere(t, doc, Mismatch); }
  }

  lemma {:induction false} ItemsLead(elem: Type, items: seq<Json>, i: nat, out: seq<Value>)
    requires Locatable(elem) && i <= |items| && DecodeItems(elem, items, false, i, out).Failure?
    ensures AllLead(SliceOf(elem), Arr(items), DecodeItems(elem, items, false, i, out).error)
    decreases elem, 1, |items| - i
  {
    var r := Decode(elem, items[i], false);
    if r.Failure? {
      IssuesLead(elem, items[i]);
      forall at, problem | RefusedAt(elem, items[i], at, problem)
        ensures RefusedAt(SliceOf(elem), Arr(items), [Index(i)] + at, problem)
      {
        assert ([Index(i)] + at)[1..] == at;
      }
      OneStepIn(SliceOf(elem), Arr(items), elem, items[i], Index(i), r.error);
    } else {
      ItemsLead(elem, items, i + 1, out + [r.value]);
    }
  }

  lemma {:induction false} MembersLead(elem: Type, members: map<string, Json>, keys: seq<string>, i: nat, out: map<string, Value>)
    requires Locatable(elem) && i <= |keys| && forall k :: k in keys ==> k in members
    requires DecodeMembers(elem, members, false, keys, i, out).Failure?
    ensures AllLead(MapOf(elem), Obj(members), DecodeMembers(elem, members, false, keys, i, out).error)
    decreases elem, 1, |keys| - i
  {
    var r := Decode(elem, members[keys[i]], false);
    if r.Failure? {
      IssuesLead(elem, members[keys[i]]);
      forall at, problem | RefusedAt(elem, members[keys[i]], at, problem)
        ensures RefusedAt(MapOf(elem), Obj(members), [Key(keys[i])] + at, problem)
      {
        assert ([Key(keys[i])] + at)[1..] == at;
      }
      OneStepIn(MapOf(elem), Obj(members), elem, members[keys[i]], Key(keys[i]), r.error);
    } else {
      MembersLead(elem, members, keys, i + 1, out[keys[i] := r.value]);
    }
  }

  /** What is left of an object still says what the document says of every field to come. */
  ghost predicate Untaken(fields: seq<Field>, members: map<string, Json>, k: nat, left: map<string, Json>) {
    forall j :: k <= j < |fields| ==>
      && (fields[j].key in left <==> fields[j].key in members)
      && (fields[j].key in left ==> left[fields[j].key] == members[fields[j].key])
  }

  lemma RefusedInField(fields: seq<Field>, k: nat, members: map<string, Json>, at: seq<Token>, problem: Problem)
    requires k < |fields| && RefusedIn(fields[k], members, at, problem)
    ensures RefusedAt(Record(fields), Obj(members), [Key(fields[k].key)] + at, problem)
  {
    var all := [Key(fields[k].key)] + at;
    assert all[1..] == at;
    assert fields[k].key == all[0].key && RefusedIn(fields[k], members, all[1..], problem);
  }

  /** One field's own issue, an absent or a null member. */
  lemma FieldLeadsHere(fields: seq<Field>, k: nat, members: map<string, Json>, problem: Problem)
    requires k < |fields| && RefusedIn(fields[k], members, [], problem)
    ensures Leads(Record(fields), Obj(members), Issue("/" + Escape(fields[k].key), problem))
  {
    RefusedInField(fields, k, members, [], problem);
    var at := [Key(fields[k].key)] + [];
    assert at[1..] == [];
    assert PointerText(at) == "/" + Escape(fields[k].key) + PointerText(at[1..]);
    assert PointerText(at) == "/" + Escape(fields[k].key);
  }

  lemma FieldLeads(fields: seq<Field>, k: nat, members: map<string, Json>, s: Filling)
    requires k < |fields| && Locatable(fields[k].typ) && (fields[k].presence.OptionalNullable? ==> KeepsPlace(fields[k].typ))
    requires Untaken(fields, members, k, s.left)
    requires AllLead(Record(fields), Obj(members), s.issues)
    ensures AllLead(Record(fields), Obj(members), DecodeField(fields[k], s).issues)
    ensures DecodeField(fields[k], s).left == s.left - {fields[k].key}
    decreases fields[k], 1
  {
    var f := fields[k];
    if f.key !in s.left {
      if IsRequired(f.presence) { FieldLeadsHere(fields, k, members, MissingKey); }
    } else {
      var raw, plain := s.left[f.key], f.presence.OptionalNullable?;
      if raw.Null? && !IsNullable(f.presence) {
        FieldLeadsHere(fields, k, members, NullValue);
      } else {
        var r := Decode(f.typ, raw, plain);
        if plain { KeepsPlaceSame(f.typ, raw); }
        if r.Failure? {
          IssuesLead(f.typ, raw);
          forall at, problem | RefusedAt(f.typ, raw, at, problem)
            ensures RefusedAt(Record(fields), Obj(members), [Key(f.key)] + at, problem)
          {
            RefusedInField(fields, k, members, at, problem);
          }
          OneStepIn(Record(fields), Obj(members), f.typ, raw, Key(f.key), r.error);
        }
      }
    }
  }

  lemma {:induction false} FieldsLead(fields: seq<Field>, members: map<string, Json>, k: nat, s: Filling)
    requires k <= |fields| && DistinctKeys(fields) && Untaken(fields, members, k, s.left)
    requires forall f :: f in fields ==> Locatable(f.typ) && (f.presence.OptionalNullable? ==> KeepsPlace(f.typ))
    requires AllLead(Record(fields), Obj(members), s.issues)
    ensures AllLead(Record(fields), Obj(members), DecodeFields(fields, k, s).issues)
    decreases fields, 1, |fields| - k
  {
    if k < |fields| {
      FieldLeads(fields, k, members, s);
      FieldsLead(fields, members, k + 1, DecodeField(fields[k], s));
    }
  }

  lemma {:induction false} AllRefuse(variants: seq<Type>, doc: Json, k: nat, issues: seq<Issue>)
    requires k <= |variants| && issues != [] && DecodeVariants(variants, doc, k, issues).Failure?
    ensures forall j :: k <= j < |variants| ==> Decode(variants[j], doc, false).Failure?
    decreases |variants| - k
  {
    if k < |variants| { AllRefuse(variants, doc, k + 1, issues + Decode(variants[k], doc, false).error); }
  }

  /** A refused variant's issues are the union's. */
  lemma VariantLeads(variants: seq<Type>, doc: Json, k: nat, issues: seq<Issue>)
    requires k < |variants| && (forall j :: 0 <= j < |variants| ==> Decode(variants[j], doc, false).Failure?)
    requires AllLead(variants[k], doc, issues)
    ensures AllLead(Union(variants), doc, issues)
  {
    forall i | 0 <= i < |issues| ensures Leads(Union(variants), doc, issues[i]) {
      assert Leads(variants[k], doc, issues[i]);
      var at :| issues[i].path == PointerText(at) && RefusedAt(variants[k], doc, at, issues[i].problem);
      assert RefusedAt(Union(variants), doc, at, issues[i].problem);
    }
  }

  lemma {:induction false} VariantsLead(variants: seq<Type>, doc: Json, k: nat, issues: seq<Issue>)
    requires k <= |variants| && issues != [] && forall v :: v in variants ==> Locatable(v)
    requires forall j :: 0 <= j < |variants| ==> Decode(variants[j], doc, false).Failure?
    requires AllLead(Union(variants), doc, issues)
    ensures var r := DecodeVariants(variants, doc, k, issues);
            r.Failure? && AllLead(Union(variants), doc, r.error)
    decreases variants, 1, |variants| - k
  {
    if k < |variants| {
      var r := Decode(variants[k], doc, false);
      IssuesLead(variants[k], doc);
      VariantLeads(variants, doc, k, r.error);
      VariantsLead(variants, doc, k + 1, issues + r.error);
    }
  }

  lemma {:induction false} PositionsLead(positions: seq<Type>, items: seq<Json>, k: nat, out: seq<Value>)
    requires k <= |positions| == |items| && forall p :: p in positions ==> Locatable(p)
    requires DecodePositions(positions, items, k, out).Failure?
    ensures AllLead(Tuple(positions), Arr(items), DecodePositions(positions, items, k, out).error)
    decreases positions, 1, |positions| - k
  {
    var r := Decode(positions[k], items[k], false);
    if r.Failure? {
      IssuesLead(positions[k], items[k]);
      forall at, problem | RefusedAt(positions[k], items[k], at, problem)
        ensures RefusedAt(Tuple(positions), Arr(items), [Index(k)] + at, problem)
      {
        assert ([Index(k)] + at)[1..] == at;
      }
      OneStepIn(Tuple(positions), Arr(items), positions[k], items[k], Index(k), r.error);
    } else {
      PositionsLead(positions, items, k + 1, out + [r.value]);
    }
  }

  /** A document refused at some place does not decode: a place of refusal is always a real one. */
  lemma {:induction false} RefusedFails(t: Type, doc: Json, at: seq<Token>, problem: Problem)
    requires Locatable(t) && RefusedAt(t, doc, at, problem)
    ensures Decode(t, doc, false).Failure?
    decreases t, 0
  {
    match t
    case Leaf(_) =>
    case PointerTo(elem) => RefusedFails(elem, doc, at, problem);
    case SliceOf(elem) =>
      if at != [] {
        RefusedFails(elem, doc.items[at[0].i], at[1..], problem);
        ItemFails(elem, doc.items, at[0].i, 0, []);
      }
    case MapOf(elem) =>
      if at != [] {
        RefusedFails(elem, doc.members[at[0].key], at[1..], problem);
        MemberFails(elem, doc.members, at[0].key, Sorted(doc.members.Keys), 0, map[]);
      }
    case Record(fields) =>
      if at != [] {
        var j :| 0 <= j < |fields| && fields[j].key == at[0].key && RefusedIn(fields[j], doc.members, at[1..], problem);
        var f := fields[j];
        if f.key in doc.members && !(doc.members[f.key].Null? && !IsNullable(f.presence)) {
          RefusedFails(f.typ, doc.members[f.key], at[1..], problem);
          PlainIsAlike(f.typ, doc.members[f.key]);
        }
        FieldFails(fields, doc.members, j, 0, Filling(doc.members, [], []));
      }
    case Union(variants) => EveryVariantFails(variants, doc, 0, [Issue("", NoVariant)]);
    case Tuple(positions) =>
      if at != [] {
        RefusedFails(positions[at[0].i], doc.items[at[0].i], at[1..], problem);
        PositionFails(positions, doc.items, at[0].i, 0, []);
      }
  }

  lemma {:induction false} ItemFails(elem: Type, items: seq<Json>, i: nat, from: nat, out: seq<Value>)
    requires from <= i < |items| && Decode(elem, items[i], false).Failure?
    ensures DecodeItems(elem, items, false, from, out).Failure?
    decreases i - from
  {
    var r := Decode(elem, items[from], false);
    if r.Success? { ItemFails(elem, items, i, from + 1, out + [r.value]); }
  }

  lemma {:induction false} MemberFails(elem: Type, members: map<string, Json>, key: string, keys: seq<string>, from: nat, out: map<string, Value>)
    requires from <= |keys| && (forall k :: k in keys ==> k in members) && key in keys[from..]
    requires Decode(elem, members[key], false).Failure?
    ensures DecodeMembers(elem, members, false, keys, from, out).Failure?
    decreases |keys| - from
  {
    var r := Decode(elem, members[keys[from]], false);
    if r.Success? {
      assert keys[from..] == [keys[from]] + keys[from + 1..];
      MemberFails(elem, members, key, keys, from + 1, out[keys[from] := r.value]);
    }
  }

  lemma {:induction false} PositionFails(positions: seq<Type>, items: seq<Json>, i: nat, from: nat, out: seq<Value>)
    requires from <= i < |positions| == |items| && Decode(positions[i], items[i], false).Failure?
    ensures DecodePositions(positions, items, from, out).Failure?
    decreases i - from
  {
    var r := Decode(positions[from], items[from], false);
    if r.Success? { PositionFails(positions, items, i, from + 1, out + [r.value]); }
  }

  lemma {:induction false} EveryVariantFails(variants: seq<Type>, doc: Json, k: nat, issues: seq<Issue>)
    requires k <= |variants| && issues != []
    requires forall j :: 0 <= j < |variants| ==> Decode(variants[j], doc, false).Failure?
    ensures DecodeVariants(variants, doc, k, issues).Failure?
    decreases |variants| - k
  {
    if k < |variants| { EveryVariantFails(variants, doc, k + 1, issues + Decode(variants[k], doc, false).error); }
  }

  /** A field with something wrong in it. */
  ghost predicate FieldRefuses(f: Field, members: map<string, Json>) {
    if f.key !in members then IsRequired(f.presence)
    else
      (members[f.key].Null? && !IsNullable(f.presence)) || Decode(f.typ, members[f.key], f.presence.OptionalNullable?).Failure?
  }

  lemma {:induction false} FieldFails(fields: seq<Field>, members: map<string, Json>, j: nat, k: nat, s: Filling)
    requires k <= |fields| && j < |fields| && DistinctKeys(fields) && Untaken(fields, members, k, s.left)
    requires FieldRefuses(fields[j], members) && (k <= j || s.issues != [])
    ensures DecodeFields(fields, k, s).issues != []
    decreases |fields| - k
  {
    if k < |fields| {
      var next := DecodeField(fields[k], s);
      assert next.left == s.left - {fields[k].key};
      FieldFails(fields, members, j, k + 1, next);
    }
  }

  /** Every issue evaluates to a value or to the one absent member it names. */
  lemma IssuesResolve(t: Type, doc: Json)
    requires Locatable(t) && Decode(t, doc, false).Failure?
    ensures var issues := Decode(t, doc, false).error;
            forall i :: 0 <= i < |issues| ==> Resolves(doc, issues[i].path, issues[i].problem)
  {
    IssuesLead(t, doc);
    var issues := Decode(t, doc, false).error;
    forall i | 0 <= i < |issues| ensures Resolves(doc, issues[i].path, issues[i].problem) {
      assert Leads(t, doc, issues[i]);
      var at :| issues[i].path == PointerText(at) && RefusedAt(t, doc, at, issues[i].problem);
      RefusedResolves(t, doc, at, issues[i].problem);
    }
  }

  lemma LeadsAtRoot(t: Type, doc: Json, issue: Issue)
    requires Leads(t, doc, issue) && issue.path == ""
    ensures RefusedAt(t, doc, [], issue.problem)
  {
    var at :| issue.path == PointerText(at) && RefusedAt(t, doc, at, issue.problem);
    PointerStarts(at);
  }

  /**
   * Exactly which types have every issue in its place inside a field both optional and nullable, where
   * the standard library walks them.
   */
  lemma PlainLeadsExactly(t: Type)
    requires Locatable(t)
    ensures (forall doc :: Decode(t, doc, true).Failure? ==> AllLead(t, doc, Decode(t, doc, true).error)) <==> KeepsPlace(t)
  {
    if KeepsPlace(t) {
      forall doc | Decode(t, doc, true).Failure? ensures AllLead(t, doc, Decode(t, doc, true).error) {
        KeepsPlaceSame(t, doc);
        IssuesLead(t, doc);
      }
    } else {
      var doc := LosesPlace(t);
      var issue := Decode(t, doc, true).error[0];
      if Leads(t, doc, issue) { LeadsAtRoot(t, doc, issue); }
      assert !AllLead(t, doc, Decode(t, doc, true).error);
    }
  }

  /** A leaf that accepts nothing. */
  function Refusing(): Type { Leaf(Codec(_ => None, _ => Null)) }

  function NeedsA(): Type { Record([Field("a", Required, Refusing())]) }

  lemma LettersEscape(a: char, b: char)
    requires a != '~' && a != '/' && b != '~' && b != '/'
    ensures Escape([a]) == [a] && Escape([a, b]) == [a, b]
  {
    assert [a] == [a] + "" && [b] == [b] + "" && [a, b] == [a] + [b];
    EscapeCons(a, "");
    EscapeCons(b, "");
    EscapeCons(a, [b]);
  }

  lemma MissingA(plain: bool)
    ensures Decode(NeedsA(), Obj(map[]), plain) == Failure([Issue("/a", MissingKey)])
  {
    var fields := [Field("a", Required, Refusing())];
    var s := Filling(map[], [], []);
    LettersEscape('a', 'a');
    assert "/" + "a" == "/a" && s.issues + [Issue("/a", MissingKey)] == [Issue("/a", MissingKey)];
    assert DecodeField(fields[0], s).issues == [Issue("/a", MissingKey)];
    assert DecodeFields(fields, 0, s) == DecodeField(fields[0], s);
  }

  lemma NoIndexA(list: Json)
    requires list.Arr?
    ensures Resolve(Obj(map["xs" := list]), "/xs/a") == Broken
  {
    LettersEscape('x', 's');
    ResolveKey(map["xs" := list], "xs", "/a");
    ResolveToken(list, "a", "");
    assert "/" + "a" + "" == "/a" && "/" + "xs" + "/a" == "/xs/a";
  }

  function RecordsUnderXs(): Field { Field("xs", OptionalNullable, SliceOf(NeedsA())) }

  lemma XsIssues(members: map<string, Json>)
    requires "xs" in members && members["xs"] == Arr([Obj(map[])])
    ensures DecodeField(RecordsUnderXs(), Filling(members, [], [])).issues == [Issue("/xs/a", MissingKey)]
  {
    var list := members["xs"];
    LettersEscape('x', 's');
    MissingA(true);
    assert Decode(SliceOf(NeedsA()), list, true) == Failure([Issue("/a", MissingKey)]);
    var issues := Prefixed("/xs", [Issue("/a", MissingKey)]);
    assert "/xs" + "/a" == "/xs/a" && "/" + "xs" == "/xs";
    assert issues == [Issue("/xs/a", MissingKey)] by { assert issues[0] == Issue("/xs/a", MissingKey); }
    assert [] + issues == issues;
  }

  /** A list of records, optional and nullable, loses its issues' indices. */
  lemma ListLosesPlace()
    ensures var t := Record([RecordsUnderXs()]);
            var doc := Obj(map["xs" := Arr([Obj(map[])])]);
            && Decode(t, doc, false) == Failure([Issue("/xs/a", MissingKey)])
            && Resolve(doc, "/xs/a") == Broken
  {
    var fields, list := [RecordsUnderXs()], Arr([Obj(map[])]);
    var s := Filling(map["xs" := list], [], []);
    XsIssues(s.left);
    assert DecodeFields(fields, 0, s) == DecodeField(fields[0], s);
    NoIndexA(list);
  }
}
