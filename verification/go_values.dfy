/** What a decoded value holds of its document (packages/core-go/validation.go). */
module GoValues {
  import opened GoCodec
  import opened JsonPointer
  import opened SortedKeys
  import opened Wrappers

  // ---- Records ----

  function KeysOf(fields: seq<Field>, n: nat): set<string>
    requires n <= |fields|
  {
    set j | 0 <= j < n :: fields[j].key
  }

  /** The members no field is named after, as they are in the document. */
  function Undocumented(fields: seq<Field>, members: map<string, Json>): map<string, Json> {
    members - KeysOf(fields, |fields|)
  }

  /** What a field holds of an object: nothing when it may be absent and is, else its member decoded. */
  ghost predicate Stands(f: Field, members: map<string, Json>, slot: Value) {
    if f.key !in members then !IsRequired(f.presence) && slot == Zero(f)
    else
      && (members[f.key].Null? ==> IsNullable(f.presence))
      && var r := Decode(f.typ, members[f.key], f.presence.OptionalNullable?);
         r.Success? && slot == if f.presence.OptionalNullable? then Maybe(true, r.value) else r.value
  }

  /** The field is the first of its key. */
  predicate IsFirst(fields: seq<Field>, k: nat)
    requires k < |fields|
  {
    fields[k].key !in KeysOf(fields, k)
  }

  /** What is left once the first `n` fields have been taken, and what those hold. */
  ghost predicate Taken(fields: seq<Field>, members: map<string, Json>, n: nat, s: Filling)
    requires n <= |fields|
  {
    && s.left == members - KeysOf(fields, n)
    && |s.slots| == n
    && (s.issues == [] ==> forall k :: 0 <= k < n && IsFirst(fields, k) ==> Stands(fields[k], members, s.slots[k]))
  }

  lemma KeysGrow(fields: seq<Field>, n: nat)
    requires n < |fields|
    ensures KeysOf(fields, n + 1) == KeysOf(fields, n) + {fields[n].key}
  {}

  lemma TakeOne(fields: seq<Field>, members: map<string, Json>, n: nat, s: Filling)
    requires n < |fields| && Taken(fields, members, n, s)
    ensures Taken(fields, members, n + 1, DecodeField(fields[n], s))
    ensures s.issues != [] ==> DecodeField(fields[n], s).issues != []
  {
    var f, t := fields[n], DecodeField(fields[n], s);
    KeysGrow(fields, n);
    assert t.left == s.left - {f.key};
    assert members - KeysOf(fields, n) - {f.key} == members - (KeysOf(fields, n) + {f.key});
    if t.issues == [] && IsFirst(fields, n) {
      assert f.key in s.left <==> f.key in members;
      assert Stands(f, members, t.slots[n]);
    }
  }

  lemma {:induction false} TakeAll(fields: seq<Field>, members: map<string, Json>, n: nat, s: Filling)
    requires n <= |fields| && Taken(fields, members, n, s)
    ensures Taken(fields, members, |fields|, DecodeFields(fields, n, s))
    decreases |fields| - n
  {
    if n < |fields| {
      TakeOne(fields, members, n, s);
      TakeAll(fields, members, n + 1, DecodeField(fields[n], s));
    }
  }

  /**
   * A record that decoded holds one slot a field, each standing for its own field, and as extra members
   * exactly those of the document that no field is named after.
   */
  lemma RecordHolds(fields: seq<Field>, doc: Json, plain: bool)
    requires Decode(Record(fields), doc, plain).Success?
    ensures doc.Obj?
    ensures var v := Decode(Record(fields), doc, plain).value;
            && v.Struct? && |v.slots| == |fields|
            && v.extra == Undocumented(fields, doc.members)
            && forall k :: 0 <= k < |fields| && IsFirst(fields, k) ==> Stands(fields[k], doc.members, v.slots[k])
  {
    var start := Filling(doc.members, [], []);
    assert start.left == doc.members - KeysOf(fields, 0);
    TakeAll(fields, doc.members, 0, start);
  }

  // ---- Unions, lists, maps and tuples ----

  /** The variant is the first that accepts the document, and holds what it decodes to. */
  ghost predicate FirstAccepting(variants: seq<Type>, doc: Json, k: nat, choices: seq<Option<Value>>) {
    && k < |variants| == |choices| && Decode(variants[k], doc, false).Success?
    && (forall j :: 0 <= j < k ==> Decode(variants[j], doc, false).Failure?)
    && forall j :: 0 <= j < |choices| ==> choices[j] == if j == k then Some(Decode(variants[k], doc, false).value) else None
  }

  lemma {:induction false} VariantHolds(variants: seq<Type>, doc: Json, k: nat, issues: seq<Issue>) returns (chosen: nat)
    requires k <= |variants| && issues != [] && DecodeVariants(variants, doc, k, issues).Success?
    requires forall j :: 0 <= j < k ==> Decode(variants[j], doc, false).Failure?
    ensures var v := DecodeVariants(variants, doc, k, issues).value;
            v.Variants? && FirstAccepting(variants, doc, chosen, v.choices)
    decreases |variants| - k
  {
    var r := Decode(variants[k], doc, false);
    if r.Success? {
      chosen := k;
    } else {
      chosen := VariantHolds(variants, doc, k + 1, issues + r.error);
    }
  }

  /** A union holds its first variant that accepts the document, and no other. */
  lemma UnionHolds(variants: seq<Type>, doc: Json, plain: bool) returns (chosen: nat)
    requires Decode(Union(variants), doc, plain).Success?
    ensures var v := Decode(Union(variants), doc, plain).value;
            v.Variants? && FirstAccepting(variants, doc, chosen, v.choices)
  {
    chosen := VariantHolds(variants, doc, 0, [Issue("", NoVariant)]);
  }

  lemma {:induction false} ItemsHold(elem: Type, items: seq<Json>, plain: bool, i: nat, out: seq<Value>)
    requires i <= |items| && |out| == i && DecodeItems(elem, items, plain, i, out).Success?
    ensures var v := DecodeItems(elem, items, plain, i, out).value;
            && v.List? && |v.items| == |items| && v.items[..i] == out
            && forall j :: i <= j < |items| ==> Decode(elem, items[j], plain) == Success(v.items[j])
    decreases |items| - i
  {
    if i < |items| {
      var more := out + [Decode(elem, items[i], plain).value];
      ItemsHold(elem, items, plain, i + 1, more);
      var v := DecodeItems(elem, items, plain, i + 1, more).value;
      assert v.items[..i] == v.items[..i + 1][..i] == out;
      assert v.items[i] == v.items[..i + 1][i];
    }
  }

  /** A list holds what each of its items decodes to, in order. */
  lemma ListHolds(elem: Type, doc: Json, plain: bool)
    requires doc.Arr? && Decode(SliceOf(elem), doc, plain).Success?
    ensures var v := Decode(SliceOf(elem), doc, plain).value;
            && v.List? && |v.items| == |doc.items|
            && forall j :: 0 <= j < |doc.items| ==> Decode(elem, doc.items[j], plain) == Success(v.items[j])
  {
    ItemsHold(elem, doc.items, plain, 0, []);
  }

  lemma {:induction false} PositionsHold(positions: seq<Type>, items: seq<Json>, k: nat, out: seq<Value>)
    requires k <= |positions| == |items| && |out| == k && DecodePositions(positions, items, k, out).Success?
    ensures var v := DecodePositions(positions, items, k, out).value;
            && v.List? && |v.items| == |items| && v.items[..k] == out
            && forall j :: k <= j < |items| ==> Decode(positions[j], items[j], false) == Success(v.items[j])
    decreases |positions| - k
  {
    if k < |positions| {
      var more := out + [Decode(positions[k], items[k], false).value];
      PositionsHold(positions, items, k + 1, more);
      var v := DecodePositions(positions, items, k + 1, more).value;
      assert v.items[..k] == v.items[..k + 1][..k] == out;
      assert v.items[k] == v.items[..k + 1][k];
    }
  }

  /** A tuple holds what each item decodes to as the type of its position. */
  lemma TupleHolds(positions: seq<Type>, doc: Json, plain: bool)
    requires Decode(Tuple(positions), doc, plain).Success?
    ensures doc.Arr? && |doc.items| == |positions|
    ensures var v := Decode(Tuple(positions), doc, plain).value;
            && v.List? && |v.items| == |positions|
            && forall j :: 0 <= j < |positions| ==> Decode(positions[j], doc.items[j], false) == Success(v.items[j])
  {
    PositionsHold(positions, doc.items, 0, []);
  }

  /** The entries of some keys, each decoded. */
  ghost predicate Entered(elem: Type, members: map<string, Json>, plain: bool, keys: seq<string>, n: nat, out: map<string, Value>)
    requires n <= |keys| && forall k :: k in keys ==> k in members
  {
    && (forall k :: k in out <==> k in keys[..n])
    && forall k :: k in keys[..n] ==> k in keys && k in out && Decode(elem, members[k], plain) == Success(out[k])
  }

  lemma {:induction false} MembersHold(elem: Type, members: map<string, Json>, plain: bool, keys: seq<string>, i: nat, out: map<string, Value>)
    requires i <= |keys| && forall k :: k in keys ==> k in members
    requires Entered(elem, members, plain, keys, i, out) && DecodeMembers(elem, members, plain, keys, i, out).Success?
    ensures var v := DecodeMembers(elem, members, plain, keys, i, out).value;
            v.Dict? && Entered(elem, members, plain, keys, |keys|, v.entries)
    decreases |keys| - i
  {
    if i < |keys| {
      assert keys[..i + 1] == keys[..i] + [keys[i]];
      MembersHold(elem, members, plain, keys, i + 1, out[keys[i] := Decode(elem, members[keys[i]], plain).value]);
    }
  }

  /** A map holds what each member decodes to, under its key, and no other key. */
  lemma MapHolds(elem: Type, doc: Json, plain: bool)
    requires doc.Obj? && Decode(MapOf(elem), doc, plain).Success?
    ensures var v := Decode(MapOf(elem), doc, plain).value;
            && v.Dict? && v.entries.Keys == doc.members.Keys
            && forall k :: k in doc.members ==> k in v.entries && Decode(elem, doc.members[k], plain) == Success(v.entries[k])
  {
    var keys := Sorted(doc.members.Keys);
    MembersHold(elem, doc.members, plain, keys, 0, map[]);
    assert keys[..|keys|] == keys;
    assert forall k :: k in keys <==> k in doc.members;
  }

  // ---- Encoding ----

  predicate OwnKeys(fields: seq<Field>) {
    forall i, j :: 0 <= i < j < |fields| ==> fields[i].key != fields[j].key
  }

  /** What the fields from an index on have written: each present one its own value, the others nothing. */
  lemma {:induction false} FieldsWritten(fields: seq<Field>, slots: seq<Value>, k: nat, written: map<string, Json>)
    requires k <= |fields| == |slots| && OwnKeys(fields) && EncodeFields(fields, slots, k, written).Some?
    requires forall j :: k <= j < |fields| ==> fields[j].key !in written
    ensures var out := EncodeFields(fields, slots, k, written).value;
            && (forall j :: k <= j < |fields| ==>
                  var r := EncodeField(fields[j], slots[j]);
                  && r.Some?
                  && (r.value.Some? <==> fields[j].key in out)
                  && (r.value.Some? ==> out[fields[j].key] == r.value.value))
            && (forall key :: key in out ==> key in written || exists j :: k <= j < |fields| && fields[j].key == key)
            && (forall key :: key in written ==> key in out && out[key] == written[key])
    decreases |fields| - k
  {
    if k < |fields| {
      var r := EncodeField(fields[k], slots[k]);
      var next := if r.value.None? then written else written[fields[k].key := r.value.value];
      assert forall j :: k + 1 <= j < |fields| ==> fields[j].key !in next;
      FieldsWritten(fields, slots, k + 1, next);
      assert r.value.None? ==> fields[k].key !in EncodeFields(fields, slots, k + 1, next).value;
    }
  }

  /**
   * An encoded record has each present field's own value under its key, every extra member that no field
   * wrote as it is, and nothing else: a field wins over an extra member of its key.
   */
  lemma RecordWrites(fields: seq<Field>, v: Value)
    requires OwnKeys(fields) && Encode(Record(fields), v).Some?
    ensures v.Struct? && |v.slots| == |fields| && Encode(Record(fields), v).value.Obj?
    ensures var members := Encode(Record(fields), v).value.members;
            && (forall j :: 0 <= j < |fields| ==>
                  var r := EncodeField(fields[j], v.slots[j]);
                  && r.Some?
                  && (r.value.Some? ==> fields[j].key in members && members[fields[j].key] == r.value.value)
                  && (r.value.None? ==> (fields[j].key in members <==> fields[j].key in v.extra)))
            && (forall key :: key in v.extra && key !in KeysOf(fields, |fields|) ==> key in members && members[key] == v.extra[key])
            && (forall key :: key in members ==> key in v.extra || key in KeysOf(fields, |fields|))
  {
    FieldsWritten(fields, v.slots, 0, map[]);
  }
}
