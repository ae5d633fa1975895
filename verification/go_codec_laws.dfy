/**
 * What decoding guarantees: encoding gives the document back, and every issue's pointer leads where
 * the issue is.
 */
module GoCodecLaws {
  import opened Digits
  import opened GoCodec
  import opened JsonPointer
  import opened SortedKeys
  import opened Wrappers

  /** A type whose Go zero value is nil. */
  predicate Nilable(t: Type) {
    t.PointerTo? || t.SliceOf? || t.MapOf?
  }

  /** Leaf codecs encode back what they decoded, and fields that may be absent have nil-able types. */
  ghost predicate Faithful(t: Type)
    decreases t
  {
    match t
    case Leaf(codec) => forall doc :: codec.decode(doc).Some? ==> codec.encode(codec.decode(doc).value) == doc
    case PointerTo(elem) => Faithful(elem)
    case SliceOf(elem) => Faithful(elem)
    case MapOf(elem) => Faithful(elem)
    case Record(fields) => forall f :: f in fields ==> Faithful(f.typ) && (f.presence.OptionalValue? ==> Nilable(f.typ))
    case Union(variants) => forall v :: v in variants ==> Faithful(v)
    case Tuple(positions) => forall p :: p in positions ==> Faithful(p)
  }

  /** Decoding any document and encoding the result gives the document back, unknown members included. */
  lemma {:induction false} RoundTrip(t: Type, doc: Json, plain: bool)
    requires Faithful(t)
    requires Decode(t, doc, plain).Success?
    ensures Encode(t, Decode(t, doc, plain).value) == Some(doc)
    ensures Nilable(t) && !doc.Null? ==> !Decode(t, doc, plain).value.Nil?
    decreases t, 0
  {
    match t
    case Leaf(_) =>
    case PointerTo(elem) =>
      if !doc.Null? { RoundTrip(elem, doc, plain); }
    case SliceOf(elem) =>
      if !doc.Null? { ItemsRoundTrip(elem, doc.items, plain, 0, []); }
    case MapOf(elem) => if !doc.Null? { MapRoundTrip(t, doc, plain); }
    case Record(fields) => RecordRoundTrip(t, doc, plain);
    case Union(variants) => VariantsRoundTrip(variants, doc, 0, [Issue("", NoVariant)]);
    case Tuple(positions) => PositionsRoundTrip(positions, doc.items, 0, []);
  }

  lemma MapRoundTrip(t: Type, doc: Json, plain: bool)
    requires t.MapOf? && Faithful(t.elem) && doc.Obj?
    requires Decode(t, doc, plain).Success?
    ensures Encode(t, Decode(t, doc, plain).value) == Some(doc)
    ensures !Decode(t, doc, plain).value.Nil?
    decreases t.elem, 2
  {
    var keys := Sorted(doc.members.Keys);
    MembersRoundTrip(t.elem, doc.members, plain, keys, 0, map[]);
    var r := DecodeMembers(t.elem, doc.members, plain, keys, 0, map[]).value;
    assert EncodeEntries(t.elem, r.entries).value == doc.members;
  }

  lemma RecordRoundTrip(t: Type, doc: Json, plain: bool)
    requires t.Record? && Faithful(t)
    requires Decode(t, doc, plain).Success?
    ensures Encode(t, Decode(t, doc, plain).value) == Some(doc)
    decreases t.fields, 2
  {
    var start := Filling(doc.members, [], []);
    var r := DecodeFields(t.fields, 0, start);
    FieldsRoundTrip(t.fields, 0, start, map[]);
    var written := map[] + (doc.members - r.left.Keys);
    assert written + (r.left - written.Keys) == doc.members;
  }

  lemma {:induction false} ItemsRoundTrip(elem: Type, items: seq<Json>, plain: bool, i: nat, out: seq<Value>)
    requires Faithful(elem) && i <= |items| && |out| == i
    requires DecodeItems(elem, items, plain, i, out).Success?
    ensures var r := DecodeItems(elem, items, plain, i, out).value;
            && r.List? && |r.items| == |items| && out <= r.items
            && EncodeItems(elem, r.items, i, items[..i]) == Some(Arr(items))
    decreases elem, 1, |items| - i
  {
    if i < |items| {
      RoundTrip(elem, items[i], plain);
      ItemsRoundTrip(elem, items, plain, i + 1, out + [Decode(elem, items[i], plain).value]);
      assert items[..i] + [items[i]] == items[..i + 1];
    } else {
      assert items[..i] == items;
    }
  }

  lemma {:induction false} MembersRoundTrip(elem: Type, members: map<string, Json>, plain: bool, keys: seq<string>, i: nat, out: map<string, Value>)
    requires Faithful(elem) && i <= |keys| && forall k :: k in keys <==> k in members
    requires forall k :: k in out <==> k in keys[..i]
    requires forall k :: k in out ==> k in members && Encode(elem, out[k]) == Some(members[k])
    requires DecodeMembers(elem, members, plain, keys, i, out).Success?
    ensures var r := DecodeMembers(elem, members, plain, keys, i, out).value;
            && r.Dict? && (forall k :: k in r.entries <==> k in members)
            && forall k :: k in r.entries ==> Encode(elem, r.entries[k]) == Some(members[k])
    decreases elem, 1, |keys| - i
  {
    if i < |keys| {
      RoundTrip(elem, members[keys[i]], plain);
      var next := out[keys[i] := Decode(elem, members[keys[i]], plain).value];
      assert keys[..i + 1] == keys[..i] + [keys[i]];
      MembersRoundTrip(elem, members, plain, keys, i + 1, next);
    } else {
      assert keys[..i] == keys;
    }
  }

  lemma EncodeFieldSet(f: Field, v: Value, doc: Json)
    requires Encode(f.typ, v) == Some(doc)
    requires f.presence.OptionalValue? ==> !v.Nil?
    ensures EncodeField(f, if f.presence.OptionalNullable? then Maybe(true, v) else v) == Some(Some(doc))
  {}

  /** A field that decodes without issue encodes back to what it took out of the object. */
  lemma FieldRoundTrip(f: Field, s: Filling)
    requires Faithful(f.typ) && (f.presence.OptionalValue? ==> Nilable(f.typ))
    requires s.issues == [] == DecodeField(f, s).issues
    ensures var r := DecodeField(f, s);
            && r.left == s.left - {f.key}
            && |r.slots| == |s.slots| + 1 && s.slots <= r.slots
            && EncodeField(f, r.slots[|s.slots|]) == Some(if f.key in s.left then Some(s.left[f.key]) else None)
    decreases f, 1
  {
    if f.key in s.left {
      var raw, plain := s.left[f.key], f.presence.OptionalNullable?;
      assert !raw.Null? || IsNullable(f.presence);
      var r := Decode(f.typ, raw, plain);
      assert r.Success?;
      RoundTrip(f.typ, raw, plain);
      EncodeFieldSet(f, r.value, raw);
    }
  }

  lemma {:induction false} FieldsKeepIssues(fields: seq<Field>, k: nat, s: Filling)
    requires k <= |fields|
    ensures s.issues <= DecodeFields(fields, k, s).issues
    decreases |fields| - k
  {
    if k < |fields| { FieldsKeepIssues(fields, k + 1, DecodeField(fields[k], s)); }
  }

  lemma WrittenOneMore(written: map<string, Json>, left: map<string, Json>, kept: set<string>, key: string)
    requires written.Keys !! left.Keys && kept <= left.Keys - {key}
    ensures var now := if key in left then written[key := left[key]] else written;
            now + (left - {key} - kept) == written + (left - kept)
  {}

  lemma {:induction false} FieldsRoundTrip(fields: seq<Field>, k: nat, s: Filling, written: map<string, Json>)
    requires k <= |fields| && |s.slots| == k
    requires forall f :: f in fields ==> Faithful(f.typ) && (f.presence.OptionalValue? ==> Nilable(f.typ))
    requires s.issues == [] == DecodeFields(fields, k, s).issues
    requires written.Keys !! s.left.Keys
    ensures var r := DecodeFields(fields, k, s);
            && |r.slots| == |fields| && s.slots <= r.slots
            && r.left.Keys <= s.left.Keys && (forall key :: key in r.left ==> r.left[key] == s.left[key])
            && EncodeFields(fields, r.slots, k, written) == Some(written + (s.left - r.left.Keys))
    decreases fields, 1, |fields| - k
  {
    if k < |fields| {
      var f, next := fields[k], DecodeField(fields[k], s);
      FieldsKeepIssues(fields, k + 1, next);
      FieldRoundTrip(f, s);
      var now := if f.key in s.left then written[f.key := s.left[f.key]] else written;
      FieldsRoundTrip(fields, k + 1, next, now);
      var r := DecodeFields(fields, k + 1, next);
      assert r.slots[k] == next.slots[k];
      WrittenOneMore(written, s.left, r.left.Keys, f.key);
    } else {
      assert written + (s.left - s.left.Keys) == written;
    }
  }

  lemma {:induction false} VariantsRoundTrip(variants: seq<Type>, doc: Json, k: nat, issues: seq<Issue>)
    requires k <= |variants| && issues != [] && forall v :: v in variants ==> Faithful(v)
    requires DecodeVariants(variants, doc, k, issues).Success?
    ensures var r := DecodeVariants(variants, doc, k, issues).value;
            && r.Variants? && |r.choices| == |variants|
            && (forall j :: 0 <= j < k ==> r.choices[j].None?)
            && EncodeVariants(variants, r.choices, k) == Some(doc)
            && EncodeVariants(variants, r.choices, 0) == Some(doc)
    decreases variants, 1, |variants| - k
  {
    if k < |variants| {
      var r := Decode(variants[k], doc, false);
      if r.Success? {
        RoundTrip(variants[k], doc, false);
      } else {
        VariantsRoundTrip(variants, doc, k + 1, issues + r.error);
      }
      SkipUnset(variants, DecodeVariants(variants, doc, k, issues).value.choices, k);
    }
  }

  lemma {:induction false} SkipUnset(variants: seq<Type>, choices: seq<Option<Value>>, k: nat)
    requires k <= |variants| == |choices|
    requires forall j :: 0 <= j < k ==> choices[j].None?
    ensures EncodeVariants(variants, choices, 0) == EncodeVariants(variants, choices, k)
  {
    if k > 0 { SkipUnset(variants, choices, k - 1); }
  }

  lemma {:induction false} PositionsRoundTrip(positions: seq<Type>, items: seq<Json>, k: nat, out: seq<Value>)
    requires k <= |positions| == |items| && |out| == k
    requires forall p :: p in positions ==> Faithful(p)
    requires DecodePositions(positions, items, k, out).Success?
    ensures var r := DecodePositions(positions, items, k, out).value;
            && r.List? && |r.items| == |items| && out <= r.items
            && EncodePositions(positions, r.items, k, items[..k]) == Some(Arr(items))
    decreases positions, 1, |positions| - k
  {
    if k < |positions| {
      RoundTrip(positions[k], items[k], false);
      PositionsRoundTrip(positions, items, k + 1, out + [Decode(positions[k], items[k], false).value]);
      assert items[..k] + [items[k]] == items[..k + 1];
    } else {
      assert items[..k] == items;
    }
  }
}
