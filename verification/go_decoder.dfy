/** The loops of packages/core-go/validation.go and errors.go, proved against the codec's definition. */
module GoDecoder {
  import opened Digits
  import opened GoCodec
  import opened JsonPointer
  import opened SortedKeys
  import opened Wrappers

  method PrefixIssues(prefix: string, issues: seq<Issue>) returns (r: seq<Issue>)
    ensures r == Prefixed(prefix, issues)
  {
    var out := new Issue[|issues|];
    for i := 0 to |issues|
      invariant forall k :: 0 <= k < i ==> out[k] == Located(prefix, issues[k])
    {
      out[i] := Located(prefix, issues[i]);
    }
    r := out[..];
  }

  method DecodeValue(t: Type, doc: Json, plain: bool) returns (r: Decoded)
    ensures r == Decode(t, doc, plain)
    decreases t, 0
  {
    match t
    case Leaf(codec) =>
      var text := codec.decode(doc);
      r := if text.Some? then Success(Scalar(text.value)) else Failure([Issue("", Mismatch)]);
    case PointerTo(elem) =>
      if doc.Null? {
        return Success(Nil);
      }
      r := DecodeValue(elem, doc, plain);
      if r.Success? {
        r := Success(Ptr(r.value));
      }
    case SliceOf(elem) =>
      if doc.Null? {
        return Success(Nil);
      }
      if !doc.Arr? {
        return Failure([Issue("", Mismatch)]);
      }
      r := DecodeSlice(elem, doc.items, plain);
    case MapOf(elem) =>
      if doc.Null? {
        return Success(Nil);
      }
      if !doc.Obj? {
        return Failure([Issue("", Mismatch)]);
      }
      var keys := SortedList(doc.members.Keys);
      r := DecodeMap(elem, doc.members, plain, keys);
    case Record(fields) =>
      r := DecodeObject(fields, doc);
    case Union(variants) =>
      r := DecodeUnion(variants, doc);
    case Tuple(positions) =>
      r := DecodeTuple(positions, doc);
  }

  method DecodeSlice(elem: Type, items: seq<Json>, plain: bool) returns (r: Decoded)
    ensures r == DecodeItems(elem, items, plain, 0, [])
    decreases elem, 1
  {
    var out: seq<Value> := [];
    for i := 0 to |items|
      invariant DecodeItems(elem, items, plain, 0, []) == DecodeItems(elem, items, plain, i, out)
    {
      r := DecodeValue(elem, items[i], plain);
      if r.Failure? {
        if !plain {
          var issues := PrefixIssues("/" + Itoa(i), r.error);
          r := Failure(issues);
        }
        return;
      }
      out := out + [r.value];
    }
    r := Success(List(out));
  }

  method DecodeMap(elem: Type, members: map<string, Json>, plain: bool, keys: seq<string>) returns (r: Decoded)
    requires forall k :: k in keys ==> k in members
    ensures r == DecodeMembers(elem, members, plain, keys, 0, map[])
    decreases elem, 1
  {
    var out: map<string, Value> := map[];
    for i := 0 to |keys|
      invariant DecodeMembers(elem, members, plain, keys, 0, map[]) == DecodeMembers(elem, members, plain, keys, i, out)
    {
      r := DecodeValue(elem, members[keys[i]], plain);
      if r.Failure? {
        if !plain {
          var issues := PrefixIssues("/" + Escape(keys[i]), r.error);
          r := Failure(issues);
        }
        return;
      }
      out := out[keys[i] := r.value];
    }
    r := Success(Dict(out));
  }

  method DecodeObject(fields: seq<Field>, doc: Json) returns (r: Decoded)
    ensures r == Decode(Record(fields), doc, false)
    ensures r == Decode(Record(fields), doc, true)
    decreases fields, 1
  {
    if !doc.Obj? {
      return Failure([Issue("", Mismatch)]);
    }
    ghost var start := Filling(doc.members, [], []);
    var left := doc.members;
    var slots: seq<Value> := [];
    var issues: seq<Issue> := [];
    for k := 0 to |fields|
      invariant DecodeFields(fields, 0, start) == DecodeFields(fields, k, Filling(left, slots, issues))
    {
      var f := fields[k];
      var at := "/" + Escape(f.key);
      if f.key !in left {
        if IsRequired(f.presence) {
          issues := issues + [Issue(at, MissingKey)];
        }
        slots := slots + [Zero(f)];
        continue;
      }
      var raw := left[f.key];
      left := left - {f.key};
      if raw.Null? && !IsNullable(f.presence) {
        issues := issues + [Issue(at, NullValue)];
        slots := slots + [Zero(f)];
        continue;
      }
      var v := DecodeValue(f.typ, raw, f.presence.OptionalNullable?);
      if v.Failure? {
        var located := PrefixIssues(at, v.error);
        issues := issues + located;
        slots := slots + [Zero(f)];
      } else {
        slots := slots + [if f.presence.OptionalNullable? then Maybe(true, v.value) else v.value];
      }
    }
    r := if |issues| > 0 then Failure(issues) else Success(Struct(slots, left));
  }

  method DecodeUnion(variants: seq<Type>, doc: Json) returns (r: Decoded)
    ensures r == DecodeVariants(variants, doc, 0, [Issue("", NoVariant)])
    decreases variants, 1
  {
    var issues := [Issue("", NoVariant)];
    for k := 0 to |variants|
      invariant issues != []
      invariant DecodeVariants(variants, doc, 0, [Issue("", NoVariant)]) == DecodeVariants(variants, doc, k, issues)
    {
      r := DecodeValue(variants[k], doc, false);
      if r.Success? {
        return Success(Variants(Chosen(|variants|, k, r.value)));
      }
      issues := issues + r.error;
    }
    r := Failure(issues);
  }

  method DecodeTuple(positions: seq<Type>, doc: Json) returns (r: Decoded)
    ensures r == Decode(Tuple(positions), doc, false)
    ensures r == Decode(Tuple(positions), doc, true)
    decreases positions, 1
  {
    if !doc.Arr? || |doc.items| != |positions| {
      return Failure([Issue("", Mismatch)]);
    }
    var out: seq<Value> := [];
    for k := 0 to |positions|
      invariant DecodePositions(positions, doc.items, 0, []) == DecodePositions(positions, doc.items, k, out)
    {
      r := DecodeValue(positions[k], doc.items[k], false);
      if r.Failure? {
        var issues := PrefixIssues("/" + Itoa(k), r.error);
        return Failure(issues);
      }
      out := out + [r.value];
    }
    r := Success(List(out));
  }

  method EncodeValue(t: Type, v: Value) returns (r: Option<Json>)
    ensures r == Encode(t, v)
    decreases t, 0
  {
    match t
    case Leaf(codec) =>
      r := if v.Scalar? then Some(codec.encode(v.text)) else None;
    case PointerTo(elem) =>
      if v.Nil? {
        r := Some(Null);
      } else if v.Ptr? {
        r := EncodeValue(elem, v.target);
      } else {
        r := None;
      }
    case SliceOf(elem) =>
      if v.Nil? {
        r := Some(Null);
      } else if v.List? {
        r := EncodeSlice(elem, v.items);
      } else {
        r := None;
      }
    case MapOf(elem) =>
      if v.Nil? {
        r := Some(Null);
      } else if v.Dict? {
        var members := EncodeMap(elem, v.entries);
        r := if members.None? then None else Some(Obj(members.value));
      } else {
        r := None;
      }
    case Record(fields) =>
      var order: seq<string>;
      r, order := EncodeObject(fields, v);
    case Union(variants) =>
      if v.Variants? && |v.choices| == |variants| {
        r := EncodeUnion(variants, v.choices);
      } else {
        r := None;
      }
    case Tuple(positions) =>
      if v.List? && |v.items| == |positions| {
        r := EncodeTuple(positions, v.items);
      } else {
        r := None;
      }
  }

  method EncodeSlice(elem: Type, items: seq<Value>) returns (r: Option<Json>)
    ensures r == EncodeItems(elem, items, 0, [])
    decreases elem, 1
  {
    var out: seq<Json> := [];
    for i := 0 to |items|
      invariant EncodeItems(elem, items, 0, []) == EncodeItems(elem, items, i, out)
    {
      r := EncodeValue(elem, items[i]);
      if r.None? {
        return;
      }
      out := out + [r.value];
    }
    r := Some(Arr(out));
  }

  method EncodeMap(elem: Type, entries: map<string, Value>) returns (r: Option<map<string, Json>>)
    ensures r == EncodeEntries(elem, entries)
    decreases elem, 1
  {
    var rest := entries.Keys;
    var out: map<string, Json> := map[];
    while rest != {}
      invariant rest <= entries.Keys && out.Keys == entries.Keys - rest
      invariant forall k :: k in out ==> Encode(elem, entries[k]) == Some(out[k])
      decreases |rest|
    {
      var k :| k in rest;
      var v := EncodeValue(elem, entries[k]);
      if v.None? {
        return None;
      }
      out := out[k := v.value];
      rest := rest - {k};
    }
    EntriesEncoded(elem, entries, out);
    r := Some(out);
  }

  lemma EntriesEncoded(elem: Type, entries: map<string, Value>, out: map<string, Json>)
    requires out.Keys == entries.Keys
    requires forall k :: k in out ==> Encode(elem, entries[k]) == Some(out[k])
    ensures EncodeEntries(elem, entries) == Some(out)
  {
    assert EncodeEntries(elem, entries).value == out;
  }

  /** Whether a field has anything to write. */
  predicate IsPresent(f: Field, slot: Value) {
    if f.presence.OptionalNullable? then slot.Maybe? && slot.set_ else f.presence.OptionalValue? ==> !slot.Nil?
  }

  /** The keys of the first `n` fields that are present, as declared. */
  function Declared(fields: seq<Field>, slots: seq<Value>, n: nat): seq<string>
    requires n <= |fields| == |slots|
  {
    if n == 0 then []
    else
      var before := Declared(fields, slots, n - 1);
      if IsPresent(fields[n - 1], slots[n - 1]) then before + [fields[n - 1].key] else before
  }

  /** The members of an object are the keys put so far, each with what it was given last. */
  predicate Puts(order: seq<string>, members: map<string, Json>) {
    (forall k :: k in order ==> k in members) && (forall k :: k in members ==> k in order)
  }

  /**
   * An object's members as they are written: the fields present in declaration order, then the keys no
   * field wrote, ascending.
   */
  method EncodeObject(fields: seq<Field>, v: Value) returns (r: Option<Json>, order: seq<string>)
    ensures r == Encode(Record(fields), v)
    ensures r.Some? ==>
              && r.value.Obj? && Puts(order, r.value.members) && v.Struct? && |v.slots| == |fields|
              && var declared := Declared(fields, v.slots, |fields|);
                 order == declared + Sorted(v.extra.Keys - (set k | k in declared))
    decreases fields, 1
  {
    order := [];
    if !v.Struct? || |v.slots| != |fields| {
      r := None;
      return;
    }
    var members: map<string, Json> := map[];
    for k := 0 to |fields|
      invariant EncodeFields(fields, v.slots, 0, map[]) == EncodeFields(fields, v.slots, k, members)
      invariant order == Declared(fields, v.slots, k) && Puts(order, members)
    {
      var f, slot := fields[k], v.slots[k];
      if f.presence.OptionalNullable? {
        if !slot.Maybe? {
          r := None;
          return;
        }
        if !slot.set_ {
          continue;
        }
        slot := slot.value;
      } else if f.presence.OptionalValue? && slot.Nil? {
        continue;
      }
      r := EncodeValue(f.typ, slot);
      if r.None? {
        return;
      }
      members := members[f.key := r.value];
      order := order + [f.key];
    }
    var written := set k | k in order;
    var extras: seq<string>;
    members, extras := EncodeExtras(v.extra, members, written);
    order := order + extras;
    r := Some(Obj(members));
  }

  /** The members once the first `n` extra keys have been put. */
  function WithExtras(fields: map<string, Json>, extra: map<string, Json>, keys: seq<string>, n: nat): map<string, Json>
    requires n <= |keys| && forall k :: k in keys ==> k in extra
  {
    if n == 0 then fields else WithExtras(fields, extra, keys, n - 1)[keys[n - 1] := extra[keys[n - 1]]]
  }

  function MemberAt(members: map<string, Json>, key: string): Option<Json> {
    if key in members then Some(members[key]) else None
  }

  lemma {:induction false} WithExtrasAt(fields: map<string, Json>, extra: map<string, Json>, keys: seq<string>, n: nat, key: string)
    requires n <= |keys| && forall k :: k in keys ==> k in extra
    ensures MemberAt(WithExtras(fields, extra, keys, n), key) ==
            if key in keys[..n] then Some(extra[key]) else MemberAt(fields, key)
  {
    if n > 0 {
      WithExtrasAt(fields, extra, keys, n - 1, key);
      assert keys[..n] == keys[..n - 1] + [keys[n - 1]];
    }
  }

  lemma SameMembers(a: map<string, Json>, b: map<string, Json>)
    requires forall k :: MemberAt(a, k) == MemberAt(b, k)
    ensures a == b
  {
    forall k ensures k in a <==> k in b {
      assert MemberAt(a, k) == MemberAt(b, k);
    }
    forall k | k in a ensures a[k] == b[k] {
      assert MemberAt(a, k) == MemberAt(b, k);
    }
  }

  lemma OverFields(fields: map<string, Json>, extra: map<string, Json>, key: string)
    ensures MemberAt(fields + (extra - fields.Keys), key) == if key in fields then Some(fields[key]) else MemberAt(extra, key)
  {}

  lemma WithAllExtras(fields: map<string, Json>, extra: map<string, Json>, keys: seq<string>)
    requires forall k :: k in keys <==> k in extra && k !in fields
    ensures WithExtras(fields, extra, keys, |keys|) == fields + (extra - fields.Keys)
  {
    var all, want := WithExtras(fields, extra, keys, |keys|), fields + (extra - fields.Keys);
    assert keys[..|keys|] == keys;
    forall k ensures MemberAt(all, k) == MemberAt(want, k) {
      WithExtrasAt(fields, extra, keys, |keys|, k);
      OverFields(fields, extra, k);
    }
    SameMembers(all, want);
  }

  method PutExtras(fields: map<string, Json>, extra: map<string, Json>, keys: seq<string>) returns (members: map<string, Json>)
    requires forall k :: k in keys ==> k in extra
    ensures members == WithExtras(fields, extra, keys, |keys|)
  {
    members := fields;
    for i := 0 to |keys|
      invariant members == WithExtras(fields, extra, keys, i)
    {
      members := members[keys[i] := extra[keys[i]]];
    }
  }

  /** The undocumented members no field wrote, in ascending order of their keys. */
  method EncodeExtras(extra: map<string, Json>, fields: map<string, Json>, written: set<string>)
    returns (members: map<string, Json>, keys: seq<string>)
    requires written == fields.Keys
    ensures members == fields + (extra - written) && keys == Sorted(extra.Keys - written)
  {
    keys := SortedList(extra.Keys - written);
    members := PutExtras(fields, extra, keys);
    WithAllExtras(fields, extra, keys);
  }

  /** The first variant that holds a value. */
  method EncodeUnion(variants: seq<Type>, choices: seq<Option<Value>>) returns (r: Option<Json>)
    requires |variants| == |choices|
    ensures r == EncodeVariants(variants, choices, 0)
    decreases variants, 1
  {
    for k := 0 to |variants|
      invariant EncodeVariants(variants, choices, 0) == EncodeVariants(variants, choices, k)
    {
      if choices[k].Some? {
        r := EncodeValue(variants[k], choices[k].value);
        return;
      }
    }
    r := None;
  }

  method EncodeTuple(positions: seq<Type>, items: seq<Value>) returns (r: Option<Json>)
    requires |positions| == |items|
    ensures r == EncodePositions(positions, items, 0, [])
    decreases positions, 1
  {
    var parts: seq<Json> := [];
    for k := 0 to |positions|
      invariant EncodePositions(positions, items, 0, []) == EncodePositions(positions, items, k, parts)
    {
      r := EncodeValue(positions[k], items[k]);
      if r.None? {
        return;
      }
      parts := parts + [r.value];
    }
    r := Some(Arr(parts));
  }
}
