/**
 * Decoding a document into a generated Go type, and encoding it back (packages/core-go/validation.go).
 * A type is a tree of descriptors over leaf codecs; a failure is a list of issues, each located by a
 * JSON pointer.
 */
module GoCodec {
  import opened Digits
  import opened JsonPointer
  import opened SortedKeys
  import opened Wrappers

  /** A leaf type's own codec, as its `UnmarshalJSON` and `MarshalJSON` behave. */
  datatype Codec = Codec(decode: Json -> Option<string>, encode: string -> Json)

  datatype Presence = Required | RequiredNullable | OptionalValue | OptionalNullable

  datatype Field = Field(key: string, presence: Presence, typ: Type)

  datatype Type =
    | Leaf(codec: Codec)
    | PointerTo(elem: Type)
    | SliceOf(elem: Type)
    | MapOf(elem: Type)
    | Record(fields: seq<Field>)
    | Union(variants: seq<Type>)
    | Tuple(positions: seq<Type>)

  datatype Value =
    | Nil
    | Scalar(text: string)
    | Ptr(target: Value)
    | List(items: seq<Value>)
    | Dict(entries: map<string, Value>)
    | Struct(slots: seq<Value>, extra: map<string, Json>)
    | Maybe(set_: bool, value: Value)
    | Variants(choices: seq<Option<Value>>)

  datatype Problem = MissingKey | NullValue | Mismatch | NoVariant

  datatype Issue = Issue(path: string, problem: Problem)

  type Decoded = Result<Value, seq<Issue>>

  predicate IsRequired(p: Presence) { p.Required? || p.RequiredNullable? }

  predicate IsNullable(p: Presence) { p.RequiredNullable? || p.OptionalNullable? }

  function Located(prefix: string, issue: Issue): Issue {
    issue.(path := prefix + issue.path)
  }

  /** The issues, each under `prefix`. */
  function Prefixed(prefix: string, issues: seq<Issue>): (r: seq<Issue>)
    ensures |r| == |issues|
  {
    seq(|issues|, i requires 0 <= i < |issues| => Located(prefix, issues[i]))
  }

  /** What a field holds when its key is absent. */
  function Zero(f: Field): Value {
    if f.presence.OptionalNullable? then Maybe(false, Nil) else Nil
  }

  datatype Filling = Filling(left: map<string, Json>, slots: seq<Value>, issues: seq<Issue>)

  /**
   * Decode a document into a type. Under `plain` the standard library walks slices and maps itself, as
   * it does inside a field both optional and nullable, and locates nothing in them.
   */
  ghost function Decode(t: Type, doc: Json, plain: bool): (r: Decoded)
    ensures r.Failure? ==> r.error != []
    decreases t, 0
  {
    match t
    case Leaf(codec) =>
      var text := codec.decode(doc);
      if text.Some? then Success(Scalar(text.value)) else Failure([Issue("", Mismatch)])
    case PointerTo(elem) =>
      if doc.Null? then Success(Nil)
      else
        var r := Decode(elem, doc, plain);
        if r.Failure? then r else Success(Ptr(r.value))
    case SliceOf(elem) =>
      if doc.Null? then Success(Nil)
      else if doc.Arr? then DecodeItems(elem, doc.items, plain, 0, [])
      else Failure([Issue("", Mismatch)])
    case MapOf(elem) =>
      if doc.Null? then Success(Nil)
      else if doc.Obj? then DecodeMembers(elem, doc.members, plain, Sorted(doc.members.Keys), 0, map[])
      else Failure([Issue("", Mismatch)])
    case Record(fields) =>
      if !doc.Obj? then Failure([Issue("", Mismatch)])
      else
        var r := DecodeFields(fields, 0, Filling(doc.members, [], []));
        if r.issues == [] then Success(Struct(r.slots, r.left)) else Failure(r.issues)
    case Union(variants) => DecodeVariants(variants, doc, 0, [Issue("", NoVariant)])
    case Tuple(positions) =>
      if !doc.Arr? || |doc.items| != |positions| then Failure([Issue("", Mismatch)])
      else DecodePositions(positions, doc.items, 0, [])
  }

  ghost function DecodeItems(elem: Type, items: seq<Json>, plain: bool, i: nat, out: seq<Value>): (r: Decoded)
    requires i <= |items|
    ensures r.Failure? ==> r.error != []
    decreases elem, 1, |items| - i
  {
    if i == |items| then Success(List(out))
    else
      var r := Decode(elem, items[i], plain);
      if r.Failure? then Failure(if plain then r.error else Prefixed("/" + Itoa(i), r.error))
      else DecodeItems(elem, items, plain, i + 1, out + [r.value])
  }

  ghost function DecodeMembers(elem: Type, members: map<string, Json>, plain: bool, keys: seq<string>, i: nat,
                               out: map<string, Value>): (r: Decoded)
    requires i <= |keys| && forall k :: k in keys ==> k in members
    ensures r.Failure? ==> r.error != []
    decreases elem, 1, |keys| - i
  {
    if i == |keys| then Success(Dict(out))
    else
      var r := Decode(elem, members[keys[i]], plain);
      if r.Failure? then Failure(if plain then r.error else Prefixed("/" + Escape(keys[i]), r.error))
      else DecodeMembers(elem, members, plain, keys, i + 1, out[keys[i] := r.value])
  }

  /** One field, taken out of what is left of the object. */
  ghost function DecodeField(f: Field, s: Filling): Filling
    decreases f, 1
  {
    var at := "/" + Escape(f.key);
    if f.key !in s.left then
      s.(slots := s.slots + [Zero(f)],
         issues := if IsRequired(f.presence) then s.issues + [Issue(at, MissingKey)] else s.issues)
    else
      var raw, left := s.left[f.key], s.left - {f.key};
      if raw.Null? && !IsNullable(f.presence) then
        Filling(left, s.slots + [Zero(f)], s.issues + [Issue(at, NullValue)])
      else
        var r := Decode(f.typ, raw, f.presence.OptionalNullable?);
        if r.Failure? then Filling(left, s.slots + [Zero(f)], s.issues + Prefixed(at, r.error))
        else Filling(left, s.slots + [if f.presence.OptionalNullable? then Maybe(true, r.value) else r.value], s.issues)
  }

  ghost function DecodeFields(fields: seq<Field>, k: nat, s: Filling): Filling
    requires k <= |fields|
    decreases fields, 1, |fields| - k
  {
    if k == |fields| then s else DecodeFields(fields, k + 1, DecodeField(fields[k], s))
  }

  function Chosen(n: nat, k: nat, v: Value): seq<Option<Value>> {
    seq(n, i => if i == k then Some(v) else None)
  }

  ghost function DecodeVariants(variants: seq<Type>, doc: Json, k: nat, issues: seq<Issue>): (r: Decoded)
    requires k <= |variants| && issues != []
    ensures r.Failure? ==> r.error != []
    decreases variants, 1, |variants| - k
  {
    if k == |variants| then Failure(issues)
    else
      var r := Decode(variants[k], doc, false);
      if r.Success? then Success(Variants(Chosen(|variants|, k, r.value)))
      else DecodeVariants(variants, doc, k + 1, issues + r.error)
  }

  ghost function DecodePositions(positions: seq<Type>, items: seq<Json>, k: nat, out: seq<Value>): (r: Decoded)
    requires k <= |positions| == |items|
    ensures r.Failure? ==> r.error != []
    decreases positions, 1, |positions| - k
  {
    if k == |positions| then Success(List(out))
    else
      var r := Decode(positions[k], items[k], false);
      if r.Failure? then Failure(Prefixed("/" + Itoa(k), r.error))
      else DecodePositions(positions, items, k + 1, out + [r.value])
  }

  /** Encode a value of a type; nothing when the value does not have that type's form. */
  ghost function Encode(t: Type, v: Value): Option<Json>
    decreases t, 0
  {
    match t
    case Leaf(codec) => if v.Scalar? then Some(codec.encode(v.text)) else None
    case PointerTo(elem) => if v.Nil? then Some(Null) else if v.Ptr? then Encode(elem, v.target) else None
    case SliceOf(elem) => if v.Nil? then Some(Null) else if v.List? then EncodeItems(elem, v.items, 0, []) else None
    case MapOf(elem) =>
      if v.Nil? then Some(Null)
      else if !v.Dict? then None
      else
        var members := EncodeEntries(elem, v.entries);
        if members.None? then None else Some(Obj(members.value))
    case Record(fields) =>
      if !v.Struct? || |v.slots| != |fields| then None
      else
        var written := EncodeFields(fields, v.slots, 0, map[]);
        if written.None? then None else Some(Obj(written.value + (v.extra - written.value.Keys)))
    case Union(variants) =>
      if v.Variants? && |v.choices| == |variants| then EncodeVariants(variants, v.choices, 0) else None
    case Tuple(positions) =>
      if v.List? && |v.items| == |positions| then EncodePositions(positions, v.items, 0, []) else None
  }

  ghost function EncodeItems(elem: Type, items: seq<Value>, i: nat, out: seq<Json>): Option<Json>
    requires i <= |items|
    decreases elem, 1, |items| - i
  {
    if i == |items| then Some(Arr(out))
    else
      var r := Encode(elem, items[i]);
      if r.None? then None else EncodeItems(elem, items, i + 1, out + [r.value])
  }

  ghost function EncodeEntries(elem: Type, entries: map<string, Value>): (r: Option<map<string, Json>>)
    ensures r.None? <==> exists k :: k in entries && Encode(elem, entries[k]).None?
    ensures r.Some? ==> r.value.Keys == entries.Keys
    ensures r.Some? ==> forall k :: k in entries ==> Encode(elem, entries[k]) == Some(r.value[k])
    decreases elem, 1
  {
    if exists k :: k in entries && Encode(elem, entries[k]).None? then None
    else Some(map k | k in entries :: Encode(elem, entries[k]).value)
  }

  /** A field's JSON, when the field is present. */
  ghost function EncodeField(f: Field, slot: Value): Option<Option<Json>>
    decreases f, 1
  {
    match f.presence
    case OptionalNullable =>
      if !slot.Maybe? then None
      else if !slot.set_ then Some(None)
      else
        var r := Encode(f.typ, slot.value);
        if r.None? then None else Some(r)
    case OptionalValue =>
      if slot.Nil? then Some(None)
      else
        var r := Encode(f.typ, slot);
        if r.None? then None else Some(r)
    case _ =>
      var r := Encode(f.typ, slot);
      if r.None? then None else Some(r)
  }

  ghost function EncodeFields(fields: seq<Field>, slots: seq<Value>, k: nat, written: map<string, Json>): Option<map<string, Json>>
    requires k <= |fields| == |slots|
    decreases fields, 1, |fields| - k
  {
    if k == |fields| then Some(written)
    else
      var r := EncodeField(fields[k], slots[k]);
      if r.None? then None
      else EncodeFields(fields, slots, k + 1, if r.value.None? then written else written[fields[k].key := r.value.value])
  }

  ghost function EncodeVariants(variants: seq<Type>, choices: seq<Option<Value>>, k: nat): Option<Json>
    requires k <= |variants| == |choices|
    decreases variants, 1, |variants| - k
  {
    if k == |variants| then None
    else if choices[k].Some? then Encode(variants[k], choices[k].value)
    else EncodeVariants(variants, choices, k + 1)
  }

  ghost function EncodePositions(positions: seq<Type>, items: seq<Value>, k: nat, out: seq<Json>): Option<Json>
    requires k <= |positions| == |items|
    decreases positions, 1, |positions| - k
  {
    if k == |positions| then Some(Arr(out))
    else
      var r := Encode(positions[k], items[k]);
      if r.None? then None else EncodePositions(positions, items, k + 1, out + [r.value])
  }
}
