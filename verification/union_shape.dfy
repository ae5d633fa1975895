/**
 * What one pair of a schema node and a value says for itself, and which pairs it goes on to
 * (`_shape` in packages/core-python/src/truewire_core/_serialization.py).
 */
module UnionShape {
  import opened Wrappers
  import opened Sequences

  type SchemaId = nat
  type ValueId = nat

  datatype Field = Field(name: string, schema: SchemaId, required: bool)

  /** The nodes of a core schema the scorer tells apart, references by node identity. */
  datatype Schema =
    | DefinitionRef(name: string)
    | Wrapped(inner: SchemaId)
    | Nullable(inner: SchemaId)
    | NoneOnly
    | AnyValue
    | Literal(expected: seq<(string, string)>)
    | Native(cls: string)
    | Instance(cls: string)
    | Union(choices: seq<SchemaId>)
    | TypedDict(fields: seq<Field>)
    | Collection(cls: string, element: SchemaId)
    | DictOf(keys: SchemaId, values: SchemaId)
    | TupleOf(items: seq<SchemaId>, variadic: Option<nat>)
    | Unsupported

  datatype Content =
    | Plain(text: string)
    | Items(items: seq<ValueId>)
    | Entries(keys: seq<ValueId>, values: seq<ValueId>, named: map<string, ValueId>)

  /** A Python value: its own class, every class it is an instance of, and what it holds. */
  datatype Value = Value(cls: string, mro: set<string>, content: Content)

  datatype Graph = Graph(schemas: map<SchemaId, Schema>, values: map<ValueId, Value>, definitions: map<string, SchemaId>)

  datatype Pair = Pair(schema: SchemaId, value: ValueId)

  /** Declared fields found, then how exactly the types matched. */
  datatype Score = Score(fields: nat, exact: nat)

  datatype Operation = Sum | Max

  datatype Shape = Shape(base: Option<Score>, children: seq<Pair>, operation: Operation)

  predicate ReferencesResolve(g: Graph, schema: Schema) {
    match schema
    case DefinitionRef(name) => name in g.definitions && g.definitions[name] in g.schemas
    case Wrapped(inner) => inner in g.schemas
    case Nullable(inner) => inner in g.schemas
    case Union(choices) => forall c :: c in choices ==> c in g.schemas
    case TypedDict(fields) => forall f :: f in fields ==> f.schema in g.schemas
    case Collection(_, element) => element in g.schemas
    case DictOf(keys, values) => keys in g.schemas && values in g.schemas
    case TupleOf(items, variadic) =>
      (forall i :: i in items ==> i in g.schemas) && (variadic.Some? ==> variadic.value < |items|)
    case _ => true
  }

  predicate MembersResolve(g: Graph, value: Value) {
    match value.content
    case Plain(_) => true
    case Items(items) => forall i :: i in items ==> i in g.values
    case Entries(keys, values, named) =>
      && (forall k :: k in keys ==> k in g.values)
      && (forall v :: v in values ==> v in g.values)
      && (forall n :: n in named ==> named[n] in g.values)
  }

  /** Every reference of the schema graph and of the value graph leads to a node. */
  ghost predicate Closed(g: Graph) {
    && (forall id :: id in g.schemas ==> ReferencesResolve(g, g.schemas[id]))
    && (forall id :: id in g.values ==> MembersResolve(g, g.values[id]))
  }

  predicate InGraph(g: Graph, pair: Pair) {
    pair.schema in g.schemas && pair.value in g.values
  }

  ghost function Pairs(g: Graph): set<Pair> {
    set s, v | s in g.schemas && v in g.values :: Pair(s, v)
  }

  function Exact(): Shape { Shape(Some(Score(0, 2)), [], Sum) }

  function Mismatch(): Shape { Shape(None, [], Sum) }

  function Through(children: seq<Pair>): Shape { Shape(Some(Score(0, 2)), children, Sum) }

  function Zip(schemas: seq<SchemaId>, values: seq<ValueId>): seq<Pair>
    requires |schemas| == |values|
  {
    seq(|schemas|, i requires 0 <= i < |schemas| => Pair(schemas[i], values[i]))
  }

  function All(schema: SchemaId, values: seq<ValueId>): seq<Pair> {
    seq(|values|, i requires 0 <= i < |values| => Pair(schema, values[i]))
  }

  /** The present declared fields, unless a required one is missing. */
  function Present(fields: seq<Field>, named: map<string, ValueId>): Option<seq<Pair>> {
    if fields == [] then Some([])
    else if fields[0].name !in named && fields[0].required then None
    else
      var rest := Present(fields[1..], named);
      if rest.None? || fields[0].name !in named then rest
      else Some([Pair(fields[0].schema, named[fields[0].name])] + rest.value)
  }

  function Repeat(schema: SchemaId, n: nat): seq<SchemaId> { seq(n, _ => schema) }

  /** One schema per position of a tuple of `n` values, the variadic one repeated. */
  function Positions(items: seq<SchemaId>, variadic: Option<nat>, n: nat): (r: Option<seq<SchemaId>>)
    requires variadic.Some? ==> variadic.value < |items|
    ensures r.Some? ==> |r.value| == n
    ensures r.Some? ==> forall s :: s in r.value ==> s in items
  {
    match variadic
    case None => if |items| == n then Some(items) else None
    case Some(at) =>
      if n < |items| - 1 then None
      else Some(items[..at] + Repeat(items[at], n - |items| + 1) + items[at + 1..])
  }

  /** One node's own score and the pairs it goes on to. */
  function ShapeOf(g: Graph, pair: Pair): (shape: Shape)
    requires Closed(g) && InGraph(g, pair)
    ensures forall c :: c in shape.children ==> InGraph(g, c)
  {
    var value := g.values[pair.value];
    match g.schemas[pair.schema]
    case DefinitionRef(name) => Through([Pair(g.definitions[name], pair.value)])
    case Wrapped(inner) => Through([Pair(inner, pair.value)])
    case Nullable(inner) => if value.cls == "NoneType" then Exact() else Through([Pair(inner, pair.value)])
    case NoneOnly => if value.cls == "NoneType" then Exact() else Mismatch()
    case AnyValue => Shape(Some(Score(0, 0)), [], Sum)
    case Literal(expected) =>
      if value.content.Plain? && (value.cls, value.content.text) in expected then Exact() else Mismatch()
    case Native(cls) =>
      if cls in ["int", "float"] && "bool" in value.mro then Mismatch()
      else if cls in value.mro then Shape(Some(Score(0, if value.cls == cls then 2 else 1)), [], Sum)
      else if cls == "float" && "int" in value.mro then Shape(Some(Score(0, 0)), [], Sum)
      else Mismatch()
    case Instance(cls) => if cls in value.mro then Exact() else Mismatch()
    case Union(choices) =>
      Shape(Some(Score(0, 2)), seq(|choices|, i requires 0 <= i < |choices| => Pair(choices[i], pair.value)), Max)
    case TypedDict(fields) =>
      if !value.content.Entries? then Mismatch()
      else
        var present := Present(fields, value.content.named);
        if present.None? then Mismatch()
        else
          PresentResolves(g, fields, value.content.named);
          Shape(Some(Score(|present.value|, 2)), present.value, Sum)
    case Collection(cls, element) =>
      if cls in value.mro && value.content.Items? then Through(All(element, value.content.items)) else Mismatch()
    case DictOf(keys, values) =>
      if value.content.Entries? then Through(All(keys, value.content.keys) + All(values, value.content.values))
      else Mismatch()
    case TupleOf(items, variadic) =>
      if !("tuple" in value.mro && value.content.Items?) then Mismatch()
      else
        var positions := Positions(items, variadic, |value.content.items|);
        if positions.None? then Mismatch() else Through(Zip(positions.value, value.content.items))
    case Unsupported => Mismatch()
  }

  lemma {:induction false} PresentResolves(g: Graph, fields: seq<Field>, named: map<string, ValueId>)
    requires forall f :: f in fields ==> f.schema in g.schemas
    requires forall n :: n in named ==> named[n] in g.values
    ensures var present := Present(fields, named);
            present.Some? ==> forall c :: c in present.value ==> InGraph(g, c)
  {
    if fields != [] {
      PresentResolves(g, fields[1..], named);
    }
  }

  predicate Better(a: Score, b: Score) {
    a.fields > b.fields || (a.fields == b.fields && a.exact > b.exact)
  }

  /** The best of the scores there are. */
  function Best(scores: seq<Option<Score>>): Option<Score> {
    if scores == [] then None
    else
      var rest := Best(scores[..|scores| - 1]);
      var last := scores[|scores| - 1];
      if last.None? || (rest.Some? && !Better(last.value, rest.value)) then rest else last
  }

  function Total(base: Score, scores: seq<Option<Score>>): Option<Score> {
    if scores == [] then Some(base)
    else
      var rest := Total(base, scores[..|scores| - 1]);
      var last := scores[|scores| - 1];
      if rest.None? || last.None? then None
      else Some(Score(rest.value.fields + last.value.fields,
                      if last.value.exact < rest.value.exact then last.value.exact else rest.value.exact))
  }

  function Combine(base: Option<Score>, operation: Operation, children: seq<Option<Score>>): Option<Score> {
    if operation == Max then Best(children)
    else if base.None? then None
    else Total(base.value, children)
  }

  /** The best score is one of the children's, and none of them is better. */
  lemma {:induction false} BestIsBest(scores: seq<Option<Score>>)
    ensures Best(scores).None? <==> forall i :: 0 <= i < |scores| ==> scores[i].None?
    ensures Best(scores).Some? ==> exists i :: 0 <= i < |scores| && scores[i] == Best(scores)
    ensures Best(scores).Some? ==>
              forall i :: 0 <= i < |scores| && scores[i].Some? ==> !Better(scores[i].value, Best(scores).value)
  {
    if scores != [] {
      var rest := scores[..|scores| - 1];
      BestIsBest(rest);
      if i :| 0 <= i < |rest| && rest[i] == Best(rest) {
        assert scores[i] == Best(rest);
      }
      assert forall i :: 0 <= i < |rest| ==> scores[i] == rest[i];
    }
  }

  function FieldsIn(scores: seq<Option<Score>>): nat {
    if scores == [] then 0
    else (if scores[0].Some? then scores[0].value.fields else 0) + FieldsIn(scores[1..])
  }

  lemma {:induction false} FieldsInSnoc(scores: seq<Option<Score>>, last: Option<Score>)
    ensures FieldsIn(scores + [last]) == FieldsIn(scores) + (if last.Some? then last.value.fields else 0)
  {
    if scores != [] {
      assert (scores + [last])[1..] == scores[1..] + [last];
      FieldsInSnoc(scores[1..], last);
    }
  }

  /** A total needs every child's score; fields add up and the least exact match decides. */
  lemma {:induction false} TotalAddsUp(base: Score, scores: seq<Option<Score>>)
    ensures Total(base, scores).None? <==> exists i :: 0 <= i < |scores| && scores[i].None?
    ensures Total(base, scores).Some? ==>
              var total := Total(base, scores).value;
              && total.fields == base.fields + FieldsIn(scores)
              && total.exact <= base.exact
              && (forall i :: 0 <= i < |scores| && scores[i].Some? ==> total.exact <= scores[i].value.exact)
              && (total.exact == base.exact || exists i :: 0 <= i < |scores| && scores[i].Some? && total.exact == scores[i].value.exact)
  {
    if scores != [] {
      var rest, last := scores[..|scores| - 1], scores[|scores| - 1];
      TotalAddsUp(base, rest);
      FieldsInSnoc(rest, last);
      assert scores == rest + [last];
      if i :| 0 <= i < |rest| && rest[i].None? {
        assert scores[i].None?;
      }
      if Total(base, rest).Some? {
        var total := Total(base, rest).value;
        if i :| 0 <= i < |rest| && rest[i].Some? && total.exact == rest[i].value.exact {
          assert scores[i] == rest[i];
        }
      }
    }
  }

  /** A record lists each declared field it holds, in order, and is refused only for a missing required one. */
  lemma {:induction false} PresentIsDeclared(fields: seq<Field>, named: map<string, ValueId>)
    ensures Present(fields, named).None? <==> exists f :: f in fields && f.required && f.name !in named
    ensures Present(fields, named).Some? ==>
              var held := Filter(fields, (f: Field) => f.name in named);
              && |Present(fields, named).value| == |held|
              && forall i :: 0 <= i < |held| ==>
                   && held[i].name in named
                   && Present(fields, named).value[i] == Pair(held[i].schema, named[held[i].name])
  {
    if fields != [] {
      PresentIsDeclared(fields[1..], named);
      FilterConcat([fields[0]], fields[1..], (f: Field) => f.name in named);
      assert fields == [fields[0]] + fields[1..];
    }
  }

  /** Every pair of two graphs with its shape; both graphs may be cyclic. */
  type Net = map<Pair, Shape>

  ghost function NetOf(g: Graph): (net: Net)
    requires Closed(g)
    ensures forall p :: p in net <==> InGraph(g, p)
    ensures forall p :: p in net ==> net[p] == ShapeOf(g, p)
    ensures forall p, c :: p in net && c in net[p].children ==> c in net
  {
    map p | p in Pairs(g) :: ShapeOf(g, p)
  }
}
