/**
 * What a union member's score says, in terms of its schema and the value
 * (`_shape` and `score` in packages/core-python/src/truewire_core/_serialization.py).
 */
module UnionLaws {
  import opened Wrappers
  import opened Sequences
  import opened UnionShape
  import opened UnionScore

  /** A pair's score under the pairs its path has come through. */
  ghost function Rate(g: Graph, pair: Pair, seen: set<Pair>): Option<Score>
    requires Closed(g) && InGraph(g, pair)
  {
    Scored(NetOf(g), pair, seen)
  }

  ghost function Rates(g: Graph, pairs: seq<Pair>, seen: set<Pair>): (rates: seq<Option<Score>>)
    requires Closed(g) && forall p :: p in pairs ==> InGraph(g, p)
    ensures |rates| == |pairs|
  {
    ScoredAll(NetOf(g), pairs, seen)
  }

  lemma {:induction false} ScoredAllAt(net: Net, pairs: seq<Pair>, active: set<Pair>, i: nat)
    requires ClosedNet(net) && (forall p :: p in pairs ==> p in net) && i < |pairs|
    ensures ScoredAll(net, pairs, active)[i] == Scored(net, pairs[i], active)
  {
    if i > 0 { ScoredAllAt(net, pairs[1..], active, i - 1); }
  }

  lemma RatesAt(g: Graph, pairs: seq<Pair>, seen: set<Pair>, i: nat)
    requires Closed(g) && (forall p :: p in pairs ==> InGraph(g, p)) && i < |pairs|
    ensures Rates(g, pairs, seen)[i] == Rate(g, pairs[i], seen)
  {
    ScoredAllAt(NetOf(g), pairs, seen, i);
  }

  /** A score made of its own fields and its parts': none without every part, as exact as the least exact of them. */
  ghost predicate SumsUp(total: Option<Score>, own: nat, parts: seq<Option<Score>>) {
    && (total.None? <==> exists i :: 0 <= i < |parts| && parts[i].None?)
    && (total.Some? ==>
          && total.value.fields == own + FieldsIn(parts)
          && total.value.exact <= 2
          && (forall i :: 0 <= i < |parts| && parts[i].Some? ==> total.value.exact <= parts[i].value.exact)
          && (total.value.exact == 2 || exists i :: 0 <= i < |parts| && parts[i].Some? && total.value.exact == parts[i].value.exact))
  }

  lemma RateUnfolds(g: Graph, pair: Pair, seen: set<Pair>)
    requires Closed(g) && InGraph(g, pair) && pair !in seen
    ensures var shape := ShapeOf(g, pair);
            Rate(g, pair, seen) == Combine(shape.base, shape.operation, Rates(g, shape.children, seen + {pair}))
  {
    ScoredUnfolds(NetOf(g), pair, seen);
  }

  lemma TotalSumsUp(g: Graph, pair: Pair, seen: set<Pair>, own: nat)
    requires Closed(g) && InGraph(g, pair) && pair !in seen
    requires ShapeOf(g, pair).operation == Sum && ShapeOf(g, pair).base == Some(Score(own, 2))
    ensures SumsUp(Rate(g, pair, seen), own, Rates(g, ShapeOf(g, pair).children, seen + {pair}))
  {
    RateUnfolds(g, pair, seen);
    TotalAddsUp(Score(own, 2), Rates(g, ShapeOf(g, pair).children, seen + {pair}));
  }

  // ---- Leaves ----

  predicate IsInstance(v: Value, cls: string) { cls in v.mro }

  /**
   * A value scores against a native type by how near its class is: its own class, a subclass, or an int
   * where a float is declared, in that order; a bool is neither an int nor a float.
   */
  lemma NativeScore(g: Graph, pair: Pair, seen: set<Pair>, cls: string)
    requires Closed(g) && InGraph(g, pair) && pair !in seen && g.schemas[pair.schema] == Native(cls)
    ensures var v, rate := g.values[pair.value], Rate(g, pair, seen);
            && (rate.Some? ==> rate.value.fields == 0)
            && (rate.Some? <==>
                  && !((cls == "int" || cls == "float") && IsInstance(v, "bool"))
                  && (IsInstance(v, cls) || (cls == "float" && IsInstance(v, "int"))))
            && (rate.Some? ==>
                  && (rate.value.exact == 2 <==> IsInstance(v, cls) && v.cls == cls)
                  && (rate.value.exact == 1 <==> IsInstance(v, cls) && v.cls != cls)
                  && (rate.value.exact == 0 <==> !IsInstance(v, cls)))
  {
    RateUnfolds(g, pair, seen);
  }

  /** The other leaves match wholly or not at all; a value of any type matches least exactly. */
  lemma LeafScore(g: Graph, pair: Pair, seen: set<Pair>)
    requires Closed(g) && InGraph(g, pair) && pair !in seen
    ensures var v, rate := g.values[pair.value], Rate(g, pair, seen);
            match g.schemas[pair.schema]
            case NoneOnly => rate == if v.cls == "NoneType" then Some(Score(0, 2)) else None
            case AnyValue => rate == Some(Score(0, 0))
            case Literal(expected) =>
              && (rate.None? || rate == Some(Score(0, 2)))
              && (rate.Some? <==> v.content.Plain? && (v.cls, v.content.text) in expected)
            case Instance(cls) => rate == if IsInstance(v, cls) then Some(Score(0, 2)) else None
            case Unsupported => rate == None
            case _ => true
  {
    RateUnfolds(g, pair, seen);
  }

  // ---- Wrappers and unions ----

  lemma {:induction false} TotalIsCapped(base: Score, scores: seq<Option<Score>>)
    ensures Total(base, scores).Some? ==> Total(base, scores).value.exact <= base.exact
  {
    TotalAddsUp(base, scores);
  }

  lemma ShapeIsCapped(g: Graph, pair: Pair)
    requires Closed(g) && InGraph(g, pair)
    ensures ShapeOf(g, pair).base.Some? ==> ShapeOf(g, pair).base.value.exact <= 2
  {}

  lemma {:induction false} ScoreIsCapped(g: Graph, pair: Pair, seen: set<Pair>)
    requires Closed(g) && InGraph(g, pair)
    ensures Rate(g, pair, seen).Some? ==> Rate(g, pair, seen).value.exact <= 2
    decreases |NetOf(g).Keys - seen|
  {
    if pair !in seen {
      var shape, inner := ShapeOf(g, pair), seen + {pair};
      var rates := Rates(g, shape.children, inner);
      RateUnfolds(g, pair, seen);
      Descends(NetOf(g), pair, seen);
      ShapeIsCapped(g, pair);
      if shape.operation == Max {
        BestIsBest(rates);
        if Best(rates).Some? {
          var i :| 0 <= i < |rates| && rates[i] == Best(rates);
          RatesAt(g, shape.children, inner, i);
          ScoreIsCapped(g, shape.children[i], inner);
        }
      } else if shape.base.Some? {
        TotalIsCapped(shape.base.value, rates);
      }
    }
  }

  /** The schema a wrapper leaves a value to. */
  function InnerOf(g: Graph, pair: Pair): Option<SchemaId>
    requires Closed(g) && InGraph(g, pair)
  {
    match g.schemas[pair.schema]
    case DefinitionRef(name) => Some(g.definitions[name])
    case Wrapped(inner) => Some(inner)
    case Nullable(inner) => if g.values[pair.value].cls == "NoneType" then None else Some(inner)
    case _ => None
  }

  /** A wrapper, a reference or a nullable scores a value as what it wraps; a nullable takes None exactly. */
  lemma WrapperScore(g: Graph, pair: Pair, seen: set<Pair>)
    requires Closed(g) && InGraph(g, pair) && pair !in seen
    ensures InnerOf(g, pair).Some? ==>
              var inner := Pair(InnerOf(g, pair).value, pair.value);
              InGraph(g, inner) && Rate(g, pair, seen) == Rate(g, inner, seen + {pair})
    ensures g.schemas[pair.schema].Nullable? && InnerOf(g, pair).None? ==> Rate(g, pair, seen) == Some(Score(0, 2))
  {
    RateUnfolds(g, pair, seen);
    if InnerOf(g, pair).Some? {
      var inner := Pair(InnerOf(g, pair).value, pair.value);
      assert ReferencesResolve(g, g.schemas[pair.schema]);
      assert ShapeOf(g, pair) == Through([inner]);
      TotalSumsUp(g, pair, seen, 0);
      RatesAt(g, [inner], seen + {pair}, 0);
      ScoreIsCapped(g, inner, seen + {pair});
      var rates := Rates(g, [inner], seen + {pair});
      assert rates == [Rate(g, inner, seen + {pair})];
      assert FieldsIn(rates[1..]) == 0;
    }
  }

  /** A union scores as the best of its members. */
  lemma UnionIsBest(g: Graph, pair: Pair, seen: set<Pair>, choices: seq<SchemaId>)
    requires Closed(g) && InGraph(g, pair) && pair !in seen && g.schemas[pair.schema] == Union(choices)
    ensures forall i :: 0 <= i < |choices| ==> InGraph(g, Pair(choices[i], pair.value))
    ensures var rate, inner := Rate(g, pair, seen), seen + {pair};
            && (rate.None? <==> forall i :: 0 <= i < |choices| ==> Rate(g, Pair(choices[i], pair.value), inner).None?)
            && (rate.Some? ==>
                  && (exists i :: 0 <= i < |choices| && Rate(g, Pair(choices[i], pair.value), inner) == rate)
                  && forall i :: 0 <= i < |choices| && Rate(g, Pair(choices[i], pair.value), inner).Some? ==>
                       !Better(Rate(g, Pair(choices[i], pair.value), inner).value, rate.value))
  {
    assert ReferencesResolve(g, g.schemas[pair.schema]);
    RateUnfolds(g, pair, seen);
    var children := ShapeOf(g, pair).children;
    var rates := Rates(g, children, seen + {pair});
    BestIsBest(rates);
    forall i | 0 <= i < |choices| ensures rates[i] == Rate(g, Pair(choices[i], pair.value), seen + {pair}) {
      RatesAt(g, children, seen + {pair}, i);
    }
  }

  // ---- Records ----

  predicate Holds(fields: seq<Field>, named: map<string, ValueId>) {
    forall f :: f in fields && f.required ==> f.name in named
  }

  function Held(fields: seq<Field>, named: map<string, ValueId>): seq<Field> {
    Filter(fields, (f: Field) => f.name in named)
  }

  lemma HeldAreNamed(fields: seq<Field>, named: map<string, ValueId>)
    ensures forall i :: 0 <= i < |Held(fields, named)| ==> Held(fields, named)[i].name in named
  {
    forall i | 0 <= i < |Held(fields, named)| ensures Held(fields, named)[i].name in named {
      FilterKeeps(fields, (f: Field) => f.name in named, i);
    }
  }

  /** Each field held, with the value it is held by. */
  function HeldPairs(fields: seq<Field>, named: map<string, ValueId>): (pairs: seq<Pair>)
    ensures |pairs| == |Held(fields, named)|
  {
    HeldAreNamed(fields, named);
    var held := Held(fields, named);
    seq(|held|, i requires 0 <= i < |held| => Pair(held[i].schema, named[held[i].name]))
  }

  lemma PresentIsHeld(fields: seq<Field>, named: map<string, ValueId>)
    ensures Present(fields, named).Some? <==> Holds(fields, named)
    ensures Present(fields, named).Some? ==> Present(fields, named).value == HeldPairs(fields, named)
  {
    PresentIsDeclared(fields, named);
  }

  /** A record matches a dict that holds its required fields and matches each held field; each of those counts. */
  lemma RecordScore(g: Graph, pair: Pair, seen: set<Pair>, fields: seq<Field>)
    requires Closed(g) && InGraph(g, pair) && pair !in seen && g.schemas[pair.schema] == TypedDict(fields)
    ensures var content, rate := g.values[pair.value].content, Rate(g, pair, seen);
            if !content.Entries? || !Holds(fields, content.named) then rate.None?
            else
              var parts := HeldPairs(fields, content.named);
              && (forall p :: p in parts ==> InGraph(g, p))
              && SumsUp(rate, |Held(fields, content.named)|, Rates(g, parts, seen + {pair}))
  {
    var content := g.values[pair.value].content;
    RateUnfolds(g, pair, seen);
    if content.Entries? {
      PresentIsHeld(fields, content.named);
      if Holds(fields, content.named) { TotalSumsUp(g, pair, seen, |Held(fields, content.named)|); }
    }
  }

  // ---- Collections ----

  /** A list, set or frozenset of its class matches when every item matches the element schema. */
  lemma CollectionScore(g: Graph, pair: Pair, seen: set<Pair>, cls: string, element: SchemaId)
    requires Closed(g) && InGraph(g, pair) && pair !in seen && g.schemas[pair.schema] == Collection(cls, element)
    ensures var v, rate := g.values[pair.value], Rate(g, pair, seen);
            if !(IsInstance(v, cls) && v.content.Items?) then rate.None?
            else
              var parts := All(element, v.content.items);
              (forall p :: p in parts ==> InGraph(g, p)) && SumsUp(rate, 0, Rates(g, parts, seen + {pair}))
  {
    var v := g.values[pair.value];
    RateUnfolds(g, pair, seen);
    if IsInstance(v, cls) && v.content.Items? { TotalSumsUp(g, pair, seen, 0); }
  }

  /** A dict matches when every key matches the key schema and every value the value schema. */
  lemma DictScore(g: Graph, pair: Pair, seen: set<Pair>, keys: SchemaId, values: SchemaId)
    requires Closed(g) && InGraph(g, pair) && pair !in seen && g.schemas[pair.schema] == DictOf(keys, values)
    ensures var v, rate := g.values[pair.value], Rate(g, pair, seen);
            if !v.content.Entries? then rate.None?
            else
              var parts := All(keys, v.content.keys) + All(values, v.content.values);
              (forall p :: p in parts ==> InGraph(g, p)) && SumsUp(rate, 0, Rates(g, parts, seen + {pair}))
  {
    RateUnfolds(g, pair, seen);
    if g.values[pair.value].content.Entries? { TotalSumsUp(g, pair, seen, 0); }
  }

  /** The schema of a tuple's position: the variadic one stands for as many items as there are to spare. */
  function PositionSchema(items: seq<SchemaId>, variadic: Option<nat>, n: nat, i: nat): SchemaId
    requires i < n && (if variadic.None? then |items| == n else variadic.value < |items| && |items| - 1 <= n)
  {
    if variadic.None? || i < variadic.value then items[i]
    else if i < variadic.value + (n - |items| + 1) then items[variadic.value]
    else items[i + |items| - n]
  }

  predicate Fits(items: seq<SchemaId>, variadic: Option<nat>, n: nat) {
    if variadic.None? then |items| == n else variadic.value < |items| && |items| - 1 <= n
  }

  lemma PositionsAre(items: seq<SchemaId>, variadic: Option<nat>, n: nat)
    requires variadic.Some? ==> variadic.value < |items|
    ensures Positions(items, variadic, n).Some? <==> Fits(items, variadic, n)
    ensures Fits(items, variadic, n) ==>
              forall i :: 0 <= i < n ==> Positions(items, variadic, n).value[i] == PositionSchema(items, variadic, n, i)
  {}

  /** A tuple of a fitting length matches when every item matches the schema of its position. */
  lemma TupleScore(g: Graph, pair: Pair, seen: set<Pair>, items: seq<SchemaId>, variadic: Option<nat>)
    requires Closed(g) && InGraph(g, pair) && pair !in seen && g.schemas[pair.schema] == TupleOf(items, variadic)
    ensures var v, rate := g.values[pair.value], Rate(g, pair, seen);
            if !(IsInstance(v, "tuple") && v.content.Items? && Fits(items, variadic, |v.content.items|)) then rate.None?
            else
              var n := |v.content.items|;
              var parts := seq(n, i requires 0 <= i < n => Pair(PositionSchema(items, variadic, n, i), v.content.items[i]));
              (forall p :: p in parts ==> InGraph(g, p)) && SumsUp(rate, 0, Rates(g, parts, seen + {pair}))
  {
    var v := g.values[pair.value];
    assert ReferencesResolve(g, g.schemas[pair.schema]);
    RateUnfolds(g, pair, seen);
    if IsInstance(v, "tuple") && v.content.Items? {
      var n := |v.content.items|;
      PositionsAre(items, variadic, n);
      if Fits(items, variadic, n) {
        var parts := seq(n, i requires 0 <= i < n => Pair(PositionSchema(items, variadic, n, i), v.content.items[i]));
        assert ShapeOf(g, pair).children == parts;
        TotalSumsUp(g, pair, seen, 0);
      }
    }
  }
}
