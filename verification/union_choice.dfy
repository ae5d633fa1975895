/** Which member of a union is chosen, and what its fields count. */
module UnionChoice {
  import opened Wrappers
  import opened Sequences
  import opened UnionShape
  import opened UnionScore
  import opened UnionLaws

  // ---- Fields at any depth ----

  /** A declared field a record holds. */
  datatype Occurrence = Occurrence(record: Pair, field: Field)

  ghost predicate IsReal(g: Graph, o: Occurrence) {
    && InGraph(g, o.record)
    && g.schemas[o.record.schema].TypedDict? && o.field in g.schemas[o.record.schema].fields
    && g.values[o.record.value].content.Entries? && o.field.name in g.values[o.record.value].content.named
  }

  /** The fields the record itself holds, none when it is not a record. */
  function OwnFields(g: Graph, pair: Pair): seq<Occurrence>
    requires InGraph(g, pair)
  {
    if g.schemas[pair.schema].TypedDict? && g.values[pair.value].content.Entries? then
      var held := Held(g.schemas[pair.schema].fields, g.values[pair.value].content.named);
      seq(|held|, i requires 0 <= i < |held| => Occurrence(pair, held[i]))
    else []
  }

  /** A member of a union that scores best. */
  ghost function BestMember(rates: seq<Option<Score>>): (i: nat)
    requires Best(rates).Some?
    ensures i < |rates| && rates[i] == Best(rates)
  {
    BestIsBest(rates);
    var i: nat :| i < |rates| && rates[i] == Best(rates);
    i
  }

  /** The parts of a value that count: all of them, or under a union a best member. */
  ghost function Counting(g: Graph, pair: Pair, seen: set<Pair>): (parts: seq<Pair>)
    requires Closed(g) && InGraph(g, pair)
    ensures forall p :: p in parts ==> InGraph(g, p)
  {
    var children := ShapeOf(g, pair).children;
    if !g.schemas[pair.schema].Union? then children
    else
      var rates := Rates(g, children, seen + {pair});
      if Best(rates).None? then [] else [children[BestMember(rates)]]
  }

  /** Every declared field present that a value holds under a schema, at any depth. */
  ghost function Found(g: Graph, pair: Pair, seen: set<Pair>): seq<Occurrence>
    requires Closed(g) && InGraph(g, pair)
    decreases |NetOf(g).Keys - seen|, 0, 1
  {
    if pair in seen then []
    else
      Descends(NetOf(g), pair, seen);
      OwnFields(g, pair) + FoundIn(g, Counting(g, pair, seen), seen + {pair})
  }

  ghost function FoundIn(g: Graph, pairs: seq<Pair>, seen: set<Pair>): seq<Occurrence>
    requires Closed(g) && forall p :: p in pairs ==> InGraph(g, p)
    decreases |NetOf(g).Keys - seen|, |pairs|, 0
  {
    if pairs == [] then [] else Found(g, pairs[0], seen) + FoundIn(g, pairs[1..], seen)
  }

  lemma OperationIsMax(g: Graph, pair: Pair)
    requires Closed(g) && InGraph(g, pair)
    ensures ShapeOf(g, pair).operation == Max <==> g.schemas[pair.schema].Union?
  {}

  /** Only a record has fields of its own. */
  lemma OwnFieldsCount(g: Graph, pair: Pair)
    requires Closed(g) && InGraph(g, pair)
    ensures ShapeOf(g, pair).operation == Sum && ShapeOf(g, pair).base.Some? ==>
              ShapeOf(g, pair).base.value.fields == |OwnFields(g, pair)|
    ensures ShapeOf(g, pair).operation == Max ==> OwnFields(g, pair) == []
  {
    var schema, content := g.schemas[pair.schema], g.values[pair.value].content;
    if schema.TypedDict? && content.Entries? { PresentIsHeld(schema.fields, content.named); }
  }

  /** The fields a score counts are the declared fields the value holds, at every depth, each as often as it is met. */
  lemma {:induction false} FieldsAreFound(g: Graph, pair: Pair, seen: set<Pair>)
    requires Closed(g) && InGraph(g, pair) && Rate(g, pair, seen).Some?
    ensures Rate(g, pair, seen).value.fields == |Found(g, pair, seen)|
    decreases |NetOf(g).Keys - seen|, 0, 1
  {
    Descends(NetOf(g), pair, seen);
    OwnAndParts(g, pair, seen);
    FieldsAreFoundIn(g, Counting(g, pair, seen), seen + {pair});
  }

  /** A score's fields are the pair's own and those of the parts that count, which all score. */
  lemma OwnAndParts(g: Graph, pair: Pair, seen: set<Pair>)
    requires Closed(g) && InGraph(g, pair) && Rate(g, pair, seen).Some?
    ensures pair !in seen
    ensures var rates := Rates(g, Counting(g, pair, seen), seen + {pair});
            && (forall i :: 0 <= i < |rates| ==> rates[i].Some?)
            && Rate(g, pair, seen).value.fields == |OwnFields(g, pair)| + FieldsIn(rates)
  {
    var shape, inner := ShapeOf(g, pair), seen + {pair};
    var rates := Rates(g, shape.children, inner);
    RateUnfolds(g, pair, seen);
    OperationIsMax(g, pair);
    OwnFieldsCount(g, pair);
    if shape.operation == Max {
      var best := shape.children[BestMember(rates)];
      RatesAt(g, shape.children, inner, BestMember(rates));
      RatesAt(g, [best], inner, 0);
      var one := Rates(g, [best], inner);
      assert one == [Rate(g, best, inner)] && FieldsIn(one[1..]) == 0;
    } else {
      TotalAddsUp(shape.base.value, rates);
    }
  }

  lemma {:induction false} FieldsAreFoundIn(g: Graph, pairs: seq<Pair>, seen: set<Pair>)
    requires Closed(g) && forall p :: p in pairs ==> InGraph(g, p)
    requires forall i :: 0 <= i < |pairs| ==> Rates(g, pairs, seen)[i].Some?
    ensures FieldsIn(Rates(g, pairs, seen)) == |FoundIn(g, pairs, seen)|
    decreases |NetOf(g).Keys - seen|, |pairs|, 0
  {
    if pairs != [] {
      var rates := Rates(g, pairs, seen);
      RatesAt(g, pairs, seen, 0);
      FieldsAreFound(g, pairs[0], seen);
      assert rates[1..] == Rates(g, pairs[1..], seen);
      FieldsAreFoundIn(g, pairs[1..], seen);
    }
  }

  lemma OwnAreReal(g: Graph, pair: Pair, i: nat)
    requires InGraph(g, pair) && i < |OwnFields(g, pair)|
    ensures IsReal(g, OwnFields(g, pair)[i])
  {
    var fields, named := g.schemas[pair.schema].fields, g.values[pair.value].content.named;
    HeldAreNamed(fields, named);
    FilterMember(fields, (f: Field) => f.name in named, i);
  }

  /** Each of them is a declared field of a record that holds it. */
  lemma {:induction false} FoundAreReal(g: Graph, pair: Pair, seen: set<Pair>, o: Occurrence)
    requires Closed(g) && InGraph(g, pair) && o in Found(g, pair, seen)
    ensures IsReal(g, o)
    decreases |NetOf(g).Keys - seen|, 0, 1
  {
    Descends(NetOf(g), pair, seen);
    if o in OwnFields(g, pair) {
      var i :| 0 <= i < |OwnFields(g, pair)| && OwnFields(g, pair)[i] == o;
      OwnAreReal(g, pair, i);
    } else {
      FoundInAreReal(g, Counting(g, pair, seen), seen + {pair}, o);
    }
  }

  lemma {:induction false} FoundInAreReal(g: Graph, pairs: seq<Pair>, seen: set<Pair>, o: Occurrence)
    requires Closed(g) && (forall p :: p in pairs ==> InGraph(g, p)) && o in FoundIn(g, pairs, seen)
    ensures IsReal(g, o)
    decreases |NetOf(g).Keys - seen|, |pairs|, 0
  {
    if o in Found(g, pairs[0], seen) { FoundAreReal(g, pairs[0], seen, o); } else { FoundInAreReal(g, pairs[1..], seen, o); }
  }

  // ---- Paths ----

  /** Nothing leads out of these pairs. */
  ghost predicate Settled(g: Graph, reach: set<Pair>)
    requires Closed(g)
  {
    forall p, c :: p in reach && InGraph(g, p) && c in ShapeOf(g, p).children ==> c in reach
  }

  /** A score depends on the path only where the path can be met again. */
  lemma {:induction false} PathDoesNotMatter(g: Graph, pair: Pair, a: set<Pair>, b: set<Pair>, reach: set<Pair>)
    requires Closed(g) && InGraph(g, pair) && pair in reach && Settled(g, reach) && a * reach == b * reach
    ensures Rate(g, pair, a) == Rate(g, pair, b)
    decreases |NetOf(g).Keys - a|, 0, 1
  {
    SameFrom(pair, a, b, reach);
    if pair !in a {
      RateUnfolds(g, pair, a);
      RateUnfolds(g, pair, b);
      Descends(NetOf(g), pair, a);
      SameRates(g, ShapeOf(g, pair).children, a + {pair}, b + {pair}, reach);
    }
  }

  lemma SameFrom(pair: Pair, a: set<Pair>, b: set<Pair>, reach: set<Pair>)
    requires pair in reach && a * reach == b * reach
    ensures pair in a <==> pair in b
    ensures (a + {pair}) * reach == (b + {pair}) * reach
  {
    assert pair in a * reach <==> pair in b * reach;
    assert (a + {pair}) * reach == a * reach + {pair} && (b + {pair}) * reach == b * reach + {pair};
  }

  lemma {:induction false} SameRates(g: Graph, pairs: seq<Pair>, a: set<Pair>, b: set<Pair>, reach: set<Pair>)
    requires Closed(g) && (forall p :: p in pairs ==> InGraph(g, p) && p in reach) && Settled(g, reach) && a * reach == b * reach
    ensures Rates(g, pairs, a) == Rates(g, pairs, b)
    decreases |NetOf(g).Keys - a|, |pairs|, 0
  {
    if pairs != [] {
      PathDoesNotMatter(g, pairs[0], a, b, reach);
      SameRates(g, pairs[1..], a, b, reach);
    }
  }

  // ---- The richer record ----

  /** How many fields the parts at hand count together. */
  ghost function Together(g: Graph, pairs: seq<Pair>, seen: set<Pair>): nat
    requires Closed(g) && forall p :: p in pairs ==> InGraph(g, p)
  {
    FieldsIn(Rates(g, pairs, seen))
  }

  lemma {:induction false} FieldsInSplits(a: seq<Option<Score>>, b: seq<Option<Score>>)
    ensures FieldsIn(a + b) == FieldsIn(a) + FieldsIn(b)
  {
    if a == [] {
      assert a + b == b;
    } else {
      assert (a + b)[1..] == a[1..] + b;
      FieldsInSplits(a[1..], b);
    }
  }

  lemma {:induction false} RatesSplit(g: Graph, a: seq<Pair>, b: seq<Pair>, seen: set<Pair>)
    requires Closed(g) && (forall p :: p in a ==> InGraph(g, p)) && forall p :: p in b ==> InGraph(g, p)
    ensures (forall p :: p in a + b ==> InGraph(g, p)) && Rates(g, a + b, seen) == Rates(g, a, seen) + Rates(g, b, seen)
  {
    var all := a + b;
    forall i | 0 <= i < |all| ensures Rates(g, all, seen)[i] == (Rates(g, a, seen) + Rates(g, b, seen))[i] {
      RatesAt(g, all, seen, i);
      if i < |a| { RatesAt(g, a, seen, i); } else { RatesAt(g, b, seen, i - |a|); }
    }
  }

  /** Parts among others count no more than they do. */
  lemma {:induction false} FewerCountNoMore(g: Graph, a: seq<Pair>, b: seq<Pair>, seen: set<Pair>)
    requires Closed(g) && (forall p :: p in a ==> InGraph(g, p)) && forall p :: p in b ==> InGraph(g, p)
    requires multiset(a) <= multiset(b)
    ensures Together(g, a, seen) <= Together(g, b, seen)
    decreases |a|
  {
    if a != [] {
      assert a[0] in multiset(b);
      var i :| 0 <= i < |b| && b[i] == a[0];
      var left := b[..i] + b[i + 1..];
      RemoveCount(b, i);
      assert a == [a[0]] + a[1..];
      assert multiset(a) == multiset{a[0]} + multiset(a[1..]);
      assert multiset(a[1..]) <= multiset(left) by {
        forall x ensures multiset(a[1..])[x] <= multiset(left)[x] {
          assert multiset(a)[x] <= multiset(b)[x];
        }
      }
      FewerCountNoMore(g, a[1..], left, seen);
      RatesSplit(g, [a[0]], a[1..], seen);
      RatesSplit(g, b[..i], b[i..], seen);
      RatesSplit(g, [b[i]], b[i + 1..], seen);
      RatesSplit(g, b[..i], b[i + 1..], seen);
      assert b == b[..i] + b[i..] && b[i..] == [b[i]] + b[i + 1..];
      FieldsInSplits(Rates(g, [a[0]], seen), Rates(g, a[1..], seen));
      FieldsInSplits(Rates(g, b[..i], seen), Rates(g, b[i..], seen));
      FieldsInSplits(Rates(g, [b[i]], seen), Rates(g, b[i + 1..], seen));
      FieldsInSplits(Rates(g, b[..i], seen), Rates(g, b[i + 1..], seen));
    }
  }

  /** Fields under names of their own, as a dict of fields has them. */
  predicate OwnNames(fields: seq<Field>) {
    forall i, j :: 0 <= i < j < |fields| ==> fields[i].name != fields[j].name
  }

  /** A record declares every held field of another alike, and one more that the value holds. */
  ghost predicate Richer(fields: seq<Field>, than: seq<Field>, named: map<string, ValueId>) {
    && (forall f :: f in than && f.name in named ==> exists h :: h in fields && h.name == f.name && h.schema == f.schema)
    && exists h :: h in fields && h.name in named && forall f :: f in than ==> f.name != h.name
  }

  /** The names two sequences of held fields share come with the same parts, once each. */
  lemma {:induction false} HeldOnce(fields: seq<Field>, named: map<string, ValueId>, i: nat, j: nat)
    requires OwnNames(fields) && i < j < |Held(fields, named)|
    ensures Held(fields, named)[i].name != Held(fields, named)[j].name
    decreases |fields|
  {
    var init, last := fields[..|fields| - 1], fields[|fields| - 1];
    var before := Held(init, named);
    assert OwnNames(init);
    if j < |before| {
      HeldOnce(init, named, i, j);
    } else {
      FilterMember(init, (f: Field) => f.name in named, i);
      assert before[i] in init;
      var k :| 0 <= k < |init| && init[k] == before[i];
      assert fields[k].name != last.name;
    }
  }

  /** The held fields as a map from their names to their schemas. */
  lemma {:induction false} HeldMember(fields: seq<Field>, named: map<string, ValueId>, f: Field)
    requires f in fields && f.name in named
    ensures f in Held(fields, named)
  {
    FilterCount(fields, (f: Field) => f.name in named, f);
    assert f in multiset(Held(fields, named));
  }

  /** Fields the value holds, with what it holds them by. */
  function PairsOf(fields: seq<Field>, named: map<string, ValueId>): (pairs: seq<Pair>)
    requires forall f :: f in fields ==> f.name in named
    ensures |pairs| == |fields|
  {
    seq(|fields|, i requires 0 <= i < |fields| => Pair(fields[i].schema, named[fields[i].name]))
  }

  ghost predicate HasLike(fields: seq<Field>, f: Field) {
    exists h :: h in fields && h.name == f.name && h.schema == f.schema
  }

  lemma {:induction false} Matching(left: seq<Field>, right: seq<Field>, more: Field, named: map<string, ValueId>)
    requires (forall f :: f in left ==> f.name in named && HasLike(right, f)) && forall f :: f in right ==> f.name in named
    requires OwnNames(left) && more in right && forall f :: f in left ==> f.name != more.name
    ensures |left| < |right| && multiset(PairsOf(left, named)) <= multiset(PairsOf(right, named))
    decreases |left|
  {
    if left != [] {
      var f, rest := left[0], left[1..];
      assert f in left && HasLike(right, f);
      var k :| k in right && k.name == f.name && k.schema == f.schema;
      var i :| 0 <= i < |right| && right[i] == k;
      var others := right[..i] + right[i + 1..];
      forall g | g in rest ensures g.name in named && HasLike(others, g) && g.name != more.name {
        StillLike(left, right, i, g);
      }
      assert more in others;
      Matching(rest, others, more, named);
      PairsWithout(right, i, named);
      assert left == [f] + rest && PairsOf(left, named) == [Pair(f.schema, named[f.name])] + PairsOf(rest, named);
    }
  }

  lemma StillLike(left: seq<Field>, right: seq<Field>, i: nat, g: Field)
    requires left != [] && OwnNames(left) && g in left[1..] && i < |right| && right[i].name == left[0].name
    requires forall f :: f in left ==> HasLike(right, f)
    ensures g in left && HasLike(right[..i] + right[i + 1..], g)
  {
    var j :| 0 <= j < |left[1..]| && left[1..][j] == g;
    assert left[j + 1] == g && g.name != left[0].name;
    assert HasLike(right, g);
    var h :| h in right && h.name == g.name && h.schema == g.schema;
    assert h != right[i] && h in right[..i] + right[i + 1..];
  }

  lemma PairsWithout(fields: seq<Field>, i: nat, named: map<string, ValueId>)
    requires i < |fields| && forall f :: f in fields ==> f.name in named
    ensures multiset(PairsOf(fields, named)) ==
            multiset(PairsOf(fields[..i] + fields[i + 1..], named)) + multiset{Pair(fields[i].schema, named[fields[i].name])}
  {
    var pairs := PairsOf(fields, named);
    RemoveCount(pairs, i);
    assert PairsOf(fields[..i] + fields[i + 1..], named) == pairs[..i] + pairs[i + 1..];
  }

  /** A richer record holds more fields, and the other's parts are among its own. */
  lemma PoorerAmongRicher(fields: seq<Field>, than: seq<Field>, named: map<string, ValueId>)
    requires OwnNames(than) && Richer(fields, than, named)
    ensures |Held(than, named)| < |Held(fields, named)|
    ensures multiset(HeldPairs(than, named)) <= multiset(HeldPairs(fields, named))
  {
    var left, right := Held(than, named), Held(fields, named);
    var more :| more in fields && more.name in named && forall f :: f in than ==> f.name != more.name;
    HeldAreNamed(than, named);
    HeldAreNamed(fields, named);
    HeldMember(fields, named, more);
    forall f | f in left ensures HasLike(right, f) && f.name != more.name {
      var i :| 0 <= i < |left| && left[i] == f;
      FilterMember(than, (f: Field) => f.name in named, i);
      var h :| h in fields && h.name == f.name && h.schema == f.schema;
      HeldMember(fields, named, h);
    }
    forall i, j | 0 <= i < j < |left| ensures left[i].name != left[j].name {
      HeldOnce(than, named, i, j);
    }
    Matching(left, right, more, named);
    assert HeldPairs(than, named) == PairsOf(left, named) && HeldPairs(fields, named) == PairsOf(right, named);
  }

  /** A record's own children never lead back to either record. */
  ghost predicate NeverBack(g: Graph, children: seq<Pair>, a: Pair, b: Pair, reach: set<Pair>)
    requires Closed(g)
  {
    (forall c :: c in children ==> c in reach) && a !in reach && b !in reach && Settled(g, reach)
  }

  /**
   * Of two records that a value matches, the one that declares all the fields it holds of the other's, and
   * one more, scores better, unless their own fields lead back to them.
   */
  lemma RicherRecordIsBetter(g: Graph, rich: SchemaId, poor: SchemaId, value: ValueId, reach: set<Pair>)
    requires Closed(g) && InGraph(g, Pair(rich, value)) && InGraph(g, Pair(poor, value))
    requires g.schemas[rich].TypedDict? && g.schemas[poor].TypedDict? && g.values[value].content.Entries?
    requires OwnNames(g.schemas[poor].fields)
    requires Richer(g.schemas[rich].fields, g.schemas[poor].fields, g.values[value].content.named)
    requires NeverBack(g, HeldPairs(g.schemas[rich].fields, g.values[value].content.named), Pair(rich, value), Pair(poor, value), reach)
    requires Rate(g, Pair(rich, value), {}).Some? && Rate(g, Pair(poor, value), {}).Some?
    ensures Better(Rate(g, Pair(rich, value), {}).value, Rate(g, Pair(poor, value), {}).value)
  {
    var a, b, named := Pair(rich, value), Pair(poor, value), g.values[value].content.named;
    var more, fewer := HeldPairs(g.schemas[rich].fields, named), HeldPairs(g.schemas[poor].fields, named);
    RecordScore(g, a, {}, g.schemas[rich].fields);
    RecordScore(g, b, {}, g.schemas[poor].fields);
    PoorerAmongRicher(g.schemas[rich].fields, g.schemas[poor].fields, named);
    FewerCountNoMore(g, fewer, more, {a});
    forall p | p in fewer ensures p in reach {
      assert p in multiset(fewer) && p in multiset(more);
    }
    SameRates(g, fewer, {} + {b}, {a}, reach);
    assert {} + {a} == {a};
  }

  /** So a poorer record is never the member chosen where a richer one is among them. */
  lemma PoorerIsNotChosen(g: Graph, choices: seq<SchemaId>, value: ValueId, i: nat, j: nat, best: nat, top: Score, reach: set<Pair>)
    requires Closed(g) && value in g.values && (forall k :: 0 <= k < |choices| ==> choices[k] in g.schemas)
    requires i < |choices| && j < |choices|
    requires g.schemas[choices[i]].TypedDict? && g.schemas[choices[j]].TypedDict? && g.values[value].content.Entries?
    requires OwnNames(g.schemas[choices[j]].fields)
    requires Richer(g.schemas[choices[i]].fields, g.schemas[choices[j]].fields, g.values[value].content.named)
    requires NeverBack(g, HeldPairs(g.schemas[choices[i]].fields, g.values[value].content.named),
                       Pair(choices[i], value), Pair(choices[j], value), reach)
    requires MemberScores(g, choices, value)[i].Some? && Leads(MemberScores(g, choices, value), best, top)
    ensures best != j
  {
    if best == j {
      RicherRecordIsBetter(g, choices[i], choices[j], value, reach);
    }
  }

  /** An exact class is chosen before a subclass, and that before an int for a float. */
  lemma NearerNativeIsBetter(g: Graph, near: SchemaId, far: SchemaId, value: ValueId)
    requires Closed(g) && InGraph(g, Pair(near, value)) && InGraph(g, Pair(far, value))
    requires g.schemas[near].Native? && g.schemas[far].Native?
    requires Rate(g, Pair(near, value), {}).Some? && Rate(g, Pair(far, value), {}).Some?
    ensures var v, cls, other := g.values[value], g.schemas[near].cls, g.schemas[far].cls;
            Better(Rate(g, Pair(near, value), {}).value, Rate(g, Pair(far, value), {}).value) <==>
            || (IsInstance(v, cls) && !IsInstance(v, other))
            || (IsInstance(v, cls) && v.cls == cls && v.cls != other)
  {
    NativeScore(g, Pair(near, value), {}, g.schemas[near].cls);
    NativeScore(g, Pair(far, value), {}, g.schemas[far].cls);
  }

  // ---- Values off the wire ----

  /** What a value holds. */
  ghost predicate IsPart(v: Value, part: ValueId) {
    match v.content
    case Plain(_) => false
    case Items(items) => part in items
    case Entries(keys, values, named) => part in keys || part in values || exists n :: n in named && named[n] == part
  }

  /** Values that hold only lower ones, so none that holds itself: what parsing a text gives. */
  ghost predicate Stacked(g: Graph, height: map<ValueId, nat>) {
    && (forall v :: v in g.values ==> v in height)
    && (forall v, part :: v in g.values && part in g.values && IsPart(g.values[v], part) ==> height[part] < height[v])
  }

  /** A pair goes on to pairs of the same value or of one it holds. */
  lemma {:induction false} ChildIsPart(g: Graph, pair: Pair, c: Pair)
    requires Closed(g) && InGraph(g, pair) && c in ShapeOf(g, pair).children
    ensures c.value == pair.value || IsPart(g.values[pair.value], c.value)
  {
    var v := g.values[pair.value];
    match g.schemas[pair.schema]
    case TypedDict(fields) => PresentIsPart(fields, v.content.named, c);
    case DictOf(keys, values) =>
      assert c in All(keys, v.content.keys) || c in All(values, v.content.values);
    case _ =>
  }

  lemma {:induction false} PresentIsPart(fields: seq<Field>, named: map<string, ValueId>, c: Pair)
    requires Present(fields, named).Some? && c in Present(fields, named).value
    ensures exists n :: n in named && named[n] == c.value
    decreases |fields|
  {
    if fields[0].name !in named || c != Pair(fields[0].schema, named[fields[0].name]) {
      PresentIsPart(fields[1..], named, c);
    }
  }

  /** The pairs of values lower than a height. */
  ghost function Below(g: Graph, height: map<ValueId, nat>, h: nat): set<Pair>
    requires Stacked(g, height)
  {
    set p | p in Pairs(g) && height[p.value] < h
  }

  lemma {:induction false} BelowIsSettled(g: Graph, height: map<ValueId, nat>, h: nat)
    requires Closed(g) && Stacked(g, height)
    ensures Settled(g, Below(g, height, h))
  {
    forall p, c | p in Below(g, height, h) && InGraph(g, p) && c in ShapeOf(g, p).children ensures c in Below(g, height, h) {
      ChildIsPart(g, p, c);
    }
  }

  lemma {:induction false} HeldIsPart(fields: seq<Field>, named: map<string, ValueId>, c: Pair)
    requires c in HeldPairs(fields, named)
    ensures exists n :: n in named && named[n] == c.value
  {
    HeldAreNamed(fields, named);
    var i :| 0 <= i < |HeldPairs(fields, named)| && HeldPairs(fields, named)[i] == c;
    assert Held(fields, named)[i].name in named;
  }

  /** For such a value a record's fields never lead back to it. */
  lemma StackedNeverBack(g: Graph, height: map<ValueId, nat>, fields: seq<Field>, value: ValueId, a: SchemaId, b: SchemaId)
    requires Closed(g) && Stacked(g, height) && value in g.values && g.values[value].content.Entries?
    requires forall c :: c in HeldPairs(fields, g.values[value].content.named) ==> InGraph(g, c)
    ensures NeverBack(g, HeldPairs(fields, g.values[value].content.named), Pair(a, value), Pair(b, value),
                      Below(g, height, height[value]))
  {
    BelowIsSettled(g, height, height[value]);
    forall c | c in HeldPairs(fields, g.values[value].content.named) ensures c in Below(g, height, height[value]) {
      HeldIsPart(fields, g.values[value].content.named, c);
    }
  }

  /** So of a value that holds no cycle a poorer record is never the member chosen where a richer one is among them. */
  lemma PoorerIsPassedOver(g: Graph, height: map<ValueId, nat>, choices: seq<SchemaId>, value: ValueId, i: nat, j: nat, best: nat, top: Score)
    requires Closed(g) && Stacked(g, height) && value in g.values && (forall k :: 0 <= k < |choices| ==> choices[k] in g.schemas)
    requires i < |choices| && j < |choices|
    requires g.schemas[choices[i]].TypedDict? && g.schemas[choices[j]].TypedDict? && g.values[value].content.Entries?
    requires OwnNames(g.schemas[choices[j]].fields)
    requires Richer(g.schemas[choices[i]].fields, g.schemas[choices[j]].fields, g.values[value].content.named)
    requires MemberScores(g, choices, value)[i].Some? && Leads(MemberScores(g, choices, value), best, top)
    ensures best != j
  {
    var fields := g.schemas[choices[i]].fields;
    RecordScore(g, Pair(choices[i], value), {}, fields);
    StackedNeverBack(g, height, fields, value, choices[i], choices[j]);
    PoorerIsNotChosen(g, choices, value, i, j, best, top, Below(g, height, height[value]));
  }
}
