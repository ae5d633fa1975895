/**
 * Choosing the serializer of a union (packages/core-python/src/truewire_core/_serialization.py):
 * an explicit work stack scores every member against a value, over schema graphs and value graphs
 * that may both be cyclic.
 */
module UnionScore {
  import opened Wrappers
  import opened UnionShape

  /** Every pair a shape goes on to has a shape. */
  ghost predicate ClosedNet(net: Net) {
    forall p, c :: p in net && c in net[p].children ==> c in net
  }

  lemma Descends(net: Net, pair: Pair, active: set<Pair>)
    requires pair in net && pair !in active
    ensures |net.Keys - (active + {pair})| < |net.Keys - active|
  {
    assert net.Keys - active == (net.Keys - (active + {pair})) + {pair};
  }

  /** The score by recursion: a pair met again on the path that leads to it scores nothing. */
  ghost function Scored(net: Net, pair: Pair, active: set<Pair>): Option<Score>
    requires ClosedNet(net) && pair in net
    decreases |net.Keys - active|, 0, 1
  {
    if pair in active then None
    else
      var shape := net[pair];
      Descends(net, pair, active);
      Combine(shape.base, shape.operation, ScoredAll(net, shape.children, active + {pair}))
  }

  ghost function ScoredAll(net: Net, pairs: seq<Pair>, active: set<Pair>): (scores: seq<Option<Score>>)
    requires ClosedNet(net) && forall p :: p in pairs ==> p in net
    ensures |scores| == |pairs|
    decreases |net.Keys - active|, |pairs|, 0
  {
    if pairs == [] then []
    else [Scored(net, pairs[0], active)] + ScoredAll(net, pairs[1..], active)
  }

  /** How many steps the stack machine spends on a pair. */
  ghost function Steps(net: Net, pair: Pair, active: set<Pair>): (n: nat)
    requires ClosedNet(net) && pair in net
    ensures 1 <= n
    decreases |net.Keys - active|, 0, 1
  {
    if pair in active then 1
    else
      Descends(net, pair, active);
      2 + StepsAll(net, net[pair].children, active + {pair})
  }

  ghost function StepsAll(net: Net, pairs: seq<Pair>, active: set<Pair>): nat
    requires ClosedNet(net) && forall p :: p in pairs ==> p in net
    decreases |net.Keys - active|, |pairs|, 0
  {
    if pairs == [] then 0 else Steps(net, pairs[0], active) + StepsAll(net, pairs[1..], active)
  }

  datatype Task =
    | Visit(pair: Pair)
    | Finish(pair: Pair, base: Option<Score>, operation: Operation, count: nat)

  /** The visits of `pairs` as they are stacked, the first on top. */
  function Visits(pairs: seq<Pair>): seq<Task> {
    if pairs == [] then [] else Visits(pairs[1..]) + [Visit(pairs[0])]
  }

  function Pop(scores: seq<Option<Score>>, task: Task): seq<Option<Score>>
    requires task.Finish? && task.count <= |scores|
  {
    var cut := |scores| - task.count;
    scores[..cut] + [Combine(task.base, task.operation, scores[cut..])]
  }

  /** Every task can run: finishes find their pair active and their children's scores stacked. */
  ghost predicate Ready(net: Net, work: seq<Task>, stacked: nat, active: set<Pair>)
    requires ClosedNet(net)
  {
    if work == [] then true
    else
      var top, below := work[|work| - 1], work[..|work| - 1];
      match top
      case Visit(p) => p in net && Ready(net, below, stacked + 1, active)
      case Finish(p, _, _, count) =>
        p in active && count <= stacked && Ready(net, below, stacked - count + 1, active - {p})
  }

  datatype Final = Final(scores: seq<Option<Score>>, active: set<Pair>)

  /** Where a stack ends up, each visit replaced by the recursive score. */
  ghost function Meaning(net: Net, work: seq<Task>, scores: seq<Option<Score>>, active: set<Pair>): Final
    requires ClosedNet(net) && Ready(net, work, |scores|, active)
  {
    if work == [] then Final(scores, active)
    else
      var top, below := work[|work| - 1], work[..|work| - 1];
      match top
      case Visit(p) => Meaning(net, below, scores + [Scored(net, p, active)], active)
      case Finish(p, _, _, _) => Meaning(net, below, Pop(scores, top), active - {p})
  }

  ghost function Left(net: Net, work: seq<Task>, stacked: nat, active: set<Pair>): nat
    requires ClosedNet(net) && Ready(net, work, stacked, active)
  {
    if work == [] then 0
    else
      var top, below := work[|work| - 1], work[..|work| - 1];
      match top
      case Visit(p) => Steps(net, p, active) + Left(net, below, stacked + 1, active)
      case Finish(p, _, _, count) => 1 + Left(net, below, stacked - count + 1, active - {p})
  }

  lemma TopVisit(net: Net, work: seq<Task>, pair: Pair, scores: seq<Option<Score>>, active: set<Pair>)
    requires ClosedNet(net) && pair in net
    requires Ready(net, work, |scores| + 1, active)
    ensures Ready(net, work + [Visit(pair)], |scores|, active)
    ensures Meaning(net, work + [Visit(pair)], scores, active) == Meaning(net, work, scores + [Scored(net, pair, active)], active)
    ensures Left(net, work + [Visit(pair)], |scores|, active) == Steps(net, pair, active) + Left(net, work, |scores| + 1, active)
  {
    assert (work + [Visit(pair)])[..|work|] == work;
  }

  /** `stack` runs like `work` does once `pairs` have been scored on top of `scores`. */
  ghost predicate RunsLike(net: Net, stack: seq<Task>, work: seq<Task>, pairs: seq<Pair>, scores: seq<Option<Score>>, active: set<Pair>)
    requires ClosedNet(net) && forall p :: p in pairs ==> p in net
    requires Ready(net, work, |scores| + |pairs|, active)
  {
    && Ready(net, stack, |scores|, active)
    && Meaning(net, stack, scores, active) == Meaning(net, work, scores + ScoredAll(net, pairs, active), active)
    && Left(net, stack, |scores|, active) == StepsAll(net, pairs, active) + Left(net, work, |scores| + |pairs|, active)
  }

  lemma RunsLikeOneMore(net: Net, below: seq<Task>, work: seq<Task>, pair: Pair, rest: seq<Pair>, scores: seq<Option<Score>>, active: set<Pair>)
    requires ClosedNet(net) && pair in net && forall p :: p in rest ==> p in net
    requires Ready(net, work, |scores| + 1 + |rest|, active)
    requires RunsLike(net, below, work, rest, scores + [Scored(net, pair, active)], active)
    ensures RunsLike(net, below + [Visit(pair)], work, [pair] + rest, scores, active)
  {
    var first, others := Scored(net, pair, active), ScoredAll(net, rest, active);
    TopVisit(net, below, pair, scores, active);
    assert ([pair] + rest)[1..] == rest;
    assert scores + [first] + others == scores + ([first] + others);
  }

  /** Stacked visits stand for the recursive scores of their pairs, in order. */
  lemma {:induction false} VisitsMean(net: Net, work: seq<Task>, pairs: seq<Pair>, scores: seq<Option<Score>>, active: set<Pair>)
    requires ClosedNet(net) && forall p :: p in pairs ==> p in net
    requires Ready(net, work, |scores| + |pairs|, active)
    ensures RunsLike(net, work + Visits(pairs), work, pairs, scores, active)
    decreases |pairs|
  {
    if pairs == [] {
      assert work + Visits(pairs) == work;
      assert scores + ScoredAll(net, pairs, active) == scores;
    } else {
      var below := work + Visits(pairs[1..]);
      VisitsMean(net, work, pairs[1..], scores + [Scored(net, pairs[0], active)], active);
      RunsLikeOneMore(net, below, work, pairs[0], pairs[1..], scores, active);
      assert work + Visits(pairs) == below + [Visit(pairs[0])];
      assert [pairs[0]] + pairs[1..] == pairs;
    }
  }

  lemma TopFinish(net: Net, below: seq<Task>, finish: Task, scores: seq<Option<Score>>, children: seq<Option<Score>>, active: set<Pair>)
    requires ClosedNet(net) && finish.Finish? && finish.pair !in active && finish.count == |children|
    requires Ready(net, below, |scores| + 1, active)
    ensures var inner := active + {finish.pair};
            var result := scores + [Combine(finish.base, finish.operation, children)];
            && Ready(net, below + [finish], |scores + children|, inner)
            && Meaning(net, below + [finish], scores + children, inner) == Meaning(net, below, result, active)
            && Left(net, below + [finish], |scores + children|, inner) == 1 + Left(net, below, |result|, active)
  {
    assert active + {finish.pair} - {finish.pair} == active;
    assert (below + [finish])[..|below|] == below;
    assert (scores + children)[..|scores|] == scores && (scores + children)[|scores|..] == children;
  }

  lemma ScoredUnfolds(net: Net, pair: Pair, active: set<Pair>)
    requires ClosedNet(net) && pair in net && pair !in active
    ensures var shape, inner := net[pair], active + {pair};
            && Scored(net, pair, active) == Combine(shape.base, shape.operation, ScoredAll(net, shape.children, inner))
            && Steps(net, pair, active) == 2 + StepsAll(net, shape.children, inner)
  {}

  /** A visit's finish under its children's visits. */
  function Expanded(net: Net, below: seq<Task>, pair: Pair): seq<Task>
    requires pair in net
  {
    below + [Finish(pair, net[pair].base, net[pair].operation, |net[pair].children|)] + Visits(net[pair].children)
  }

  lemma ExpandedRuns(net: Net, below: seq<Task>, pair: Pair, finish: Task, stack: seq<Task>,
                     children: seq<Option<Score>>, scores: seq<Option<Score>>, active: set<Pair>)
    requires ClosedNet(net) && Ready(net, below, |scores| + 1, active)
    requires pair in net && pair !in active
    requires children == ScoredAll(net, net[pair].children, active + {pair})
    requires finish == Finish(pair, net[pair].base, net[pair].operation, |children|)
    requires Ready(net, below + [finish], |scores| + |children|, active + {pair})
    requires Meaning(net, below + [finish], scores + children, active + {pair}) ==
             Meaning(net, below, scores + [Combine(finish.base, finish.operation, children)], active)
    requires Left(net, below + [finish], |scores| + |children|, active + {pair}) == 1 + Left(net, below, |scores| + 1, active)
    requires RunsLike(net, stack, below + [finish], net[pair].children, scores, active + {pair})
    ensures Ready(net, below + [Visit(pair)], |scores|, active)
    ensures Meaning(net, stack, scores, active + {pair}) == Meaning(net, below + [Visit(pair)], scores, active)
    ensures Left(net, stack, |scores|, active + {pair}) < Left(net, below + [Visit(pair)], |scores|, active)
  {
    ScoredUnfolds(net, pair, active);
    TopVisit(net, below, pair, scores, active);
  }

  /** Expanding a visit into its children's visits and its finish changes nothing, and is progress. */
  lemma VisitExpands(net: Net, below: seq<Task>, pair: Pair, scores: seq<Option<Score>>, active: set<Pair>)
    requires ClosedNet(net) && Ready(net, below, |scores| + 1, active)
    requires pair in net && pair !in active
    ensures Ready(net, below + [Visit(pair)], |scores|, active)
    ensures Ready(net, Expanded(net, below, pair), |scores|, active + {pair})
    ensures Meaning(net, Expanded(net, below, pair), scores, active + {pair}) == Meaning(net, below + [Visit(pair)], scores, active)
    ensures Left(net, Expanded(net, below, pair), |scores|, active + {pair}) < Left(net, below + [Visit(pair)], |scores|, active)
  {
    var shape, inner := net[pair], active + {pair};
    var finish := Finish(pair, shape.base, shape.operation, |shape.children|);
    var children := ScoredAll(net, shape.children, inner);
    TopFinish(net, below, finish, scores, children, active);
    VisitsMean(net, below + [finish], shape.children, scores, inner);
    ExpandedRuns(net, below, pair, finish, Expanded(net, below, pair), children, scores, active);
  }

  /** What taking the top task off a stack that can run leaves to do. */
  lemma Unstack(net: Net, below: seq<Task>, task: Task, scores: seq<Option<Score>>, active: set<Pair>)
    requires ClosedNet(net) && Ready(net, below + [task], |scores|, active)
    ensures task.Visit? ==> task.pair in net && Ready(net, below, |scores| + 1, active)
    ensures task.Finish? ==>
              && task.pair in active && task.count <= |scores|
              && Ready(net, below, |Pop(scores, task)|, active - {task.pair})
              && Meaning(net, below + [task], scores, active) == Meaning(net, below, Pop(scores, task), active - {task.pair})
              && Left(net, below, |Pop(scores, task)|, active - {task.pair}) < Left(net, below + [task], |scores|, active)
    ensures task.Visit? && task.pair in active ==>
              && Meaning(net, below + [task], scores, active) == Meaning(net, below, scores + [None], active)
              && Left(net, below, |scores| + 1, active) < Left(net, below + [task], |scores|, active)
  {
    assert (below + [task])[..|below|] == below;
  }

  /** The explicit-stack score: the recursive one, whatever the graphs' cycles. */
  method ScoreOf(g: Graph, pair: Pair, seen: set<Pair>) returns (score: Option<Score>)
    requires Closed(g) && InGraph(g, pair)
    ensures score == Scored(NetOf(g), pair, seen)
  {
    ghost var net := NetOf(g);
    var active := seen;
    var work := [Visit(pair)];
    var scores: seq<Option<Score>> := [];
    TopVisit(net, [], pair, scores, active);
    assert work == [] + [Visit(pair)];
    while work != []
      invariant Ready(net, work, |scores|, active)
      invariant Meaning(net, work, scores, active) == Final([Scored(net, pair, seen)], seen)
      decreases Left(net, work, |scores|, active)
    {
      var task, below := work[|work| - 1], work[..|work| - 1];
      assert work == below + [task];
      Unstack(net, below, task, scores, active);
      match task
      case Finish(p, _, _, _) =>
        scores := Pop(scores, task);
        active := active - {p};
        work := below;
      case Visit(p) =>
        if p in active {
          scores := scores + [None];
          work := below;
        } else {
          VisitExpands(net, below, p, scores, active);
          var shape := ShapeOf(g, p);
          active := active + {p};
          work := below + [Finish(p, shape.base, shape.operation, |shape.children|)] + Visits(shape.children);
          assert work == Expanded(net, below, p);
        }
    }
    assert active == seen && |scores| == 1;
    return scores[0];
  }

  /** `top` at index `best` beats every earlier score and no score beats it. */
  ghost predicate Leads(scores: seq<Option<Score>>, best: nat, top: Score) {
    && best < |scores| && scores[best] == Some(top)
    && (forall i :: 0 <= i < |scores| && scores[i].Some? ==> !Better(scores[i].value, top))
    && (forall i :: 0 <= i < best && scores[i].Some? ==> Better(top, scores[i].value))
  }

  ghost function MemberScores(g: Graph, choices: seq<SchemaId>, value: ValueId): (scores: seq<Option<Score>>)
    requires Closed(g) && value in g.values
    requires forall i :: 0 <= i < |choices| ==> choices[i] in g.schemas
    ensures |scores| == |choices|
  {
    seq(|choices|, i requires 0 <= i < |choices| => Scored(NetOf(g), Pair(choices[i], value), {}))
  }

  /** What the running best says of the first `n` scores. */
  ghost predicate Running(scores: seq<Option<Score>>, n: nat, best: Option<nat>, fields: int, exact: int)
    requires n <= |scores|
  {
    if best.None? then fields == -1 && exact == -1 && forall i :: 0 <= i < n ==> scores[i].None?
    else
      && best.value < n && fields >= 0 && exact >= 0
      && scores[best.value] == Some(Score(fields, exact))
      && (forall i :: 0 <= i < n && scores[i].Some? ==> !Better(scores[i].value, Score(fields, exact)))
      && (forall i :: 0 <= i < best.value && scores[i].Some? ==> Better(Score(fields, exact), scores[i].value))
  }

  predicate Beats(score: Option<Score>, fields: int, exact: int) {
    score.Some? && (score.value.fields > fields || (score.value.fields == fields && score.value.exact > exact))
  }

  lemma RunningOneMore(scores: seq<Option<Score>>, n: nat, best: Option<nat>, fields: int, exact: int)
    requires n < |scores| && Running(scores, n, best, fields, exact)
    ensures if Beats(scores[n], fields, exact)
            then Running(scores, n + 1, Some(n), scores[n].value.fields, scores[n].value.exact)
            else Running(scores, n + 1, best, fields, exact)
  {}

  /** The earliest member whose score is the best there is; nothing when no member scores. */
  method Choose(g: Graph, choices: seq<SchemaId>, value: ValueId) returns (best: Option<nat>)
    requires Closed(g) && value in g.values
    requires forall i :: 0 <= i < |choices| ==> choices[i] in g.schemas
    ensures var scores := MemberScores(g, choices, value);
            if best.Some? then exists top :: Leads(scores, best.value, top)
            else forall i :: 0 <= i < |scores| ==> scores[i].None?
  {
    ghost var scores := MemberScores(g, choices, value);
    best := None;
    var bestFields: int, bestExact: int := -1, -1;
    for index := 0 to |choices|
      invariant Running(scores, index, best, bestFields, bestExact)
    {
      var score := ScoreOf(g, Pair(choices[index], value), {});
      RunningOneMore(scores, index, best, bestFields, bestExact);
      assert score == scores[index];
      if Beats(score, bestFields, bestExact) {
        best, bestFields, bestExact := Some(index), score.value.fields, score.value.exact;
      }
    }
    if best.Some? {
      assert Leads(scores, best.value, Score(bestFields, bestExact));
    }
  }
}
