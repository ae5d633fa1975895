/**
 * Whole `seek` walks against a venue: a fixed list of keyed rows, of which every request gets the
 * first `limit` in its range, in any wire order. Nothing is dropped and nothing comes twice.
 */
module SeekWalk {
  import opened Wrappers
  import opened Sequences
  import opened Seek

  /** The venue's rows in the order it truncates along, nearest the moving bound first. */
  datatype Venue = Venue(rows: seq<Row>, limit: nat)

  predicate Before(s: Seek, row: Row, pos: Option<int>) {
    pos.Some? && row.key.Some? && s.Beyond(pos.value, row.key.value)
  }

  predicate After(s: Seek, row: Row, far: Option<int>) {
    far.Some? && row.key.Some? && s.Beyond(row.key.value, far.value)
  }

  predicate InRange(s: Seek, row: Row, pos: Option<int>, far: Option<int>) {
    !Before(s, row, pos) && !After(s, row, far)
  }

  /** What one request gets: the first `limit` rows of its range. */
  function Answer(s: Seek, v: Venue, pos: Option<int>, far: Option<int>): seq<Row> {
    var all := Filter(v.rows, (row: Row) => InRange(s, row, pos, far));
    if |all| <= v.limit then all else all[..v.limit]
  }

  /** The rows the caller asked for. */
  predicate Wanted(s: Seek, row: Row, start: Option<int>) {
    InRange(s, row, start, s.far) && !s.Past(row)
  }

  /** Those are the rows between the caller's bounds, whichever way the walk goes, that are not past the kept one. */
  lemma WantedIsBetween(s: Seek, row: Row, start: Option<int>)
    requires row.key.Some?
    ensures var from, to := if s.descending then s.far else start, if s.descending then start else s.far;
            Wanted(s, row, start) <==>
            (from.Some? ==> from.value <= row.key.value) && (to.Some? ==> row.key.value <= to.value) && !s.Past(row)
  {}

  /** A request as it is sent: from a bound, and under a span to an edge. */
  datatype Request = Request(pos: Option<int>, edge: Option<int>)

  /** Under a span a request has both bounds, at most one span apart and within the caller's far bound. */
  ghost predicate Narrow(s: Seek, r: Request) {
    s.span.Some? ==>
      && r.pos.Some? && r.edge.Some? && s.far.Some?
      && s.Ahead(r.pos.value, r.edge.value) <= s.span.value
      && s.Ahead(r.edge.value, s.far.value) >= 0
  }

  /** So every row a request can be answered with has its key within a span of the bound. */
  lemma NarrowAnswer(s: Seek, v: Venue, r: Request, i: nat)
    requires s.span.Some? && Narrow(s, r) && i < |Answer(s, v, r.pos, r.edge)|
    ensures var row := Answer(s, v, r.pos, r.edge)[i];
            row.key.Some? ==> 0 <= s.Ahead(r.pos.value, row.key.value) <= s.span.value
  {
    var keep := (row: Row) => InRange(s, row, r.pos, r.edge);
    var all := Filter(v.rows, keep);
    FilterKeeps(v.rows, keep, i);
  }

  /**
   * The venue lists keyed rows in walk order, a declared cap is its page limit, a cursor declared
   * unique is, spans are positive, and rows past the kept bound come after those that are not.
   */
  ghost predicate Walkable(s: Seek, v: Venue) {
    && s.ordered
    && 1 <= v.limit
    && (s.cap.Some? ==> s.cap.value == v.limit)
    && (s.span.Some? ==> 1 <= s.span.value)
    && (forall i :: 0 <= i < |v.rows| ==> v.rows[i].key.Some?)
    && (forall i, j :: 0 <= i < j < |v.rows| ==> !s.Beyond(v.rows[i].key.value, v.rows[j].key.value))
    && (s.unique ==> forall i, j :: 0 <= i < j < |v.rows| ==> v.rows[i].key != v.rows[j].key)
    && (forall i, j :: 0 <= i < j < |v.rows| && s.Past(v.rows[i]) ==> s.Past(v.rows[j]))
  }

  /** Every answer is the venue's, in some wire order of its own. */
  ghost predicate Serves(s: Seek, v: Venue, fetch: (nat, Option<int>, Option<int>) -> seq<Row>) {
    forall n, pos, edge ::
      multiset(fetch(n, pos, edge)) == multiset(Answer(s, v, pos, if edge.Some? then edge else s.far))
  }

  /** The index of the first row not before `pos`. */
  ghost function Lo(s: Seek, v: Venue, pos: Option<int>): (n: nat)
    requires Walkable(s, v)
    ensures n <= |v.rows|
    ensures forall i :: 0 <= i < |v.rows| ==> (Before(s, v.rows[i], pos) <==> i < n)
  {
    FilterPrefix(v.rows, (row: Row) => Before(s, row, pos));
    |Filter(v.rows, (row: Row) => Before(s, row, pos))|
  }

  /** The index just after the last row not past `far`. */
  ghost function Hi(s: Seek, v: Venue, far: Option<int>): (n: nat)
    requires Walkable(s, v)
    ensures n <= |v.rows|
    ensures forall i :: 0 <= i < |v.rows| ==> (After(s, v.rows[i], far) <==> n <= i)
  {
    FilterPrefix(v.rows, (row: Row) => !After(s, row, far));
    |Filter(v.rows, (row: Row) => !After(s, row, far))|
  }

  /** Where the page of a request ends. */
  ghost function End(s: Seek, v: Venue, pos: Option<int>, far: Option<int>): (e: nat)
    requires Walkable(s, v)
    ensures Lo(s, v, pos) <= e <= |v.rows|
  {
    var lo, hi := Lo(s, v, pos), Hi(s, v, far);
    if hi <= lo then lo else if hi <= lo + v.limit then hi else lo + v.limit
  }

  lemma LoAdvances(s: Seek, v: Venue, pos: Option<int>, key: int)
    requires Walkable(s, v)
    requires pos.None? || !s.Beyond(pos.value, key)
    ensures Lo(s, v, pos) <= Lo(s, v, Some(key)) <= Hi(s, v, Some(key))
  {
    var to := Lo(s, v, Some(key));
    if to < |v.rows| {
      assert Before(s, v.rows[to], Some(key)) || !Before(s, v.rows[to], pos);
    }
    if 0 < to {
      assert Before(s, v.rows[to - 1], Some(key));
    }
  }

  lemma AnswerIsSlice(s: Seek, v: Venue, pos: Option<int>, far: Option<int>)
    requires Walkable(s, v)
    ensures Answer(s, v, pos, far) == v.rows[Lo(s, v, pos)..End(s, v, pos, far)]
  {
    var lo, hi := Lo(s, v, pos), Hi(s, v, far);
    FilterSlice(v.rows, (row: Row) => InRange(s, row, pos, far), lo, if hi <= lo then lo else hi);
  }

  /** `limit` wanted rows from index `i` on share one key. */
  ghost predicate Crowd(s: Seek, v: Venue, start: Option<int>, i: nat)
    requires Walkable(s, v)
  {
    && Lo(s, v, start) <= i
    && i + v.limit <= Hi(s, v, s.far)
    && v.rows[i].key == v.rows[i + v.limit - 1].key
    && !s.Past(v.rows[i + v.limit - 1])
  }

  /** The state a walk from `start` is in once it has yielded the wanted rows before index `m`. */
  ghost predicate Reached(s: Seek, v: Venue, start: Option<int>, state: State, m: nat)
    requires Walkable(s, v)
  {
    var lo := Lo(s, v, state.pos);
    && (s.span.Some? ==> state.pos.Some? && s.far.Some?)
    && (state.pos.None? ==> start.None? && m == 0)
    && Lo(s, v, start) <= lo <= m <= |v.rows|
    && m - lo <= v.limit
    && (lo < m ==> m <= Hi(s, v, s.far))
    && (forall i :: lo <= i < m ==> v.rows[i].key == state.pos)
    && multiset(state.carried) == multiset(v.rows[lo..m])
    && (forall i :: Lo(s, v, start) <= i < m ==> !s.Past(v.rows[i]))
    && (forall i :: 0 <= i < lo ==> !Crowd(s, v, start, i))
  }

  /** The wanted rows at or after index `m`. */
  ghost function Rest(s: Seek, v: Venue, start: Option<int>, m: nat): seq<Row>
    requires m <= |v.rows|
  {
    Filter(v.rows[m..], (row: Row) => Wanted(s, row, start))
  }

  /** Every request a walk sends, from whatever state it reached, covers at most one span. */
  lemma ReachedAsksNarrow(s: Seek, v: Venue, start: Option<int>, state: State, m: nat)
    requires Walkable(s, v) && Reached(s, v, start, state, m)
    ensures Narrow(s, Request(state.pos, s.Edge(state.pos)))
  {
    if s.span.Some? { s.EdgeReaches(state.pos.value); }
  }

  /** How far the moving bound still is from the caller's far bound. */
  ghost function Distance(s: Seek, pos: Option<int>): nat {
    if s.span.None? || pos.None? || s.far.None? || s.Beyond(pos.value, s.far.value) then 0
    else if s.descending then pos.value - s.far.value
    else s.far.value - pos.value
  }

  /** A page, in any wire order, loses exactly the carried rows. */
  lemma PageDedup(s: Seek, v: Venue, start: Option<int>, state: State, m: nat, e: nat, rows: seq<Row>)
    requires Walkable(s, v) && Reached(s, v, start, state, m)
    requires m <= e <= |v.rows|
    requires multiset(rows) == multiset(v.rows[Lo(s, v, state.pos)..e])
    ensures s.Dedup(rows, state.carried).Success?
    ensures multiset(s.Dedup(rows, state.carried).value) == multiset(v.rows[m..e])
  {
    var lo := Lo(s, v, state.pos);
    assert v.rows[lo..e] == v.rows[lo..m] + v.rows[m..e];
    s.DedupTakesBlock(v.rows[lo..m], v.rows[m..e], state.carried, rows);
  }

  lemma PageExtreme(s: Seek, v: Venue, lo: nat, e: nat, rows: seq<Row>)
    requires Walkable(s, v)
    requires lo <= e <= |v.rows|
    requires multiset(rows) == multiset(v.rows[lo..e])
    ensures |rows| == e - lo
    ensures s.Extreme(rows) == if lo < e then v.rows[e - 1].key else None
  {
    s.ExtremeIsLast(v.rows[lo..e], rows);
  }

  /** The rows of a page at its last key, or at its edge, are the page's tail. */
  lemma PageAt(s: Seek, v: Venue, lo: nat, e: nat, rows: seq<Row>, key: int)
    requires Walkable(s, v)
    requires lo <= Lo(s, v, Some(key)) <= e <= Hi(s, v, Some(key))
    requires multiset(rows) == multiset(v.rows[lo..e])
    ensures multiset(At(rows, key)) == multiset(v.rows[Lo(s, v, Some(key))..e])
    ensures forall i :: Lo(s, v, Some(key)) <= i < e ==> v.rows[i].key == Some(key)
  {
    var from := Lo(s, v, Some(key));
    AtIsTail(v.rows[lo..e], from - lo, rows, key);
    assert v.rows[lo..e][from - lo..] == v.rows[from..e];
  }

  /** The bound a request from `state` is sent with on the far side. */
  function Sent(s: Seek, state: State): (far: Option<int>)
    requires s.span.Some? ==> state.pos.Some? && s.far.Some?
    ensures s.far.Some? ==> far.Some? && !s.Beyond(far.value, s.far.value)
  {
    var edge := s.Edge(state.pos);
    if edge.Some? then edge else s.far
  }

  lemma PageCoversCarried(s: Seek, v: Venue, start: Option<int>, state: State, m: nat)
    requires Walkable(s, v) && Reached(s, v, start, state, m)
    ensures m <= End(s, v, state.pos, Sent(s, state))
  {
    var lo := Lo(s, v, state.pos);
    if lo < m {
      assert v.rows[m - 1].key == state.pos;
      assert !After(s, v.rows[m - 1], s.far);
      assert !After(s, v.rows[m - 1], Sent(s, state));
    }
  }

  /** Moving the bound to `key` and carrying the page's rows at it keeps the walk on course. */
  lemma MoveReaches(s: Seek, v: Venue, start: Option<int>, state: State, m: nat, e: nat, rows: seq<Row>, key: int)
    requires Walkable(s, v) && Reached(s, v, start, state, m)
    requires m <= e <= |v.rows| && e - Lo(s, v, state.pos) <= v.limit
    requires multiset(rows) == multiset(v.rows[Lo(s, v, state.pos)..e])
    requires Lo(s, v, state.pos) <= Lo(s, v, Some(key)) <= e <= Hi(s, v, Some(key))
    requires m < e ==> e <= Hi(s, v, s.far)
    requires forall i :: m <= i < e ==> !s.Past(v.rows[i])
    requires forall i :: Lo(s, v, state.pos) <= i < Lo(s, v, Some(key)) ==> !Crowd(s, v, start, i)
    ensures Reached(s, v, start, State(Some(key), At(rows, key)), e)
  {
    PageAt(s, v, Lo(s, v, state.pos), e, rows, key);
  }

  /** A page that moves past some rows leaves no crowded key value behind them. */
  lemma NoCrowdBefore(s: Seek, v: Venue, start: Option<int>, from: nat, e: nat, key: int)
    requires Walkable(s, v)
    requires from <= Lo(s, v, Some(key)) <= e <= from + v.limit
    requires e == from + v.limit ==> Lo(s, v, Some(key)) < e
    ensures forall i :: from <= i < Lo(s, v, Some(key)) ==> !Crowd(s, v, start, i)
  {
  }

  lemma RestSplits(s: Seek, v: Venue, start: Option<int>, m: nat, e: nat)
    requires Walkable(s, v)
    requires Lo(s, v, start) <= m <= e <= |v.rows|
    requires m < e ==> e <= Hi(s, v, s.far)
    requires forall i :: m <= i < e ==> !s.Past(v.rows[i])
    ensures Rest(s, v, start, m) == v.rows[m..e] + Rest(s, v, start, e)
  {
    var keep := (row: Row) => Wanted(s, row, start);
    assert v.rows[m..] == v.rows[m..e] + v.rows[e..];
    FilterConcat(v.rows[m..e], v.rows[e..], keep);
    FilterSlice(v.rows[m..e], keep, 0, e - m);
  }

  /** Nothing is wanted from a past row on, nor from the end of the caller's range on. */
  lemma RestEnds(s: Seek, v: Venue, start: Option<int>, e: nat)
    requires Walkable(s, v) && e <= |v.rows|
    requires Hi(s, v, s.far) <= e || (0 < e && s.Past(v.rows[e - 1]))
    ensures Rest(s, v, start, e) == []
  {
    FilterSlice(v.rows[e..], (row: Row) => Wanted(s, row, start), 0, 0);
  }

  ghost predicate Uncrowded(s: Seek, v: Venue, start: Option<int>)
    requires Walkable(s, v)
  {
    forall i :: 0 <= i ==> !Crowd(s, v, start, i)
  }

  /** `rows` is the page a request from `state` was answered with, up to index `e`. */
  ghost predicate OnPage(s: Seek, v: Venue, start: Option<int>, state: State, m: nat, e: nat, rows: seq<Row>)
    requires Walkable(s, v)
  {
    && Reached(s, v, start, state, m)
    && e == End(s, v, state.pos, Sent(s, state))
    && m <= e
    && (Lo(s, v, state.pos) < e ==> e <= Hi(s, v, s.far))
    && multiset(rows) == multiset(v.rows[Lo(s, v, state.pos)..e])
  }

  lemma AnswerIsPage(s: Seek, v: Venue, start: Option<int>, state: State, m: nat, rows: seq<Row>)
    requires Walkable(s, v) && Reached(s, v, start, state, m)
    requires multiset(rows) == multiset(Answer(s, v, state.pos, Sent(s, state)))
    ensures OnPage(s, v, start, state, m, End(s, v, state.pos, Sent(s, state)), rows)
  {
    var e := End(s, v, state.pos, Sent(s, state));
    AnswerIsSlice(s, v, state.pos, Sent(s, state));
    PageCoversCarried(s, v, start, state, m);
    if Lo(s, v, state.pos) < e {
      assert !After(s, v.rows[e - 1], Sent(s, state));
    }
  }

  lemma PageMembers(v: Venue, lo: nat, e: nat, rows: seq<Row>, row: Row)
    requires lo <= e <= |v.rows|
    requires multiset(rows) == multiset(v.rows[lo..e])
    ensures row in rows <==> exists i :: lo <= i < e && v.rows[i] == row
  {
    SameMembers(rows, v.rows[lo..e], row);
    if i :| lo <= i < e && v.rows[i] == row {
      assert v.rows[lo..e][i - lo] == row;
    }
  }

  lemma RestTail(s: Seek, v: Venue, start: Option<int>, m: nat, e: nat)
    requires Walkable(s, v) && Lo(s, v, start) <= m <= e <= |v.rows|
    requires m < e ==> e <= Hi(s, v, s.far)
    requires 0 < e && s.Past(v.rows[e - 1])
    ensures Rest(s, v, start, m) == s.DropPast(v.rows[m..e])
  {
    var keep := (row: Row) => Wanted(s, row, start);
    assert v.rows[m..] == v.rows[m..e] + v.rows[e..];
    FilterConcat(v.rows[m..e], v.rows[e..], keep);
    RestEnds(s, v, start, e);
    FilterAgrees(v.rows[m..e], (row: Row) => !s.Past(row), keep);
    assert Filter(v.rows[m..e], keep) + [] == Filter(v.rows[m..e], keep);
  }

  /** The page holding the first past row is the last one, even when it is full. */
  lemma PastEnds(s: Seek, v: Venue, start: Option<int>, state: State, m: nat, e: nat, added: seq<Row>, p: nat)
    requires Walkable(s, v) && Reached(s, v, start, state, m)
    requires m <= e <= |v.rows| && e - Lo(s, v, state.pos) <= v.limit
    requires m < e ==> e <= Hi(s, v, s.far)
    requires multiset(added) == multiset(v.rows[m..e])
    requires Lo(s, v, state.pos) <= p < e && s.Past(v.rows[p])
    ensures multiset(s.DropPast(added)) == multiset(Rest(s, v, start, m))
  {
    FilterPermutation(added, v.rows[m..e], (row: Row) => !s.Past(row));
    RestTail(s, v, start, m, e);
  }

  /** A full page at one key value is a crowded key value. */
  lemma StuckIsCrowd(s: Seek, v: Venue, start: Option<int>, state: State, m: nat, e: nat, rows: seq<Row>)
    requires Walkable(s, v) && OnPage(s, v, start, state, m, e, rows)
    requires e == Lo(s, v, state.pos) + v.limit
    requires v.rows[e - 1].key == state.pos && !s.Past(v.rows[e - 1])
    ensures Crowd(s, v, start, Lo(s, v, state.pos))
  {}

  lemma MoveToExtreme(s: Seek, v: Venue, start: Option<int>, state: State, m: nat, e: nat, rows: seq<Row>)
    requires Walkable(s, v) && OnPage(s, v, start, state, m, e, rows)
    requires Lo(s, v, state.pos) < e && v.rows[e - 1].key != state.pos
    requires forall i :: m <= i < e ==> !s.Past(v.rows[i])
    ensures m < e
    ensures Reached(s, v, start, State(v.rows[e - 1].key, At(rows, v.rows[e - 1].key.value)), e)
  {
    var key := v.rows[e - 1].key.value;
    assert !Before(s, v.rows[e - 1], state.pos);
    LoAdvances(s, v, state.pos, key);
    assert !Before(s, v.rows[e - 1], Some(key)) && !After(s, v.rows[e - 1], Some(key));
    NoCrowdBefore(s, v, start, Lo(s, v, state.pos), e, key);
    MoveReaches(s, v, start, state, m, e, rows, key);
  }

  lemma MoveToEdge(s: Seek, v: Venue, start: Option<int>, state: State, m: nat, e: nat, rows: seq<Row>)
    requires Walkable(s, v) && OnPage(s, v, start, state, m, e, rows)
    requires s.span.Some? && s.Beyond(s.far.value, s.Edge(state.pos).value)
    requires e < Lo(s, v, state.pos) + v.limit
    requires forall i :: m <= i < e ==> !s.Past(v.rows[i])
    ensures var edge := s.Edge(state.pos);
            && Reached(s, v, start, State(edge, At(rows, edge.value)), e)
            && Distance(s, edge) < Distance(s, state.pos)
  {
    var key := s.Edge(state.pos).value;
    LoAdvances(s, v, state.pos, key);
    NoCrowdBefore(s, v, start, Lo(s, v, state.pos), e, key);
    MoveReaches(s, v, start, state, m, e, rows, key);
  }

  /** The last page of the caller's range yields all that is left of it. */
  lemma LastPage(s: Seek, v: Venue, start: Option<int>, state: State, m: nat, e: nat, rows: seq<Row>)
    requires Walkable(s, v) && OnPage(s, v, start, state, m, e, rows)
    requires Sent(s, state) == s.far
    requires e < Lo(s, v, state.pos) + v.limit
    ensures Hi(s, v, s.far) <= e
    ensures Uncrowded(s, v, start)
  {}

  lemma NoCrowdOncePast(s: Seek, v: Venue, start: Option<int>, lo: nat, p: nat)
    requires Walkable(s, v)
    requires lo <= p < |v.rows| && p < lo + v.limit && s.Past(v.rows[p])
    requires forall i :: 0 <= i < lo ==> !Crowd(s, v, start, i)
    ensures Uncrowded(s, v, start)
  {}

  /** What a step may do: fail on a crowded key value, finish the range, or stay on course. */
  ghost predicate OnCourse(s: Seek, v: Venue, start: Option<int>, state: State, m: nat, e: nat, step: Step)
    requires Walkable(s, v) && m <= e <= |v.rows|
  {
    match step
    case Failed(why) => why == StuckOnKey && !Uncrowded(s, v, start)
    case Page(added, None) =>
      multiset(added) == multiset(Rest(s, v, start, m)) && Uncrowded(s, v, start)
    case Page(added, Some(next)) =>
      && multiset(added) + multiset(Rest(s, v, start, e)) == multiset(Rest(s, v, start, m))
      && Reached(s, v, start, next, e)
      && (m < e || Distance(s, next.pos) < Distance(s, state.pos))
  }

  lemma PastStep(s: Seek, v: Venue, start: Option<int>, state: State, m: nat, e: nat, added: seq<Row>, p: nat)
    requires Walkable(s, v) && Reached(s, v, start, state, m)
    requires m <= e <= |v.rows| && e - Lo(s, v, state.pos) <= v.limit
    requires m < e ==> e <= Hi(s, v, s.far)
    requires multiset(added) == multiset(v.rows[m..e])
    requires Lo(s, v, state.pos) <= p < e && s.Past(v.rows[p])
    ensures OnCourse(s, v, start, state, m, e, Page(s.DropPast(added), None))
  {
    PastEnds(s, v, start, state, m, e, added, p);
    NoCrowdOncePast(s, v, start, Lo(s, v, state.pos), p);
  }

  /** The three ways on from a page with no past row, as `Fold` takes them. */
  function Onward(s: Seek, state: State, rows: seq<Row>, added: seq<Row>): Step
    requires s.span.Some? ==> state.pos.Some? && s.far.Some?
  {
    var edge, extreme := s.Edge(state.pos), s.Extreme(rows);
    if extreme.Some? && extreme != state.pos && (s.cap.None? || |rows| >= s.cap.value) then
      Page(added, Some(State(extreme, At(rows, extreme.value))))
    else if s.cap.Some? && |rows| >= s.cap.value then Failed(StuckOnKey)
    else if edge.Some? && s.Beyond(s.far.value, edge.value) then Page(added, Some(State(edge, At(rows, edge.value))))
    else Page(added, None)
  }

  lemma FoldCases(s: Seek, state: State, rows: seq<Row>)
    requires s.span.Some? ==> state.pos.Some? && s.far.Some?
    requires s.Dedup(rows, state.carried).Success?
    ensures var added := s.Dedup(rows, state.carried).value;
            s.Fold(state, s.Edge(state.pos), rows) ==
            if exists row :: row in rows && s.Past(row) then Page(s.DropPast(added), None)
            else Onward(s, state, rows, added)
  {}

  lemma PlainStep(s: Seek, v: Venue, start: Option<int>, state: State, m: nat, e: nat, rows: seq<Row>, added: seq<Row>)
    requires Walkable(s, v) && OnPage(s, v, start, state, m, e, rows)
    requires s.cap.None? ==> Uncrowded(s, v, start)
    requires forall i :: Lo(s, v, state.pos) <= i < e ==> !s.Past(v.rows[i])
    requires multiset(added) == multiset(v.rows[m..e])
    ensures OnCourse(s, v, start, state, m, e, Onward(s, state, rows, added))
  {
    var lo := Lo(s, v, state.pos);
    PageExtreme(s, v, lo, e, rows);
    var step := Onward(s, state, rows, added);
    if step.Failed? {
      StuckIsCrowd(s, v, start, state, m, e, rows);
    } else {
      PlainGoesOn(s, v, start, state, m, e, rows, step);
    }
  }

  lemma PlainGoesOn(s: Seek, v: Venue, start: Option<int>, state: State, m: nat, e: nat, rows: seq<Row>, step: Step)
    requires Walkable(s, v) && OnPage(s, v, start, state, m, e, rows)
    requires s.cap.None? ==> Uncrowded(s, v, start)
    requires forall i :: Lo(s, v, state.pos) <= i < e ==> !s.Past(v.rows[i])
    requires step.Page? && step == Onward(s, state, rows, step.added) && multiset(step.added) == multiset(v.rows[m..e])
    requires |rows| == e - Lo(s, v, state.pos)
    requires s.Extreme(rows) == if Lo(s, v, state.pos) < e then v.rows[e - 1].key else None
    ensures OnCourse(s, v, start, state, m, e, step)
  {
    PlainPage(s, v, start, state, m, e, rows, step);
    PageOfRest(s, v, start, m, e, step.added);
    if step.next.None? { RestEnds(s, v, start, e); }
  }

  /** The rows a page adds, with those that come after, are the rows that were left. */
  lemma PageOfRest(s: Seek, v: Venue, start: Option<int>, m: nat, e: nat, added: seq<Row>)
    requires Walkable(s, v) && Lo(s, v, start) <= m <= e <= |v.rows| && multiset(added) == multiset(v.rows[m..e])
    requires (m < e ==> e <= Hi(s, v, s.far)) && forall i :: m <= i < e ==> !s.Past(v.rows[i])
    ensures multiset(added) + multiset(Rest(s, v, start, e)) == multiset(Rest(s, v, start, m))
  {
    RestSplits(s, v, start, m, e);
  }

  lemma PlainPage(s: Seek, v: Venue, start: Option<int>, state: State, m: nat, e: nat, rows: seq<Row>, step: Step)
    requires Walkable(s, v) && OnPage(s, v, start, state, m, e, rows)
    requires s.cap.None? ==> Uncrowded(s, v, start)
    requires forall i :: Lo(s, v, state.pos) <= i < e ==> !s.Past(v.rows[i])
    requires step.Page? && step == Onward(s, state, rows, step.added)
    requires |rows| == e - Lo(s, v, state.pos)
    requires s.Extreme(rows) == if Lo(s, v, state.pos) < e then v.rows[e - 1].key else None
    ensures step.next.None? ==> Hi(s, v, s.far) <= e && Uncrowded(s, v, start)
    ensures step.next.Some? ==>
              && Reached(s, v, start, step.next.value, e)
              && (m < e || Distance(s, step.next.value.pos) < Distance(s, state.pos))
  {
    var lo := Lo(s, v, state.pos);
    var extreme := s.Extreme(rows);
    if extreme.Some? && extreme != state.pos && (s.cap.None? || e == lo + v.limit) {
      MoveToExtreme(s, v, start, state, m, e, rows);
    } else {
      if e == lo + v.limit { StuckIsCrowd(s, v, start, state, m, e, rows); }
      ShortPage(s, v, start, state, m, e, rows, step);
    }
  }

  lemma ShortPage(s: Seek, v: Venue, start: Option<int>, state: State, m: nat, e: nat, rows: seq<Row>, step: Step)
    requires Walkable(s, v) && OnPage(s, v, start, state, m, e, rows) && e < Lo(s, v, state.pos) + v.limit
    requires forall i :: Lo(s, v, state.pos) <= i < e ==> !s.Past(v.rows[i])
    requires step.Page? && (step.next.Some? <==> s.span.Some? && s.Beyond(s.far.value, s.Edge(state.pos).value))
    requires step.next.Some? ==> step.next.value == State(s.Edge(state.pos), At(rows, s.Edge(state.pos).value))
    ensures step.next.None? ==> Hi(s, v, s.far) <= e && Uncrowded(s, v, start)
    ensures step.next.Some? ==>
              Reached(s, v, start, step.next.value, e) && Distance(s, step.next.value.pos) < Distance(s, state.pos)
  {
    if step.next.Some? {
      MoveToEdge(s, v, start, state, m, e, rows);
    } else {
      LastPage(s, v, start, state, m, e, rows);
    }
  }

  /** One step of a walk: what it yields, where it leaves the walk, and when it fails. */
  lemma StepKeepsCourse(s: Seek, v: Venue, start: Option<int>, state: State, m: nat, rows: seq<Row>)
    requires Walkable(s, v) && Reached(s, v, start, state, m)
    requires s.cap.None? ==> Uncrowded(s, v, start)
    requires multiset(rows) == multiset(Answer(s, v, state.pos, Sent(s, state)))
    ensures var e := End(s, v, state.pos, Sent(s, state));
            m <= e && OnCourse(s, v, start, state, m, e, s.Fold(state, s.Edge(state.pos), rows))
  {
    var lo, e := Lo(s, v, state.pos), End(s, v, state.pos, Sent(s, state));
    AnswerIsPage(s, v, start, state, m, rows);
    PageDedup(s, v, start, state, m, e, rows);
    var added := s.Dedup(rows, state.carried).value;
    FoldCases(s, state, rows);
    if row :| row in rows && s.Past(row) {
      PageMembers(v, lo, e, rows, row);
      var p :| lo <= p < e && v.rows[p] == row;
      PastStep(s, v, start, state, m, e, added, p);
    } else {
      forall i | lo <= i < e ensures !s.Past(v.rows[i]) {
        PageMembers(v, lo, e, rows, v.rows[i]);
      }
      PlainStep(s, v, start, state, m, e, rows, added);
    }
  }

  /** Some key value holds a whole page of the rows the caller asked for. */
  ghost predicate Crowded(s: Seek, v: Venue, start: Option<int>) {
    exists key: int :: v.limit <= |Filter(v.rows, (row: Row) => Wanted(s, row, start) && row.key == Some(key))|
  }

  lemma CrowdIsCrowded(s: Seek, v: Venue, start: Option<int>)
    requires Walkable(s, v)
    ensures Crowded(s, v, start) <==> !Uncrowded(s, v, start)
  {
    if key: int :| v.limit <= |Filter(v.rows, (row: Row) => Wanted(s, row, start) && row.key == Some(key))| {
      var keep := (row: Row) => Wanted(s, row, start) && row.key == Some(key);
      var a, b := FilterConvex(v.rows, keep);
      assert keep(v.rows[a]) && keep(v.rows[b - 1]) && keep(v.rows[a + v.limit - 1]);
      assert Crowd(s, v, start, a);
    }
    if i :| 0 <= i && Crowd(s, v, start, i) {
      CrowdCounts(s, v, start, i);
    }
  }

  lemma CrowdCounts(s: Seek, v: Venue, start: Option<int>, i: nat)
    requires Walkable(s, v) && Crowd(s, v, start, i)
    ensures var key := v.rows[i].key;
            key.Some? && v.limit <= |Filter(v.rows, (row: Row) => Wanted(s, row, start) && row.key == Some(key.value))|
  {
    var key := v.rows[i].key.value;
    var keep := (row: Row) => Wanted(s, row, start) && row.key == Some(key);
    forall j, k, l | 0 <= j < k < l < |v.rows| && keep(v.rows[j]) && keep(v.rows[l]) ensures keep(v.rows[k]) {
      assert v.rows[k].key == Some(key);
    }
    var a, b := FilterConvex(v.rows, keep);
    assert keep(v.rows[i]) && keep(v.rows[i + v.limit - 1]);
  }

  /** All that a walk from a state it reached yields, page after page, and how it ends. */
  method Resume(s: Seek, v: Venue, ghost start: Option<int>, from: State, ghost at: nat,
                fetch: (nat, Option<int>, Option<int>) -> seq<Row>)
    returns (rows: seq<Row>, failure: Option<Failure>)
    requires Walkable(s, v) && Serves(s, v, fetch)
    requires s.cap.Some? || !Crowded(s, v, start)
    requires Reached(s, v, start, from, at)
    ensures failure.Some? <==> Crowded(s, v, start)
    ensures failure.Some? ==> failure.value == StuckOnKey
    ensures failure.Some? ==> multiset(rows) <= multiset(Rest(s, v, start, at))
    ensures failure.None? ==> multiset(rows) == multiset(Rest(s, v, start, at))
  {
    CrowdIsCrowded(s, v, start);
    rows := [];
    var state := from;
    ghost var m := at;
    var n := 0;
    while true
      invariant Reached(s, v, start, state, m)
      invariant multiset(rows) + multiset(Rest(s, v, start, m)) == multiset(Rest(s, v, start, at))
      decreases |v.rows| - m, Distance(s, state.pos)
    {
      var step := s.Next(state, (pos, edge) => fetch(n, pos, edge));
      StepKeepsCourse(s, v, start, state, m, fetch(n, state.pos, s.Edge(state.pos)));
      if step.Failed? {
        return rows, Some(step.why);
      }
      rows := rows + step.added;
      if step.next.None? {
        return rows, None;
      }
      m := End(s, v, state.pos, Sent(s, state));
      state := step.next.value;
      n := n + 1;
    }
  }

  /**
   * The whole walk from the caller's own bound. Unless a span lacks a bound, it fails exactly when a
   * key value is crowded, and otherwise yields exactly the rows asked for, each as often as it exists.
   */
  method All(s: Seek, v: Venue, start: Option<int>, fetch: (nat, Option<int>, Option<int>) -> seq<Row>)
    returns (rows: seq<Row>, failure: Option<Failure>)
    requires Walkable(s, v) && Serves(s, v, fetch)
    requires s.cap.Some? || !Crowded(s, v, start)
    ensures s.span.Some? && (start.None? || s.far.None?) ==> failure == Some(UnboundedSpan)
    ensures s.span.None? || (start.Some? && s.far.Some?) ==>
              var wanted := multiset(Filter(v.rows, (row: Row) => Wanted(s, row, start)));
              && (failure.Some? <==> Crowded(s, v, start))
              && (failure.Some? ==> failure.value == StuckOnKey && multiset(rows) <= wanted)
              && (failure.None? ==> multiset(rows) == wanted)
  {
    var state := State(start, []);
    if s.span.Some? && (start.None? || s.far.None?) {
      var step := s.Next(state, (pos, edge) => fetch(0, pos, edge));
      return [], Some(step.why);
    }
    ghost var lo := Lo(s, v, start);
    assert start.None? ==> lo == 0 by {
      if 0 < lo { assert Before(s, v.rows[0], start); }
    }
    rows, failure := Resume(s, v, start, state, lo, fetch);
    RestIsAll(s, v, start);
  }

  lemma RestIsAll(s: Seek, v: Venue, start: Option<int>)
    requires Walkable(s, v)
    ensures Rest(s, v, start, Lo(s, v, start)) == Filter(v.rows, (row: Row) => Wanted(s, row, start))
  {
    var keep, lo := (row: Row) => Wanted(s, row, start), Lo(s, v, start);
    assert v.rows == v.rows[..lo] + v.rows[lo..];
    FilterConcat(v.rows[..lo], v.rows[lo..], keep);
    FilterSlice(v.rows[..lo], keep, 0, 0);
  }
}
