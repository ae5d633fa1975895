/**
 * Walks whose page size is unknown: they never fail, and a key value that fills a page hides the rows
 * behind that page, as far as its span's edge when there is a span.
 */
module SeekUncapped {
  import opened Wrappers
  import opened Sequences
  import opened Seek
  import opened SeekWalk

  predicate Uncapped(s: Seek) { s.cap.None? }

  /** A span can be walked only between two bounds. */
  predicate Bounded(s: Seek, start: Option<int>) { s.span.Some? ==> start.Some? && s.far.Some? }

  /** Stuck on a key value the walk can jump on to the span's edge, unless that is the caller's far bound. */
  predicate CanJump(s: Seek, key: int) {
    s.span.Some? && s.far.Some? && s.Beyond(s.far.value, s.Edge(Some(key)).value)
  }

  /** A walk stuck on a key value never requests this row: it lies before the edge jumped to, or there is no jump. */
  predicate OutOfReach(s: Seek, key: int, row: Row) {
    CanJump(s, key) ==> row.key.Some? && s.Beyond(s.Edge(Some(key)).value, row.key.value)
  }

  /** A page full of one key value, and a row asked for behind it that the walk then never requests. */
  ghost predicate Hides(s: Seek, v: Venue, start: Option<int>, i: nat, j: nat)
    requires Walkable(s, v)
  {
    && Crowd(s, v, start, i) && i + v.limit <= j < |v.rows| && Wanted(s, v.rows[j], start)
    && OutOfReach(s, v.rows[i].key.value, v.rows[j])
  }

  ghost predicate HidesSome(s: Seek, v: Venue, start: Option<int>)
    requires Walkable(s, v)
  {
    exists i: nat, j: nat :: Hides(s, v, start, i, j)
  }

  // ---- One step ----

  /** A page full of the bound's own key value, the first such since the walk's start. */
  ghost predicate StuckAt(s: Seek, v: Venue, start: Option<int>, pos: Option<int>, e: nat)
    requires Walkable(s, v)
  {
    var lo := Lo(s, v, pos);
    && Crowd(s, v, start, lo) && v.rows[lo].key == pos && e == lo + v.limit
    && forall i :: 0 <= i < lo ==> !Crowd(s, v, start, i)
  }

  /** The walk ended with nothing left, or stuck with no edge to jump to. */
  ghost predicate Stopped(s: Seek, v: Venue, start: Option<int>, pos: Option<int>, e: nat)
    requires Walkable(s, v) && e <= |v.rows|
  {
    || (Rest(s, v, start, e) == [] && Uncrowded(s, v, start))
    || (StuckAt(s, v, start, pos, e) && pos.Some? && !CanJump(s, pos.value))
  }

  /** The walk, stuck, jumped to the edge with nothing carried. */
  ghost predicate Jumped(s: Seek, v: Venue, start: Option<int>, pos: Option<int>, e: nat, next: State)
    requires Walkable(s, v)
  {
    && StuckAt(s, v, start, pos, e) && pos.Some? && CanJump(s, pos.value)
    && next == State(s.Edge(pos), []) && e <= Lo(s, v, next.pos)
    && Distance(s, next.pos) < Distance(s, pos)
  }

  /** What a step without a cap does: it goes on, jumps, or ends the walk. */
  ghost predicate OnUncappedCourse(s: Seek, v: Venue, start: Option<int>, state: State, m: nat, e: nat, step: Step)
    requires Walkable(s, v) && m <= e <= |v.rows|
  {
    && step.Page?
    && multiset(step.added) + multiset(Rest(s, v, start, e)) == multiset(Rest(s, v, start, m))
    && match step.next
       case None => Stopped(s, v, start, state.pos, e)
       case Some(next) =>
         || (Reached(s, v, start, next, e) && (m < e || Distance(s, next.pos) < Distance(s, state.pos)))
         || Jumped(s, v, start, state.pos, e, next)
  }

  /** A page that ends on the bound's own key value holds nothing else. */
  lemma OnlyItsKey(s: Seek, v: Venue, start: Option<int>, state: State, m: nat, e: nat, rows: seq<Row>)
    requires Walkable(s, v) && OnPage(s, v, start, state, m, e, rows)
    requires Lo(s, v, state.pos) < e && v.rows[e - 1].key == state.pos
    ensures forall i :: Lo(s, v, state.pos) <= i < e ==> v.rows[i].key == state.pos
    ensures forall row :: row in rows ==> row.key == state.pos
  {
    var lo := Lo(s, v, state.pos);
    forall i | lo <= i < e ensures v.rows[i].key == state.pos {
      assert !Before(s, v.rows[i], state.pos);
      assert i < e - 1 ==> !s.Beyond(v.rows[i].key.value, v.rows[e - 1].key.value);
    }
    forall row | row in rows ensures row.key == state.pos {
      PageMembers(v, lo, e, rows, row);
    }
  }

  lemma NoneAt(rows: seq<Row>, pos: Option<int>, key: int)
    requires (forall row :: row in rows ==> row.key == pos) && pos != Some(key)
    ensures At(rows, key) == []
  {
    forall i | 0 <= i < |rows| ensures rows[i].key != Some(key) {
      assert rows[i] in rows;
    }
    FilterSlice(rows, (row: Row) => row.key == Some(key), 0, 0);
  }

  lemma JumpsOn(s: Seek, v: Venue, start: Option<int>, state: State, m: nat, e: nat, rows: seq<Row>)
    requires Walkable(s, v) && Uncapped(s) && OnPage(s, v, start, state, m, e, rows)
    requires StuckAt(s, v, start, state.pos, e) && state.pos.Some? && CanJump(s, state.pos.value)
    requires forall row :: row in rows ==> row.key == state.pos
    requires forall i :: Lo(s, v, state.pos) <= i < e ==> v.rows[i].key == state.pos
    ensures var edge := s.Edge(state.pos); Jumped(s, v, start, state.pos, e, State(edge, At(rows, edge.value)))
  {
    var edge := s.Edge(state.pos);
    assert s.Beyond(edge.value, state.pos.value);
    NoneAt(rows, state.pos, edge.value);
    assert Before(s, v.rows[e - 1], edge);
  }

  lemma OnSameKey(s: Seek, v: Venue, start: Option<int>, state: State, m: nat, e: nat, rows: seq<Row>, step: Step)
    requires Walkable(s, v) && Uncapped(s) && OnPage(s, v, start, state, m, e, rows)
    requires forall i :: Lo(s, v, state.pos) <= i < e ==> !s.Past(v.rows[i])
    requires Lo(s, v, state.pos) < e ==> v.rows[e - 1].key == state.pos
    requires step.Page? && step == Onward(s, state, rows, step.added)
    requires s.Extreme(rows) == if Lo(s, v, state.pos) < e then state.pos else None
    ensures match step.next
            case None => Stopped(s, v, start, state.pos, e)
            case Some(next) =>
              || (Reached(s, v, start, next, e) && Distance(s, next.pos) < Distance(s, state.pos))
              || Jumped(s, v, start, state.pos, e, next)
  {
    var lo := Lo(s, v, state.pos);
    if e == lo + v.limit {
      OnlyItsKey(s, v, start, state, m, e, rows);
      StuckIsCrowd(s, v, start, state, m, e, rows);
      assert StuckAt(s, v, start, state.pos, e);
      if step.next.Some? { JumpsOn(s, v, start, state, m, e, rows); }
    } else if step.next.Some? {
      MoveToEdge(s, v, start, state, m, e, rows);
    } else {
      LastPage(s, v, start, state, m, e, rows);
      RestEnds(s, v, start, e);
    }
  }

  lemma UncappedPlain(s: Seek, v: Venue, start: Option<int>, state: State, m: nat, e: nat, rows: seq<Row>, added: seq<Row>)
    requires Walkable(s, v) && Uncapped(s) && OnPage(s, v, start, state, m, e, rows)
    requires forall i :: Lo(s, v, state.pos) <= i < e ==> !s.Past(v.rows[i])
    requires multiset(added) == multiset(v.rows[m..e])
    ensures OnUncappedCourse(s, v, start, state, m, e, Onward(s, state, rows, added))
  {
    var lo := Lo(s, v, state.pos);
    PageExtreme(s, v, lo, e, rows);
    RestSplits(s, v, start, m, e);
    if lo < e && v.rows[e - 1].key != state.pos {
      MoveToExtreme(s, v, start, state, m, e, rows);
    } else {
      OnSameKey(s, v, start, state, m, e, rows, Onward(s, state, rows, added));
    }
  }

  lemma UncappedPast(s: Seek, v: Venue, start: Option<int>, state: State, m: nat, e: nat, added: seq<Row>, p: nat)
    requires Walkable(s, v) && Reached(s, v, start, state, m)
    requires m <= e <= |v.rows| && e - Lo(s, v, state.pos) <= v.limit
    requires m < e ==> e <= Hi(s, v, s.far)
    requires multiset(added) == multiset(v.rows[m..e])
    requires Lo(s, v, state.pos) <= p < e && s.Past(v.rows[p])
    ensures OnUncappedCourse(s, v, start, state, m, e, Page(s.DropPast(added), None))
  {
    PastEnds(s, v, start, state, m, e, added, p);
    NoCrowdOncePast(s, v, start, Lo(s, v, state.pos), p);
    RestEnds(s, v, start, e);
  }

  lemma UncappedStep(s: Seek, v: Venue, start: Option<int>, state: State, m: nat, rows: seq<Row>)
    requires Walkable(s, v) && Uncapped(s) && Reached(s, v, start, state, m)
    requires multiset(rows) == multiset(Answer(s, v, state.pos, Sent(s, state)))
    ensures var e := End(s, v, state.pos, Sent(s, state));
            m <= e && OnUncappedCourse(s, v, start, state, m, e, s.Fold(state, s.Edge(state.pos), rows))
  {
    var lo, e := Lo(s, v, state.pos), End(s, v, state.pos, Sent(s, state));
    AnswerIsPage(s, v, start, state, m, rows);
    PageDedup(s, v, start, state, m, e, rows);
    var added := s.Dedup(rows, state.carried).value;
    FoldCases(s, state, rows);
    if row :| row in rows && s.Past(row) {
      PageMembers(v, lo, e, rows, row);
      var p :| lo <= p < e && v.rows[p] == row;
      UncappedPast(s, v, start, state, m, e, added, p);
    } else {
      forall i | lo <= i < e ensures !s.Past(v.rows[i]) {
        PageMembers(v, lo, e, rows, v.rows[i]);
      }
      UncappedPlain(s, v, start, state, m, e, rows, added);
    }
  }

  // ---- Legs ----

  /** After a jump the walk is one begun at the edge. */
  lemma NewLeg(s: Seek, v: Venue, edge: int)
    requires Walkable(s, v) && (s.span.Some? ==> s.far.Some?)
    ensures Reached(s, v, Some(edge), State(Some(edge), []), Lo(s, v, Some(edge)))
  {}

  lemma RestSame(s: Seek, v: Venue, start: Option<int>, base: Option<int>, m: nat)
    requires Walkable(s, v) && Lo(s, v, start) <= m && Lo(s, v, base) <= m <= |v.rows|
    ensures Rest(s, v, start, m) == Rest(s, v, base, m)
  {
    forall i | 0 <= i < |v.rows[m..]| ensures Wanted(s, v.rows[m..][i], start) <==> Wanted(s, v.rows[m..][i], base) {
      assert v.rows[m..][i] == v.rows[m + i];
    }
    FilterAgrees(v.rows[m..], (row: Row) => Wanted(s, row, start), (row: Row) => Wanted(s, row, base));
  }

  /** The wanted rows from one index up to another. */
  ghost function Gap(s: Seek, v: Venue, start: Option<int>, from: nat, to: nat): seq<Row>
    requires from <= to <= |v.rows|
  {
    Filter(v.rows[from..to], (row: Row) => Wanted(s, row, start))
  }

  lemma GapAndRest(s: Seek, v: Venue, start: Option<int>, from: nat, to: nat)
    requires from <= to <= |v.rows|
    ensures Rest(s, v, start, from) == Gap(s, v, start, from, to) + Rest(s, v, start, to)
  {
    assert v.rows[from..] == v.rows[from..to] + v.rows[to..];
    FilterConcat(v.rows[from..to], v.rows[to..], (row: Row) => Wanted(s, row, start));
  }

  lemma GapIsWanted(s: Seek, v: Venue, start: Option<int>, from: nat, to: nat)
    requires from <= to <= |v.rows|
    ensures Gap(s, v, start, from, to) != [] <==> exists j :: from <= j < to && Wanted(s, v.rows[j], start)
  {
    var slice, keep := v.rows[from..to], (row: Row) => Wanted(s, row, start);
    if j :| from <= j < to && Wanted(s, v.rows[j], start) {
      assert slice[j - from] == v.rows[j] && v.rows[j] in slice;
      FilterCount(slice, keep, v.rows[j]);
      assert v.rows[j] in multiset(Gap(s, v, start, from, to));
    } else {
      FilterSlice(slice, keep, 0, 0);
    }
  }

  /** No page full of one key value before an index hides anything. */
  ghost predicate NoneHiddenBefore(s: Seek, v: Venue, start: Option<int>, n: nat)
    requires Walkable(s, v)
  {
    forall i: nat, j: nat :: i < n ==> !Hides(s, v, start, i, j)
  }

  lemma CrowdSame(s: Seek, v: Venue, start: Option<int>, base: Option<int>, i: nat)
    requires Walkable(s, v) && Lo(s, v, start) <= i && Lo(s, v, base) <= i
    ensures Crowd(s, v, start, i) <==> Crowd(s, v, base, i)
  {}

  /** The rows a jump leaves out are those hidden by the key value it was stuck on. */
  lemma JumpHides(s: Seek, v: Venue, start: Option<int>, base: Option<int>, pos: Option<int>, e: nat, next: State)
    requires Walkable(s, v) && Lo(s, v, start) <= Lo(s, v, base) <= Lo(s, v, pos) && pos.Some?
    requires Jumped(s, v, base, pos, e, next) && e <= Lo(s, v, next.pos)
    ensures var to := Lo(s, v, next.pos);
            && (Gap(s, v, start, e, to) != [] ==> HidesSome(s, v, start))
            && (Gap(s, v, start, e, to) == [] && NoneHiddenBefore(s, v, start, Lo(s, v, base)) ==>
                  NoneHiddenBefore(s, v, start, to))
  {
    var lo, to := Lo(s, v, pos), Lo(s, v, next.pos);
    CrowdSame(s, v, start, base, lo);
    GapIsWanted(s, v, start, e, to);
    if j :| e <= j < to && Wanted(s, v.rows[j], start) {
      assert Before(s, v.rows[j], next.pos);
      assert Hides(s, v, start, lo, j);
    } else if NoneHiddenBefore(s, v, start, Lo(s, v, base)) {
      forall i: nat, j: nat | i < to ensures !Hides(s, v, start, i, j) {
        if lo <= i {
          if Hides(s, v, start, i, j) { HiddenInGap(s, v, start, lo, e, pos, next, i, j); }
        } else {
          NoCrowdYet(s, v, start, base, lo, i, j);
        }
      }
    }
  }

  lemma NoCrowdYet(s: Seek, v: Venue, start: Option<int>, base: Option<int>, lo: nat, i: nat, j: nat)
    requires Walkable(s, v) && Lo(s, v, start) <= Lo(s, v, base) && i < lo
    requires NoneHiddenBefore(s, v, start, Lo(s, v, base)) && forall k :: 0 <= k < lo ==> !Crowd(s, v, base, k)
    ensures !Hides(s, v, start, i, j)
  {
    if Lo(s, v, base) <= i { CrowdSame(s, v, start, base, i); }
  }

  /** A key value at or behind the one the walk is stuck on, before the edge, hides rows only before the edge. */
  lemma HiddenInGap(s: Seek, v: Venue, start: Option<int>, lo: nat, e: nat, pos: Option<int>, next: State, i: nat, j: nat)
    requires Walkable(s, v) && pos.Some? && CanJump(s, pos.value) && next.pos == s.Edge(pos)
    requires lo == Lo(s, v, pos) && Crowd(s, v, start, lo) && v.rows[lo].key == pos && e == lo + v.limit
    requires lo <= i < Lo(s, v, next.pos) && Hides(s, v, start, i, j)
    ensures exists k :: e <= k < Lo(s, v, next.pos) && Wanted(s, v.rows[k], start)
  {
    var to := Lo(s, v, next.pos);
    if i == lo {
      assert Before(s, v.rows[j], next.pos);
      assert e <= j < to && Wanted(s, v.rows[j], start);
    } else {
      var k := i + v.limit - 1;
      assert v.rows[k].key == v.rows[i].key;
      assert Before(s, v.rows[i], next.pos);
      assert k < to;
      assert !Before(s, v.rows[k], start) && !After(s, v.rows[k], s.far);
      assert e <= k < to && Wanted(s, v.rows[k], start);
    }
  }

  lemma WantedIsRest(s: Seek, v: Venue, start: Option<int>, e: nat, j: nat)
    requires Walkable(s, v) && e <= j < |v.rows| && Wanted(s, v.rows[j], start)
    ensures Rest(s, v, start, e) != []
  {
    var rest, keep := v.rows[e..], (row: Row) => Wanted(s, row, start);
    assert rest[j - e] == v.rows[j] && v.rows[j] in rest;
    FilterCount(rest, keep, v.rows[j]);
    assert v.rows[j] in multiset(Rest(s, v, start, e));
  }

  lemma {:induction false} RestIsWanted(s: Seek, v: Venue, start: Option<int>, e: nat) returns (j: nat)
    requires Walkable(s, v) && e <= |v.rows| && Rest(s, v, start, e) != []
    ensures e <= j < |v.rows| && Wanted(s, v.rows[j], start)
    decreases |v.rows| - e
  {
    var keep := (row: Row) => Wanted(s, row, start);
    assert e < |v.rows| by {
      if v.rows[e..] == [] { assert false; }
    }
    if Wanted(s, v.rows[e], start) {
      j := e;
    } else {
      FilterConcat([v.rows[e]], v.rows[e + 1..], keep);
      assert v.rows[e..] == [v.rows[e]] + v.rows[e + 1..];
      FilterSlice([v.rows[e]], keep, 0, 0);
      assert Rest(s, v, start, e) == [] + Rest(s, v, start, e + 1);
      j := RestIsWanted(s, v, start, e + 1);
    }
  }

  /** At its end a walk has left something out exactly when something is hidden. */
  lemma StoppedHides(s: Seek, v: Venue, start: Option<int>, base: Option<int>, pos: Option<int>, e: nat)
    requires Walkable(s, v) && Lo(s, v, start) <= Lo(s, v, base) <= Lo(s, v, pos) && e <= |v.rows|
    requires Lo(s, v, pos) <= e && Stopped(s, v, base, pos, e)
    ensures Rest(s, v, start, e) != [] ==> HidesSome(s, v, start)
    ensures Rest(s, v, start, e) == [] && NoneHiddenBefore(s, v, start, Lo(s, v, base)) ==> !HidesSome(s, v, start)
  {
    RestSame(s, v, start, base, e);
    var lo := Lo(s, v, pos);
    if Rest(s, v, start, e) != [] {
      assert StuckAt(s, v, base, pos, e);
      CrowdSame(s, v, start, base, lo);
      var j := RestIsWanted(s, v, start, e);
      assert Hides(s, v, start, lo, j);
    } else if NoneHiddenBefore(s, v, start, Lo(s, v, base)) {
      if i: nat, j: nat :| Hides(s, v, start, i, j) {
        assert Lo(s, v, base) <= i;
        CrowdSame(s, v, start, base, i);
        assert lo <= i;
        WantedIsRest(s, v, start, e, j);
      }
    }
  }

  /** What a walk from `start` has come to: its leg, what it yielded, and what it left out. */
  ghost predicate Sofar(s: Seek, v: Venue, start: Option<int>, base: Option<int>, m: nat, rows: seq<Row>, dropped: multiset<Row>)
    requires Walkable(s, v)
  {
    && Lo(s, v, start) <= Lo(s, v, base) <= m <= |v.rows|
    && multiset(rows) + dropped + multiset(Rest(s, v, start, m)) == multiset(Rest(s, v, start, Lo(s, v, start)))
    && (dropped != multiset{} ==> HidesSome(s, v, start))
    && (dropped == multiset{} ==> NoneHiddenBefore(s, v, start, Lo(s, v, base)))
  }

  lemma GoesOn(s: Seek, v: Venue, start: Option<int>, base: Option<int>, m: nat, rows: seq<Row>, dropped: multiset<Row>,
               e: nat, added: seq<Row>)
    requires Walkable(s, v) && Sofar(s, v, start, base, m, rows, dropped) && m <= e <= |v.rows|
    requires multiset(added) + multiset(Rest(s, v, base, e)) == multiset(Rest(s, v, base, m))
    ensures Sofar(s, v, start, base, e, rows + added, dropped)
  {
    RestSame(s, v, start, base, m);
    RestSame(s, v, start, base, e);
  }

  lemma JumpsTo(s: Seek, v: Venue, start: Option<int>, base: Option<int>, pos: Option<int>, rows: seq<Row>, dropped: multiset<Row>,
                e: nat, next: State)
    requires Walkable(s, v) && Sofar(s, v, start, base, e, rows, dropped) && Lo(s, v, base) <= Lo(s, v, pos)
    requires Jumped(s, v, base, pos, e, next)
    ensures var to := Lo(s, v, next.pos);
            Sofar(s, v, start, next.pos, to, rows, dropped + multiset(Gap(s, v, start, e, to)))
  {
    var to := Lo(s, v, next.pos);
    GapAndRest(s, v, start, e, to);
    JumpHides(s, v, start, base, pos, e, next);
    var gap := Gap(s, v, start, e, to);
    if gap != [] { assert gap[0] in multiset(gap); }
  }

  lemma Ended(s: Seek, v: Venue, start: Option<int>, base: Option<int>, pos: Option<int>, rows: seq<Row>, dropped: multiset<Row>, e: nat)
    requires Walkable(s, v) && Sofar(s, v, start, base, e, rows, dropped)
    requires Lo(s, v, base) <= Lo(s, v, pos) <= e && Stopped(s, v, base, pos, e)
    ensures var wanted := multiset(Rest(s, v, start, Lo(s, v, start)));
            multiset(rows) <= wanted && (multiset(rows) == wanted <==> !HidesSome(s, v, start))
  {
    StoppedHides(s, v, start, base, pos, e);
    var left := dropped + multiset(Rest(s, v, start, e));
    var wanted := multiset(Rest(s, v, start, Lo(s, v, start)));
    assert multiset(rows) + left == wanted;
    if Rest(s, v, start, e) != [] { assert Rest(s, v, start, e)[0] in left; }
    if row :| row in left { assert multiset(rows)[row] < wanted[row]; }
    else { assert left == multiset{}; }
  }

  /** One step of the whole walk, on the leg it is on or from the start of the next. */
  lemma TakesStep(s: Seek, v: Venue, start: Option<int>, base: Option<int>, state: State, m: nat, rows: seq<Row>,
                  dropped: multiset<Row>, page: seq<Row>, step: Step)
    returns (onBase: Option<int>, onM: nat, onDropped: multiset<Row>)
    requires Walkable(s, v) && Uncapped(s) && Reached(s, v, base, state, m) && Sofar(s, v, start, base, m, rows, dropped)
    requires multiset(page) == multiset(Answer(s, v, state.pos, Sent(s, state)))
    requires step == s.Fold(state, s.Edge(state.pos), page)
    ensures step.Page?
    ensures step.next.None? ==>
              var wanted := multiset(Rest(s, v, start, Lo(s, v, start)));
              multiset(rows + step.added) <= wanted && (multiset(rows + step.added) == wanted <==> !HidesSome(s, v, start))
    ensures step.next.Some? ==>
              && Reached(s, v, onBase, step.next.value, onM) && Sofar(s, v, start, onBase, onM, rows + step.added, onDropped)
              && (m < onM || (m == onM && Distance(s, step.next.value.pos) < Distance(s, state.pos)))
  {
    UncappedStep(s, v, base, state, m, page);
    var e := End(s, v, state.pos, Sent(s, state));
    GoesOn(s, v, start, base, m, rows, dropped, e, step.added);
    onBase, onM, onDropped := base, e, dropped;
    if step.next.None? {
      Ended(s, v, start, base, state.pos, rows + step.added, dropped, e);
    } else {
      var next := step.next.value;
      if !(Reached(s, v, base, next, e) && (m < e || Distance(s, next.pos) < Distance(s, state.pos))) {
        JumpsTo(s, v, start, base, state.pos, rows + step.added, dropped, e, next);
        NewLeg(s, v, next.pos.value);
        onBase, onM := next.pos, Lo(s, v, next.pos);
        onDropped := dropped + multiset(Gap(s, v, start, e, onM));
      }
    }
  }

  // ---- The whole walk ----

  /**
   * The whole walk when no cap is declared, with or without a span. Unless a span lacks a bound it never
   * fails, it yields only rows asked for, and it yields all of them exactly when no key value that fills
   * a page has one behind that page which the walk does not come to again.
   */
  method AllUncapped(s: Seek, v: Venue, start: Option<int>, fetch: (nat, Option<int>, Option<int>) -> seq<Row>)
    returns (rows: seq<Row>, failure: Option<Failure>)
    requires Walkable(s, v) && Uncapped(s) && Serves(s, v, fetch)
    ensures !Bounded(s, start) ==> failure == Some(UnboundedSpan)
    ensures Bounded(s, start) ==> failure.None?
    ensures Bounded(s, start) ==>
              var wanted := multiset(Filter(v.rows, (row: Row) => Wanted(s, row, start)));
              multiset(rows) <= wanted && (multiset(rows) == wanted <==> !HidesSome(s, v, start))
  {
    var state := State(start, []);
    rows := [];
    if !Bounded(s, start) {
      var step := s.Next(state, (pos, edge) => fetch(0, pos, edge));
      return [], Some(step.why);
    }
    ghost var m, base, dropped: multiset<Row> := Lo(s, v, start), start, multiset{};
    assert start.None? ==> m == 0 by {
      if 0 < m { assert Before(s, v.rows[0], start); }
    }
    RestIsAll(s, v, start);
    NothingBefore(s, v, start);
    var n := 0;
    while true
      invariant Reached(s, v, base, state, m) && Sofar(s, v, start, base, m, rows, dropped)
      decreases |v.rows| - m, Distance(s, state.pos)
    {
      var step := s.Next(state, (pos, edge) => fetch(n, pos, edge));
      base, m, dropped := TakesStep(s, v, start, base, state, m, rows, dropped, fetch(n, state.pos, s.Edge(state.pos)), step);
      rows := rows + step.added;
      if step.next.None? {
        return rows, None;
      }
      state := step.next.value;
      n := n + 1;
    }
  }

  lemma NothingBefore(s: Seek, v: Venue, start: Option<int>)
    requires Walkable(s, v)
    ensures NoneHiddenBefore(s, v, start, Lo(s, v, start))
  {}

  // ---- Inputs ----

  function Plain(key: int): Row { Row(Some(key), "") }

  function Ascending(span: Option<nat>, far: Option<int>): Seek { Seek(true, false, true, None, far, span, None) }

  /** Three rows, served one at a time. */
  function Three(a: int, b: int, c: int): Venue { Venue([Plain(a), Plain(b), Plain(c)], 1) }

  lemma ThreeWalkable(a: int, b: int, c: int, span: Option<nat>, far: Option<int>)
    requires a < b < c && (span.Some? ==> span.value >= 1)
    ensures Walkable(Ascending(span, far), Three(a, b, c))
  {}

  /** With no span, keys 1, 2 and 3 on pages of one row: the first page hides the other two rows. */
  lemma FilledKeyHides()
    ensures var s, v := Ascending(None, None), Three(1, 2, 3);
            Walkable(s, v) && Uncapped(s) && HidesSome(s, v, None)
  {
    var s, v := Ascending(None, None), Three(1, 2, 3);
    ThreeWalkable(1, 2, 3, None, None);
    assert v.rows[1] == Plain(2);
    assert !Before(s, v.rows[0], None) && !After(s, v.rows[2], None);
    assert Hides(s, v, None, 0, 1);
  }

  /** With a span of 2 from 1 to 8, key 3 fills its page: key 4 behind it, before the edge 5, is hidden. */
  lemma FilledKeyHidesUpToEdge()
    ensures var s, v := Ascending(Some(2), Some(8)), Three(3, 4, 8);
            Walkable(s, v) && Uncapped(s) && HidesSome(s, v, Some(1))
  {
    var s, v := Ascending(Some(2), Some(8)), Three(3, 4, 8);
    ThreeWalkable(3, 4, 8, Some(2), Some(8));
    BoundsOfThree(3, 4, 8, 3);
    assert v.rows[1] == Plain(4) && s.Edge(Some(3)) == Some(5);
    assert Hides(s, v, Some(1), 0, 1);
  }

  /** Key 8 alone behind it is not: the walk jumps to the edge 5 and comes to it. */
  lemma FilledKeyHidesNothingPastEdge()
    ensures var s, v := Ascending(Some(2), Some(8)), Three(3, 8, 9);
            Walkable(s, v) && Uncapped(s) && Crowd(s, v, Some(1), 0) && Wanted(s, v.rows[1], Some(1)) && !HidesSome(s, v, Some(1))
  {
    var s, v := Ascending(Some(2), Some(8)), Three(3, 8, 9);
    ThreeWalkable(3, 8, 9, Some(2), Some(8));
    BoundsOfThree(3, 8, 9, 2);
    assert s.Edge(Some(3)) == Some(5) && CanJump(s, 3);
    assert v.rows[0] == Plain(3) && v.rows[1] == Plain(8) && v.rows[2] == Plain(9);
    assert !Hides(s, v, Some(1), 0, 1);
  }

  lemma BoundsOfThree(a: int, b: int, c: int, hi: nat)
    requires 1 < a < b < c && b <= 8 && hi == if c <= 8 then 3 else 2
    ensures var s, v := Ascending(Some(2), Some(8)), Three(a, b, c);
            Walkable(s, v) && Lo(s, v, Some(1)) == 0 && Hi(s, v, Some(8)) == hi
  {
    var s, v := Ascending(Some(2), Some(8)), Three(a, b, c);
    ThreeWalkable(a, b, c, Some(2), Some(8));
    assert !Before(s, v.rows[0], Some(1)) && !After(s, v.rows[1], Some(8));
    assert After(s, v.rows[2], Some(8)) <==> c > 8;
  }
}
