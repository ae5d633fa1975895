/**
 * The `seek` pagination step (packages/core-go/seek.go): a page's extreme key becomes the bound of the
 * next request, and its rows at that key are taken out of the next page.
 */
module Seek {
  import opened Wrappers
  import opened Sequences

  /** One row: its cursor field, when it has one, and everything else it says. */
  datatype Row = Row(key: Option<int>, body: string)

  /** Where a walk stands: its bound, and what it has yielded at that very key. */
  datatype State = State(pos: Option<int>, carried: seq<Row>)

  /** The three `LogicError`s a walk can end in. */
  datatype Failure = UnboundedSpan | RowVanished | StuckOnKey

  datatype Step = Failed(why: Failure) | Page(added: seq<Row>, next: Option<State>)

  /** The rows a page adds, and the carried rows it did not serve again. */
  datatype Split = Split(added: seq<Row>, remaining: seq<Row>)

  function IndexOf(rows: seq<Row>, row: Row): (i: nat)
    ensures i <= |rows|
    ensures i < |rows| ==> rows[i] == row
    ensures row in rows <==> i < |rows|
    ensures forall j :: 0 <= j < i ==> rows[j] != row
  {
    if rows == [] || rows[0] == row then 0 else 1 + IndexOf(rows[1..], row)
  }

  /** Match one row against the first remaining carried row of the same content. */
  function Match(before: Split, row: Row): Split
  {
    var found := IndexOf(before.remaining, row);
    if found < |before.remaining|
    then before.(remaining := before.remaining[..found] + before.remaining[found + 1..])
    else before.(added := before.added + [row])
  }

  function Matched(rows: seq<Row>, carried: seq<Row>): Split
  {
    if rows == [] then Split([], carried)
    else Match(Matched(rows[..|rows| - 1], carried), rows[|rows| - 1])
  }

  /** Matching loses and invents nothing, and never leaves a row both unmatched and added. */
  ghost predicate Balanced(m: Split, rows: multiset<Row>, carried: multiset<Row>) {
    && multiset(m.added) + carried == rows + multiset(m.remaining)
    && multiset(m.added) !! multiset(m.remaining)
  }

  lemma MatchBalances(m: Split, row: Row, rows: multiset<Row>, carried: multiset<Row>)
    requires Balanced(m, rows, carried)
    ensures Balanced(Match(m, row), rows + multiset{row}, carried)
  {
    var i := IndexOf(m.remaining, row);
    if i < |m.remaining| {
      RemoveCount(m.remaining, i);
    } else {
      calc {
        multiset(m.added + [row]) + carried;
        multiset(m.added) + carried + multiset{row};
        rows + multiset{row} + multiset(m.remaining);
      }
    }
  }

  lemma {:induction false} MatchedBalances(rows: seq<Row>, carried: seq<Row>)
    ensures Balanced(Matched(rows, carried), multiset(rows), multiset(carried))
  {
    if rows != [] {
      var init, row := rows[..|rows| - 1], rows[|rows| - 1];
      MatchedBalances(init, carried);
      MatchBalances(Matched(init, carried), row, multiset(init), multiset(carried));
      SnocCount(rows);
      assert Matched(rows, carried) == Match(Matched(init, carried), row);
    }
  }

  predicate SharesKey(row: Row, carried: seq<Row>) {
    row.key.Some? && exists c :: c in carried && c.key == row.key
  }

  function DropShared(rows: seq<Row>, carried: seq<Row>): seq<Row> {
    Filter(rows, (row: Row) => !SharesKey(row, carried))
  }

  function At(rows: seq<Row>, key: int): seq<Row> {
    Filter(rows, (row: Row) => row.key == Some(key))
  }

  lemma BalancedOut<T(!new)>(added: multiset<T>, remaining: multiset<T>, carried: multiset<T>, page: multiset<T>)
    requires added + carried == carried + page + remaining
    requires added !! remaining
    ensures remaining == multiset{} && added == page
  {
    forall x ensures remaining[x] == 0 && added[x] == page[x] {
      assert (added + carried)[x] == (carried + page + remaining)[x];
    }
  }

  lemma DedupByContent(rows: seq<Row>, carried: seq<Row>, page: multiset<Row>)
    requires multiset(rows) == multiset(carried) + page
    ensures Matched(rows, carried).remaining == []
    ensures multiset(Matched(rows, carried).added) == page
  {
    MatchedBalances(rows, carried);
    var split := Matched(rows, carried);
    BalancedOut(multiset(split.added), multiset(split.remaining), multiset(carried), page);
    SameLength(split.remaining, []);
  }

  lemma SharesPermutation(a: seq<Row>, b: seq<Row>, row: Row)
    requires multiset(a) == multiset(b)
    ensures SharesKey(row, a) ==> SharesKey(row, b)
  {
    if SharesKey(row, a) {
      var c :| c in a && c.key == row.key;
      SameMembers(a, b, c);
    }
  }

  lemma DedupByKey(block: seq<Row>, page: seq<Row>, carried: seq<Row>)
    requires multiset(carried) == multiset(block)
    requires forall i :: 0 <= i < |block| ==> block[i].key.Some?
    requires forall i, j :: 0 <= i < |block| && 0 <= j < |page| ==> block[i].key != page[j].key
    ensures DropShared(block + page, carried) == page
  {
    var keep := (row: Row) => !SharesKey(row, carried);
    forall i | 0 <= i < |block| ensures !keep(block[i]) {
      assert block[i] in block;
      SharesPermutation(block, carried, block[i]);
    }
    forall i | 0 <= i < |page| ensures keep(page[i]) {
      if SharesKey(page[i], carried) { SharesPermutation(carried, block, page[i]); }
    }
    FilterSlice(block + page, keep, |block|, |block| + |page|);
  }

  /** The rows at a key, whatever the wire order, when they close the page. */
  lemma AtIsTail(page: seq<Row>, from: nat, rows: seq<Row>, key: int)
    requires multiset(rows) == multiset(page) && from <= |page|
    requires forall i :: 0 <= i < |page| ==> (page[i].key == Some(key) <==> from <= i)
    ensures multiset(At(rows, key)) == multiset(page[from..])
  {
    var keep := (row: Row) => row.key == Some(key);
    FilterPermutation(rows, page, keep);
    FilterSlice(page, keep, from, |page|);
    assert page[from..|page|] == page[from..];
  }

  function Least(a: int, b: int): int { if a < b then a else b }

  datatype Seek = Seek(
    unique: bool,
    descending: bool,
    ordered: bool,
    cap: Option<nat>,
    far: Option<int>,
    span: Option<nat>,
    past: Option<Row -> bool>)
  {
    /** The walk comes to `b` before it comes to `a`. */
    predicate Beyond(a: int, b: int) {
      if descending then a < b else a > b
    }

    /** How far on `to` lies from `from`, as the walk goes. */
    function Ahead(from: int, to: int): int {
      if descending then from - to else to - from
    }

    predicate Past(row: Row) {
      past.Some? && past.value(row)
    }

    function DropPast(rows: seq<Row>): seq<Row> {
      Filter(rows, (row: Row) => !Past(row))
    }

    /** How far one request reaches under a span: a span on, or to the caller's far bound when that is nearer. */
    function Edge(pos: Option<int>): (edge: Option<int>)
      requires span.Some? ==> pos.Some? && far.Some?
      ensures edge.Some? <==> span.Some?
      ensures edge.Some? ==> !Beyond(edge.value, far.value)
      ensures edge.Some? && edge != far ==> span.value == if descending then pos.value - edge.value else edge.value - pos.value
    {
      if span.None? then None
      else
        var shifted := if descending then pos.value - span.value else pos.value + span.value;
        Some(if Beyond(shifted, far.value) then far.value else shifted)
    }

    /** Whichever way the walk goes, the edge lies a span ahead, or as far ahead as the caller's far bound when that is less. */
    lemma EdgeReaches(pos: int)
      requires span.Some? && far.Some?
      ensures Ahead(pos, Edge(Some(pos)).value) == Least(span.value, Ahead(pos, far.value))
    {}

    function Dedup(rows: seq<Row>, carried: seq<Row>): Result<seq<Row>, Failure> {
      if carried == [] then Success(rows)
      else if unique then Success(DropShared(rows, carried))
      else
        var split := Matched(rows, carried);
        if split.remaining != [] then Failure(RowVanished) else Success(split.added)
    }

    /** The key the next bound moves to: the furthest one, or the last one when keys have no order. */
    function Extreme(rows: seq<Row>): (extreme: Option<int>)
      ensures extreme.None? <==> forall row :: row in rows ==> row.key.None?
      ensures extreme.Some? ==> exists row :: row in rows && row.key == extreme
      ensures extreme.Some? && ordered ==>
                forall row :: row in rows && row.key.Some? ==> !Beyond(row.key.value, extreme.value)
    {
      if rows == [] then None
      else
        var before := Extreme(rows[..|rows| - 1]);
        var key := rows[|rows| - 1].key;
        assert rows == rows[..|rows| - 1] + [rows[|rows| - 1]];
        if key.None? then before
        else if before.None? || !ordered || Beyond(key.value, before.value) then key
        else before
    }

    /** Taking the carried rows out of a page that starts with them leaves the rest of the page. */
    lemma DedupTakesBlock(block: seq<Row>, page: seq<Row>, carried: seq<Row>, rows: seq<Row>)
      requires multiset(carried) == multiset(block) && multiset(rows) == multiset(block + page)
      requires unique ==> forall i :: 0 <= i < |block| ==> block[i].key.Some?
      requires unique ==> forall i, j :: 0 <= i < |block| && 0 <= j < |page| ==> block[i].key != page[j].key
      ensures Dedup(rows, carried).Success?
      ensures multiset(Dedup(rows, carried).value) == multiset(page)
    {
      SameLength(carried, block);
      if carried == [] {
        assert block + page == page;
      } else if unique {
        DedupByKey(block, page, carried);
        FilterPermutation(rows, block + page, (row: Row) => !SharesKey(row, carried));
      } else {
        DedupByContent(rows, carried, multiset(page));
      }
    }

    lemma ExtremeIsLast(page: seq<Row>, rows: seq<Row>)
      requires ordered && multiset(rows) == multiset(page)
      requires forall i :: 0 <= i < |page| ==> page[i].key.Some?
      requires forall i :: 0 <= i < |page| ==> !Beyond(page[i].key.value, page[|page| - 1].key.value)
      ensures |rows| == |page|
      ensures Extreme(rows) == if page == [] then None else page[|page| - 1].key
    {
      SameLength(rows, page);
      if page != [] {
        var last := page[|page| - 1];
        SameMembers(rows, page, last);
        var row :| row in rows && row.key == Extreme(rows);
        SameMembers(rows, page, row);
      }
    }

    /** Everything a step does once its page has arrived. */
    function Fold(state: State, edge: Option<int>, rows: seq<Row>): Step
      requires edge.Some? ==> far.Some?
    {
      match Dedup(rows, state.carried)
      case Failure(why) => Failed(why)
      case Success(added) =>
        if exists row :: row in rows && Past(row) then
          Page(DropPast(added), None)
        else
          var extreme := Extreme(rows);
          var samePos := extreme.Some? && extreme == state.pos;
          if cap.Some? && |rows| >= cap.value then
            if extreme.None? || samePos then Failed(StuckOnKey)
            else Page(added, Some(State(extreme, At(rows, extreme.value))))
          else if cap.None? && extreme.Some? && !samePos then
            Page(added, Some(State(extreme, At(rows, extreme.value))))
          else if edge.None? || !Beyond(far.value, edge.value) then
            Page(added, None)
          else
            Page(added, Some(State(edge, At(rows, edge.value))))
    }

    /** The rows whose key no carried row has. */
    method DropCarriedKeys(rows: seq<Row>, carried: seq<Row>) returns (added: seq<Row>)
      ensures added == DropShared(rows, carried)
    {
      added := [];
      for i := 0 to |rows|
        invariant added == DropShared(rows[..i], carried)
      {
        var seen := false;
        for j := 0 to |carried|
          invariant seen <==> SharesKey(rows[i], carried[..j])
        {
          if rows[i].key.Some? && carried[j].key == rows[i].key {
            seen := true;
            assert carried[j] in carried[..j + 1];
            break;
          }
        }
        assert carried[..|carried|] == carried;
        assert seen <==> SharesKey(rows[i], carried);
        assert rows[..i + 1] == rows[..i] + [rows[i]];
        FilterSnoc(rows[..i], rows[i], (row: Row) => !SharesKey(row, carried));
        if !seen {
          added := added + [rows[i]];
        }
      }
      assert rows[..|rows|] == rows;
    }

    /** The rows left once every carried row has taken out its first equal. */
    method DropCarriedRows(rows: seq<Row>, carried: seq<Row>) returns (split: Split)
      ensures split == Matched(rows, carried)
    {
      var added, remaining := [], carried;
      for i := 0 to |rows|
        invariant Split(added, remaining) == Matched(rows[..i], carried)
      {
        var found := 0;
        while found < |remaining| && remaining[found] != rows[i]
          invariant 0 <= found <= |remaining|
          invariant forall j :: 0 <= j < found ==> remaining[j] != rows[i]
        {
          found := found + 1;
        }
        assert found == IndexOf(remaining, rows[i]);
        assert rows[..i + 1][..i] == rows[..i];
        if found < |remaining| {
          remaining := remaining[..found] + remaining[found + 1..];
        } else {
          added := added + [rows[i]];
        }
      }
      assert rows[..|rows|] == rows;
      split := Split(added, remaining);
    }

    method DedupRows(rows: seq<Row>, carried: seq<Row>) returns (r: Result<seq<Row>, Failure>)
      ensures r == Dedup(rows, carried)
    {
      if |carried| == 0 {
        return Success(rows);
      }
      if unique {
        var kept := DropCarriedKeys(rows, carried);
        return Success(kept);
      }
      var split := DropCarriedRows(rows, carried);
      if |split.remaining| > 0 {
        return Failure(RowVanished);
      }
      return Success(split.added);
    }

    method FindExtreme(rows: seq<Row>) returns (extreme: Option<int>)
      ensures extreme == Extreme(rows)
    {
      extreme := None;
      for i := 0 to |rows|
        invariant extreme == Extreme(rows[..i])
      {
        assert rows[..i + 1][..i] == rows[..i];
        if rows[i].key.Some? && (extreme.None? || !ordered || Beyond(rows[i].key.value, extreme.value)) {
          extreme := rows[i].key;
        }
      }
      assert rows[..|rows|] == rows;
    }

    /** One step: request the state's page, then fold it. */
    method Next(state: State, fetch: (Option<int>, Option<int>) -> seq<Row>) returns (r: Step)
      ensures r == if span.Some? && (state.pos.None? || far.None?) then Failed(UnboundedSpan)
                   else var edge := Edge(state.pos); Fold(state, edge, fetch(state.pos, edge))
    {
      if span.Some? && (state.pos.None? || far.None?) {
        return Failed(UnboundedSpan);
      }
      var edge := Edge(state.pos);
      var rows := fetch(state.pos, edge);
      var deduped := DedupRows(rows, state.carried);
      if deduped.Failure? {
        return Failed(deduped.error);
      }
      var added := deduped.value;
      if exists row :: row in rows && Past(row) {
        return Page(DropPast(added), None);
      }
      var extreme := FindExtreme(rows);
      var samePos := extreme.Some? && state.pos.Some? && extreme.value == state.pos.value;
      if cap.Some? && |rows| >= cap.value {
        if extreme.None? || samePos {
          return Failed(StuckOnKey);
        }
        return Page(added, Some(State(extreme, At(rows, extreme.value))));
      }
      if cap.None? && extreme.Some? && !samePos {
        return Page(added, Some(State(extreme, At(rows, extreme.value))));
      }
      if edge.None? || !Beyond(far.value, edge.value) {
        return Page(added, None);
      }
      return Page(added, Some(State(edge, At(rows, edge.value))));
    }
  }
}
