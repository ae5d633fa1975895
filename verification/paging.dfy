/**
 * Walks made of single fetches (packages/core-go/paging.go): each state determines its page and the state
 * to fetch next.
 */
module Paging {
  import opened Sequences
  import opened Wrappers

  /** One fetch: a page and the state of the following one, none after the last; or a failure. */
  datatype Outcome<T, S, E> = Fetched(rows: seq<T>, next: Option<S>) | Failed(error: E)

  /** What one fetch of a walk gave, where it was fetched from and where to go on. */
  datatype Page<T, S> = Page(rows: seq<T>, state: S, next: Option<S>)

  function PageAt<T, S, E>(next: S -> Outcome<T, S, E>, state: S): Page<T, S>
    requires next(state).Fetched?
  {
    Page(next(state).rows, state, next(state).next)
  }

  /** The pages of a walk from a state, at most `n` of them, up to the first failure. */
  function PagesOf<T, S, E>(next: S -> Outcome<T, S, E>, state: S, n: nat): seq<Page<T, S>>
    decreases n
  {
    if n == 0 || next(state).Failed? then []
    else if next(state).next.None? then [PageAt(next, state)]
    else [PageAt(next, state)] + PagesOf(next, next(state).next.value, n - 1)
  }

  /** The failure that ends a walk within `n` fetches, if one does. */
  function ErrorOf<T, S, E>(next: S -> Outcome<T, S, E>, state: S, n: nat): Option<E>
    decreases n
  {
    if n == 0 then None
    else
      match next(state)
      case Failed(error) => Some(error)
      case Fetched(_, following) => if following.None? then None else ErrorOf(next, following.value, n - 1)
  }

  /** The walk ends, at its last page or at a failure, within `n` fetches. */
  predicate Ends<T, S, E>(next: S -> Outcome<T, S, E>, state: S, n: nat)
    decreases n
  {
    n > 0 && (next(state).Failed? || next(state).next.None? || Ends(next, next(state).next.value, n - 1))
  }

  function RowsOf<T, S>(pages: seq<Page<T, S>>): seq<T> {
    if pages == [] then [] else pages[0].rows + RowsOf(pages[1..])
  }

  /** Some `k + 1` fetches lead from one state to another. */
  predicate Follows<T, S(==), E>(next: S -> Outcome<T, S, E>, state: S, k: nat, from: S)
    decreases k
  {
    && next(state).Fetched? && next(state).next.Some?
    && if k == 0 then next(state).next.value == from else Follows(next, next(state).next.value, k - 1, from)
  }

  lemma {:induction false} IndexFollows<T, S, E>(next: S -> Outcome<T, S, E>, state: S, n: nat, k: nat)
    requires k < |PagesOf(next, state, n)| && PagesOf(next, state, n)[k].next.Some?
    ensures k < n && Follows(next, state, k, PagesOf(next, state, n)[k].next.value)
    decreases k
  {
    if k > 0 {
      PagesAt(next, state, n, k);
      IndexFollows(next, next(state).next.value, n - 1, k - 1);
    }
  }

  lemma PagesCons<T, S, E>(next: S -> Outcome<T, S, E>, state: S, n: nat)
    requires n > 0 && next(state).Fetched? && next(state).next.Some?
    ensures PagesOf(next, state, n) ==
            [PageAt(next, state)] + PagesOf(next, next(state).next.value, n - 1)
  {}

  lemma PagesAt<T, S, E>(next: S -> Outcome<T, S, E>, state: S, n: nat, k: nat)
    requires 0 < k < |PagesOf(next, state, n)|
    ensures n > 0 && next(state).Fetched? && next(state).next.Some?
    ensures var rest := PagesOf(next, next(state).next.value, n - 1);
            k - 1 < |rest| && PagesOf(next, state, n)[k] == rest[k - 1]
  {}

  /** The pages up to a state that follows, then those from it, are the pages of the walk. */
  lemma {:induction false} WalkSplits<T, S, E>(next: S -> Outcome<T, S, E>, state: S, k: nat, from: S, more: nat)
    requires Follows(next, state, k, from)
    ensures PagesOf(next, state, k + 1 + more) == PagesOf(next, state, k + 1) + PagesOf(next, from, more)
    decreases k
  {
    var following := next(state).next.value;
    var first := [PageAt(next, state)];
    PagesCons(next, state, k + 1 + more);
    PagesCons(next, state, k + 1);
    if k == 0 {
      assert first + PagesOf(next, following, 0) == first;
    } else {
      WalkSplits(next, following, k - 1, from, more);
      Regrouped(first, PagesOf(next, following, k), PagesOf(next, from, more));
    }
  }

  /** And the walk ends as it does from that state. */
  lemma {:induction false} WalkEndsAlike<T, S, E>(next: S -> Outcome<T, S, E>, state: S, k: nat, from: S, more: nat)
    requires Follows(next, state, k, from)
    ensures ErrorOf(next, state, k + 1 + more) == ErrorOf(next, from, more)
    ensures Ends(next, state, k + 1 + more) <==> Ends(next, from, more)
    decreases k
  {
    if k > 0 { WalkEndsAlike(next, next(state).next.value, k - 1, from, more); }
  }

  /** Resuming from any page's following state yields exactly the remaining pages, and ends alike. */
  lemma {:induction false} ResumeIsRest<T, S, E>(next: S -> Outcome<T, S, E>, state: S, n: nat, k: nat, from: S)
    requires k < |PagesOf(next, state, n)| && PagesOf(next, state, n)[k].next == Some(from)
    ensures k < n
    ensures PagesOf(next, state, n) == PagesOf(next, state, k + 1) + PagesOf(next, from, n - k - 1)
    ensures ErrorOf(next, state, n) == ErrorOf(next, from, n - k - 1)
    ensures Ends(next, state, n) <==> Ends(next, from, n - k - 1)
  {
    IndexFollows(next, state, n, k);
    var more := n - k - 1;
    WalkSplits(next, state, k, from, more);
    WalkEndsAlike(next, state, k, from, more);
    assert k + 1 + more == n;
  }

  /** What one more fetch adds to the pages before it. */
  lemma PagesStep<T, S, E>(next: S -> Outcome<T, S, E>, state: S, n: nat, before: seq<Page<T, S>>)
    requires n > 0
    ensures match next(state)
            case Failed(_) => before + PagesOf(next, state, n) == before
            case Fetched(rows, following) =>
              var more := before + [Page(rows, state, following)];
              before + PagesOf(next, state, n) == if following.None? then more else more + PagesOf(next, following.value, n - 1)
  {}

  /** Every page is fetched again from its own state. */
  lemma {:induction false} PageIsItsState<T, S, E>(next: S -> Outcome<T, S, E>, state: S, n: nat, k: nat)
    requires k < |PagesOf(next, state, n)|
    ensures var page := PagesOf(next, state, n)[k];
            && next(page.state) == Fetched(page.rows, page.next)
            && (k + 1 < |PagesOf(next, state, n)| ==> page.next == Some(PagesOf(next, state, n)[k + 1].state))
    decreases k
  {
    if k > 0 {
      var following := next(state).next.value;
      PageIsItsState(next, following, n - 1, k - 1);
      assert PagesOf(next, state, n)[k] == PagesOf(next, following, n - 1)[k - 1];
    }
  }

  lemma RowsStep<T, S, E>(next: S -> Outcome<T, S, E>, state: S, n: nat, before: seq<T>)
    requires n > 0 && next(state).Fetched?
    ensures before + RowsOf(PagesOf(next, state, n)) ==
            if next(state).next.None? then before + next(state).rows
            else (before + next(state).rows) + RowsOf(PagesOf(next, next(state).next.value, n - 1))
  {
    var pages := PagesOf(next, state, n);
    var rest := if next(state).next.None? then [] else PagesOf(next, next(state).next.value, n - 1);
    assert pages[1..] == rest && pages[0].rows == next(state).rows;
    assert RowsOf(pages) == next(state).rows + RowsOf(rest);
    Regrouped(before, next(state).rows, RowsOf(rest));
  }

  // ---- Retries ----

  /** An attempt at fetches: each one fails or gets what the step gets. */
  ghost predicate Attempts<T, S(!new), E>(attempt: S -> Outcome<T, S, E>, next: S -> Outcome<T, S, E>) {
    forall state :: attempt(state).Failed? || attempt(state) == next(state)
  }

  /** Where a caller that retries is: the pages it has and the state to go on from, none when it is done. */
  datatype Progress<T, S> = Progress(pages: seq<Page<T, S>>, at: Option<S>)

  /** One attempt at the page the caller is waiting for, which it keeps waiting for on a failure. */
  function Tried<T, S, E>(attempt: S -> Outcome<T, S, E>, p: Progress<T, S>): Progress<T, S> {
    if p.at.None? then p
    else
      match attempt(p.at.value)
      case Failed(_) => p
      case Fetched(rows, following) => Progress(p.pages + [Page(rows, p.at.value, following)], following)
  }

  function AfterAll<T, S, E>(attempts: seq<S -> Outcome<T, S, E>>, p: Progress<T, S>): Progress<T, S> {
    if attempts == [] then p else AfterAll(attempts[1..], Tried(attempts[0], p))
  }

  /** The pages so far are the first ones of the walk, and the caller waits for the one after them. */
  ghost predicate OnTheWalk<T, S, E>(next: S -> Outcome<T, S, E>, init: S, p: Progress<T, S>) {
    var k := |p.pages|;
    && p.pages == PagesOf(next, init, k)
    && p.at == if k == 0 then Some(init) else p.pages[k - 1].next
  }

  lemma {:induction false} OneMorePage<T, S, E>(next: S -> Outcome<T, S, E>, state: S, n: nat)
    requires |PagesOf(next, state, n)| == n
    requires n > 0 ==> PagesOf(next, state, n)[n - 1].next.Some?
    ensures var at := if n == 0 then state else PagesOf(next, state, n)[n - 1].next.value;
            next(at).Fetched? ==> PagesOf(next, state, n + 1) == PagesOf(next, state, n) + [Page(next(at).rows, at, next(at).next)]
    decreases n
  {
    if n > 0 {
      var following := next(state).next;
      var rest := PagesOf(next, following.value, n - 1);
      assert PagesOf(next, state, n)[1..] == rest;
      assert n > 1 ==> PagesOf(next, state, n)[n - 1] == rest[n - 2];
      OneMorePage(next, following.value, n - 1);
    }
  }

  /** However attempts fail, what retries and resumptions collect is a beginning of the walk that never fails. */
  lemma {:induction false} RetriesStayOnTheWalk<T, S(!new), E>(next: S -> Outcome<T, S, E>, init: S, attempts: seq<S -> Outcome<T, S, E>>, p: Progress<T, S>)
    requires OnTheWalk(next, init, p)
    requires forall i :: 0 <= i < |attempts| ==> Attempts(attempts[i], next)
    ensures OnTheWalk(next, init, AfterAll(attempts, p))
  {
    if attempts != [] {
      var attempt := attempts[0];
      var after := Tried(attempt, p);
      if p.at.Some? {
        OneMorePage(next, init, |p.pages|);
        assert attempt(p.at.value).Failed? || attempt(p.at.value) == next(p.at.value);
      }
      assert OnTheWalk(next, init, after);
      RetriesStayOnTheWalk(next, init, attempts[1..], after);
    }
  }

  /** A caller with nothing left to wait for has the whole walk, with no failure in it. */
  lemma {:induction false} DoneIsWhole<T, S, E>(next: S -> Outcome<T, S, E>, init: S, p: Progress<T, S>, n: nat)
    requires OnTheWalk(next, init, p) && p.at.None? && n >= |p.pages|
    ensures Ends(next, init, n) && PagesOf(next, init, n) == p.pages && ErrorOf(next, init, n) == None
  {
    LastPageEnds(next, init, |p.pages|, n);
  }

  lemma {:induction false} LastPageEnds<T, S, E>(next: S -> Outcome<T, S, E>, state: S, k: nat, n: nat)
    requires 0 < k <= n && |PagesOf(next, state, k)| == k && PagesOf(next, state, k)[k - 1].next.None?
    ensures Ends(next, state, n) && PagesOf(next, state, n) == PagesOf(next, state, k) && ErrorOf(next, state, n) == None
    decreases k
  {
    if k > 1 {
      var following := next(state).next;
      assert PagesOf(next, state, k)[1..] == PagesOf(next, following.value, k - 1);
      assert PagesOf(next, state, k)[k - 1] == PagesOf(next, following.value, k - 1)[k - 2];
      LastPageEnds(next, following.value, k - 1, n - 1);
    }
  }

  // ---- Wrappers ----

  /** The fetches a wrapper may make of one state: each fails or gets what the step gets. */
  ghost predicate Flaky<T, S(!new), E>(fetches: S -> nat -> Outcome<T, S, E>, next: S -> Outcome<T, S, E>) {
    forall state, k: nat :: fetches(state)(k).Failed? || fetches(state)(k) == next(state)
  }

  /** A wrapper, however often it fetches, answers with the outcome of one of its fetches. */
  ghost predicate AnswersOne<T(!new), S(!new), E(!new)>(call: (nat -> Outcome<T, S, E>) -> Outcome<T, S, E>) {
    forall fetch: nat -> Outcome<T, S, E> :: exists k: nat :: call(fetch) == fetch(k)
  }

  /** The step with every page's fetches made through a wrapper. */
  function Via<T, S, E>(fetches: S -> nat -> Outcome<T, S, E>, call: (nat -> Outcome<T, S, E>) -> Outcome<T, S, E>): S -> Outcome<T, S, E> {
    state => call(fetches(state))
  }

  lemma ViaAttempts<T(!new), S(!new), E(!new)>(next: S -> Outcome<T, S, E>, fetches: S -> nat -> Outcome<T, S, E>,
                                               call: (nat -> Outcome<T, S, E>) -> Outcome<T, S, E>)
    requires Flaky(fetches, next) && AnswersOne(call)
    ensures Attempts(Via(fetches, call), next)
  {
    forall state ensures Via(fetches, call)(state).Failed? || Via(fetches, call)(state) == next(state) {
      var k: nat :| call(fetches(state)) == fetches(state)(k);
    }
  }

  predicate IsPrefix<T(==), S(==)>(a: seq<Page<T, S>>, b: seq<Page<T, S>>) { |a| <= |b| && a == b[..|a|] }

  lemma {:induction false} AttemptsFollow<T, S(!new), E>(attempt: S -> Outcome<T, S, E>, next: S -> Outcome<T, S, E>, state: S, n: nat)
    requires Attempts(attempt, next)
    ensures IsPrefix(PagesOf(attempt, state, n), PagesOf(next, state, n))
    ensures ErrorOf(attempt, state, n).None? ==>
              PagesOf(attempt, state, n) == PagesOf(next, state, n) && ErrorOf(next, state, n).None?
    decreases n
  {
    if n > 0 {
      assert attempt(state).Failed? || attempt(state) == next(state);
      if attempt(state).Fetched? && attempt(state).next.Some? {
        AttemptsFollow(attempt, next, attempt(state).next.value, n - 1);
      }
    }
  }

  /**
   * Through a wrapper whose fetches may fail and be made again, a walk has the pages of the plain walk up
   * to a failure the wrapper answered with, and all of them when there is none.
   */
  lemma ViaIsPlainWalk<T(!new), S(!new), E(!new)>(next: S -> Outcome<T, S, E>, fetches: S -> nat -> Outcome<T, S, E>,
                                                  call: (nat -> Outcome<T, S, E>) -> Outcome<T, S, E>, state: S, n: nat)
    requires Flaky(fetches, next) && AnswersOne(call)
    ensures var via := Via(fetches, call);
            && IsPrefix(PagesOf(via, state, n), PagesOf(next, state, n))
            && (ErrorOf(via, state, n).None? ==> PagesOf(via, state, n) == PagesOf(next, state, n))
  {
    ViaAttempts(next, fetches, call);
    AttemptsFollow(Via(fetches, call), next, state, n);
  }

  // ---- The walk itself ----

  /** A walk: its first state and its step. */
  class PaginatedResponse<T, S, E> {
    const Init: S
    const Next: S -> Outcome<T, S, E>

    constructor (init: S, next: S -> Outcome<T, S, E>)
      ensures Init == init && Next == next
    {
      Init := init;
      Next := next;
    }

    /** The pages a consumer takes, which stops after `take` of them, and the failure that stopped it first. */
    method Pages(take: nat) returns (pages: seq<Page<T, S>>, error: Option<E>)
      ensures pages == PagesOf(Next, Init, take) && error == ErrorOf(Next, Init, take)
    {
      pages, error := [], None;
      var state, left := Init, take;
      while left > 0
        invariant PagesOf(Next, Init, take) == pages + PagesOf(Next, state, left)
        invariant ErrorOf(Next, Init, take) == ErrorOf(Next, state, left)
      {
        PagesStep(Next, state, left, pages);
        match Next(state)
        case Failed(e) => return pages, Some(e);
        case Fetched(rows, following) =>
          pages := pages + [Page(rows, state, following)];
          if following.None? {
            return;
          }
          state, left := following.value, left - 1;
      }
    }

    /** Every row of every page of a walk that ends, flattened, and its failure if it has one. */
    method All(ghost bound: nat) returns (out: seq<T>, error: Option<E>)
      requires Ends(Next, Init, bound)
      ensures out == RowsOf(PagesOf(Next, Init, bound)) && error == ErrorOf(Next, Init, bound)
    {
      out := [];
      var state := Init;
      ghost var left := bound;
      while true
        invariant Ends(Next, state, left)
        invariant RowsOf(PagesOf(Next, Init, bound)) == out + RowsOf(PagesOf(Next, state, left))
        invariant ErrorOf(Next, Init, bound) == ErrorOf(Next, state, left)
        decreases left
      {
        match Next(state)
        case Failed(e) => return out, Some(e);
        case Fetched(rows, following) =>
          RowsStep(Next, state, left, out);
          out := out + rows;
          if following.None? {
            return out, None;
          }
          state := following.value;
          left := left - 1;
      }
    }

    /** The same walk started from a state. */
    method Resume(state: S) returns (walk: PaginatedResponse<T, S, E>)
      ensures walk.Init == state && walk.Next == Next
    {
      walk := new PaginatedResponse(state, Next);
    }
  }
}
