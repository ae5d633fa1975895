/** Filtering a sequence, what a filter keeps of each value, and which slice it is. */
module Sequences {

  function Filter<T>(rows: seq<T>, keep: T -> bool): (kept: seq<T>)
    ensures |kept| <= |rows|
  {
    if rows == [] then []
    else
      var rest := Filter(rows[..|rows| - 1], keep);
      if keep(rows[|rows| - 1]) then rest + [rows[|rows| - 1]] else rest
  }

  lemma SnocCount<T>(rows: seq<T>)
    requires rows != []
    ensures multiset(rows) == multiset(rows[..|rows| - 1]) + multiset{rows[|rows| - 1]}
  {
    assert rows == rows[..|rows| - 1] + [rows[|rows| - 1]];
  }

  lemma RemoveCount<T>(rows: seq<T>, i: nat)
    requires i < |rows|
    ensures multiset(rows) == multiset(rows[..i] + rows[i + 1..]) + multiset{rows[i]}
  {
    assert rows == rows[..i] + [rows[i]] + rows[i + 1..];
  }

  lemma SameMembers<T>(a: seq<T>, b: seq<T>, x: T)
    requires multiset(a) == multiset(b)
    ensures |a| == |b|
    ensures x in a <==> x in b
  {
    assert |multiset(a)| == |a| && |multiset(b)| == |b|;
    assert x in a <==> x in multiset(a);
    assert x in b <==> x in multiset(b);
  }

  lemma SameLength<T>(a: seq<T>, b: seq<T>)
    requires multiset(a) == multiset(b)
    ensures |a| == |b|
  {
    assert |multiset(a)| == |a| && |multiset(b)| == |b|;
  }

  lemma FilterSnoc<T>(rows: seq<T>, row: T, keep: T -> bool)
    ensures Filter(rows + [row], keep) == if keep(row) then Filter(rows, keep) + [row] else Filter(rows, keep)
  {
    assert (rows + [row])[..|rows|] == rows;
  }

  /** A filter keeps every copy of a value it accepts and none of a value it rejects. */
  lemma {:induction false} FilterCount<T>(rows: seq<T>, keep: T -> bool, x: T)
    ensures multiset(Filter(rows, keep))[x] == if keep(x) then multiset(rows)[x] else 0
  {
    if rows != [] {
      var init, last := rows[..|rows| - 1], rows[|rows| - 1];
      FilterCount(init, keep, x);
      assert rows == init + [last];
    }
  }

  /** What a filter keeps does not depend on the order of the rows. */
  lemma FilterPermutation<T(!new)>(a: seq<T>, b: seq<T>, keep: T -> bool)
    requires multiset(a) == multiset(b)
    ensures multiset(Filter(a, keep)) == multiset(Filter(b, keep))
    ensures |Filter(a, keep)| == |Filter(b, keep)|
  {
    var ma, mb := multiset(Filter(a, keep)), multiset(Filter(b, keep));
    forall x ensures ma[x] == mb[x] {
      FilterCount(a, keep, x);
      FilterCount(b, keep, x);
    }
    assert ma == mb;
    assert |ma| == |mb|;
  }

  /** A filter that accepts exactly the indices from `a` up to `b` returns that slice. */
  lemma {:induction false} FilterSlice<T>(rows: seq<T>, keep: T -> bool, a: nat, b: nat)
    requires a <= b <= |rows|
    requires forall i :: 0 <= i < |rows| ==> (keep(rows[i]) <==> a <= i < b)
    ensures Filter(rows, keep) == rows[a..b]
  {
    if rows != [] {
      var init := rows[..|rows| - 1];
      if b == |rows| && a < b {
        FilterSlice(init, keep, a, b - 1);
      } else if b == |rows| {
        FilterSlice(init, keep, a - 1, b - 1);
      } else {
        FilterSlice(init, keep, a, b);
      }
    }
  }

  /** A filter whose accepted indices have no gap returns some slice. */
  lemma {:induction false} FilterConvex<T>(rows: seq<T>, keep: T -> bool) returns (a: nat, b: nat)
    requires forall i, j, k :: 0 <= i < j < k < |rows| && keep(rows[i]) && keep(rows[k]) ==> keep(rows[j])
    ensures a <= b <= |rows|
    ensures forall i :: 0 <= i < |rows| ==> (keep(rows[i]) <==> a <= i < b)
    ensures Filter(rows, keep) == rows[a..b]
  {
    a := 0;
    while a < |rows| && !keep(rows[a])
      invariant a <= |rows|
      invariant forall i :: 0 <= i < a ==> !keep(rows[i])
    {
      a := a + 1;
    }
    b := |rows|;
    while a < b && !keep(rows[b - 1])
      invariant a <= b <= |rows|
      invariant forall i :: b <= i < |rows| ==> !keep(rows[i])
    {
      b := b - 1;
    }
    FilterSlice(rows, keep, a, b);
  }

  /** A filter whose accepted indices form a prefix accepts as many as it returns. */
  lemma FilterPrefix<T>(rows: seq<T>, keep: T -> bool)
    requires forall i, j :: 0 <= i < j < |rows| && keep(rows[j]) ==> keep(rows[i])
    ensures forall i :: 0 <= i < |rows| ==> (keep(rows[i]) <==> i < |Filter(rows, keep)|)
  {
    var a, b := FilterConvex(rows, keep);
    if a < b {
      assert keep(rows[a]);
      assert keep(rows[0]);
    }
  }

  lemma FilterAgrees<T>(rows: seq<T>, keep: T -> bool, other: T -> bool)
    requires forall i :: 0 <= i < |rows| ==> (keep(rows[i]) <==> other(rows[i]))
    ensures Filter(rows, keep) == Filter(rows, other)
  {}

  lemma FilterConcat<T>(a: seq<T>, b: seq<T>, keep: T -> bool)
    ensures Filter(a + b, keep) == Filter(a, keep) + Filter(b, keep)
  {
    if b == [] {
      assert a + b == a;
    } else {
      var init, last := b[..|b| - 1], b[|b| - 1];
      FilterConcat(a, init, keep);
      assert a + b == (a + init) + [last];
      FilterSnoc(a + init, last, keep);
    }
  }

  lemma Regrouped<T>(a: seq<T>, b: seq<T>, c: seq<T>)
    ensures a + (b + c) == (a + b) + c
  {}

  /** What a filter lets through is what it accepts. */
  lemma {:induction false} FilterKeeps<T>(rows: seq<T>, keep: T -> bool, i: nat)
    requires i < |Filter(rows, keep)|
    ensures keep(Filter(rows, keep)[i])
  {
    if i < |Filter(rows[..|rows| - 1], keep)| { FilterKeeps(rows[..|rows| - 1], keep, i); }
  }

  lemma {:induction false} FilterMember<T>(rows: seq<T>, keep: T -> bool, i: nat)
    requires i < |Filter(rows, keep)|
    ensures Filter(rows, keep)[i] in rows
  {
    if i < |Filter(rows[..|rows| - 1], keep)| { FilterMember(rows[..|rows| - 1], keep, i); }
  }
}
