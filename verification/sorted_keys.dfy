/** Strings in byte order, and the one sorted list of a set of them. */
module SortedKeys {

  /** `a < b` as Go compares strings. */
  predicate Less(a: string, b: string) {
    if b == "" then false
    else if a == "" then true
    else if a[0] != b[0] then a[0] < b[0]
    else Less(a[1..], b[1..])
  }

  lemma {:induction false} LessTotal(a: string, b: string)
    ensures a == b || Less(a, b) || Less(b, a)
    ensures !(Less(a, b) && Less(b, a)) && !Less(a, a)
  {
    if a != "" && b != "" {
      LessTotal(a[1..], b[1..]);
      if a[0] == b[0] && a[1..] == b[1..] {
        assert a == [a[0]] + a[1..] && b == [b[0]] + b[1..];
      }
    }
    if a != "" {
      LessTotal(a[1..], a[1..]);
    }
  }

  lemma {:induction false} LessTransitive(a: string, b: string, c: string)
    requires Less(a, b) && Less(b, c)
    ensures Less(a, c)
  {
    if a != "" && a[0] == b[0] == c[0] {
      LessTransitive(a[1..], b[1..], c[1..]);
    }
  }

  lemma HasLeast(keys: set<string>) returns (least: string)
    requires keys != {}
    ensures least in keys && forall k :: k in keys ==> k == least || Less(least, k)
  {
    least :| least in keys;
    var rest := keys - {least};
    if rest != {} {
      var other := HasLeast(rest);
      LessTotal(least, other);
      if Less(other, least) {
        least := other;
      } else {
        assert Less(least, other);
        forall k | k in keys && k != least ensures Less(least, k) {
          if k != other {
            assert k in rest;
            LessTransitive(least, other, k);
          }
        }
      }
    }
  }

  lemma LeastExists(keys: set<string>)
    requires keys != {}
    ensures exists l :: l in keys && forall k :: k in keys ==> k == l || Less(l, k)
  {
    var l := HasLeast(keys);
  }

  ghost function Least(keys: set<string>): (least: string)
    requires keys != {}
    ensures least in keys && forall k :: k in keys ==> k == least || Less(least, k)
  {
    LeastExists(keys);
    var l :| l in keys && forall k :: k in keys ==> k == l || Less(l, k);
    l
  }

  /** The keys of a set, in order. */
  ghost function Sorted(keys: set<string>): (s: seq<string>)
    ensures |s| == |keys|
    ensures forall k :: k in s <==> k in keys
  {
    if keys == {} then [] else [Least(keys)] + Sorted(keys - {Least(keys)})
  }

  ghost predicate InOrder(s: seq<string>) {
    forall i, j :: 0 <= i < j < |s| ==> Less(s[i], s[j])
  }

  /** There is only one way to list a set in order. */
  lemma {:induction false} SortedUnique(s: seq<string>, keys: set<string>)
    requires InOrder(s) && forall k :: k in s <==> k in keys
    ensures s == Sorted(keys)
    decreases |s|
  {
    if s == [] {
      assert keys == {};
    } else {
      assert s[0] in keys;
      var least := Least(keys);
      var i :| 0 <= i < |s| && s[i] == least;
      if i > 0 { LessTotal(s[0], s[i]); }
      LessTotal(s[0], s[0]);
      forall k ensures k in s[1..] <==> k in keys - {least} {
        assert s == [s[0]] + s[1..];
      }
      SortedUnique(s[1..], keys - {least});
      assert s == [s[0]] + s[1..];
    }
  }

  /** The list is ascending. */
  lemma {:induction false} SortedInOrder(keys: set<string>)
    ensures InOrder(Sorted(keys))
  {
    if keys != {} {
      var least, rest := Least(keys), Sorted(keys - {Least(keys)});
      SortedInOrder(keys - {least});
      forall j | 0 <= j < |rest| ensures Less(least, rest[j]) {
        assert rest[j] in rest;
      }
    }
  }

  lemma NotLessTransitive(a: string, b: string, c: string)
    requires !Less(b, a) && !Less(c, b)
    ensures !Less(c, a)
  {
    LessTotal(a, b);
    LessTotal(b, c);
    LessTotal(a, c);
    if Less(a, b) && Less(b, c) {
      LessTransitive(a, b, c);
    }
  }

  /** Insertion sort, in place (`sortStrings` in packages/core-go/validation.go). */
  method SortStrings(s: array<string>)
    modifies s
    ensures forall a, b :: 0 <= a < b < s.Length ==> !Less(s[b], s[a])
    ensures multiset(s[..]) == multiset(old(s[..]))
  {
    var i := 1;
    while i < s.Length
      invariant 1 <= i && (s.Length == 0 || i <= s.Length || s.Length == 1)
      invariant forall a, b :: 0 <= a < b < i && b < s.Length ==> !Less(s[b], s[a])
      invariant multiset(s[..]) == multiset(old(s[..]))
    {
      var j := i;
      while j > 0 && Less(s[j], s[j - 1])
        invariant 0 <= j <= i
        invariant forall a, b :: 0 <= a < b <= i && b != j ==> !Less(s[b], s[a])
        invariant multiset(s[..]) == multiset(old(s[..]))
      {
        LessTotal(s[j], s[j - 1]);
        s[j], s[j - 1] := s[j - 1], s[j];
        j := j - 1;
      }
      forall a | 0 <= a < j ensures !Less(s[j], s[a]) {
        if a < j - 1 { NotLessTransitive(s[a], s[j - 1], s[j]); }
      }
      i := i + 1;
    }
  }

  lemma DistinctAfterSort(sorted: seq<string>, given: seq<string>)
    requires multiset(sorted) == multiset(given)
    requires forall i, j :: 0 <= i < j < |given| ==> given[i] != given[j]
    requires forall a, b :: 0 <= a < b < |sorted| ==> !Less(sorted[b], sorted[a])
    ensures InOrder(sorted)
    ensures forall k :: k in sorted <==> k in given
  {
    forall k ensures k in sorted <==> k in given {
      assert k in sorted <==> k in multiset(sorted);
    }
    forall i, j | 0 <= i < j < |sorted| ensures Less(sorted[i], sorted[j]) {
      LessTotal(sorted[i], sorted[j]);
      if sorted[i] == sorted[j] {
        CountTwice(sorted, i, j);
        CountOnce(given, sorted[i]);
      }
    }
  }

  lemma CountTwice(s: seq<string>, i: nat, j: nat)
    requires i < j < |s| && s[i] == s[j]
    ensures multiset(s)[s[i]] >= 2
  {
    assert s == s[..i] + [s[i]] + s[i + 1..j] + [s[j]] + s[j + 1..];
  }

  lemma {:induction false} CountOnce(given: seq<string>, x: string)
    requires forall i, j :: 0 <= i < j < |given| ==> given[i] != given[j]
    ensures multiset(given)[x] <= 1
  {
    if given != [] {
      CountOnce(given[1..], x);
      assert given == [given[0]] + given[1..];
    }
  }

  method SortedList(given: set<string>) returns (keys: seq<string>)
    ensures keys == Sorted(given)
  {
    var listed: seq<string> := [];
    var rest := given;
    while rest != {}
      invariant rest <= given
      invariant forall k :: k in listed <==> k in given - rest
      invariant forall i, j :: 0 <= i < j < |listed| ==> listed[i] != listed[j]
      decreases |rest|
    {
      var k :| k in rest;
      assert k !in listed;
      listed := listed + [k];
      rest := rest - {k};
    }
    var s := new string[|listed|](i requires 0 <= i < |listed| => listed[i]);
    assert s[..] == listed;
    SortStrings(s);
    DistinctAfterSort(s[..], listed);
    SortedUnique(s[..], given);
    keys := s[..];
  }
}
