/** Small vocabulary shared by the models. */
module Common {

  datatype Option<+T> = None | Some(value: T)

  /** The elements that satisfy `keep`, in order. */
  function Filter<T>(s: seq<T>, keep: T -> bool): seq<T> {
    if s == [] then []
    else if keep(s[0]) then [s[0]] + Filter(s[1..], keep)
    else Filter(s[1..], keep)
  }

  lemma {:induction false} FilterMembers<T>(s: seq<T>, keep: T -> bool)
    ensures forall x :: x in Filter(s, keep) <==> x in s && keep(x)
    ensures |Filter(s, keep)| <= |s|
    decreases s
  {
    if s != [] {
      FilterMembers(s[1..], keep);
    }
  }

  lemma {:induction false} FilterUniform<T>(s: seq<T>, keep: T -> bool)
    ensures (forall x | x in s :: keep(x)) ==> Filter(s, keep) == s
    ensures (forall x | x in s :: !keep(x)) ==> Filter(s, keep) == []
    decreases s
  {
    if s != [] {
      assert s[0] in s && forall x | x in s[1..] :: x in s;
      FilterUniform(s[1..], keep);
      assert s == [s[0]] + s[1..];
    }
  }

  lemma {:induction false} FilterMultiset<T>(s: seq<T>, keep: T -> bool, x: T)
    ensures multiset(Filter(s, keep))[x] == if keep(x) then multiset(s)[x] else 0
    decreases s
  {
    if s != [] {
      FilterMultiset(s[1..], keep, x);
      assert s == [s[0]] + s[1..];
    }
  }

  lemma {:induction false} FilterTwice<T(!new)>(s: seq<T>, p: T -> bool, q: T -> bool, both: T -> bool)
    requires forall x :: both(x) <==> p(x) && q(x)
    ensures Filter(Filter(s, p), q) == Filter(s, both)
    decreases s
  {
    if s != [] {
      FilterTwice(s[1..], p, q, both);
      if p(s[0]) {
        assert ([s[0]] + Filter(s[1..], p))[1..] == Filter(s[1..], p);
      }
    }
  }

  lemma {:induction false} FilterConcat<T>(s: seq<T>, t: seq<T>, p: T -> bool)
    ensures Filter(s + t, p) == Filter(s, p) + Filter(t, p)
    decreases s
  {
    if s == [] {
      assert s + t == t;
    } else {
      assert (s + t)[1..] == s[1..] + t && (s + t)[0] == s[0];
      FilterConcat(s[1..], t, p);
      if p(s[0]) {
        assert [s[0]] + (Filter(s[1..], p) + Filter(t, p)) == ([s[0]] + Filter(s[1..], p)) + Filter(t, p);
      }
    }
  }

  /** Splitting a sequence by a test keeps every element once. */
  lemma {:induction false} FilterPartition<T(!new)>(s: seq<T>, p: T -> bool, not: T -> bool)
    requires forall x :: not(x) <==> !p(x)
    ensures multiset(Filter(s, not)) + multiset(Filter(s, p)) == multiset(s)
    decreases s
  {
    if s != [] {
      FilterPartition(s[1..], p, not);
      assert s == [s[0]] + s[1..];
    }
  }

  /** The elements that belong to a set, in order. */
  function Keep<T(==)>(s: seq<T>, wanted: set<T>): seq<T> {
    if s == [] then []
    else if s[0] in wanted then [s[0]] + Keep(s[1..], wanted)
    else Keep(s[1..], wanted)
  }

  lemma {:induction false} KeepMembers<T>(s: seq<T>, wanted: set<T>)
    ensures forall x :: x in Keep(s, wanted) <==> x in s && x in wanted
    decreases s
  {
    if s != [] {
      KeepMembers(s[1..], wanted);
    }
  }

  lemma {:induction false} KeepSplits<T>(s: seq<T>, wanted: set<T>, rest: set<T>)
    requires forall x | x in s :: x in wanted <==> x !in rest
    ensures |Keep(s, wanted)| + |Keep(s, rest)| == |s|
    decreases s
  {
    if s != [] {
      KeepSplits(s[1..], wanted, rest);
    }
  }

  lemma HasMember<T>(s: seq<T>)
    ensures s == [] || exists x :: x in s
  {
    if s != [] {
      assert s[0] in s;
    }
  }

  ghost predicate Within<T>(s: seq<T>, ps: seq<nat>) { forall k | 0 <= k < |ps| :: ps[k] < |s| }

  /** The elements at some positions. */
  ghost function Pick<T>(s: seq<T>, ps: seq<nat>): seq<T>
    requires Within(s, ps)
  {
    seq(|ps|, k requires 0 <= k < |ps| => s[ps[k]])
  }

  /** Positions of a sequence, in its order. */
  ghost predicate Rising<T>(s: seq<T>, ps: seq<nat>) {
    Within(s, ps) && forall j, k | 0 <= j < k < |ps| :: ps[j] < ps[k]
  }

  ghost predicate Distinct<T>(s: seq<T>) {
    forall i, j | 0 <= i < j < |s| :: s[i] != s[j]
  }

  lemma {:induction false} DistinctCard<T>(s: seq<T>)
    requires Distinct(s)
    ensures |set x | x in s| == |s|
    decreases s
  {
    if s != [] {
      var rest := s[1..];
      DistinctCard(rest);
      assert s[0] !in rest;
      assert (set x | x in s) == {s[0]} + set x | x in rest;
    }
  }

  ghost predicate Increasing(s: seq<int>) {
    forall i, j | 0 <= i < j < |s| :: s[i] < s[j]
  }

  /** The members of a set of numbers in order, as `sorted` lists them. */
  method SortedNumbers(members: set<int>) returns (s: seq<int>)
    ensures Increasing(s) && forall x :: x in s <==> x in members
  {
    s := [];
    var rest := members;
    while |rest| > 0
      invariant rest <= members && Increasing(s)
      invariant forall x :: x in s <==> x in members - rest
      decreases |rest|
    {
      SomeMember(rest);
      var x :| x in rest;
      rest := rest - {x};
      s := InsertNumber(s, x);
    }
  }

  lemma SomeMember(s: set<int>)
    requires |s| > 0
    ensures exists x :: x in s
  {
    if forall x :: x !in s {
      assert false;
    }
  }

  method InsertNumber(s: seq<int>, x: int) returns (r: seq<int>)
    requires Increasing(s) && x !in s
    ensures Increasing(r) && forall y :: y in r <==> y in s || y == x
  {
    var i := 0;
    while i < |s| && s[i] < x
      invariant 0 <= i <= |s| && forall j | 0 <= j < i :: s[j] < x
    {
      i := i + 1;
    }
    assert i < |s| ==> s[i] != x;
    r := s[..i] + [x] + s[i..];
    assert r[i] == x;
    assert forall j | 0 <= j < |s| :: s[j] == r[if j < i then j else j + 1];
  }
}
