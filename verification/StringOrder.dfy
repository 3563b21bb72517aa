/** The order in which Python compares strings, as a strict total order. */
module StringOrder {

  predicate Less(s: string, t: string) {
    t != "" && (s == "" || s[0] < t[0] || (s[0] == t[0] && Less(s[1..], t[1..])))
  }

  lemma {:induction false} LessTrichotomy(s: string, t: string)
    ensures s == t || Less(s, t) || Less(t, s)
    decreases s
  {
    if s != "" && t != "" && s[0] == t[0] {
      LessTrichotomy(s[1..], t[1..]);
      if s[1..] == t[1..] {
        assert s == [s[0]] + s[1..] == t;
      }
    }
  }

  lemma {:induction false} LessIsStrict(s: string, t: string)
    ensures !(Less(s, t) && Less(t, s)) && !Less(s, s)
    decreases s
  {
    if s != "" {
      LessIsStrict(s[1..], if t == "" then "" else t[1..]);
    }
  }

  lemma {:induction false} LessIsTransitive(s: string, t: string, u: string)
    requires Less(s, t) && Less(t, u)
    ensures Less(s, u)
    decreases s
  {
    if s != "" && s[0] == t[0] == u[0] {
      LessIsTransitive(s[1..], t[1..], u[1..]);
    }
  }

  ghost predicate Ascending(s: seq<string>) {
    forall i, j | 0 <= i < j < |s| :: Less(s[i], s[j])
  }

  /** The members of a set in order, as `sorted` lists them. */
  method Sorted(members: set<string>) returns (s: seq<string>)
    ensures Ascending(s) && forall x :: x in s <==> x in members
  {
    s := [];
    var rest := members;
    while rest != {}
      invariant rest <= members && Ascending(s)
      invariant forall x :: x in s <==> x in members - rest
      decreases |rest|
    {
      var x :| x in rest;
      rest := rest - {x};
      s := InsertInOrder(s, x);
    }
  }

  method InsertInOrder(s: seq<string>, x: string) returns (r: seq<string>)
    requires Ascending(s) && x !in s
    ensures Ascending(r) && forall y :: y in r <==> y in s || y == x
  {
    var i := 0;
    while i < |s| && Less(s[i], x)
      invariant 0 <= i <= |s| && forall j | 0 <= j < i :: Less(s[j], x)
    {
      i := i + 1;
    }
    forall j | i <= j < |s|
      ensures Less(x, s[j])
    {
      LessTrichotomy(x, s[i]);
      if i < j { LessIsTransitive(x, s[i], s[j]); }
    }
    r := s[..i] + [x] + s[i..];
  }
}
