/**
 * The cohort of the criterion-gaming measurement: which diagnose attempts qualify, under
 * which clause every other one is counted, and which attempt speaks for its issue.
 */
module CriterionCohort {
  import opened Common
  import StringOrder

  /** One diagnose attempt; `stamp` is its start time once parsed, if it parses. */
  datatype Attempt = Attempt(
    runId: string, issue: int, title: string, startedAt: string, stamp: Option<int>,
    finalPhase: string, location: Option<string>, cause: string, criterion: string)

  datatype Window = Window(since: int, until: int, named: seq<int>)

  datatype Clause =
    | BeforeWindow | AfterWindow | UnreadableStart
    | NotDone | EmptyCriterion | NoLanding | DryRunLanding | IndistinguishableLanding

  predicate IsSpace(c: char) { c == ' ' || '\t' <= c <= '\r' }

  predicate Blank(s: string) { forall c | c in s :: IsSpace(c) }

  predicate PathShaped(location: string) { '/' in location && !("issue #" <= location) }

  /** The clause that keeps an attempt out of the window, if any. */
  function OutsideWindow(a: Attempt, w: Window): Option<Clause> {
    if a.issue in w.named then None
    else if a.stamp.None? then Some(UnreadableStart)
    else if a.stamp.value < w.since then Some(BeforeWindow)
    else if a.stamp.value > w.until then Some(AfterWindow)
    else None
  }

  /** The clause that excludes an attempt, if any. */
  function ExcludedBy(a: Attempt, w: Window): Option<Clause> {
    if OutsideWindow(a, w).Some? then OutsideWindow(a, w)
    else if a.finalPhase != "DONE" then Some(NotDone)
    else if Blank(a.criterion) then Some(EmptyCriterion)
    else if a.location.None? then Some(NoLanding)
    else if "<dry-run:" <= a.location.value then Some(DryRunLanding)
    else if PathShaped(a.location.value) then Some(IndistinguishableLanding)
    else None
  }

  /** What the cohort rule asks of an attempt, clause by clause. */
  ghost predicate Qualifies(a: Attempt, w: Window) {
    && (a.issue in w.named || (a.stamp.Some? && w.since <= a.stamp.value <= w.until))
    && a.finalPhase == "DONE" && !Blank(a.criterion) && a.location.Some?
    && !("<dry-run:" <= a.location.value) && !PathShaped(a.location.value)
  }

  /** An attempt the window admits: named, or started inside the bounds. */
  ghost predicate Windowed(a: Attempt, w: Window) {
    a.issue in w.named || (a.stamp.Some? && w.since <= a.stamp.value <= w.until)
  }

  /** Which attempts each clause names; the clauses are tried in the order listed here. */
  ghost predicate ClauseNames(c: Clause, a: Attempt, w: Window) {
    match c
    case UnreadableStart => a.issue !in w.named && a.stamp == None
    case BeforeWindow => a.issue !in w.named && a.stamp.Some? && a.stamp.value < w.since
    case AfterWindow => a.issue !in w.named && a.stamp.Some? && a.stamp.value >= w.since && a.stamp.value > w.until
    case NotDone => Windowed(a, w) && a.finalPhase != "DONE"
    case EmptyCriterion => Windowed(a, w) && a.finalPhase == "DONE" && Blank(a.criterion)
    case NoLanding => Windowed(a, w) && a.finalPhase == "DONE" && !Blank(a.criterion) && a.location == None
    case DryRunLanding => Lands(a, w) && "<dry-run:" <= a.location.value
    case IndistinguishableLanding =>
      Lands(a, w) && !("<dry-run:" <= a.location.value) && '/' in a.location.value && !("issue #" <= a.location.value)
  }

  ghost predicate Lands(a: Attempt, w: Window) {
    Windowed(a, w) && a.finalPhase == "DONE" && !Blank(a.criterion) && a.location.Some?
  }

  lemma ClausesAre(a: Attempt, w: Window)
    ensures forall c :: ExcludedBy(a, w) == Some(c) <==> ClauseNames(c, a, w)
    ensures ExcludedBy(a, w) == None <==> Qualifies(a, w)
    ensures OutsideWindow(a, w) == None <==> Windowed(a, w)
    ensures OutsideWindow(a, w) == Some(BeforeWindow) <==> ClauseNames(BeforeWindow, a, w)
  {
    hide Blank;
    forall c ensures ExcludedBy(a, w) == Some(c) <==> ClauseNames(c, a, w) {
      match c case BeforeWindow => case AfterWindow => case UnreadableStart => case NotDone =>
      case EmptyCriterion => case NoLanding => case DryRunLanding => case IndistinguishableLanding =>
    }
  }

  // ---------------------------------------------------------------- counting

  /** How many attempts a clause excludes. */
  function CountExcluded(attempts: seq<Attempt>, w: Window, c: Clause): nat {
    if attempts == [] then 0
    else
      var last := attempts[|attempts| - 1];
      CountExcluded(attempts[..|attempts| - 1], w, c) + if ExcludedBy(last, w) == Some(c) then 1 else 0
  }

  /** The qualifying attempts of one issue, in corpus order. */
  function QualifyingOf(attempts: seq<Attempt>, w: Window, issue: int): seq<Attempt> {
    if attempts == [] then []
    else
      var last := attempts[|attempts| - 1];
      QualifyingOf(attempts[..|attempts| - 1], w, issue) +
      if ExcludedBy(last, w).None? && last.issue == issue then [last] else []
  }

  function PhaseOf(a: Attempt): string { if a.finalPhase == "" then "UNKNOWN" else a.finalPhase }

  function CountPhase(attempts: seq<Attempt>, w: Window, phase: string): nat {
    if attempts == [] then 0
    else
      var last := attempts[|attempts| - 1];
      CountPhase(attempts[..|attempts| - 1], w, phase) +
      if OutsideWindow(last, w).None? && PhaseOf(last) == phase then 1 else 0
  }

  lemma {:induction false} QualifyingMembers(attempts: seq<Attempt>, w: Window, issue: int)
    ensures forall a :: a in QualifyingOf(attempts, w, issue) <==> a in attempts && a.issue == issue && Qualifies(a, w)
    decreases attempts
  {
    if attempts != [] {
      var rest, last := attempts[..|attempts| - 1], attempts[|attempts| - 1];
      QualifyingMembers(rest, w, issue);
      assert attempts == rest + [last];
    }
  }

  /** The positions at which a clause excludes an attempt. */
  ghost function NamedBy(attempts: seq<Attempt>, w: Window, c: Clause): set<nat> {
    set i: nat | i < |attempts| && ClauseNames(c, attempts[i], w)
  }

  /** The phase an attempt is counted under: its own, UNKNOWN for an empty one. */
  ghost predicate Reads(a: Attempt, phase: string) {
    if a.finalPhase == "" then phase == "UNKNOWN" else phase == a.finalPhase
  }

  /** The positions of windowed attempts counted under a phase. */
  ghost function EndedIn(attempts: seq<Attempt>, w: Window, phase: string): set<nat> {
    set i: nat | i < |attempts| && Windowed(attempts[i], w) && Reads(attempts[i], phase)
  }

  lemma NamedAfter(attempts: seq<Attempt>, a: Attempt, w: Window, c: Clause)
    ensures |NamedBy(attempts + [a], w, c)| == |NamedBy(attempts, w, c)| + if ClauseNames(c, a, w) then 1 else 0
  {
    hide ClauseNames;
    var n, more := |attempts|, attempts + [a];
    var was, now := NamedBy(attempts, w, c), NamedBy(more, w, c);
    assert more[n] == a && forall i: nat | i < n :: more[i] == attempts[i];
    if ClauseNames(c, a, w) { assert now == was + {n}; } else { assert now == was; }
  }

  lemma EndedAfter(attempts: seq<Attempt>, a: Attempt, w: Window, phase: string)
    ensures |EndedIn(attempts + [a], w, phase)| ==
            |EndedIn(attempts, w, phase)| + if Windowed(a, w) && Reads(a, phase) then 1 else 0
  {
    hide Windowed, Reads;
    var n, more := |attempts|, attempts + [a];
    var was, now := EndedIn(attempts, w, phase), EndedIn(more, w, phase);
    assert more[n] == a && forall i: nat | i < n :: more[i] == attempts[i];
    if Windowed(a, w) && Reads(a, phase) { assert now == was + {n}; } else { assert now == was; }
  }

  lemma {:induction false} CountsArePositions(attempts: seq<Attempt>, w: Window, c: Clause, phase: string)
    ensures CountExcluded(attempts, w, c) == |NamedBy(attempts, w, c)|
    ensures CountPhase(attempts, w, phase) == |EndedIn(attempts, w, phase)|
    decreases attempts
  {
    hide ExcludedBy, OutsideWindow, ClauseNames, Windowed, NamedBy, EndedIn;
    if attempts == [] {
      NoPositions(w, c, phase);
    } else {
      var rest, last := attempts[..|attempts| - 1], attempts[|attempts| - 1];
      CountsArePositions(rest, w, c, phase);
      ClausesAre(last, w);
      assert attempts == rest + [last];
      NamedAfter(rest, last, w, c);
      EndedAfter(rest, last, w, phase);
    }
  }

  lemma NoPositions(w: Window, c: Clause, phase: string)
    ensures NamedBy([], w, c) == {} && EndedIn([], w, phase) == {}
  {
  }

  // ---------------------------------------------------------------- the stable sort

  /** Insert an attempt after every one that does not start later. */
  function Insert(a: Attempt, sorted: seq<Attempt>): seq<Attempt> {
    if sorted == [] then [a]
    else
      var last := sorted[|sorted| - 1];
      if StringOrder.Less(a.startedAt, last.startedAt) then Insert(a, sorted[..|sorted| - 1]) + [last]
      else sorted + [a]
  }

  function ByStart(attempts: seq<Attempt>): seq<Attempt> {
    if attempts == [] then []
    else Insert(attempts[|attempts| - 1], ByStart(attempts[..|attempts| - 1]))
  }

  ghost predicate InOrder(s: seq<Attempt>) {
    forall i, j | 0 <= i < j < |s| :: !StringOrder.Less(s[j].startedAt, s[i].startedAt)
  }

  /** The attempts that start at a given text stamp, in order. */
  function StartingAt(s: seq<Attempt>, t: string): seq<Attempt> {
    if s == [] then []
    else StartingAt(s[..|s| - 1], t) + if s[|s| - 1].startedAt == t then [s[|s| - 1]] else []
  }

  lemma {:induction false} InsertContents(a: Attempt, s: seq<Attempt>)
    ensures multiset(Insert(a, s)) == multiset(s) + multiset{a}
    decreases s
  {
    hide StringOrder.Less;
    if s != [] {
      var rest, last := s[..|s| - 1], s[|s| - 1];
      assert s == rest + [last];
      InsertContents(a, rest);
    }
  }

  lemma {:induction false} InsertKeepsTies(a: Attempt, s: seq<Attempt>, t: string)
    ensures StartingAt(Insert(a, s), t) == StartingAt(s, t) + if a.startedAt == t then [a] else []
    decreases s
  {
    hide StringOrder.Less;
    if s != [] {
      var rest, last := s[..|s| - 1], s[|s| - 1];
      StringOrder.LessIsStrict(a.startedAt, last.startedAt);
      if StringOrder.Less(a.startedAt, last.startedAt) {
        InsertKeepsTies(a, rest, t);
        assert (Insert(a, rest) + [last])[..|Insert(a, rest)|] == Insert(a, rest);
      } else {
        assert (s + [a])[..|s|] == s;
      }
    }
  }

  lemma {:induction false} InsertSorts(a: Attempt, s: seq<Attempt>)
    requires InOrder(s)
    ensures InOrder(Insert(a, s))
    decreases s
  {
    hide StringOrder.Less;
    if s != [] {
      var rest, last := s[..|s| - 1], s[|s| - 1];
      StringOrder.LessIsStrict(a.startedAt, last.startedAt);
      if StringOrder.Less(a.startedAt, last.startedAt) {
        InsertSorts(a, rest);
        InsertContents(a, rest);
        var r := Insert(a, rest);
        forall i | 0 <= i < |r|
          ensures !StringOrder.Less(last.startedAt, r[i].startedAt)
        {
          assert r[i] in multiset(r);
          assert r[i] == a || r[i] in rest;
        }
      } else {
        forall i | 0 <= i < |s|
          ensures !StringOrder.Less(a.startedAt, s[i].startedAt)
        {
          if StringOrder.Less(a.startedAt, s[i].startedAt) {
            StringOrder.LessTrichotomy(s[i].startedAt, last.startedAt);
            NotBefore(a.startedAt, s[i].startedAt, last.startedAt);
          }
        }
      }
    }
  }

  lemma NotBefore(a: string, x: string, last: string)
    requires StringOrder.Less(a, x) && (x == last || StringOrder.Less(x, last))
    ensures StringOrder.Less(a, last)
  {
    if x != last {
      StringOrder.LessIsTransitive(a, x, last);
    }
  }

  /** The sort loses nothing, orders by start, and keeps the corpus order of equal starts. */
  lemma {:induction false} ByStartIsStableSort(attempts: seq<Attempt>)
    ensures InOrder(ByStart(attempts)) && multiset(ByStart(attempts)) == multiset(attempts)
    ensures forall t :: StartingAt(ByStart(attempts), t) == StartingAt(attempts, t)
    decreases attempts
  {
    hide InOrder;
    if attempts == [] {
      InOrderEmpty();
    } else {
      var rest, last := attempts[..|attempts| - 1], attempts[|attempts| - 1];
      ByStartIsStableSort(rest);
      InsertSorts(last, ByStart(rest));
      InsertContents(last, ByStart(rest));
      forall t ensures StartingAt(ByStart(attempts), t) == StartingAt(attempts, t) {
        InsertKeepsTies(last, ByStart(rest), t);
      }
      assert attempts == rest + [last];
    }
  }

  /** Position `p` comes before `q`: by start text, then by place in the corpus. */
  ghost predicate Precedes(attempts: seq<Attempt>, p: nat, q: nat) {
    && p < |attempts| && q < |attempts|
    && var a, b := attempts[p].startedAt, attempts[q].startedAt;
       StringOrder.Less(a, b) || (a == b && p < q)
  }

  ghost predicate Ranked(attempts: seq<Attempt>, ps: seq<nat>) {
    Within(attempts, ps) && forall j, k | 0 <= j < k < |ps| :: Precedes(attempts, ps[j], ps[k])
  }

  /** A list is the qualifying attempts of an issue, each once, in that order. */
  ghost predicate ListedInOrder(list: seq<Attempt>, attempts: seq<Attempt>, w: Window, issue: int, ps: seq<nat>) {
    && Ranked(attempts, ps) && list == Pick(attempts, ps)
    && forall p: nat :: p in ps <==> p < |attempts| && attempts[p].issue == issue && Qualifies(attempts[p], w)
  }

  lemma PrecedesIsTransitive(attempts: seq<Attempt>, p: nat, q: nat, r: nat)
    requires Precedes(attempts, p, q) && Precedes(attempts, q, r)
    ensures Precedes(attempts, p, r)
  {
    hide StringOrder.Less;
    var a, b, c := attempts[p].startedAt, attempts[q].startedAt, attempts[r].startedAt;
    if StringOrder.Less(a, b) && StringOrder.Less(b, c) { StringOrder.LessIsTransitive(a, b, c); }
  }

  lemma {:induction false} InsertPlaces(attempts: seq<Attempt>, p: nat, ps: seq<nat>) returns (qs: seq<nat>)
    requires Ranked(attempts, ps) && p < |attempts| && forall k | 0 <= k < |ps| :: ps[k] < p
    ensures Ranked(attempts, qs) && Pick(attempts, qs) == Insert(attempts[p], Pick(attempts, ps))
    ensures forall q :: q in qs <==> q in ps || q == p
    decreases ps
  {
    hide StringOrder.Less, Precedes, Insert, Ranked;
    if ps == [] {
      assert Ranked(attempts, [p]) && Pick(attempts, [p]) == Insert(attempts[p], []) by { OneRanked(attempts, p); }
      return [p];
    }
    RankedFront(attempts, ps);
    InsertFront(attempts, p, ps);
    var rest, last := ps[..|ps| - 1], ps[|ps| - 1];
    if StringOrder.Less(attempts[p].startedAt, attempts[last].startedAt) {
      qs := InsertPlaces(attempts, p, rest);
      assert Precedes(attempts, p, last) by { OrderOf(attempts, p, last); }
      forall k | 0 <= k < |qs| ensures Precedes(attempts, qs[k], last) { assert qs[k] in qs; }
      RankedAppend(attempts, qs, last);
      qs := qs + [last];
    } else {
      StringOrder.LessTrichotomy(attempts[p].startedAt, attempts[last].startedAt);
      assert Precedes(attempts, last, p) by { OrderOf(attempts, last, p); }
      forall k | 0 <= k < |ps| ensures Precedes(attempts, ps[k], p) {
        if k < |rest| { assert rest[k] in rest; PrecedesIsTransitive(attempts, rest[k], last, p); }
      }
      RankedAppend(attempts, ps, p);
      qs := ps + [p];
    }
    assert ps == rest + [last];
  }

  lemma OneRanked(attempts: seq<Attempt>, p: nat)
    requires p < |attempts|
    ensures Ranked(attempts, [p]) && Pick(attempts, [p]) == Insert(attempts[p], [])
  {
  }

  lemma RankedFront(attempts: seq<Attempt>, ps: seq<nat>)
    requires Ranked(attempts, ps) && ps != []
    ensures var rest, last := ps[..|ps| - 1], ps[|ps| - 1];
      && last < |attempts| && Ranked(attempts, rest) && Pick(attempts, ps) == Pick(attempts, rest) + [attempts[last]]
      && forall q | q in rest :: Precedes(attempts, q, last)
  {
    hide Precedes;
    var rest, last := ps[..|ps| - 1], ps[|ps| - 1];
    forall q | q in rest ensures Precedes(attempts, q, last) {
      var k :| 0 <= k < |rest| && rest[k] == q;
      assert Precedes(attempts, ps[k], ps[|ps| - 1]);
    }
    assert forall j, k | 0 <= j < k < |rest| :: rest[j] == ps[j] && rest[k] == ps[k];
  }

  lemma InsertFront(attempts: seq<Attempt>, p: nat, ps: seq<nat>)
    requires Within(attempts, ps) && ps != [] && p < |attempts|
    ensures var rest, last, a := ps[..|ps| - 1], ps[|ps| - 1], attempts[p];
      Within(attempts, rest) &&
      Insert(a, Pick(attempts, ps)) == if StringOrder.Less(a.startedAt, attempts[last].startedAt)
                                       then Insert(a, Pick(attempts, rest)) + [attempts[last]]
                                       else Pick(attempts, ps) + [a]
  {
    hide StringOrder.Less;
    var sorted, rest := Pick(attempts, ps), ps[..|ps| - 1];
    assert sorted[..|sorted| - 1] == Pick(attempts, rest);
  }

  lemma OrderOf(attempts: seq<Attempt>, p: nat, q: nat)
    requires p < |attempts| && q < |attempts|
    ensures Precedes(attempts, p, q) <==>
      || StringOrder.Less(attempts[p].startedAt, attempts[q].startedAt)
      || (attempts[p].startedAt == attempts[q].startedAt && p < q)
  {
  }

  lemma RankedAppend(attempts: seq<Attempt>, ps: seq<nat>, p: nat)
    requires Ranked(attempts, ps) && p < |attempts| && forall k | 0 <= k < |ps| :: Precedes(attempts, ps[k], p)
    ensures Ranked(attempts, ps + [p]) && Pick(attempts, ps + [p]) == Pick(attempts, ps) + [attempts[p]]
  {
    hide Precedes;
    var more := ps + [p];
    forall j, k | 0 <= j < k < |more| ensures Precedes(attempts, more[j], more[k]) {
      assert more[j] == ps[j];
    }
  }

  lemma PlaceNext(attempts: seq<Attempt>, a: Attempt, w: Window, issue: int, list: seq<Attempt>, ps: seq<nat>)
    returns (qs: seq<nat>)
    requires ListedInOrder(list, attempts, w, issue, ps)
    ensures ListedInOrder(if Qualifies(a, w) && a.issue == issue then Insert(a, list) else list,
                          attempts + [a], w, issue, qs)
  {
    hide Qualifies, Insert, Ranked;
    var n, more := |attempts|, attempts + [a];
    RankedExtends(attempts, a, ps);
    qs := ps;
    if Qualifies(a, w) && a.issue == issue {
      qs := InsertPlaces(more, n, ps);
    }
    forall p: nat
      ensures p in qs <==> p < |more| && more[p].issue == issue && Qualifies(more[p], w)
    {
      if p < n { assert more[p] == attempts[p]; }
    }
  }

  /** The sorted list of an issue is its qualifying attempts by start, then by corpus place. */
  lemma {:induction false} ListIsInOrder(attempts: seq<Attempt>, w: Window, issue: int) returns (ps: seq<nat>)
    ensures ListedInOrder(ByStart(QualifyingOf(attempts, w, issue)), attempts, w, issue, ps)
    decreases attempts
  {
    hide Qualifies, Insert, ListedInOrder;
    if attempts == [] {
      ps := [];
      assert ListedInOrder([], attempts, w, issue, ps) by { NothingInOrder(w, issue); }
    } else {
      var rest, last := attempts[..|attempts| - 1], attempts[|attempts| - 1];
      ps := ListIsInOrder(rest, w, issue);
      assert attempts == rest + [last];
      NextByStart(rest, last, w, issue);
      ps := PlaceNext(rest, last, w, issue, ByStart(QualifyingOf(rest, w, issue)), ps);
    }
  }

  lemma NextByStart(attempts: seq<Attempt>, a: Attempt, w: Window, issue: int)
    ensures var before := ByStart(QualifyingOf(attempts, w, issue));
      ByStart(QualifyingOf(attempts + [a], w, issue)) ==
      if Qualifies(a, w) && a.issue == issue then Insert(a, before) else before
  {
    hide Qualifies, ExcludedBy, Insert;
    ClausesAre(a, w);
    var q, more := QualifyingOf(attempts, w, issue), attempts + [a];
    assert more[..|attempts|] == attempts;
    if Qualifies(a, w) && a.issue == issue {
      assert (q + [a])[..|q|] == q;
      assert QualifyingOf(more, w, issue) == q + [a];
    } else {
      assert QualifyingOf(more, w, issue) == q;
    }
  }

  lemma NothingInOrder(w: Window, issue: int)
    ensures ListedInOrder([], [], w, issue, [])
  {
  }

  lemma RankedExtends(attempts: seq<Attempt>, a: Attempt, ps: seq<nat>)
    requires Ranked(attempts, ps)
    ensures Ranked(attempts + [a], ps) && Pick(attempts + [a], ps) == Pick(attempts, ps)
    ensures forall k | 0 <= k < |ps| :: ps[k] < |attempts|
  {
    hide StringOrder.Less;
    var more := attempts + [a];
    forall j, k | 0 <= j < k < |ps| ensures Precedes(more, ps[j], ps[k]) {
      assert Precedes(attempts, ps[j], ps[k]);
    }
  }

  lemma InOrderEmpty()
    ensures InOrder([])
  {
  }

  // ---------------------------------------------------------------- select_cohort

  datatype Cohort = Cohort(
    byIssue: map<int, seq<Attempt>>, exclusions: map<Clause, nat>, phaseCounts: map<string, nat>,
    windowed: set<int>, excludedBefore: set<int>)

  ghost predicate ExclusionsOf(exclusions: map<Clause, nat>, attempts: seq<Attempt>, w: Window) {
    forall k :: k in exclusions && exclusions[k] == CountExcluded(attempts, w, k)
  }

  ghost predicate ListsOf(byIssue: map<int, seq<Attempt>>, attempts: seq<Attempt>, w: Window) {
    && (forall n :: n in byIssue <==> QualifyingOf(attempts, w, n) != [])
    && (forall n | n in byIssue :: byIssue[n] == QualifyingOf(attempts, w, n))
  }

  ghost predicate PhasesOf(phaseCounts: map<string, nat>, attempts: seq<Attempt>, w: Window) {
    && (forall p :: p in phaseCounts <==> CountPhase(attempts, w, p) > 0)
    && (forall p | p in phaseCounts :: phaseCounts[p] == CountPhase(attempts, w, p))
  }

  ghost predicate IssuesOf(issues: set<int>, attempts: seq<Attempt>, w: Window, outside: Option<Clause>) {
    forall n :: n in issues <==> exists a | a in attempts :: a.issue == n && OutsideWindow(a, w) == outside
  }

  lemma ExclusionStep(exclusions: map<Clause, nat>, after: map<Clause, nat>, attempts: seq<Attempt>, a: Attempt, w: Window)
    requires ExclusionsOf(exclusions, attempts, w)
    requires after == if ExcludedBy(a, w).None? then exclusions else
                      exclusions[ExcludedBy(a, w).value := exclusions[ExcludedBy(a, w).value] + 1]
    ensures ExclusionsOf(after, attempts + [a], w)
  {
    hide ExcludedBy;
    var more := attempts + [a];
    assert more[..|more| - 1] == attempts;
  }

  lemma ListStep(byIssue: map<int, seq<Attempt>>, after: map<int, seq<Attempt>>, attempts: seq<Attempt>, a: Attempt, w: Window)
    requires ListsOf(byIssue, attempts, w)
    requires after == if ExcludedBy(a, w).Some? then byIssue else
                      byIssue[a.issue := (if a.issue in byIssue then byIssue[a.issue] else []) + [a]]
    ensures ListsOf(after, attempts + [a], w)
  {
    hide ExcludedBy;
    var more := attempts + [a];
    assert more[..|more| - 1] == attempts;
  }

  lemma PhaseStep(phaseCounts: map<string, nat>, after: map<string, nat>, attempts: seq<Attempt>, a: Attempt, w: Window)
    requires PhasesOf(phaseCounts, attempts, w)
    requires after == if OutsideWindow(a, w).Some? then phaseCounts else
                      phaseCounts[PhaseOf(a) := 1 + if PhaseOf(a) in phaseCounts then phaseCounts[PhaseOf(a)] else 0]
    ensures PhasesOf(after, attempts + [a], w)
  {
    hide OutsideWindow, PhaseOf;
    var more := attempts + [a];
    assert more[..|more| - 1] == attempts;
  }

  lemma IssueStep(issues: set<int>, after: set<int>, attempts: seq<Attempt>, a: Attempt, w: Window, outside: Option<Clause>)
    requires IssuesOf(issues, attempts, w, outside)
    requires after == if OutsideWindow(a, w) == outside then issues + {a.issue} else issues
    ensures IssuesOf(after, attempts + [a], w, outside)
  {
    hide OutsideWindow;
    assert a in attempts + [a];
  }

  lemma NothingCounted(exclusions: map<Clause, nat>, w: Window)
    requires forall k :: k in exclusions && exclusions[k] == 0
    ensures ExclusionsOf(exclusions, [], w) && ListsOf(map[], [], w) && PhasesOf(map[], [], w)
    ensures forall outside :: IssuesOf({}, [], w, outside)
  {
  }

  lemma ExclusionsTotal(exclusions: map<Clause, nat>, attempts: seq<Attempt>, w: Window)
    requires ExclusionsOf(exclusions, attempts, w)
    ensures forall k :: k in exclusions
  {
  }

  lemma {:induction false} SortedListsHoldQualifying(byIssue: map<int, seq<Attempt>>, attempts: seq<Attempt>, w: Window)
    requires ListsOf(byIssue, attempts, w)
    ensures forall n :: n in byIssue <==> exists a | a in attempts :: a.issue == n && Qualifies(a, w)
    ensures forall n | n in byIssue :: byIssue[n] == QualifyingOf(attempts, w, n) && ByStart(byIssue[n]) != []
  {
    forall n
      ensures n in byIssue <==> exists a | a in attempts :: a.issue == n && Qualifies(a, w)
      ensures n in byIssue ==> ByStart(byIssue[n]) != []
    {
      var q := QualifyingOf(attempts, w, n);
      QualifyingMembers(attempts, w, n);
      ByStartIsStableSort(q);
      if n in byIssue {
        assert q[0] in q;
        assert q[0] in multiset(ByStart(q));
      }
    }
  }

  lemma OnlyBefore(before: set<int>, windowed: set<int>, attempts: seq<Attempt>, w: Window)
    requires IssuesOf(windowed, attempts, w, None) && IssuesOf(before, attempts, w, Some(BeforeWindow))
    ensures forall n :: n in windowed <==> exists a | a in attempts :: a.issue == n && Windowed(a, w)
    ensures forall n :: n in before - windowed <==>
      && (exists a | a in attempts :: a.issue == n && ClauseNames(BeforeWindow, a, w))
      && (forall a | a in attempts && a.issue == n :: !Windowed(a, w))
  {
    hide OutsideWindow, Windowed, ClauseNames;
    forall a
      ensures OutsideWindow(a, w) == None <==> Windowed(a, w)
      ensures OutsideWindow(a, w) == Some(BeforeWindow) <==> ClauseNames(BeforeWindow, a, w)
    {
      ClausesAre(a, w);
    }
  }

  method SelectCohort(attempts: seq<Attempt>, w: Window) returns (c: Cohort)
    ensures ExclusionsOf(c.exclusions, attempts, w) && PhasesOf(c.phaseCounts, attempts, w)
    ensures forall n :: n in c.byIssue <==> exists a | a in attempts :: a.issue == n && Qualifies(a, w)
    ensures forall n | n in c.byIssue :: c.byIssue[n] == ByStart(QualifyingOf(attempts, w, n)) && c.byIssue[n] != []
    ensures forall n | n in c.byIssue :: exists ps :: ListedInOrder(c.byIssue[n], attempts, w, n, ps)
    ensures forall k :: k in c.exclusions && c.exclusions[k] == |NamedBy(attempts, w, k)|
    ensures forall p :: (p in c.phaseCounts <==> EndedIn(attempts, w, p) != {}) &&
                        (p in c.phaseCounts ==> c.phaseCounts[p] == |EndedIn(attempts, w, p)|)
    ensures forall n :: n in c.windowed <==> exists a | a in attempts :: a.issue == n && Windowed(a, w)
    ensures forall n :: n in c.excludedBefore <==>
      && (exists a | a in attempts :: a.issue == n && ClauseNames(BeforeWindow, a, w))
      && (forall a | a in attempts && a.issue == n :: !Windowed(a, w))
  {
    hide ListedInOrder, ClauseNames, Windowed, Qualifies, ByStart, ExcludedBy, OutsideWindow, PhaseOf, ExclusionsOf, ListsOf, PhasesOf, IssuesOf;
    var exclusions: map<Clause, nat> :=
      map[BeforeWindow := 0, AfterWindow := 0, UnreadableStart := 0, NotDone := 0, EmptyCriterion := 0,
          NoLanding := 0, DryRunLanding := 0, IndistinguishableLanding := 0];
    var byIssue: map<int, seq<Attempt>> := map[];
    var phaseCounts: map<string, nat> := map[];
    var windowed: set<int>, before: set<int> := {}, {};
    forall k: Clause ensures k in exclusions && exclusions[k] == 0 {
      match k case BeforeWindow => case AfterWindow => case UnreadableStart => case NotDone =>
      case EmptyCriterion => case NoLanding => case DryRunLanding => case IndistinguishableLanding =>
    }
    NothingCounted(exclusions, w);
    for i := 0 to |attempts|
      invariant ExclusionsOf(exclusions, attempts[..i], w)
      invariant ListsOf(byIssue, attempts[..i], w)
      invariant PhasesOf(phaseCounts, attempts[..i], w)
      invariant IssuesOf(windowed, attempts[..i], w, None)
      invariant IssuesOf(before, attempts[..i], w, Some(BeforeWindow))
    {
      var a := attempts[i];
      ghost var x0, l0, p0, w0, b0 := exclusions, byIssue, phaseCounts, windowed, before;
      ExclusionsTotal(exclusions, attempts[..i], w);
      var outside := OutsideWindow(a, w);
      var excluded := ExcludedBy(a, w);
      if outside == Some(BeforeWindow) {
        before := before + {a.issue};
      }
      if outside.None? {
        windowed := windowed + {a.issue};
        var phase := PhaseOf(a);
        phaseCounts := phaseCounts[phase := 1 + if phase in phaseCounts then phaseCounts[phase] else 0];
      }
      if excluded.Some? {
        exclusions := exclusions[excluded.value := exclusions[excluded.value] + 1];
      } else {
        byIssue := byIssue[a.issue := (if a.issue in byIssue then byIssue[a.issue] else []) + [a]];
      }
      ExclusionStep(x0, exclusions, attempts[..i], a, w);
      ListStep(l0, byIssue, attempts[..i], a, w);
      PhaseStep(p0, phaseCounts, attempts[..i], a, w);
      IssueStep(w0, windowed, attempts[..i], a, w, None);
      IssueStep(b0, before, attempts[..i], a, w, Some(BeforeWindow));
      assert attempts[..i + 1] == attempts[..i] + [a];
    }
    assert attempts[..|attempts|] == attempts;
    var sorted := map n | n in byIssue :: ByStart(byIssue[n]);
    c := Cohort(sorted, exclusions, phaseCounts, windowed, before - windowed);
    SortedListsHoldQualifying(byIssue, attempts, w);
    OnlyBefore(before, windowed, attempts, w);
    CountsAre(exclusions, phaseCounts, attempts, w);
    forall n | n in c.byIssue ensures exists ps :: ListedInOrder(c.byIssue[n], attempts, w, n, ps) {
      var ps := ListIsInOrder(attempts, w, n);
    }
  }

  lemma CountsAre(exclusions: map<Clause, nat>, phaseCounts: map<string, nat>, attempts: seq<Attempt>, w: Window)
    requires ExclusionsOf(exclusions, attempts, w) && PhasesOf(phaseCounts, attempts, w)
    ensures forall k :: k in exclusions && exclusions[k] == |NamedBy(attempts, w, k)|
    ensures forall p :: (p in phaseCounts <==> EndedIn(attempts, w, p) != {}) &&
                        (p in phaseCounts ==> phaseCounts[p] == |EndedIn(attempts, w, p)|)
  {
    hide CountExcluded, CountPhase, NamedBy, EndedIn;
    forall k ensures k in exclusions && exclusions[k] == |NamedBy(attempts, w, k)| { CountsArePositions(attempts, w, k, ""); }
    forall p
      ensures p in phaseCounts <==> EndedIn(attempts, w, p) != {}
      ensures p in phaseCounts ==> phaseCounts[p] == |EndedIn(attempts, w, p)|
    {
      CountsArePositions(attempts, w, NotDone, p);
    }
  }

  // ---------------------------------------------------------------- conservation

  function ExcludedInAll(attempts: seq<Attempt>, w: Window): nat {
    CountExcluded(attempts, w, BeforeWindow) + CountExcluded(attempts, w, AfterWindow) +
    CountExcluded(attempts, w, UnreadableStart) + CountExcluded(attempts, w, NotDone) +
    CountExcluded(attempts, w, EmptyCriterion) + CountExcluded(attempts, w, NoLanding) +
    CountExcluded(attempts, w, DryRunLanding) + CountExcluded(attempts, w, IndistinguishableLanding)
  }

  /** How many attempts the lists of some issues hold together. */
  function Listed(attempts: seq<Attempt>, w: Window, issues: seq<int>): nat {
    if issues == [] then 0
    else Listed(attempts, w, issues[1..]) + |QualifyingOf(attempts, w, issues[0])|
  }

  lemma {:induction false} ListedAfter(attempts: seq<Attempt>, a: Attempt, w: Window, issues: seq<int>)
    requires Distinct(issues)
    ensures Listed(attempts + [a], w, issues) ==
            Listed(attempts, w, issues) + if ExcludedBy(a, w).None? && a.issue in issues then 1 else 0
    decreases issues
  {
    hide ExcludedBy;
    assert (attempts + [a])[..|attempts|] == attempts;
    if issues != [] {
      ListedAfter(attempts, a, w, issues[1..]);
      assert a.issue == issues[0] ==> a.issue !in issues[1..];
    }
  }

  /** Every attempt is counted under exactly one clause or listed under its issue. */
  lemma {:induction false} AttemptsAreConserved(attempts: seq<Attempt>, w: Window, issues: seq<int>)
    requires Distinct(issues) && forall a | a in attempts && Qualifies(a, w) :: a.issue in issues
    ensures ExcludedInAll(attempts, w) + Listed(attempts, w, issues) == |attempts|
    decreases attempts
  {
    if attempts == [] {
      NothingListed(w, issues);
    } else {
      var rest, last := attempts[..|attempts| - 1], attempts[|attempts| - 1];
      assert attempts == rest + [last];
      AttemptsAreConserved(rest, w, issues);
      ListedAfter(rest, last, w, issues);
      assert ExcludedInAll(attempts, w) == ExcludedInAll(rest, w) + if ExcludedBy(last, w).Some? then 1 else 0;
      assert ExcludedBy(last, w).None? ==> Qualifies(last, w);
    }
  }

  lemma {:induction false} NothingListed(w: Window, issues: seq<int>)
    ensures Listed([], w, issues) == 0
    decreases issues
  {
    if issues != [] { NothingListed(w, issues[1..]); }
  }

  // ---------------------------------------------------------------- select_attempt

  datatype Basis = BodyContainsCriterion | LatestDone

  datatype Reason = CriterionNotInIssueBody | SupersededByLaterAttempt

  datatype Skipped = Skipped(runId: string, reason: Reason)

  datatype Choice = Choice(attempt: Attempt, basis: Basis, skipped: seq<Skipped>)

  /** Positions of the attempts whose criterion the body contains. */
  function InBody(attempts: seq<Attempt>, body: string, contains: (string, string) -> bool): seq<nat> {
    if attempts == [] then []
    else
      var n := |attempts| - 1;
      InBody(attempts[..n], body, contains) + if contains(attempts[n].criterion, body) then [n] else []
  }

  /** Position of the first attempt with the greatest start text. */
  function Latest(attempts: seq<Attempt>): nat
    requires attempts != []
  {
    var n := |attempts| - 1;
    if n == 0 then 0
    else
      var best := Latest(attempts[..n]);
      if best < n && !StringOrder.Less(attempts[best].startedAt, attempts[n].startedAt) then best else n
  }

  /** Everything but position `chosen`, each with the reason it was skipped. */
  function SkippedBut(attempts: seq<Attempt>, chosen: nat, reason: Reason): seq<Skipped>
    requires chosen < |attempts|
  {
    seq(|attempts| - 1, i requires 0 <= i < |attempts| - 1 =>
          Skipped(attempts[if i < chosen then i else i + 1].runId, reason))
  }

  function SelectAttempt(attempts: seq<Attempt>, body: string, contains: (string, string) -> bool): Choice
    requires attempts != []
  {
    var matches := if body != "" then InBody(attempts, body, contains) else [];
    InBodyMembers(attempts, body, contains);
    LatestIsLatest(attempts);
    if |matches| == 1 then
      assert matches[0] in matches;
      Choice(attempts[matches[0]], BodyContainsCriterion, SkippedBut(attempts, matches[0], CriterionNotInIssueBody))
    else
      var latest := Latest(attempts);
      Choice(attempts[latest], LatestDone, SkippedBut(attempts, latest, SupersededByLaterAttempt))
  }

  lemma {:induction false} InBodyMembers(attempts: seq<Attempt>, body: string, contains: (string, string) -> bool)
    ensures forall i :: i in InBody(attempts, body, contains) <==>
                        0 <= i < |attempts| && contains(attempts[i].criterion, body)
    ensures Distinct(InBody(attempts, body, contains))
    decreases attempts
  {
    if attempts != [] {
      var before := InBody(attempts[..|attempts| - 1], body, contains);
      InBodyMembers(attempts[..|attempts| - 1], body, contains);
      assert forall k | 0 <= k < |before| :: before[k] in before && before[k] < |attempts| - 1;
    }
  }

  lemma {:induction false} LatestIsLatest(attempts: seq<Attempt>)
    requires attempts != []
    ensures Latest(attempts) < |attempts|
    ensures forall i | 0 <= i < |attempts| :: !StringOrder.Less(attempts[Latest(attempts)].startedAt, attempts[i].startedAt)
    ensures forall i | 0 <= i < Latest(attempts) :: StringOrder.Less(attempts[i].startedAt, attempts[Latest(attempts)].startedAt)
    decreases attempts
  {
    hide StringOrder.Less;
    var n := |attempts| - 1;
    var last := attempts[n].startedAt;
    StringOrder.LessIsStrict(last, last);
    if n > 0 {
      LatestIsLatest(attempts[..n]);
      var best := Latest(attempts[..n]);
      if StringOrder.Less(attempts[best].startedAt, last) {
        forall i | 0 <= i < n
          ensures StringOrder.Less(attempts[i].startedAt, last) && !StringOrder.Less(last, attempts[i].startedAt)
        {
          StringOrder.LessTrichotomy(attempts[i].startedAt, attempts[best].startedAt);
          NotAfter(attempts[i].startedAt, attempts[best].startedAt, last);
          StringOrder.LessIsStrict(attempts[i].startedAt, last);
        }
      }
    }
  }

  lemma NotAfter(x: string, best: string, last: string)
    requires StringOrder.Less(best, last) && (x == best || StringOrder.Less(x, best))
    ensures StringOrder.Less(x, last)
  {
    if x != best { StringOrder.LessIsTransitive(x, best, last); }
  }

  ghost predicate OnlyMatch(attempts: seq<Attempt>, body: string, contains: (string, string) -> bool, i: nat) {
    && i < |attempts| && contains(attempts[i].criterion, body)
    && forall j | 0 <= j < |attempts| && contains(attempts[j].criterion, body) :: j == i
  }

  lemma OneMatch(attempts: seq<Attempt>, body: string, contains: (string, string) -> bool)
    ensures |InBody(attempts, body, contains)| == 1 <==> exists i: nat :: OnlyMatch(attempts, body, contains, i)
    ensures |InBody(attempts, body, contains)| == 1 ==>
            OnlyMatch(attempts, body, contains, InBody(attempts, body, contains)[0])
  {
    hide InBody;
    var m := InBody(attempts, body, contains);
    InBodyMembers(attempts, body, contains);
    if |m| == 1 {
      assert m[0] in m;
      assert OnlyMatch(attempts, body, contains, m[0]);
    }
    if i: nat :| OnlyMatch(attempts, body, contains, i) {
      assert i in m;
      if |m| > 1 {
        assert m[0] in m && m[1] in m;
      }
    }
  }

  /**
   * The choice is governed by the issue body exactly when one attempt's criterion is in
   * it, and is then that attempt; otherwise it is the latest, the first listed of equals.
   * Every other attempt is accounted for as skipped, in order.
   */
  ghost predicate Governs(c: Choice, attempts: seq<Attempt>, body: string, contains: (string, string) -> bool) {
    && (c.basis == BodyContainsCriterion <==> body != "" && exists i: nat :: OnlyMatch(attempts, body, contains, i))
    && exists i: nat | i < |attempts| ::
      && c.attempt == attempts[i] && |c.skipped| == |attempts| - 1
      && (forall j | 0 <= j < |attempts| - 1 :: c.skipped[j].runId == attempts[if j < i then j else j + 1].runId)
      && (forall j | 0 <= j < |attempts| - 1 ::
            c.skipped[j].reason == if c.basis == BodyContainsCriterion then CriterionNotInIssueBody
                                   else SupersededByLaterAttempt)
      && (c.basis == BodyContainsCriterion ==> OnlyMatch(attempts, body, contains, i))
      && (c.basis == LatestDone ==>
            && (forall j | 0 <= j < |attempts| :: !StringOrder.Less(attempts[i].startedAt, attempts[j].startedAt))
            && (forall j | 0 <= j < i :: StringOrder.Less(attempts[j].startedAt, attempts[i].startedAt)))
  }

  lemma SelectionGoverns(attempts: seq<Attempt>, body: string, contains: (string, string) -> bool)
    requires attempts != []
    ensures Governs(SelectAttempt(attempts, body, contains), attempts, body, contains)
  {
    hide StringOrder.Less, InBody, Latest, OnlyMatch;
    OneMatch(attempts, body, contains);
    InBodyMembers(attempts, body, contains);
    LatestIsLatest(attempts);
    var matches := if body != "" then InBody(attempts, body, contains) else [];
    var i := if |matches| == 1 then matches[0] else Latest(attempts);
    assert |matches| == 1 ==> matches[0] in matches;
    assert SelectAttempt(attempts, body, contains).attempt == attempts[i];
  }
}
