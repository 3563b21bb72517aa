/**
 * The daemon's sprint queue: submissions that arrive at any moment, and the run loop that
 * takes, starts and ends one sprint at a time. The loop is cut where it awaits, because
 * that is where a submission can come in between.
 */
module DaemonQueue {
  import opened Common

  datatype Job = Job(manifest: string, slug: string)

  /** How a sprint ended. `Unrecorded` is a crash whose report itself raised. */
  datatype Ending = Done | ConflictRefused | Crashed | Unrecorded

  datatype Ended = Ended(job: Job, ending: Ending)

  /** Where the run loop stands: at the queue, holding an item, or executing one. */
  datatype Loop = Waiting | Taken(job: Job) | Running(job: Job)

  datatype State = State(
    queue: seq<Job>, queuedSpecs: seq<string>, queuedSlugs: set<string>, runningSpec: Option<string>,
    completed: seq<Ended>, shownQueue: seq<string>, shownCompleted: seq<Ended>, loop: Loop)

  const MaxCompleted: nat := 20

  const Start := State([], [], {}, None, [], [], [], Waiting)

  // ---------------------------------------------------------------- steps

  predicate Refuses(s: State, slug: string) { s.runningSpec == Some(slug) || slug in s.queuedSlugs }

  function Submit(s: State, job: Job): State {
    if Refuses(s, job.slug) then s
    else
      var specs := s.queuedSpecs + [job.slug];
      s.(queue := s.queue + [job], queuedSpecs := specs, queuedSlugs := s.queuedSlugs + {job.slug}, shownQueue := specs)
  }

  /** The queue hands its head over; the loop has not resumed yet. */
  function Take(s: State): State {
    if s.loop.Waiting? && s.queue != [] then s.(queue := s.queue[1..], loop := Taken(s.queue[0])) else s
  }

  /** `list.remove`: drop the first occurrence, if there is one. */
  function Without(specs: seq<string>, slug: string): seq<string> {
    if specs == [] then []
    else if specs[0] == slug then specs[1..]
    else [specs[0]] + Without(specs[1..], slug)
  }

  method RemoveFirst(specs: seq<string>, slug: string) returns (r: seq<string>)
    ensures r == Without(specs, slug)
  {
    var i := 0;
    while i < |specs| && specs[i] != slug
      invariant 0 <= i <= |specs|
      invariant Without(specs, slug) == specs[..i] + Without(specs[i..], slug)
    {
      assert specs[i..][1..] == specs[i + 1..];
      assert specs[..i + 1] == specs[..i] + [specs[i]];
      i := i + 1;
    }
    if i < |specs| {
      assert specs[i..][1..] == specs[i + 1..];
      return specs[..i] + specs[i + 1..];
    }
    return specs;
  }

  function Begin(s: State): State {
    if s.loop.Taken? then
      var slug := s.loop.job.slug;
      var specs := Without(s.queuedSpecs, slug);
      s.(runningSpec := Some(slug), queuedSpecs := specs, queuedSlugs := s.queuedSlugs - {slug},
         shownQueue := specs, loop := Running(s.loop.job))
    else s
  }

  function LastOf(entries: seq<Ended>, n: nat): seq<Ended> {
    if |entries| > n then entries[|entries| - n..] else entries
  }

  function End(s: State, ending: Ending): State {
    if !s.loop.Running? then s
    else if ending == Unrecorded then s.(loop := Waiting)
    else
      var completed := LastOf(s.completed + [Ended(s.loop.job, ending)], MaxCompleted);
      s.(completed := completed, shownCompleted := completed, shownQueue := s.queuedSpecs,
         runningSpec := None, loop := Waiting)
  }

  /** The server object; each method is one uninterrupted stretch of the source's coroutines. */
  class DaemonServer {
    var queue: seq<Job>
    var queuedSpecs: seq<string>
    var queuedSlugs: set<string>
    var runningSpec: Option<string>
    var completed: seq<Ended>
    var shownQueue: seq<string>
    var shownCompleted: seq<Ended>
    var loop: Loop

    function Value(): State
      reads this
    {
      State(queue, queuedSpecs, queuedSlugs, runningSpec, completed, shownQueue, shownCompleted, loop)
    }

    constructor ()
      ensures Value() == Start
    {
      queue, queuedSpecs, queuedSlugs, runningSpec := [], [], {}, None;
      completed, shownQueue, shownCompleted, loop := [], [], [], Waiting;
    }

    method HandleSubmit(job: Job) returns (ok: bool, position: nat)
      modifies this
      ensures Value() == Submit(old(Value()), job)
      ensures ok <==> !Refuses(old(Value()), job.slug)
      ensures ok ==> position == |queue| && position > 0 && queue[position - 1] == job
    {
      if runningSpec == Some(job.slug) {
        return false, 0;
      }
      if job.slug in queuedSlugs {
        return false, 0;
      }
      queuedSpecs := queuedSpecs + [job.slug];
      queuedSlugs := queuedSlugs + {job.slug};
      queue := queue + [job];
      shownQueue := queuedSpecs;
      return true, |queue|;
    }

    method TakeNext()
      requires loop.Waiting? && queue != []
      modifies this
      ensures Value() == Take(old(Value()))
    {
      loop := Taken(queue[0]);
      queue := queue[1..];
    }

    method BeginSprint()
      requires loop.Taken?
      modifies this
      ensures Value() == Begin(old(Value()))
    {
      var job := loop.job;
      runningSpec := Some(job.slug);
      queuedSpecs := RemoveFirst(queuedSpecs, job.slug);
      queuedSlugs := queuedSlugs - {job.slug};
      shownQueue := queuedSpecs;
      loop := Running(job);
    }

    method EndSprint(ending: Ending)
      requires loop.Running?
      modifies this
      ensures Value() == End(old(Value()), ending)
    {
      var job := loop.job;
      loop := Waiting;
      if ending == Unrecorded {
        return;
      }
      completed := completed + [Ended(job, ending)];
      if |completed| > MaxCompleted {
        completed := completed[|completed| - MaxCompleted..];
      }
      runningSpec := None;
      shownQueue := queuedSpecs;
      shownCompleted := completed;
    }
  }

  // ---------------------------------------------------------------- whole runs

  datatype Event = Submitted(job: Job) | Took | Began | Finished(ending: Ending)

  /** A state with everything ever accepted and everything that ended, in order. */
  datatype History = History(state: State, accepted: seq<Job>, ended: seq<Ended>)

  function Step(h: History, e: Event): History {
    var s := h.state;
    match e
    case Submitted(job) =>
      h.(state := Submit(s, job), accepted := if Refuses(s, job.slug) then h.accepted else h.accepted + [job])
    case Took => h.(state := Take(s))
    case Began => h.(state := Begin(s))
    case Finished(ending) =>
      h.(state := End(s, ending), ended := if s.loop.Running? then h.ended + [Ended(s.loop.job, ending)] else h.ended)
  }

  function Run(h: History, events: seq<Event>): History {
    if events == [] then h else Step(Run(h, events[..|events| - 1]), events[|events| - 1])
  }

  function Jobs(ended: seq<Ended>): seq<Job> { seq(|ended|, i requires 0 <= i < |ended| => ended[i].job) }

  function Slugs(jobs: seq<Job>): seq<string> { seq(|jobs|, i requires 0 <= i < |jobs| => jobs[i].slug) }

  /** Accepted jobs that have not begun, oldest first. */
  function Pending(s: State): seq<Job> { (if s.loop.Taken? then [s.loop.job] else []) + s.queue }

  /** Accepted jobs that have not ended, oldest first. */
  function Live(s: State): seq<Job> { (if s.loop.Waiting? then [] else [s.loop.job]) + s.queue }

  /** The ended sprints that reached the completed list. */
  function Recorded(ended: seq<Ended>): seq<Ended> {
    if ended == [] then []
    else
      var last := ended[|ended| - 1];
      Recorded(ended[..|ended| - 1]) + if last.ending == Unrecorded then [] else [last]
  }

  /** The last twenty, or all, of the ended sprints that were recorded, in the order they ended. */
  ghost predicate LastTwenty(completed: seq<Ended>, ended: seq<Ended>, ps: seq<nat>) {
    && Rising(ended, ps) && (forall p: nat :: p in ps <==> p < |ended| && ended[p].ending != Unrecorded)
    && completed == Pick(ended, ps)[if |ps| > 20 then |ps| - 20 else 0..]
  }

  lemma {:induction false} RecordedPlaces(ended: seq<Ended>) returns (ps: seq<nat>)
    ensures LastTwenty(LastOf(Recorded(ended), MaxCompleted), ended, ps) && Recorded(ended) == Pick(ended, ps)
    decreases ended
  {
    hide LastOf;
    ps := [];
    if ended != [] {
      var n := |ended| - 1;
      var rest, last := ended[..n], ended[n];
      ps := RecordedPlaces(rest);
      assert ended == rest + [last] && Pick(ended, ps) == Pick(rest, ps);
      if last.ending != Unrecorded {
        assert Pick(ended, ps + [n]) == Pick(rest, ps) + [last];
        ps := ps + [n];
      }
      forall p: nat ensures p in ps <==> p < |ended| && ended[p].ending != Unrecorded {
        if p < n { assert ended[p] == rest[p]; }
      }
    }
    LastOfIs(Recorded(ended));
  }

  lemma LastOfIs(entries: seq<Ended>)
    ensures LastOf(entries, MaxCompleted) == entries[if |entries| > 20 then |entries| - 20 else 0..]
  {
  }

  ghost predicate Books(h: History) {
    && h.accepted == Jobs(h.ended) + Live(h.state)
    && h.state.completed == LastOf(Recorded(h.ended), MaxCompleted)
    && h.state.shownCompleted == h.state.completed
  }

  ghost predicate Index(s: State) {
    && s.queuedSpecs == Slugs(Pending(s)) && s.shownQueue == s.queuedSpecs
    && s.queuedSlugs == (set x | x in s.queuedSpecs)
    && Distinct(s.queuedSpecs)
    && (s.runningSpec.Some? ==> s.runningSpec.value !in s.queuedSpecs)
    && (s.loop.Running? ==> s.runningSpec == Some(s.loop.job.slug))
  }

  /** Between sprints the running name is empty, or left over from a crash nobody recorded. */
  ghost predicate Leftover(h: History) {
    !h.state.loop.Running? ==>
      h.state.runningSpec == if h.ended != [] && h.ended[|h.ended| - 1].ending == Unrecorded
                             then Some(h.ended[|h.ended| - 1].job.slug) else None
  }

  ghost predicate Inv(h: History) { Books(h) && Index(h.state) && Leftover(h) }

  lemma SlugsConcat(a: seq<Job>, b: seq<Job>)
    ensures Slugs(a + b) == Slugs(a) + Slugs(b)
  {
  }

  lemma SubmitKeepsIndex(s: State, job: Job)
    requires Index(s)
    ensures Index(Submit(s, job))
  {
    if !Refuses(s, job.slug) {
      assert Pending(Submit(s, job)) == Pending(s) + [job];
      SlugsConcat(Pending(s), [job]);
    }
  }

  lemma TakeKeepsIndex(s: State)
    requires Index(s)
    ensures Index(Take(s))
  {
    if s.loop.Waiting? && s.queue != [] {
      assert Pending(Take(s)) == Pending(s);
    }
  }

  lemma BeginKeepsIndex(s: State)
    requires Index(s)
    ensures Index(Begin(s))
  {
    if s.loop.Taken? {
      var head, rest := s.queuedSpecs[0], s.queuedSpecs[1..];
      assert head == s.loop.job.slug;
      assert Slugs(Pending(Begin(s))) == rest;
      HeadIsUnique(s.queuedSpecs);
    }
  }

  lemma HeadIsUnique(specs: seq<string>)
    requires specs != [] && Distinct(specs)
    ensures Distinct(specs[1..]) && specs[0] !in specs[1..]
    ensures (set x | x in specs) - {specs[0]} == set x | x in specs[1..]
  {
    assert specs == [specs[0]] + specs[1..];
  }

  lemma StepKeepsBooks(h: History, e: Event)
    requires Books(h)
    ensures Books(Step(h, e))
  {
    var s := h.state;
    match e
    case Submitted(job) =>
      assert Live(s) + [job] == Live(s.(queue := s.queue + [job]));
    case Took =>
      if s.loop.Waiting? && s.queue != [] {
        assert Live(Take(s)) == Live(s);
      }
    case Began =>
    case Finished(ending) =>
      if s.loop.Running? {
        var entry := Ended(s.loop.job, ending);
        assert (h.ended + [entry])[..|h.ended|] == h.ended;
        assert Jobs(h.ended + [entry]) == Jobs(h.ended) + [s.loop.job];
        assert Live(s) == [s.loop.job] + s.queue;
        LastOfLast(Recorded(h.ended), entry);
      }
  }

  lemma LastOfLast(entries: seq<Ended>, e: Ended)
    ensures LastOf(LastOf(entries, MaxCompleted) + [e], MaxCompleted) == LastOf(entries + [e], MaxCompleted)
  {
  }

  lemma StepKeepsLeftover(h: History, e: Event)
    requires Leftover(h) && Index(h.state)
    ensures Leftover(Step(h, e))
  {
    hide Distinct;
  }

  lemma StepKeepsInv(h: History, e: Event)
    requires Inv(h)
    ensures Inv(Step(h, e))
  {
    hide Books, Index, Leftover, Submit, Take, Begin;
    StepKeepsBooks(h, e);
    StepKeepsLeftover(h, e);
    match e
    case Submitted(job) => SubmitKeepsIndex(h.state, job);
    case Took => TakeKeepsIndex(h.state);
    case Began => BeginKeepsIndex(h.state);
    case Finished(ending) => EndKeepsIndex(h.state, ending);
  }

  lemma EndKeepsIndex(s: State, ending: Ending)
    requires Index(s)
    ensures Index(End(s, ending))
  {
    hide Distinct, LastOf;
    assert Pending(End(s, ending)) == Pending(s);
  }

  /**
   * Safety over whole runs: in every interleaving of submissions with the loop, the
   * accepted jobs are the ended ones, then the one in hand, then the queue.
   */
  lemma {:induction false} EveryRunKeepsTheBooks(h: History, events: seq<Event>)
    requires Inv(h)
    ensures Inv(Run(h, events))
    decreases events
  {
    hide Inv, Step;
    if events != [] {
      EveryRunKeepsTheBooks(h, events[..|events| - 1]);
      StepKeepsInv(Run(h, events[..|events| - 1]), events[|events| - 1]);
    }
  }

  const Fresh := History(Start, [], [])

  lemma FreshIsSound()
    ensures Inv(Fresh)
  {
  }

  /**
   * What a run from a fresh daemon promises. Sprints end in acceptance order, each
   * accepted job once; no two live jobs share a slug; and a slug is refused exactly when
   * it is live or the last sprint crashed under it without being recorded.
   */
  lemma {:induction false} ExactlyOnceInOrder(events: seq<Event>, slug: string)
    ensures var h := Run(Fresh, events);
      && Jobs(h.ended) <= h.accepted && h.accepted[|h.ended|..] == Live(h.state)
      && Distinct(Slugs(Live(h.state)))
      && (Refuses(h.state, slug) <==>
            || slug in Slugs(Live(h.state))
            || (!h.state.loop.Running? && h.ended != [] &&
                h.ended[|h.ended| - 1].ending == Unrecorded && h.ended[|h.ended| - 1].job.slug == slug))
      && h.state.shownCompleted == h.state.completed
      && (exists ps :: LastTwenty(h.state.completed, h.ended, ps))
      && h.state.shownQueue == Slugs(Pending(h.state))
  {
    hide Run;
    FreshIsSound();
    EveryRunKeepsTheBooks(Fresh, events);
    var h := Run(Fresh, events);
    assert Inv(h);
    LiveSlugs(h.state);
    BooksOpen(h);
    var ps := RecordedPlaces(h.ended);
  }

  lemma BooksOpen(h: History)
    requires Books(h)
    ensures Jobs(h.ended) <= h.accepted && h.accepted[|h.ended|..] == Live(h.state)
  {
  }

  lemma LiveSlugs(s: State)
    requires Index(s)
    ensures Distinct(Slugs(Live(s)))
    ensures forall x :: x in Slugs(Live(s)) <==> x in s.queuedSlugs || (s.loop.Running? && x == s.loop.job.slug)
  {
    if s.loop.Running? {
      SlugsConcat([s.loop.job], s.queue);
      assert Pending(s) == s.queue;
      assert Slugs(Live(s)) == [s.loop.job.slug] + s.queuedSpecs;
    } else {
      assert Live(s) == Pending(s);
    }
  }

  /** A failing run: one job whose crash report raises. Nothing is live afterwards, nothing was
      recorded, and the slug is refused all the same, until another sprint begins. */
  lemma UnrecordedCrashStaysRefused(job: Job, next: Job)
    requires next.slug != job.slug
    ensures var h := Run(Fresh, [Submitted(job), Took, Began, Finished(Unrecorded)]);
      && Live(h.state) == [] && h.accepted == [job] && h.state.completed == []
      && Refuses(h.state, job.slug) && !Refuses(h.state, next.slug)
      && !Refuses(Begin(Take(Submit(h.state, next))), job.slug)
  {
    var a := Step(Fresh, Submitted(job));
    var b := Step(a, Took);
    var c := Step(b, Began);
    var events := [Submitted(job), Took, Began, Finished(Unrecorded)];
    assert events[..3] == [Submitted(job), Took, Began] && events[..3][..2] == [Submitted(job), Took];
    assert events[..3][..2][..1] == [Submitted(job)] && [Submitted(job)][..0] == [];
    assert Run(Fresh, events[..3][..2][..1]) == a;
    assert Run(Fresh, events[..3][..2]) == b;
    assert Run(Fresh, events[..3]) == c;
  }

  // ---------------------------------------------------------------- progress

  /** Loop steps that carry the sprint in hand, and then the queue, to its end. */
  function Drain(s: State): seq<Event> {
    var inHand := if s.loop.Waiting? then [] else if s.loop.Taken? then [Began, Finished(Done)] else [Finished(Done)];
    inHand + DrainQueue(|s.queue|)
  }

  function DrainQueue(n: nat): seq<Event> {
    if n == 0 then [] else DrainQueue(n - 1) + [Took, Began, Finished(Done)]
  }

  lemma {:induction false} RunConcat(h: History, a: seq<Event>, b: seq<Event>)
    ensures Run(h, a + b) == Run(Run(h, a), b)
    decreases b
  {
    hide Step;
    if b == [] {
      assert a + b == a;
    } else {
      RunConcat(h, a, b[..|b| - 1]);
      assert (a + b)[..|a + b| - 1] == a + b[..|b| - 1];
    }
  }

  lemma OneSprint(h: History)
    requires h.state.loop.Waiting? && h.state.queue != []
    ensures var g := Run(h, [Took, Began, Finished(Done)]);
      g.state.loop.Waiting? && g.state.queue == h.state.queue[1..] && g.accepted == h.accepted &&
      g.ended == h.ended + [Ended(h.state.queue[0], Done)]
  {
    var three := [Took, Began, Finished(Done)];
    assert three[..2] == [Took, Began] && three[..2][..1] == [Took] && [Took][..0] == [];
    assert Run(h, [Took]) == Step(h, Took);
    assert Run(h, [Took, Began]) == Step(Step(h, Took), Began) by { assert [Took, Began][..1] == [Took]; }
  }

  lemma {:induction false} QueueDrains(h: History, n: nat)
    requires h.state.loop.Waiting? && n <= |h.state.queue|
    ensures var g := Run(h, DrainQueue(n));
      g.state.loop.Waiting? && g.state.queue == h.state.queue[n..] && g.accepted == h.accepted
  {
    hide Run;
    if n == 0 {
      RunNothing(h);
    } else {
      QueueDrains(h, n - 1);
      var g := Run(h, DrainQueue(n - 1));
      RunConcat(h, DrainQueue(n - 1), [Took, Began, Finished(Done)]);
      OneSprint(g);
    }
  }

  lemma RunNothing(h: History)
    ensures Run(h, []) == h
  {
  }

  /** The sprint in hand always comes to its end, whatever the queue holds. */
  lemma InHandEnds(h: History)
    ensures var first := if h.state.loop.Waiting? then [] else
                         if h.state.loop.Taken? then [Began, Finished(Done)] else [Finished(Done)];
      var g := Run(h, first);
      g.state.loop.Waiting? && g.state.queue == h.state.queue && g.accepted == h.accepted
  {
    assert Run(h, [Began]) == Step(h, Began) by { assert [Began][..0] == []; }
    assert Run(h, [Finished(Done)]) == Step(h, Finished(Done)) by { assert [Finished(Done)][..0] == []; }
    assert Run(h, [Began, Finished(Done)]) == Step(Step(h, Began), Finished(Done)) by {
      assert [Began, Finished(Done)][..1] == [Began];
    }
  }

  /** No accepted job is stranded: the loop alone can bring every one of them to its end. */
  lemma EverythingAcceptedEnds(h: History)
    requires Inv(h)
    ensures var g := Run(h, Drain(h.state));
      g.accepted == h.accepted && Jobs(g.ended) == h.accepted && Live(g.state) == []
  {
    hide Run, Inv;
    var first := if h.state.loop.Waiting? then [] else
                 if h.state.loop.Taken? then [Began, Finished(Done)] else [Finished(Done)];
    InHandEnds(h);
    RunConcat(h, first, DrainQueue(|h.state.queue|));
    QueueDrains(Run(h, first), |h.state.queue|);
    EveryRunKeepsTheBooks(h, Drain(h.state));
    InvBooks(Run(h, Drain(h.state)));
  }

  lemma InvBooks(h: History)
    requires Inv(h)
    ensures h.accepted == Jobs(h.ended) + Live(h.state)
  {
  }
}
