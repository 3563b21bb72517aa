/** Any number of workers updating one advisory artifact at once (`update_advisory_violations`):
    two critical sections under the artifact lock, each persisting to the artifact and then to
    its optional mirror under a second lock, with issue filing unlocked in between. Every
    interleaving, including ones where lock or write operations raise, is covered. */
module AdvisoryWorkers {
  import opened Common
  import opened AdvisoryArtifact

  datatype Section = First | Second

  /** Where a worker is. Everything from `Merging` to `Releasing` runs under the artifact lock. */
  datatype Pc =
    | Waiting(section: Section)
    | Merging(section: Section)
    | Writing(section: Section)
    | Mirroring(section: Section)
    | MirrorWriting(section: Section)
    | MirrorReleasing(section: Section)
    | Releasing(section: Section)
    | FilingIssues
    | Done
    | Failed
  {
    predicate HoldsArtifact() { Merging? || Writing? || Mirroring? || MirrorWriting? || MirrorReleasing? || Releasing? }
    predicate HoldsMirror() { MirrorWriting? || MirrorReleasing? }
    predicate MirrorPending() { Mirroring? || MirrorWriting? }
    predicate Finished() { Done? || Failed? }

    /** The worker's own scan is in the artifact's history. */
    predicate ScanCommitted() {
      || FilingIssues? || Done?
      || (!Failed? && section.Second?)
      || Mirroring? || MirrorWriting? || MirrorReleasing? || Releasing?
    }

    /** Steps a worker can still take. */
    function Rank(): nat {
      if Finished() then 0
      else if FilingIssues? then 8
      else (if section.First? then 8 else 0) +
           match this
           case Waiting(_) => 7
           case Merging(_) => 6
           case Writing(_) => 5
           case Mirroring(_) => 4
           case MirrorWriting(_) => 3
           case MirrorReleasing(_) => 2
           case Releasing(_) => 1
    }
  }

  datatype Worker = Worker(pc: Pc, scan: Scan, local: Artifact, observed: map<Key, Entry>, filed: map<Key, Filing>)

  /** `log` is the history of completed artifact writes, `mirrored` how many of them had
      happened at the last mirror write, `mirrorFailures` how many mirror updates raised. */
  datatype State = State(artifact: Artifact, mirror: Artifact,
                         artifactLock: Option<nat>, mirrorLock: Option<nat>,
                         workers: seq<Worker>, log: seq<Commit>,
                         mirrored: nat, mirrorFailures: nat)

  /** A move: the next step, the next step of a worker that files these issues, or an
      exception out of a lock, write or filing operation. */
  datatype Move = Advance | File(issues: map<Key, Issue>) | Raise

  predicate Enabled(s: State, w: nat, m: Move) {
    && w < |s.workers|
    && match s.workers[w].pc
       case Waiting(_) => m.Raise? || (m.Advance? && s.artifactLock.None?)
       case Merging(_) => m.Advance?
       case Writing(_) => m.Raise? || m.Advance?
       case Mirroring(_) => m.Raise? || (m.Advance? && s.mirrorLock.None?)
       case MirrorWriting(_) => m.Raise? || m.Advance?
       case MirrorReleasing(_) => m.Advance?
       case Releasing(_) => m.Advance?
       case FilingIssues => m.Raise? || (m.File? && m.issues.Keys <= s.workers[w].observed.Keys)
       case Done => false
       case Failed => false
  }

  function Goto(s: State, w: nat, pc: Pc): State
    requires w < |s.workers|
  {
    s.(workers := s.workers[w := s.workers[w].(pc := pc)])
  }

  /** The commit a worker in `Writing` makes. */
  function CommitOf(s: State, w: nat): Commit
    requires w < |s.workers| && s.workers[w].pc.Writing?
  {
    var x := s.workers[w];
    if x.pc.section.First? then ScanCommit(w, x.scan) else FileCommit(w, x.filed, Stamp(x.scan.at))
  }

  /** `usesMirror` is true when a committed mirror is configured and is not the artifact
      itself: a mirror naming the same file is skipped. */
  function Next(usesMirror: bool, s: State, w: nat, m: Move): State
    requires Enabled(s, w, m)
  {
    var x := s.workers[w];
    if m.Raise? then
      // leaving the `with` blocks releases whatever the worker held
      var t := Goto(s, w, Failed);
      match x.pc
      case Writing(_) => t.(artifactLock := None)
      case Mirroring(_) => t.(artifactLock := None, mirrorFailures := s.mirrorFailures + 1)
      case MirrorWriting(_) => t.(artifactLock := None, mirrorLock := None, mirrorFailures := s.mirrorFailures + 1)
      case _ => t
    else
      match x.pc
      case Waiting(section) => Goto(s, w, Merging(section)).(artifactLock := Some(w))
      case Merging(section) =>
        var y := if section.First?
                 then x.(local := Merge(s.artifact, x.scan), observed := Observed(s.artifact, x.scan))
                 else x.(local := Attach(s.artifact, x.filed, Stamp(x.scan.at)));
        s.(workers := s.workers[w := y.(pc := Writing(section))])
      case Writing(section) =>
        Goto(s, w, if usesMirror then Mirroring(section) else Releasing(section))
          .(artifact := x.local, log := s.log + [CommitOf(s, w)])
      case Mirroring(section) => Goto(s, w, MirrorWriting(section)).(mirrorLock := Some(w))
      case MirrorWriting(section) => Goto(s, w, MirrorReleasing(section)).(mirror := x.local, mirrored := |s.log|)
      case MirrorReleasing(section) => Goto(s, w, Releasing(section)).(mirrorLock := None)
      case Releasing(section) => Goto(s, w, if section.First? then FilingIssues else Done).(artifactLock := None)
      case FilingIssues =>
        var filed := map k | k in m.issues :: Filing(m.issues[k], x.observed[k]);
        s.(workers := s.workers[w := x.(filed := filed, pc := if filed == map[] then Done else Waiting(Second))])
  }

  ghost predicate Initial(s: State) {
    && s.artifactLock.None? && s.mirrorLock.None?
    && s.log == [] && s.mirrored == 0 && s.mirrorFailures == 0
    && forall w | 0 <= w < |s.workers| :: s.workers[w].pc == Waiting(First)
  }

  // ----- The invariant -----

  ghost predicate LocksInv(s: State) {
    && (s.artifactLock.Some? ==> s.artifactLock.value < |s.workers|)
    && (s.mirrorLock.Some? ==> s.mirrorLock.value < |s.workers|)
    && (forall w | 0 <= w < |s.workers| :: s.artifactLock == Some(w) <==> s.workers[w].pc.HoldsArtifact())
    && (forall w | 0 <= w < |s.workers| :: s.mirrorLock == Some(w) <==> s.workers[w].pc.HoldsMirror())
  }

  /** What a worker has in hand agrees with the file it is about to write. */
  ghost predicate LocalInv(s: State, x: Worker) {
    match x.pc
    case Writing(First) => x.local == Merge(s.artifact, x.scan)
    case Writing(Second) => x.local == Attach(s.artifact, x.filed, Stamp(x.scan.at))
    case Mirroring(_) => x.local == s.artifact
    case MirrorWriting(_) => x.local == s.artifact
    case _ => true
  }

  /** What a worker carries from its scan to its filing. */
  ghost predicate CarriedInv(x: Worker) {
    && (x.pc == Writing(First) || x.pc.ScanCommitted() ==>
          && x.observed.Keys == ObservedKeys(x.scan.norms)
          && forall k | k in x.observed :: x.observed[k].lastSeen == Some(Stamp(x.scan.at)))
    && (x.pc.ScanCommitted() && !x.pc.FilingIssues? && !x.pc.Done? && x.pc.section.Second? ==>
          && x.filed.Keys <= x.observed.Keys
          && forall k | k in x.filed :: x.filed[k].own.lastSeen == Some(Stamp(x.scan.at)))
  }

  ghost predicate LogInv(s: State) {
    && FilingFollowsScan(s.log)
    // a scan in the history is some worker's own, committed once
    && (forall i | 0 <= i < |s.log| && s.log[i].ScanCommit? ::
          && s.log[i].worker < |s.workers| && s.log[i].scan == s.workers[s.log[i].worker].scan
          && (s.workers[s.log[i].worker].pc.ScanCommitted() || s.workers[s.log[i].worker].pc.Failed?))
    && (forall i, j | 0 <= i < j < |s.log| && s.log[i].ScanCommit? && s.log[j].ScanCommit? ::
          s.log[i].worker != s.log[j].worker)
    && (forall w | 0 <= w < |s.workers| && s.workers[w].pc.ScanCommitted() :: ScanInLog(s.log, w, s.workers[w].scan))
  }

  ghost predicate ScanInLog(log: seq<Commit>, w: nat, scan: Scan) {
    exists i :: 0 <= i < |log| && log[i] == ScanCommit(w, scan)
  }

  ghost predicate MirrorInv(usesMirror: bool, init: Artifact, s: State) {
    && s.mirrored <= |s.log|
    && (s.mirrored > 0 ==> s.mirror == Replay(init, s.log, s.mirrored))
    && (usesMirror && s.mirrorFailures == 0 && s.mirrored < |s.log| ==>
          s.artifactLock.Some? && s.artifactLock.value < |s.workers|
          && s.workers[s.artifactLock.value].pc.MirrorPending())
  }

  ghost predicate Inv(usesMirror: bool, init: Artifact, s: State) {
    && s.artifact == Replay(init, s.log, |s.log|)
    && LocksInv(s)
    && (forall w | 0 <= w < |s.workers| :: LocalInv(s, s.workers[w]) && CarriedInv(s.workers[w]))
    && LogInv(s)
    && MirrorInv(usesMirror, init, s)
  }

  lemma InitialInv(usesMirror: bool, s: State)
    requires Initial(s)
    ensures Inv(usesMirror, s.artifact, s)
  {
  }

  // ----- Each part is kept by each move -----

  lemma OthersUntouched(usesMirror: bool, s: State, w: nat, m: Move)
    requires Enabled(s, w, m)
    ensures var t := Next(usesMirror, s, w, m);
            && |t.workers| == |s.workers| && t.workers[w].scan == s.workers[w].scan
            && forall v | 0 <= v < |s.workers| && v != w :: t.workers[v] == s.workers[v]
  {
    hide Merge, Attach, Observed, CommitOf;
  }

  /** A lock changes hands only between the mover and nobody. */
  predicate Passes(before: Option<nat>, after: Option<nat>, w: nat) {
    after == before || ((before.None? || before == Some(w)) && (after.None? || after == Some(w)))
  }

  lemma LockMoves(usesMirror: bool, s: State, w: nat, m: Move)
    requires LocksInv(s) && Enabled(s, w, m)
    ensures var t := Next(usesMirror, s, w, m);
            && |t.workers| == |s.workers|
            && Passes(s.artifactLock, t.artifactLock, w) && Passes(s.mirrorLock, t.mirrorLock, w)
            && (t.artifactLock == Some(w) <==> t.workers[w].pc.HoldsArtifact())
            && (t.mirrorLock == Some(w) <==> t.workers[w].pc.HoldsMirror())
  {
    hide Merge, Attach, Observed, CommitOf;
    var pc := s.workers[w].pc;
    assert s.artifactLock == Some(w) <==> pc.HoldsArtifact();
    assert s.mirrorLock == Some(w) <==> pc.HoldsMirror();
  }

  lemma LocksKept(usesMirror: bool, s: State, w: nat, m: Move)
    requires LocksInv(s) && Enabled(s, w, m)
    ensures LocksInv(Next(usesMirror, s, w, m))
  {
    hide Next;
    LockMoves(usesMirror, s, w, m);
    OthersUntouched(usesMirror, s, w, m);
  }

  lemma LocalKept(usesMirror: bool, s: State, w: nat, m: Move)
    requires LocksInv(s) && Enabled(s, w, m)
    requires forall v | 0 <= v < |s.workers| :: LocalInv(s, s.workers[v])
    ensures var t := Next(usesMirror, s, w, m);
            forall v | 0 <= v < |t.workers| :: LocalInv(t, t.workers[v])
  {
    hide Merge, Attach, Observed, CommitOf;
    var t := Next(usesMirror, s, w, m);
    OthersUntouched(usesMirror, s, w, m);
    forall v | 0 <= v < |t.workers|
      ensures LocalInv(t, t.workers[v])
    {
      if v != w && s.workers[w].pc.Writing? {
        // only the lock holder changes the artifact, and only the holder has a copy of it
        assert !s.workers[v].pc.HoldsArtifact();
      }
    }
  }

  lemma CarriedKept(usesMirror: bool, s: State, w: nat, m: Move)
    requires Enabled(s, w, m) && CarriedInv(s.workers[w])
    ensures CarriedInv(Next(usesMirror, s, w, m).workers[w])
  {
    hide Merge, Attach, CommitOf, KeysUpTo;
  }

  lemma LogGrows(usesMirror: bool, s: State, w: nat, m: Move)
    requires Enabled(s, w, m)
    ensures var t := Next(usesMirror, s, w, m);
            var commits := m.Advance? && s.workers[w].pc.Writing?;
            && t.log == (if commits then s.log + [CommitOf(s, w)] else s.log)
            && (!commits ==> t.artifact == s.artifact)
            && (commits ==> t.artifact == s.workers[w].local && t.workers[w].pc.ScanCommitted())
            && (s.workers[w].pc.ScanCommitted() ==> t.workers[w].pc.ScanCommitted() || t.workers[w].pc.Failed?)
            && (t.workers[w].pc.ScanCommitted() ==>
                  s.workers[w].pc.ScanCommitted() || (commits && s.workers[w].pc.section.First?))
            && !s.workers[w].pc.Failed?
  {
    hide Merge, Attach, Observed, CommitOf;
  }

  lemma FilingFollowsScanExtends(log: seq<Commit>, c: Commit)
    requires FilingFollowsScan(log)
    requires c.FileCommit? ==> exists i :: 0 <= i < |log| && ScanOf(log[i], c)
    ensures FilingFollowsScan(log + [c])
  {
    var longer := log + [c];
    forall j | 0 <= j < |longer| && longer[j].FileCommit?
      ensures exists i :: 0 <= i < j && ScanOf(longer[i], longer[j])
    {
      var i :| 0 <= i < j && ScanOf(log[i], longer[j]);
      assert longer[i] == log[i];
    }
  }

  lemma ScanInLogExtends(log: seq<Commit>, c: Commit, w: nat, scan: Scan)
    requires ScanInLog(log, w, scan) || c == ScanCommit(w, scan)
    ensures ScanInLog(log + [c], w, scan)
  {
    var longer := log + [c];
    if ScanInLog(log, w, scan) {
      var i :| 0 <= i < |log| && log[i] == ScanCommit(w, scan);
      assert longer[i] == log[i];
    } else {
      assert longer[|log|] == c;
    }
  }

  lemma LogKept(usesMirror: bool, s: State, w: nat, m: Move)
    requires LogInv(s) && Enabled(s, w, m) && CarriedInv(s.workers[w])
    ensures LogInv(Next(usesMirror, s, w, m))
  {
    hide Next, Enabled, ScanInLog, FilingFollowsScan, ObservedKeys;
    MoverIsAWorker(s, w, m);
    var t := Next(usesMirror, s, w, m);
    LogGrows(usesMirror, s, w, m);
    OthersUntouched(usesMirror, s, w, m);
    if m.Advance? && s.workers[w].pc.Writing? {
      var c := CommitOf(s, w);
      if c.FileCommit? {
        ScanSupportsFiling(s, w);
      }
      FilingFollowsScanExtends(s.log, c);
      forall v | 0 <= v < |t.workers| && t.workers[v].pc.ScanCommitted()
        ensures ScanInLog(t.log, v, t.workers[v].scan)
      {
        ScanInLogExtends(s.log, c, v, t.workers[v].scan);
      }
    }
  }

  lemma ScanSupportsFiling(s: State, w: nat)
    requires w < |s.workers| && s.workers[w].pc == Writing(Second)
    requires LogInv(s) && CarriedInv(s.workers[w])
    ensures exists i :: 0 <= i < |s.log| && ScanOf(s.log[i], CommitOf(s, w))
  {
    assert ScanInLog(s.log, w, s.workers[w].scan);
    var i :| 0 <= i < |s.log| && s.log[i] == ScanCommit(w, s.workers[w].scan);
    assert ScanOf(s.log[i], CommitOf(s, w));
  }

  lemma ArtifactKept(usesMirror: bool, init: Artifact, s: State, w: nat, m: Move)
    requires s.artifact == Replay(init, s.log, |s.log|) && Enabled(s, w, m) && LocalInv(s, s.workers[w])
    ensures var t := Next(usesMirror, s, w, m);
            t.artifact == Replay(init, t.log, |t.log|)
  {
    hide Next, Enabled, Replay, Merge, Attach;
    MoverIsAWorker(s, w, m);
    var t := Next(usesMirror, s, w, m);
    LogGrows(usesMirror, s, w, m);
    if m.Advance? && s.workers[w].pc.Writing? {
      var c := CommitOf(s, w);
      ReplayIgnoresLater(init, s.log, [c], |s.log|);
      ReplayStep(init, t.log, |t.log|);
    }
  }

  lemma MirrorKept(usesMirror: bool, init: Artifact, s: State, w: nat, m: Move)
    requires Inv(usesMirror, init, s) && Enabled(s, w, m)
    ensures MirrorInv(usesMirror, init, Next(usesMirror, s, w, m))
  {
    hide Replay, Merge, Attach, Observed, LogInv, CarriedInv;
    var t := Next(usesMirror, s, w, m);
    LogGrows(usesMirror, s, w, m);
    LocksKept(usesMirror, s, w, m);
    if m.Advance? && s.workers[w].pc.Writing? {
      ReplayIgnoresLater(init, s.log, [CommitOf(s, w)], s.mirrored);
    }
    assert LocalInv(s, s.workers[w]);
  }

  /** Every move of every worker keeps the invariant. */
  lemma StepKeepsInv(usesMirror: bool, init: Artifact, s: State, w: nat, m: Move)
    requires Inv(usesMirror, init, s) && Enabled(s, w, m)
    ensures Inv(usesMirror, init, Next(usesMirror, s, w, m))
  {
    hide Next, Enabled, LocksInv, LocalInv, CarriedInv, LogInv, MirrorInv, Replay;
    MoverIsAWorker(s, w, m);
    LocksKept(usesMirror, s, w, m);
    LocalKept(usesMirror, s, w, m);
    CarriedKept(usesMirror, s, w, m);
    LogKept(usesMirror, s, w, m);
    ArtifactKept(usesMirror, init, s, w, m);
    MirrorKept(usesMirror, init, s, w, m);
    OthersUntouched(usesMirror, s, w, m);
  }

  // ----- Whole runs -----

  ghost predicate StepTo(usesMirror: bool, s: State, t: State) {
    exists w, m :: Enabled(s, w, m) && t == Next(usesMirror, s, w, m)
  }

  ghost predicate Run(usesMirror: bool, states: seq<State>) {
    && |states| > 0 && Initial(states[0])
    && forall i | 0 <= i < |states| - 1 :: StepTo(usesMirror, states[i], states[i + 1])
  }

  lemma {:induction false} RunKeepsInv(usesMirror: bool, states: seq<State>, i: nat)
    requires Run(usesMirror, states) && i < |states|
    ensures Inv(usesMirror, states[0].artifact, states[i])
    ensures |states[i].workers| == |states[0].workers|
    ensures forall w | 0 <= w < |states[0].workers| :: states[i].workers[w].scan == states[0].workers[w].scan
    decreases i
  {
    hide Inv, Next, Enabled, Initial;
    if i == 0 {
      InitialInv(usesMirror, states[0]);
    } else {
      RunKeepsInv(usesMirror, states, i - 1);
      assert StepTo(usesMirror, states[i - 1], states[i - 1 + 1]);
      var w, m :| Enabled(states[i - 1], w, m) && states[i] == Next(usesMirror, states[i - 1], w, m);
      StepKeepsInv(usesMirror, states[0].artifact, states[i - 1], w, m);
      MoverIsAWorker(states[i - 1], w, m);
      OthersUntouched(usesMirror, states[i - 1], w, m);
    }
  }

  lemma MoverIsAWorker(s: State, w: nat, m: Move)
    requires Enabled(s, w, m)
    ensures w < |s.workers|
  {
  }

  /** In every interleaving the artifact is what the committed sections give one after another,
      at most one worker is inside a section, and whenever the artifact lock is free and no
      mirror update has raised, the mirror (once written) equals the artifact. */
  lemma Serializable(usesMirror: bool, states: seq<State>, i: nat)
    requires Run(usesMirror, states) && i < |states|
    ensures var s := states[i];
            && s.artifact == Replay(states[0].artifact, s.log, |s.log|)
            && FilingFollowsScan(s.log)
            && (forall v, w | 0 <= v < |s.workers| && 0 <= w < |s.workers|
                              && s.workers[v].pc.HoldsArtifact() && s.workers[w].pc.HoldsArtifact() :: v == w)
            && (usesMirror && s.artifactLock.None? && s.mirrorFailures == 0 && s.log != [] ==> s.mirror == s.artifact)
            && |s.workers| == |states[0].workers|
            && (forall w | 0 <= w < |s.workers| && s.workers[w].pc.Done? ::
                  ScanInLog(s.log, w, states[0].workers[w].scan))
  {
    hide Run, Replay, LocalInv, CarriedInv;
    RunKeepsInv(usesMirror, states, i);
    var s := states[i];
    forall v, w | 0 <= v < |s.workers| && 0 <= w < |s.workers|
                  && s.workers[v].pc.HoldsArtifact() && s.workers[w].pc.HoldsArtifact()
      ensures v == w
    {
      assert s.artifactLock == Some(v) && s.artifactLock == Some(w);
    }
  }

  /** No deadlock: while some worker is unfinished, some worker can take a step other than
      raising. */
  lemma SomeoneCanStep(usesMirror: bool, init: Artifact, s: State, w: nat)
    returns (v: nat, m: Move)
    requires Inv(usesMirror, init, s) && w < |s.workers| && !s.workers[w].pc.Finished()
    ensures Enabled(s, v, m) && !m.Raise?
  {
    hide LocalInv, CarriedInv, LogInv, MirrorInv, Replay;
    v := if s.artifactLock.Some? then s.artifactLock.value else w;
    m := if s.workers[v].pc.FilingIssues? then File(map[]) else Advance;
    if s.artifactLock.Some? && s.mirrorLock.Some? {
      // only the artifact holder can hold the mirror lock
      assert s.workers[s.mirrorLock.value].pc.HoldsMirror();
      assert s.artifactLock == Some(s.mirrorLock.value);
    }
  }

  function TotalRank(ws: seq<Worker>): nat {
    if ws == [] then 0 else ws[0].pc.Rank() + TotalRank(ws[1..])
  }

  lemma {:induction false} TotalRankUpdate(ws: seq<Worker>, w: nat, x: Worker)
    requires w < |ws|
    ensures TotalRank(ws[w := x]) == TotalRank(ws) - ws[w].pc.Rank() + x.pc.Rank()
    decreases ws
  {
    if w == 0 {
      assert ws[0 := x][1..] == ws[1..];
    } else {
      assert ws[w := x][1..] == ws[1..][w - 1 := x];
      TotalRankUpdate(ws[1..], w - 1, x);
    }
  }

  lemma StepLowersRank(usesMirror: bool, s: State, w: nat, m: Move)
    requires Enabled(s, w, m)
    ensures TotalRank(Next(usesMirror, s, w, m).workers) < TotalRank(s.workers)
  {
    hide Merge, Attach, Observed, TotalRank, CommitOf;
    var t := Next(usesMirror, s, w, m);
    assert t.workers == s.workers[w := t.workers[w]];
    TotalRankUpdate(s.workers, w, t.workers[w]);
  }

  lemma {:induction false} FreshRank(ws: seq<Worker>)
    requires forall w | 0 <= w < |ws| :: ws[w].pc == Waiting(First)
    ensures TotalRank(ws) == 15 * |ws|
    decreases ws
  {
    if ws != [] {
      assert ws[0].pc == Waiting(First);
      FreshRank(ws[1..]);
    }
  }

  /** Every run is finite: no interleaving takes more than fifteen steps per worker. */
  lemma {:induction false} RunsAreShort(usesMirror: bool, states: seq<State>, i: nat)
    requires Run(usesMirror, states) && i < |states|
    ensures i + TotalRank(states[i].workers) <= 15 * |states[0].workers|
    decreases i
  {
    hide TotalRank, Next, Enabled;
    if i == 0 {
      FreshRank(states[0].workers);
    } else {
      RunsAreShort(usesMirror, states, i - 1);
      assert StepTo(usesMirror, states[i - 1], states[i - 1 + 1]);
      var w, m :| Enabled(states[i - 1], w, m) && states[i] == Next(usesMirror, states[i - 1], w, m);
      StepLowersRank(usesMirror, states[i - 1], w, m);
    }
  }

  /** When every worker is done, and the run stays inside the retention window, the file holds
      exactly the initial keys and every key any worker observed: nobody's scan erased a peer's. */
  lemma AllObservationsSurvive(usesMirror: bool, states: seq<State>, k: Key)
    requires Run(usesMirror, states)
    requires var s := states[|states| - 1];
             && (forall w | 0 <= w < |s.workers| :: s.workers[w].pc.Done?)
             && WithinRetention(states[0].artifact, s.log)
    ensures k in states[|states| - 1].artifact.entries <==>
              || k in states[0].artifact.entries
              || exists w :: 0 <= w < |states[0].workers| && k in ObservedKeys(states[0].workers[w].scan.norms)
  {
    hide Initial, StepTo, Replay, LocalInv, CarriedInv, ObservedKeys, WithinRetention, FilingFollowsScan, MirrorInv, LocksInv;
    var s, n := states[|states| - 1], |states| - 1;
    RunKeepsInv(usesMirror, states, n);
    NoLostObservation(states[0].artifact, s.log, |s.log|, k);
    if ScannedBy(s.log, |s.log|, k) {
      var i :| 0 <= i < |s.log| && s.log[i].ScanCommit? && k in ObservedKeys(s.log[i].scan.norms);
      assert k in ObservedKeys(states[0].workers[s.log[i].worker].scan.norms);
    }
    forall w | 0 <= w < |states[0].workers| && k in ObservedKeys(states[0].workers[w].scan.norms)
      ensures ScannedBy(s.log, |s.log|, k)
    {
      assert ScanInLog(s.log, w, s.workers[w].scan);
    }
  }

  lemma {:induction false} LogOnlyGrows(usesMirror: bool, states: seq<State>, i: nat, j: nat)
    requires Run(usesMirror, states) && i <= j < |states|
    ensures states[i].log <= states[j].log
    decreases j
  {
    hide Next, Enabled, Initial;
    if i < j {
      LogOnlyGrows(usesMirror, states, i, j - 1);
      assert StepTo(usesMirror, states[j - 1], states[j - 1 + 1]);
      var w, m :| Enabled(states[j - 1], w, m) && states[j] == Next(usesMirror, states[j - 1], w, m);
      MoverIsAWorker(states[j - 1], w, m);
      LogGrows(usesMirror, states[j - 1], w, m);
    }
  }

  lemma PrefixReplays(a: Artifact, shorter: seq<Commit>, longer: seq<Commit>)
    requires shorter <= longer
    ensures Replay(a, longer, |shorter|) == Replay(a, shorter, |shorter|)
  {
    hide Replay;
    assert longer == shorter + longer[|shorter|..];
    ReplayIgnoresLater(a, shorter, longer[|shorter|..], |shorter|);
  }

  /** Across any run inside the retention window a recorded finding is never lost, keeps its
      first sighting, and keeps its issue unless a worker filed another one for it. */
  lemma FindingsKeepTheirIdentity(usesMirror: bool, states: seq<State>, i: nat, j: nat, k: Key)
    requires Run(usesMirror, states) && i <= j < |states|
    requires WithinRetention(states[0].artifact, states[j].log)
    requires k in states[i].artifact.entries && states[i].artifact.entries[k].Record?
    ensures |states[i].log| <= |states[j].log|
    ensures k in states[j].artifact.entries && states[j].artifact.entries[k].Record?
    ensures SameFinding(states[i].artifact.entries[k].entry, states[j].artifact.entries[k].entry,
                        states[j].log, |states[i].log|, |states[j].log|, k)
  {
    hide Run, Replay, LocksInv, LocalInv, CarriedInv, MirrorInv, ObservedKeys, WithinRetention,
         FilingFollowsScan, SameFinding;
    var a, before, log := states[0].artifact, states[i].log, states[j].log;
    RunKeepsInv(usesMirror, states, i);
    RunKeepsInv(usesMirror, states, j);
    LogOnlyGrows(usesMirror, states, i, j);
    PrefixReplays(a, before, log);
    NoLostObservation(a, log, |before|, k);
    forall n | |before| <= n <= |log|
      ensures k in Replay(a, log, n).entries
    {
      NoLostObservation(a, log, n, k);
    }
    IdentityIsStable(a, log, |before|, |log|, k);
  }

  // ----- What becomes of filed issues -----

  /** Beyond the filing step: in the second section or finished. */
  predicate PastFiling(pc: Pc) { pc.Finished() || (!pc.FilingIssues? && pc.section.Second?) }

  /** The second section's write is in the history. */
  predicate FilingWritten(pc: Pc) {
    pc.Done? || ((pc.Mirroring? || pc.MirrorWriting? || pc.MirrorReleasing? || pc.Releasing?) && pc.section.Second?)
  }

  /** Commit `i` is the worker's own scan, and wrote the entries the worker carries. */
  ghost predicate WroteAt(init: Artifact, log: seq<Commit>, i: nat, w: nat, x: Worker) {
    && i < |log| && log[i] == ScanCommit(w, x.scan)
    && var after := Replay(init, log, i + 1);
       forall k | k in x.observed :: k in after.entries && after.entries[k] == Record(x.observed[k])
  }

  /** A worker carries the entries its own scan wrote, files issues for those, and once it is
      done the issues it filed are in the history. */
  ghost predicate FilingInv(init: Artifact, log: seq<Commit>, w: nat, x: Worker) {
    && (x.pc == Writing(First) ==>
          forall k | k in x.observed :: k in x.local.entries && x.local.entries[k] == Record(x.observed[k]))
    && (x.pc.ScanCommitted() ==> exists i :: WroteAt(init, log, i, w, x))
    && (PastFiling(x.pc) && !x.pc.Failed? ==>
          forall k | k in x.filed :: k in x.observed && x.filed[k].own == x.observed[k])
    && (FilingWritten(x.pc) ==> x.filed == map[] || FileCommit(w, x.filed, Stamp(x.scan.at)) in log)
  }

  lemma WroteAtExtends(init: Artifact, log: seq<Commit>, more: seq<Commit>, i: nat, w: nat, x: Worker)
    requires WroteAt(init, log, i, w, x)
    ensures WroteAt(init, log + more, i, w, x)
  {
    hide Replay;
    ReplayIgnoresLater(init, log, more, i + 1);
    assert (log + more)[i] == log[i];
  }

  lemma FilingInvExtends(init: Artifact, log: seq<Commit>, more: seq<Commit>, w: nat, x: Worker)
    requires FilingInv(init, log, w, x)
    ensures FilingInv(init, log + more, w, x)
  {
    hide WroteAt;
    if x.pc.ScanCommitted() {
      var i: nat :| WroteAt(init, log, i, w, x);
      WroteAtExtends(init, log, more, i, w, x);
    }
  }

  /** A step of the worker that is not a write. */
  lemma QuietStepKeeps(usesMirror: bool, init: Artifact, s: State, w: nat, m: Move)
    requires Enabled(s, w, m) && !(m.Advance? && s.workers[w].pc.Writing?)
    requires FilingInv(init, s.log, w, s.workers[w])
    ensures FilingInv(init, s.log, w, Next(usesMirror, s, w, m).workers[w])
  {
    hide Attach, CommitOf, WroteAt, Observed;
    var x, y := s.workers[w], Next(usesMirror, s, w, m).workers[w];
    assert x.scan == y.scan;
    if x.pc.ScanCommitted() {
      var i: nat :| WroteAt(init, s.log, i, w, x);
      SameObserved(init, s.log, i, w, x, y);
    }
  }

  lemma SameObserved(init: Artifact, log: seq<Commit>, i: nat, w: nat, x: Worker, y: Worker)
    requires WroteAt(init, log, i, w, x) && x.scan == y.scan
    ensures x.observed == y.observed ==> WroteAt(init, log, i, w, y)
  {
  }

  lemma WriteKeeps(usesMirror: bool, init: Artifact, s: State, w: nat)
    requires Inv(usesMirror, init, s) && Enabled(s, w, Advance) && s.workers[w].pc.Writing?
    requires FilingInv(init, s.log, w, s.workers[w])
    ensures var t := Next(usesMirror, s, w, Advance);
            FilingInv(init, t.log, w, t.workers[w])
  {
    hide Replay, Merge, Attach, LogInv, LocksInv, MirrorInv, CarriedInv, WroteAt;
    var x, t := s.workers[w], Next(usesMirror, s, w, Advance);
    var c, y := CommitOf(s, w), t.workers[w];
    ArtifactKept(usesMirror, init, s, w, Advance);
    assert t.log == s.log + [c] && t.log[|s.log|] == c;
    if x.pc.section.First? {
      assert WroteAt(init, t.log, |s.log|, w, y) by { ScanWrites(init, t.log, w, x, y); }
    } else {
      var i: nat :| WroteAt(init, s.log, i, w, x);
      WroteAtExtends(init, s.log, [c], i, w, x);
      SameObserved(init, t.log, i, w, x, y);
    }
  }

  lemma ScanWrites(init: Artifact, log: seq<Commit>, w: nat, x: Worker, y: Worker)
    requires log != [] && log[|log| - 1] == ScanCommit(w, x.scan) && x.scan == y.scan && x.observed == y.observed
    requires Replay(init, log, |log|) == x.local
    requires forall k | k in x.observed :: k in x.local.entries && x.local.entries[k] == Record(x.observed[k])
    ensures WroteAt(init, log, |log| - 1, w, y)
  {
    hide Replay;
  }

  lemma {:induction false} RunKeepsFilings(usesMirror: bool, states: seq<State>, i: nat, w: nat)
    requires Run(usesMirror, states) && i < |states| && w < |states[0].workers|
    ensures |states[i].workers| == |states[0].workers|
    ensures FilingInv(states[0].artifact, states[i].log, w, states[i].workers[w])
    decreases i
  {
    hide FilingInv, Inv, Next, Enabled;
    RunKeepsInv(usesMirror, states, i);
    if i == 0 {
      assert FilingInv(states[0].artifact, states[0].log, w, states[0].workers[w]) by { NothingFiled(states[0], w); }
    } else {
      RunKeepsFilings(usesMirror, states, i - 1, w);
      RunKeepsInv(usesMirror, states, i - 1);
      assert StepTo(usesMirror, states[i - 1], states[i - 1 + 1]);
      var v, m :| Enabled(states[i - 1], v, m) && states[i] == Next(usesMirror, states[i - 1], v, m);
      FilingStep(usesMirror, states[0].artifact, states[i - 1], v, m, w);
    }
  }

  lemma NothingFiled(s: State, w: nat)
    requires Initial(s) && w < |s.workers|
    ensures FilingInv(s.artifact, s.log, w, s.workers[w])
  {
  }

  lemma FilingStep(usesMirror: bool, init: Artifact, s: State, v: nat, m: Move, w: nat)
    requires Inv(usesMirror, init, s) && Enabled(s, v, m) && w < |s.workers| && FilingInv(init, s.log, w, s.workers[w])
    ensures var t := Next(usesMirror, s, v, m);
            |t.workers| == |s.workers| && FilingInv(init, t.log, w, t.workers[w])
  {
    hide FilingInv, Inv, Next, Enabled, CommitOf;
    MoverIsAWorker(s, v, m);
    OthersUntouched(usesMirror, s, v, m);
    LogGrows(usesMirror, s, v, m);
    var t := Next(usesMirror, s, v, m);
    if m.Advance? && s.workers[v].pc.Writing? {
      if v == w {
        WriteKeeps(usesMirror, init, s, w);
      } else {
        FilingInvExtends(init, s.log, [CommitOf(s, v)], w, s.workers[w]);
      }
    } else if v == w {
      QuietStepKeeps(usesMirror, init, s, w, m);
    }
  }

  /** At step `j` worker `w` files these issues. */
  ghost predicate FilesAt(usesMirror: bool, states: seq<State>, j: nat, w: nat, issues: map<Key, Issue>) {
    && j + 1 < |states| && Enabled(states[j], w, File(issues))
    && states[j + 1] == Next(usesMirror, states[j], w, File(issues))
  }

  lemma MoverPast(usesMirror: bool, s: State, w: nat, m: Move)
    requires Enabled(s, w, m)
    ensures var x, y := s.workers[w], Next(usesMirror, s, w, m).workers[w];
      && (PastFiling(x.pc) ==> PastFiling(y.pc) && y.filed == x.filed)
      && (PastFiling(y.pc) && !PastFiling(x.pc) && !y.pc.Failed? ==> m.File?)
      && (m.File? ==>
            && PastFiling(y.pc) && y.filed.Keys == m.issues.Keys
            && forall k | k in m.issues :: y.filed[k].issue == m.issues[k])
  {
    hide Merge, Attach, Observed, CommitOf;
  }

  lemma PastStep(usesMirror: bool, s: State, v: nat, m: Move, w: nat)
    requires Enabled(s, v, m) && w < |s.workers|
    ensures var t := Next(usesMirror, s, v, m);
      && |t.workers| == |s.workers|
      && (PastFiling(s.workers[w].pc) ==> PastFiling(t.workers[w].pc) && t.workers[w].filed == s.workers[w].filed)
      && (PastFiling(t.workers[w].pc) && !PastFiling(s.workers[w].pc) && !t.workers[w].pc.Failed? ==>
            m.File? && v == w)
      && (m.File? && v == w ==>
            && PastFiling(t.workers[w].pc) && t.workers[w].filed.Keys == m.issues.Keys
            && forall k | k in m.issues :: t.workers[w].filed[k].issue == m.issues[k])
  {
    hide Next, Enabled, PastFiling;
    MoverIsAWorker(s, v, m);
    OthersUntouched(usesMirror, s, v, m);
    MoverPast(usesMirror, s, v, m);
  }

  /** Every worker that finishes went through filing, once its scan was written. */
  lemma {:induction false} EveryoneFiles(usesMirror: bool, states: seq<State>, i: nat, w: nat)
    returns (j: nat, issues: map<Key, Issue>)
    requires Run(usesMirror, states) && i < |states| && w < |states[0].workers|
    requires |states[i].workers| == |states[0].workers|
    requires PastFiling(states[i].workers[w].pc) && !states[i].workers[w].pc.Failed?
    ensures j < i && FilesAt(usesMirror, states, j, w, issues)
    ensures states[i].workers[w].filed.Keys == issues.Keys
    ensures forall k | k in issues :: states[i].workers[w].filed[k].issue == issues[k]
    decreases i
  {
    hide Next, Enabled;
    RunKeepsInv(usesMirror, states, i - 1);
    assert StepTo(usesMirror, states[i - 1], states[i - 1 + 1]);
    var v, m :| Enabled(states[i - 1], v, m) && states[i] == Next(usesMirror, states[i - 1], v, m);
    PastStep(usesMirror, states[i - 1], v, m, w);
    if PastFiling(states[i - 1].workers[w].pc) {
      FailedStays(usesMirror, states[i - 1], v, m, w);
      j, issues := EveryoneFiles(usesMirror, states, i - 1, w);
    } else {
      j, issues := i - 1, m.issues;
    }
  }

  lemma FailedStays(usesMirror: bool, s: State, v: nat, m: Move, w: nat)
    requires Enabled(s, v, m) && w < |s.workers|
    ensures s.workers[w].pc.Failed? ==> Next(usesMirror, s, v, m).workers[w].pc.Failed?
  {
    hide Next;
    OthersUntouched(usesMirror, s, v, m);
  }

  /** The history holds the issues a worker filed, each with the entry its own scan wrote. */
  ghost predicate FiledInLog(init: Artifact, log: seq<Commit>, w: nat, scan: Scan, issues: map<Key, Issue>) {
    exists filed, n: nat ::
      && FileCommit(w, filed, Stamp(scan.at)) in log && n < |log| && log[n] == ScanCommit(w, scan)
      && filed.Keys == issues.Keys
      && forall k | k in issues ::
           && filed[k].issue == issues[k] && k in Replay(init, log, n + 1).entries
           && Replay(init, log, n + 1).entries[k] == Record(filed[k].own)
  }

  /** No filed issue is lost: a worker that is done has filed exactly once on its way, and
      what it filed is in the history the artifact replays. */
  lemma EveryFilingLands(usesMirror: bool, states: seq<State>, i: nat, w: nat)
    returns (j: nat, issues: map<Key, Issue>)
    requires Run(usesMirror, states) && i < |states| && w < |states[0].workers|
    requires |states[i].workers| == |states[0].workers| && states[i].workers[w].pc.Done?
    ensures j < i && FilesAt(usesMirror, states, j, w, issues)
    ensures issues != map[] ==> FiledInLog(states[0].artifact, states[i].log, w, states[0].workers[w].scan, issues)
  {
    hide Next, Enabled, Replay, Inv;
    RunKeepsInv(usesMirror, states, i);
    RunKeepsFilings(usesMirror, states, i, w);
    j, issues := EveryoneFiles(usesMirror, states, i, w);
    var x, log := states[i].workers[w], states[i].log;
    if issues != map[] {
      assert issues.Keys != {} && x.filed != map[];
      var n: nat :| WroteAt(states[0].artifact, log, n, w, x);
      assert FileCommit(w, x.filed, Stamp(x.scan.at)) in log;
      forall k | k in issues
        ensures k in Replay(states[0].artifact, log, n + 1).entries
        ensures Replay(states[0].artifact, log, n + 1).entries[k] == Record(x.filed[k].own)
      {
        assert k in x.filed;
      }
    }
  }

  /** And a worker files at one step only. */
  lemma FilesOnce(usesMirror: bool, states: seq<State>, i: nat, j: nat, w: nat, a: map<Key, Issue>, b: map<Key, Issue>)
    requires Run(usesMirror, states) && w < |states[0].workers|
    requires FilesAt(usesMirror, states, i, w, a) && FilesAt(usesMirror, states, j, w, b)
    ensures i == j
  {
    hide Next;
    if i < j {
      StaysPast(usesMirror, states, i, j, w, a);
    } else if j < i {
      StaysPast(usesMirror, states, j, i, w, b);
    }
  }

  lemma {:induction false} StaysPast(usesMirror: bool, states: seq<State>, i: nat, j: nat, w: nat, a: map<Key, Issue>)
    requires Run(usesMirror, states) && w < |states[0].workers| && FilesAt(usesMirror, states, i, w, a)
    requires i < j < |states|
    ensures |states[j].workers| == |states[0].workers| && PastFiling(states[j].workers[w].pc)
    decreases j
  {
    hide Next, Enabled, PastFiling;
    RunKeepsInv(usesMirror, states, j - 1);
    if j == i + 1 {
      PastStep(usesMirror, states[i], w, File(a), w);
    } else {
      StaysPast(usesMirror, states, i, j - 1, w, a);
      assert StepTo(usesMirror, states[j - 1], states[j - 1 + 1]);
      var v, m :| Enabled(states[j - 1], v, m) && states[j] == Next(usesMirror, states[j - 1], v, m);
      PastStep(usesMirror, states[j - 1], v, m, w);
    }
  }
}
