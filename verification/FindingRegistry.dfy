/** The multi-cycle finding registry (`finding_classifier.py`): how one review cycle's buckets
    update the persistent records, and what decides whether the story stays blocked. */
module FindingRegistry {
  import opened Common
  import opened FindingBuckets

  datatype Disposition =
    | Unresolved | NetNew | CorroboratedNew | Regression | AcBlocking | DiffUngrounded
    | Fixed | Downgraded | GateContradicted | OtherDisposition(name: string)
  {
    /** The dispositions that block a story when the finding is a P1. */
    predicate Blocks() { Unresolved? || Regression? || CorroboratedNew? || AcBlocking? }

    /** The dispositions an unseen P1 leaves for `Fixed`. */
    predicate Lapses() {
      Unresolved? || NetNew? || CorroboratedNew? || Regression? || AcBlocking? || DiffUngrounded?
    }
  }

  /** The hashed key, taken as injective: line and token set included, missing file as "". */
  datatype Fingerprint = Fingerprint(severity: string, file: string, line: Option<int>, tokens: set<string>)

  function FingerprintOf(f: Finding): Fingerprint {
    Fingerprint(f.severity, if f.file.Some? then f.file.value else "", f.line, f.tokens)
  }

  datatype Record = Record(
    id: Fingerprint, firstSeen: int, lastSeen: int, file: Option<string>, line: Option<int>,
    severity: string, tokens: set<string>, reporter: string, disposition: Disposition)
  {
    predicate BlockingP1() { severity == "P1" && disposition.Blocks() }

    /** Everything about a record but its disposition and the last cycle that saw it. */
    predicate SameIdentity(r: Record) {
      && r.id == id && r.firstSeen == firstSeen && r.file == file && r.line == line
      && r.severity == severity && r.tokens == tokens && r.reporter == reporter
    }
  }

  // ----- Matching -----

  predicate Commentary(tokens: set<string>) {
    tokens * {"fixed", "resolved", "addressed"} != {} &&
    tokens * {"prior", "previous", "cycle", "finding", "issue"} != {}
  }

  predicate MatchesLoosely(f: Finding, r: Record) {
    !Commentary(f.tokens) && f.file == r.file && Overlaps(f.tokens, r.tokens)
  }

  predicate Matches(f: Finding, r: Record) {
    MatchesLoosely(f, r) && f.severity == r.severity
  }

  predicate Reintroduces(f: Finding, r: Record) {
    && r.disposition.Fixed? && !Commentary(f.tokens)
    && (Matches(f, r) ||
        (f.file == r.file && f.severity == r.severity && f.line.Some? && f.line == r.line))
  }

  /** The first of the records `i..n` that matches, or `n`. */
  function FirstExact(reg: seq<Record>, n: nat, f: Finding, i: nat): (k: nat)
    requires i <= n <= |reg|
    ensures i <= k <= n && (k < n ==> Matches(f, reg[k])) && forall j | i <= j < k :: !Matches(f, reg[j])
    decreases n - i
  {
    if i == n || Matches(f, reg[i]) then i else FirstExact(reg, n, f, i + 1)
  }

  function FirstLoose(reg: seq<Record>, n: nat, f: Finding, i: nat): (k: nat)
    requires i <= n <= |reg|
    ensures i <= k <= n && (k < n ==> MatchesLoosely(f, reg[k])) && forall j | i <= j < k :: !MatchesLoosely(f, reg[j])
    decreases n - i
  {
    if i == n || MatchesLoosely(f, reg[i]) then i else FirstLoose(reg, n, f, i + 1)
  }

  /** Which of the `n` records from before the cycle a finding is about. */
  datatype Hit = Miss | Exact(index: nat) | Downgrade(index: nat)

  function HitOf(reg: seq<Record>, n: nat, f: Finding): (h: Hit)
    requires n <= |reg|
    ensures !h.Miss? ==> h.index < n
  {
    var exact := FirstExact(reg, n, f, 0);
    if exact < n then Exact(exact)
    else
      var loose := FirstLoose(reg, n, f, 0);
      if loose < n && reg[loose].severity == "P1" && f.severity == "P2" then Downgrade(loose) else Miss
  }

  /** Matching looks only at what a cycle never changes. */
  lemma HitIgnoresDispositions(reg: seq<Record>, later: seq<Record>, n: nat, f: Finding)
    requires n <= |reg| && n <= |later|
    requires forall i | 0 <= i < n :: reg[i].SameIdentity(later[i])
    ensures HitOf(reg, n, f) == HitOf(later, n, f)
  {
    var e, e' := FirstExact(reg, n, f, 0), FirstExact(later, n, f, 0);
    var l, l' := FirstLoose(reg, n, f, 0), FirstLoose(later, n, f, 0);
    assert forall i | 0 <= i < n :: Matches(f, reg[i]) == Matches(f, later[i]);
    assert forall i | 0 <= i < n :: MatchesLoosely(f, reg[i]) == MatchesLoosely(f, later[i]);
    assert e == e' && l == l';
  }

  // ----- One bucket -----

  function Recurred(d: Disposition): Disposition {
    if d.Fixed? then Regression else Unresolved
  }

  function NewDisposition(reg: seq<Record>, n: nat, b: Bucket): Disposition
    requires n <= |reg| && b != []
  {
    if exists i :: 0 <= i < n && Reintroduces(b[0].finding, reg[i]) then Regression
    else if |Reviewers(b)| >= 2 then CorroboratedNew
    else NetNew
  }

  /** The registry and the index classified, after one bucket. The registry's first `n`
      records are those from before the cycle. */
  function Classify(reg: seq<Record>, n: nat, b: Bucket, cycle: int): (out: (seq<Record>, nat))
    requires n <= |reg| && b != []
    ensures |reg| <= |out.0| && out.1 < |out.0|
  {
    var f := b[0].finding;
    match HitOf(reg, n, f)
    case Exact(k) =>
      (reg[k := reg[k].(lastSeen := cycle, disposition := Recurred(reg[k].disposition))], k)
    case Downgrade(k) =>
      (reg[k := reg[k].(lastSeen := cycle, disposition := Downgraded)], k)
    case Miss =>
      (reg + [Record(FingerprintOf(f), cycle, cycle, f.file, f.line, f.severity, f.tokens, b[0].reviewer,
                     NewDisposition(reg, n, b))], |reg|)
  }

  // ----- One cycle -----

  ghost predicate NonemptyBuckets(bs: seq<Bucket>) { forall i | 0 <= i < |bs| :: bs[i] != [] }

  datatype Progress = Progress(registry: seq<Record>, classified: seq<nat>)

  /** After the first `k` buckets of a cycle that began with registry `reg`. */
  ghost function Process(reg: seq<Record>, bs: seq<Bucket>, k: nat, cycle: int): (p: Progress)
    requires NonemptyBuckets(bs) && k <= |bs|
    ensures |reg| <= |p.registry|
  {
    if k == 0 then Progress(reg, [])
    else
      var p := Process(reg, bs, k - 1, cycle);
      var (registry, index) := Classify(p.registry, |reg|, bs[k - 1], cycle);
      Progress(registry, p.classified + [index])
  }

  predicate Lapsed(r: Record, cycle: int) {
    r.lastSeen < cycle && r.severity == "P1" && r.disposition.Lapses()
  }

  function MarkFixed(reg: seq<Record>, cycle: int): seq<Record> {
    seq(|reg|, i requires 0 <= i < |reg| => if Lapsed(reg[i], cycle) then reg[i].(disposition := Fixed) else reg[i])
  }

  /** The registry and the classified indices after a whole cycle. */
  ghost function Update(reg: seq<Record>, bs: seq<Bucket>, cycle: int): Progress
    requires NonemptyBuckets(bs)
  {
    var p := Process(reg, bs, |bs|, cycle);
    Progress(MarkFixed(p.registry, cycle), p.classified)
  }

  predicate AnyBlocking(reg: seq<Record>) {
    exists i :: 0 <= i < |reg| && reg[i].BlockingP1()
  }

  /** `has_blocking_p1` on the list a cycle returns: the classified entries are the registry's
      own records, so they are read after the whole update. */
  predicate BlockingAmong(reg: seq<Record>, classified: seq<nat>)
    requires forall i | i in classified :: i < |reg|
  {
    exists i :: i in classified && reg[i].BlockingP1()
  }

  // ----- The rules written out -----

  /** Words that say something was settled, next to words that refer to an earlier cycle. */
  ghost predicate IsCommentary(words: set<string>) {
    && ("fixed" in words || "resolved" in words || "addressed" in words)
    && ("prior" in words || "previous" in words || "cycle" in words || "finding" in words || "issue" in words)
  }

  /** The finding speaks of the record, at whatever severity. */
  ghost predicate SpeaksOf(f: Finding, r: Record) {
    !IsCommentary(f.tokens) && f.file == r.file && HalfShared(f.tokens, r.tokens)
  }

  ghost predicate SameAs(f: Finding, r: Record) { SpeaksOf(f, r) && f.severity == r.severity }

  /** The finding brings back a fixed record: it speaks of it, or sits on its very line. */
  ghost predicate BringsBack(f: Finding, r: Record) {
    && r.disposition == Fixed && !IsCommentary(f.tokens) && f.file == r.file && f.severity == r.severity
    && (HalfShared(f.tokens, r.tokens) || (f.line.Some? && f.line == r.line))
  }

  /** What one bucket does to the registry, whose first `n` records are from before the cycle. */
  ghost predicate BucketRule(before: seq<Record>, n: nat, b: Bucket, cycle: int, after: seq<Record>, index: nat)
    requires n <= |before| && b != []
  {
    var f := b[0].finding;
    if exists i | 0 <= i < n :: SameAs(f, before[i]) then
      // the first record it is the same as recurs
      && index < n && SameAs(f, before[index]) && (forall i | 0 <= i < index :: !SameAs(f, before[i]))
      && after == before[index := before[index].(lastSeen := cycle,
                                                 disposition := if before[index].disposition == Fixed then Regression else Unresolved)]
    else if exists i | 0 <= i < n :: DowngradesFirst(before, n, f, i) then
      // a P2 that speaks first of a P1 record downgrades it
      && index < n && DowngradesFirst(before, n, f, index)
      && after == before[index := before[index].(lastSeen := cycle, disposition := Downgraded)]
    else
      // anything else is new
      && index == |before| && |after| == |before| + 1 && after[..|before|] == before
      && var r := after[index];
         && r.id == Fingerprint(f.severity, if f.file.Some? then f.file.value else "", f.line, f.tokens)
         && r.firstSeen == cycle && r.lastSeen == cycle && r.file == f.file && r.line == f.line
         && r.severity == f.severity && r.tokens == f.tokens && r.reporter == b[0].reviewer
         && r.disposition == (if exists i | 0 <= i < n :: BringsBack(f, before[i]) then Regression
                              else if exists x, y | x in b && y in b :: x.reviewer != y.reviewer then CorroboratedNew
                              else NetNew)
  }

  ghost predicate DowngradesFirst(before: seq<Record>, n: nat, f: Finding, i: nat)
    requires n <= |before|
  {
    && i < n && SpeaksOf(f, before[i]) && (forall j | 0 <= j < i :: !SpeaksOf(f, before[j]))
    && before[i].severity == "P1" && f.severity == "P2"
  }

  /** What the end of the cycle does to one record. */
  ghost predicate LapseRule(before: Record, cycle: int, after: Record) {
    if before.lastSeen < cycle && before.severity == "P1" &&
       before.disposition in {Unresolved, NetNew, CorroboratedNew, Regression, AcBlocking, DiffUngrounded}
    then after == before.(disposition := Fixed)
    else after == before
  }

  /** A whole cycle: the buckets one after another, and then the lapses. */
  ghost predicate CycleRule(before: seq<Record>, bs: seq<Bucket>, cycle: int, after: seq<Record>, classified: seq<nat>)
    requires NonemptyBuckets(bs)
  {
    && |classified| == |bs|
    && exists stages: seq<seq<Record>> | |stages| == |bs| + 1 ::
      && stages[0] == before && (forall k | 0 <= k <= |bs| :: |before| <= |stages[k]|)
      && (forall k | 0 <= k < |bs| :: BucketRule(stages[k], |before|, bs[k], cycle, stages[k + 1], classified[k]))
      && |after| == |stages[|bs|]| && forall i | 0 <= i < |after| :: LapseRule(stages[|bs|][i], cycle, after[i])
  }

  lemma CommentaryIs(words: set<string>)
    ensures Commentary(words) <==> IsCommentary(words)
  {
    var settled, earlier := {"fixed", "resolved", "addressed"}, {"prior", "previous", "cycle", "finding", "issue"};
    assert words * settled != {} <==> exists w | w in settled :: w in words by {
      if w :| w in words * settled { assert w in settled; }
      if w :| w in settled && w in words { assert w in words * settled; }
    }
    assert words * earlier != {} <==> exists w | w in earlier :: w in words by {
      if w :| w in words * earlier { assert w in earlier; }
      if w :| w in earlier && w in words { assert w in words * earlier; }
    }
  }

  lemma MatchingIs(f: Finding, r: Record)
    ensures MatchesLoosely(f, r) <==> SpeaksOf(f, r)
    ensures Matches(f, r) <==> SameAs(f, r)
    ensures Reintroduces(f, r) <==> BringsBack(f, r)
  {
    hide Commentary, IsCommentary;
    CommentaryIs(f.tokens);
  }

  lemma HitIs(reg: seq<Record>, n: nat, f: Finding)
    requires n <= |reg|
    ensures var h := HitOf(reg, n, f);
      && (h.Exact? <==> exists i | 0 <= i < n :: SameAs(f, reg[i]))
      && (h.Exact? ==> h.index < n && SameAs(f, reg[h.index]) && forall i | 0 <= i < h.index :: !SameAs(f, reg[i]))
      && (h.Downgrade? ==> DowngradesFirst(reg, n, f, h.index))
      && (h.Miss? ==> forall i: nat :: !DowngradesFirst(reg, n, f, i))
  {
    hide Matches, MatchesLoosely, SameAs, SpeaksOf;
    forall i | 0 <= i < n
      ensures MatchesLoosely(f, reg[i]) <==> SpeaksOf(f, reg[i])
      ensures Matches(f, reg[i]) <==> SameAs(f, reg[i])
    {
      MatchingIs(f, reg[i]);
    }
    var e, l := FirstExact(reg, n, f, 0), FirstLoose(reg, n, f, 0);
    assert forall i | 0 <= i < e :: !SameAs(f, reg[i]);
    assert forall i | 0 <= i < l :: !SpeaksOf(f, reg[i]);
    forall i: nat | DowngradesFirst(reg, n, f, i)
      ensures i == l
    {
    }
  }

  lemma NewDispositionIs(reg: seq<Record>, n: nat, b: Bucket)
    requires n <= |reg| && b != []
    ensures NewDisposition(reg, n, b) ==
            if exists i | 0 <= i < n :: BringsBack(b[0].finding, reg[i]) then Regression
            else if exists x, y | x in b && y in b :: x.reviewer != y.reviewer then CorroboratedNew
            else NetNew
  {
    hide Reintroduces, BringsBack;
    forall i | 0 <= i < n
      ensures Reintroduces(b[0].finding, reg[i]) <==> BringsBack(b[0].finding, reg[i])
    {
      MatchingIs(b[0].finding, reg[i]);
    }
    TwoVoices(b);
  }

  lemma TwoVoices(b: Bucket)
    ensures |Reviewers(b)| >= 2 <==> exists x, y | x in b && y in b :: x.reviewer != y.reviewer
  {
    var names := Reviewers(b);
    if x, y :| x in b && y in b && x.reviewer != y.reviewer {
      assert {x.reviewer, y.reviewer} <= names;
      assert names == {x.reviewer, y.reviewer} + (names - {x.reviewer, y.reviewer});
    } else if b != [] {
      assert b[0] in b;
      assert names == {b[0].reviewer};
    } else {
      assert names == {};
    }
  }

  lemma ClassifyFollowsRule(reg: seq<Record>, n: nat, b: Bucket, cycle: int)
    requires n <= |reg| && b != []
    ensures var (after, index) := Classify(reg, n, b, cycle);
            BucketRule(reg, n, b, cycle, after, index)
  {
    hide HitOf, NewDisposition, SameAs, SpeaksOf, BringsBack, DowngradesFirst;
    HitIs(reg, n, b[0].finding);
    NewDispositionIs(reg, n, b);
  }

  lemma UpdateFollowsRule(reg: seq<Record>, bs: seq<Bucket>, cycle: int)
    requires NonemptyBuckets(bs)
    ensures var u := Update(reg, bs, cycle); CycleRule(reg, bs, cycle, u.registry, u.classified)
  {
    hide Classify, BucketRule, LapseRule, MarkFixed;
    var u := Update(reg, bs, cycle);
    var stages := seq(|bs| + 1, k requires 0 <= k <= |bs| => Process(reg, bs, k, cycle).registry);
    assert stages[0] == reg;
    ClassifiedSoFar(reg, bs, |bs|, cycle);
    forall k | 0 <= k < |bs|
      ensures BucketRule(stages[k], |reg|, bs[k], cycle, stages[k + 1], u.classified[k])
    {
      ClassifyFollowsRule(stages[k], |reg|, bs[k], cycle);
      ClassifiedAt(reg, bs, k, |bs|, cycle);
    }
    MarkFixedFollowsRule(stages[|bs|], cycle);
  }

  lemma MarkFixedFollowsRule(reg: seq<Record>, cycle: int)
    ensures |MarkFixed(reg, cycle)| == |reg| && forall i | 0 <= i < |reg| :: LapseRule(reg[i], cycle, MarkFixed(reg, cycle)[i])
  {
  }

  /** The verdict of `has_blocking_p1`. */
  lemma VerdictIs(reg: seq<Record>)
    ensures AnyBlocking(reg) <==>
            exists r | r in reg :: r.severity == "P1" && r.disposition in {Unresolved, Regression, CorroboratedNew, AcBlocking}
  {
    if AnyBlocking(reg) {
      var i :| 0 <= i < |reg| && reg[i].BlockingP1();
      assert reg[i] in reg;
    }
  }

  lemma {:induction false} ClassifiedSoFar(reg: seq<Record>, bs: seq<Bucket>, k: nat, cycle: int)
    requires NonemptyBuckets(bs) && k <= |bs|
    ensures |Process(reg, bs, k, cycle).classified| == k
    decreases k
  {
    hide Classify;
    if k > 0 {
      ClassifiedSoFar(reg, bs, k - 1, cycle);
    }
  }

  lemma {:induction false} ClassifiedAt(reg: seq<Record>, bs: seq<Bucket>, k: nat, m: nat, cycle: int)
    requires NonemptyBuckets(bs) && k < m <= |bs|
    ensures |Process(reg, bs, m, cycle).classified| == m
    ensures Process(reg, bs, m, cycle).classified[k] ==
            Classify(Process(reg, bs, k, cycle).registry, |reg|, bs[k], cycle).1
    decreases m
  {
    hide Classify;
    ClassifiedSoFar(reg, bs, m, cycle);
    ClassifiedSoFar(reg, bs, m - 1, cycle);
    if k < m - 1 {
      ClassifiedAt(reg, bs, k, m - 1, cycle);
    }
  }

  /** A note that something was settled touches no record from before, and what is recorded of
      it is never a regression. */
  lemma CommentaryTouchesNothing(reg: seq<Record>, n: nat, b: Bucket, cycle: int, after: seq<Record>, index: nat)
    requires n <= |reg| && b != [] && IsCommentary(b[0].finding.tokens) && BucketRule(reg, n, b, cycle, after, index)
    ensures index == |reg| && |after| == |reg| + 1 && after[..|reg|] == reg
    ensures after[index].disposition == CorroboratedNew || after[index].disposition == NetNew
  {
    hide IsCommentary, HalfShared;
  }

  // ----- What a cycle keeps -----

  ghost predicate KeepsRecords(before: seq<Record>, after: seq<Record>) {
    |before| <= |after| && forall i | 0 <= i < |before| :: before[i].SameIdentity(after[i])
  }

  /** A record was seen this cycle exactly if the cycle classified it. */
  ghost predicate SeenIffClassified(p: Progress, cycle: int) {
    && (forall i | i in p.classified :: i < |p.registry|)
    && (forall i | 0 <= i < |p.registry| ::
          p.registry[i].lastSeen <= cycle && (p.registry[i].lastSeen == cycle <==> i in p.classified))
  }

  lemma ClassifyKeeps(p: Progress, n: nat, b: Bucket, cycle: int)
    requires n <= |p.registry| && b != [] && SeenIffClassified(p, cycle)
    ensures var (registry, index) := Classify(p.registry, n, b, cycle);
            KeepsRecords(p.registry, registry) && SeenIffClassified(Progress(registry, p.classified + [index]), cycle)
  {
    hide HitOf, NewDisposition;
  }

  lemma {:induction false} ProcessKeeps(reg: seq<Record>, bs: seq<Bucket>, k: nat, cycle: int)
    requires NonemptyBuckets(bs) && k <= |bs|
    requires forall i | 0 <= i < |reg| :: reg[i].lastSeen < cycle
    ensures KeepsRecords(reg, Process(reg, bs, k, cycle).registry)
    ensures SeenIffClassified(Process(reg, bs, k, cycle), cycle)
    decreases k
  {
    hide Classify;
    if k > 0 {
      ProcessKeeps(reg, bs, k - 1, cycle);
      ClassifyKeeps(Process(reg, bs, k - 1, cycle), |reg|, bs[k - 1], cycle);
    }
  }

  /** The verdict on the cycle's own list is the verdict on the whole registry, the registry
      only grows, and no record loses its identity. */
  lemma UpdateVerdict(reg: seq<Record>, bs: seq<Bucket>, cycle: int)
    requires NonemptyBuckets(bs) && forall i | 0 <= i < |reg| :: reg[i].lastSeen < cycle
    ensures var u := Update(reg, bs, cycle);
            && KeepsRecords(reg, u.registry)
            && (forall i | i in u.classified :: i < |u.registry|)
            && (forall i | 0 <= i < |u.registry| :: u.registry[i].lastSeen <= cycle)
            && (BlockingAmong(u.registry, u.classified) <==> AnyBlocking(u.registry))
  {
    hide Process;
    ProcessKeeps(reg, bs, |bs|, cycle);
    var p, u := Process(reg, bs, |bs|, cycle), Update(reg, bs, cycle);
    if AnyBlocking(u.registry) {
      var i :| 0 <= i < |u.registry| && u.registry[i].BlockingP1();
      assert !Lapsed(p.registry[i], cycle);
      assert i in p.classified;
    }
  }

  // ----- Which prior P1 records end the cycle blocking -----

  /** The last of the first `k` buckets whose head is about record `i`. */
  ghost function LastHit(reg: seq<Record>, bs: seq<Bucket>, k: nat, i: nat): Hit
    requires NonemptyBuckets(bs) && k <= |bs|
  {
    if k == 0 then Miss
    else
      var h := HitOf(reg, |reg|, bs[k - 1][0].finding);
      if !h.Miss? && h.index == i then h else LastHit(reg, bs, k - 1, i)
  }

  ghost predicate DecidedBy(h: Hit, before: Record, now: Record, cycle: int) {
    match h
    case Miss => now == before
    case Exact(_) => now.lastSeen == cycle && (now.disposition.Unresolved? || now.disposition.Regression?)
    case Downgrade(_) => now.lastSeen == cycle && now.disposition.Downgraded?
  }

  lemma {:induction false} LastHitDecides(reg: seq<Record>, bs: seq<Bucket>, k: nat, i: nat, cycle: int)
    requires NonemptyBuckets(bs) && k <= |bs| && i < |reg|
    requires forall j | 0 <= j < |reg| :: reg[j].lastSeen < cycle
    ensures DecidedBy(LastHit(reg, bs, k, i), reg[i], Process(reg, bs, k, cycle).registry[i], cycle)
    decreases k
  {
    hide HitOf, NewDisposition;
    if k > 0 {
      LastHitDecides(reg, bs, k - 1, i, cycle);
      ProcessKeeps(reg, bs, k - 1, cycle);
      HitIgnoresDispositions(reg, Process(reg, bs, k - 1, cycle).registry, |reg|, bs[k - 1][0].finding);
    }
  }

  /** A P1 record from before the cycle blocks afterwards exactly when the last bucket about it
      matched it at its own severity, whatever its disposition was. */
  lemma PriorP1BlocksIffMatched(reg: seq<Record>, bs: seq<Bucket>, i: nat, cycle: int)
    requires NonemptyBuckets(bs) && i < |reg| && reg[i].severity == "P1"
    requires forall j | 0 <= j < |reg| :: reg[j].lastSeen < cycle
    ensures i < |Update(reg, bs, cycle).registry|
    ensures Update(reg, bs, cycle).registry[i].BlockingP1() <==> LastHit(reg, bs, |bs|, i).Exact?
  {
    hide Process, LastHit;
    LastHitDecides(reg, bs, |bs|, i, cycle);
    ProcessKeeps(reg, bs, |bs|, cycle);
  }

  lemma {:induction false} NoLaterDowngrade(reg: seq<Record>, bs: seq<Bucket>, k: nat, i: nat, m: nat)
    requires NonemptyBuckets(bs) && k < m <= |bs|
    requires HitOf(reg, |reg|, bs[k][0].finding) == Exact(i)
    requires forall l | k < l < |bs| :: HitOf(reg, |reg|, bs[l][0].finding) != Downgrade(i)
    ensures LastHit(reg, bs, m, i).Exact?
    decreases m
  {
    hide HitOf;
    if m > k + 1 {
      NoLaterDowngrade(reg, bs, k, i, m - 1);
    }
  }

  /** A P1 that heads a bucket and matches a prior P1 record leaves that record blocking,
      unless a later bucket of the cycle downgrades it. */
  lemma ReportedAgainBlocks(reg: seq<Record>, bs: seq<Bucket>, k: nat, i: nat, cycle: int)
    requires NonemptyBuckets(bs) && k < |bs| && i < |reg| && reg[i].severity == "P1"
    requires forall j | 0 <= j < |reg| :: reg[j].lastSeen < cycle
    requires HitOf(reg, |reg|, bs[k][0].finding) == Exact(i)
    requires forall l | k < l < |bs| :: HitOf(reg, |reg|, bs[l][0].finding) != Downgrade(i)
    ensures i < |Update(reg, bs, cycle).registry| && Update(reg, bs, cycle).registry[i].BlockingP1()
  {
    hide HitOf, Update, LastHit;
    NoLaterDowngrade(reg, bs, k, i, |bs|);
    PriorP1BlocksIffMatched(reg, bs, i, cycle);
  }

  // ----- New findings -----

  lemma {:induction false} AppendedStay(reg: seq<Record>, bs: seq<Bucket>, k: nat, m: nat, j: nat, cycle: int)
    requires NonemptyBuckets(bs) && k <= m <= |bs|
    requires |reg| <= j < |Process(reg, bs, k, cycle).registry|
    ensures j < |Process(reg, bs, m, cycle).registry|
    ensures Process(reg, bs, m, cycle).registry[j] == Process(reg, bs, k, cycle).registry[j]
    decreases m
  {
    hide HitOf, NewDisposition;
    if k < m {
      AppendedStay(reg, bs, k, m - 1, j, cycle);
    }
  }

  /** A finding that matches no earlier record is recorded, and blocks exactly when it is a P1
      that brings back a fixed finding or that two reviewers reported. `now` is the registry
      as the cycle has left it so far. */
  lemma NewFindingBlocks(reg: seq<Record>, bs: seq<Bucket>, k: nat, cycle: int)
    requires NonemptyBuckets(bs) && k < |bs|
    requires HitOf(reg, |reg|, bs[k][0].finding).Miss? && forall j | 0 <= j < |reg| :: reg[j].lastSeen < cycle
    ensures var now, u, f := Process(reg, bs, k, cycle).registry, Update(reg, bs, cycle).registry, bs[k][0].finding;
            var j := |now|;
            && j < |u|
            && u[j].id == FingerprintOf(f) && u[j].severity == f.severity && u[j].file == f.file
            && u[j].firstSeen == u[j].lastSeen == cycle
            && (u[j].BlockingP1() <==>
                  && f.severity == "P1"
                  && (|Reviewers(bs[k])| >= 2 || exists i :: 0 <= i < |reg| && Reintroduces(f, now[i])))
  {
    hide HitOf, LastHit, Reviewers;
    ProcessKeeps(reg, bs, k, cycle);
    HitIgnoresDispositions(reg, Process(reg, bs, k, cycle).registry, |reg|, bs[k][0].finding);
    AppendedStay(reg, bs, k + 1, |bs|, |Process(reg, bs, k, cycle).registry|, cycle);
  }

  // ----- Any number of cycles -----

  datatype Cycle = Cycle(number: int, buckets: seq<Bucket>)

  /** Dispositions may be re-stamped between cycles; nothing else changes. */
  ghost predicate Restamped(a: seq<Record>, b: seq<Record>) {
    |a| == |b| && forall i | 0 <= i < |a| :: a[i].SameIdentity(b[i]) && b[i].lastSeen == a[i].lastSeen
  }

  /** `before[k]` is the registry going into the k-th cycle. */
  ghost predicate History(cycles: seq<Cycle>, before: seq<seq<Record>>) {
    && |cycles| == |before| > 0
    && (forall i | 0 <= i < |before[0]| :: before[0][i].lastSeen < cycles[0].number)
    && (forall k | 0 <= k < |cycles| :: NonemptyBuckets(cycles[k].buckets))
    && (forall k | 0 < k < |cycles| ::
          && cycles[k - 1].number < cycles[k].number
          && Restamped(Update(before[k - 1], cycles[k - 1].buckets, cycles[k - 1].number).registry, before[k]))
  }

  lemma {:induction false} HistoryStaysBehind(cycles: seq<Cycle>, before: seq<seq<Record>>, k: nat)
    requires History(cycles, before) && k < |cycles|
    ensures forall i | 0 <= i < |before[k]| :: before[k][i].lastSeen < cycles[k].number
    decreases k
  {
    hide Update, NonemptyBuckets, AnyBlocking, BlockingAmong;
    if k > 0 {
      HistoryStaysBehind(cycles, before, k - 1);
      UpdateVerdict(before[k - 1], cycles[k - 1].buckets, cycles[k - 1].number);
    }
  }

  /** In every history, right after every cycle the blocking verdict on that cycle's list is
      the verdict on the whole registry. */
  lemma VerdictThroughoutHistory(cycles: seq<Cycle>, before: seq<seq<Record>>, k: nat)
    requires History(cycles, before) && k < |cycles|
    ensures var u := Update(before[k], cycles[k].buckets, cycles[k].number);
            && (forall i | i in u.classified :: i < |u.registry|)
            && (BlockingAmong(u.registry, u.classified) <==> AnyBlocking(u.registry))
  {
    hide Update, AnyBlocking, BlockingAmong;
    HistoryStaysBehind(cycles, before, k);
    UpdateVerdict(before[k], cycles[k].buckets, cycles[k].number);
  }

  /** Records are never dropped and keep their identity through any number of cycles. */
  lemma {:induction false} RecordsThroughoutHistory(cycles: seq<Cycle>, before: seq<seq<Record>>, j: nat, k: nat)
    requires History(cycles, before) && j <= k < |cycles|
    ensures KeepsRecords(before[j], before[k])
    decreases k
  {
    hide Update, NonemptyBuckets, AnyBlocking, BlockingAmong;
    if j < k {
      RecordsThroughoutHistory(cycles, before, j, k - 1);
      HistoryStaysBehind(cycles, before, k - 1);
      UpdateVerdict(before[k - 1], cycles[k - 1].buckets, cycles[k - 1].number);
    }
  }

  // ----- The update itself -----

  /** Where a bucket with the same head fingerprint already sits, or the end. */
  function SlotOf(bs: seq<Bucket>, f: Finding): (k: nat)
    requires forall i | 0 <= i < |bs| :: bs[i] != []
    ensures k <= |bs| && (k < |bs| ==> FingerprintOf(bs[k][0].finding) == FingerprintOf(f))
    ensures forall i | 0 <= i < k :: FingerprintOf(bs[i][0].finding) != FingerprintOf(f)
  {
    if bs == [] || FingerprintOf(bs[0][0].finding) == FingerprintOf(f) then 0 else 1 + SlotOf(bs[1..], f)
  }

  ghost predicate DistinctHeads(bs: seq<Bucket>) {
    && NonemptyBuckets(bs)
    && forall i, j | 0 <= i < j < |bs| :: FingerprintOf(bs[i][0].finding) != FingerprintOf(bs[j][0].finding)
  }

  /** A bucket goes where one with the same head fingerprint sits, or to the end. */
  function Put(keyed: seq<Bucket>, b: Bucket): (out: seq<Bucket>)
    requires NonemptyBuckets(keyed) && b != []
    ensures NonemptyBuckets(out)
  {
    var k := SlotOf(keyed, b[0].finding);
    if k < |keyed| then keyed[k := b] else keyed + [b]
  }

  /** `merged_reports` after the first `n` buckets. */
  ghost function Keyed(buckets: seq<Bucket>, n: nat): (out: seq<Bucket>)
    requires NonemptyBuckets(buckets) && n <= |buckets|
    ensures NonemptyBuckets(out)
  {
    if n == 0 then [] else Put(Keyed(buckets, n - 1), buckets[n - 1])
  }

  ghost predicate SameHead(a: Bucket, b: Bucket)
    requires a != [] && b != []
  {
    FingerprintOf(a[0].finding) == FingerprintOf(b[0].finding)
  }

  /** No bucket after the m-th, up to the n-th, has its head. */
  ghost predicate LastWithHead(buckets: seq<Bucket>, n: nat, m: nat)
    requires NonemptyBuckets(buckets) && m < n <= |buckets|
  {
    forall l | m < l < n :: !SameHead(buckets[l], buckets[m])
  }

  lemma PutHolds(keyed: seq<Bucket>, b: Bucket)
    requires DistinctHeads(keyed) && b != []
    ensures DistinctHeads(Put(keyed, b))
    ensures forall x :: x in Put(keyed, b) <==> x == b || (x in keyed && x != [] && !SameHead(x, b))
    ensures (forall x | x in keyed :: x != [] && !SameHead(x, b)) ==> Put(keyed, b) == keyed + [b]
  {
    hide FingerprintOf;
    var k, out := SlotOf(keyed, b[0].finding), Put(keyed, b);
    assert out[k] == b;
    forall x | x in keyed && x != [] && !SameHead(x, b)
      ensures x in out
    {
      var i :| 0 <= i < |keyed| && keyed[i] == x;
      assert out[i] == x;
    }
    forall x | x in out && x != b
      ensures x in keyed && x != [] && !SameHead(x, b)
    {
      var i :| 0 <= i < |out| && out[i] == x;
      assert keyed[i] == x && i != k;
    }
    assert k < |keyed| ==> keyed[k] in keyed && SameHead(keyed[k], b);
  }

  /** Of the buckets that share a head fingerprint the last one is kept, and each head once. */
  lemma {:induction false} LastBucketIsKept(buckets: seq<Bucket>, n: nat)
    requires NonemptyBuckets(buckets) && n <= |buckets|
    ensures DistinctHeads(Keyed(buckets, n))
    ensures forall x :: x in Keyed(buckets, n) <==>
              exists m | 0 <= m < n :: x == buckets[m] && LastWithHead(buckets, n, m)
    ensures DistinctHeads(buckets) ==> Keyed(buckets, n) == buckets[..n]
    decreases n
  {
    hide FingerprintOf, Put;
    if n > 0 {
      LastBucketIsKept(buckets, n - 1);
      var before, b := Keyed(buckets, n - 1), buckets[n - 1];
      PutHolds(before, b);
      forall m | 0 <= m < n - 1
        ensures LastWithHead(buckets, n, m) <==> LastWithHead(buckets, n - 1, m) && !SameHead(b, buckets[m])
      {
      }
      assert LastWithHead(buckets, n, n - 1);
    }
  }

  /** A bucket with the head of `a` comes before any with the head of `b`. */
  ghost predicate MetBefore(buckets: seq<Bucket>, n: nat, a: Bucket, b: Bucket)
    requires NonemptyBuckets(buckets) && n <= |buckets| && a != [] && b != []
  {
    exists i | 0 <= i < n :: SameHead(buckets[i], a) && forall j | 0 <= j <= i :: !SameHead(buckets[j], b)
  }

  lemma {:induction false} HeadsAreKept(buckets: seq<Bucket>, n: nat, m: nat)
    requires NonemptyBuckets(buckets) && m < n <= |buckets|
    ensures exists p | 0 <= p < |Keyed(buckets, n)| :: SameHead(Keyed(buckets, n)[p], buckets[m])
    decreases n
  {
    hide FingerprintOf;
    var before, b := Keyed(buckets, n - 1), buckets[n - 1];
    var k := SlotOf(before, b[0].finding);
    if m < n - 1 {
      HeadsAreKept(buckets, n - 1, m);
      var p :| 0 <= p < |before| && SameHead(before[p], buckets[m]);
      assert SameHead(Keyed(buckets, n)[p], buckets[m]);
    } else {
      assert Keyed(buckets, n)[k] == b;
    }
  }

  /** The kept buckets stand in the order their heads were first met. */
  lemma {:induction false} KeptInOrderMet(buckets: seq<Bucket>, n: nat, p: nat, q: nat)
    requires NonemptyBuckets(buckets) && n <= |buckets| && p < q < |Keyed(buckets, n)|
    ensures MetBefore(buckets, n, Keyed(buckets, n)[p], Keyed(buckets, n)[q])
    decreases n
  {
    hide FingerprintOf;
    var before, b := Keyed(buckets, n - 1), buckets[n - 1];
    var now, k := Keyed(buckets, n), SlotOf(before, b[0].finding);
    if q < |before| {
      KeptInOrderMet(buckets, n - 1, p, q);
      var i :| 0 <= i < n - 1 && SameHead(buckets[i], before[p]) && forall j | 0 <= j <= i :: !SameHead(buckets[j], before[q]);
      assert SameHead(now[p], before[p]) && SameHead(now[q], before[q]);
      assert SameHead(buckets[i], now[p]);
    } else {
      var i := OriginOf(buckets, n - 1, p);
      forall j | 0 <= j <= i
        ensures !SameHead(buckets[j], now[q])
      {
        HeadsAreKept(buckets, n - 1, j);
      }
      assert now[p] == before[p] && SameHead(buckets[i], now[p]);
    }
  }

  lemma {:induction false} OriginOf(buckets: seq<Bucket>, n: nat, p: nat) returns (i: nat)
    requires NonemptyBuckets(buckets) && n <= |buckets| && p < |Keyed(buckets, n)|
    ensures i < n && SameHead(buckets[i], Keyed(buckets, n)[p])
    decreases n
  {
    hide FingerprintOf;
    var before, b := Keyed(buckets, n - 1), buckets[n - 1];
    var k := SlotOf(before, b[0].finding);
    if p == k {
      i := n - 1;
    } else {
      i := OriginOf(buckets, n - 1, p);
    }
  }

  method KeyByHead(buckets: seq<Bucket>) returns (keyed: seq<Bucket>)
    requires NonemptyBuckets(buckets)
    ensures keyed == Keyed(buckets, |buckets|)
    ensures DistinctHeads(keyed) && (DistinctHeads(buckets) ==> keyed == buckets)
  {
    hide FingerprintOf, DistinctHeads;
    keyed := [];
    for n := 0 to |buckets|
      invariant keyed == Keyed(buckets, n)
    {
      var k := SlotOf(keyed, buckets[n][0].finding);
      keyed := if k < |keyed| then keyed[k := buckets[n]] else keyed + [buckets[n]];
    }
    LastBucketIsKept(buckets, |buckets|);
    assert buckets[..|buckets|] == buckets;
  }

  class CoordinatorState {
    var registry: seq<Record>

    /** `update_finding_registry`: collect, bucket, merge, key, classify, lapse. */
    method UpdateFindingRegistry(results: seq<(string, seq<Finding>)>, cycle: int)
      returns (classified: seq<nat>, ghost merged: seq<Bucket>, ghost buckets: seq<Bucket>, ghost steps: seq<(nat, nat)>)
      modifies this
      ensures var reports := AllReports(results);
              Leads(Assigned(reports, |reports|), steps, merged) && Partition(merged, reports)
      ensures forall p, q | 0 <= p < |merged| && 0 <= q < |merged| && p != q :: !Near(merged[p], merged[q])
      ensures NonemptyBuckets(merged) && buckets == Keyed(merged, |merged|)
      ensures DistinctHeads(buckets) && (DistinctHeads(merged) ==> buckets == merged)
      ensures registry == Update(old(registry), buckets, cycle).registry
      ensures classified == Update(old(registry), buckets, cycle).classified
      // the same, rule by rule
      ensures AssignRule(AllReports(results), Assigned(AllReports(results), |AllReports(results)|))
      ensures CycleRule(old(registry), buckets, cycle, registry, classified)
    {
      hide CycleRule, AssignRule, Update;
      var reports := Collect(results);
      var grouped := AssignBuckets(reports);
      var swept;
      swept, steps := MergeSweep(grouped);
      var keyed := KeyByHead(swept);
      merged, buckets := swept, keyed;
      classified := ClassifyAll(keyed, cycle);
      Lapse(cycle);
      UpdateIs(old(registry), keyed, cycle);
      UpdateFollowsRule(old(registry), keyed, cycle);
    }

    method ClassifyAll(buckets: seq<Bucket>, cycle: int) returns (classified: seq<nat>)
      requires NonemptyBuckets(buckets)
      modifies this
      ensures Progress(registry, classified) == Process(old(registry), buckets, |buckets|, cycle)
    {
      classified := [];
      var n := |registry|;
      for k := 0 to |buckets|
        invariant n <= |registry|
        invariant Progress(registry, classified) == Process(old(registry), buckets, k, cycle)
      {
        var (updated, index) := Classify(registry, n, buckets[k], cycle);
        registry := updated;
        classified := classified + [index];
      }
    }

    method Lapse(cycle: int)
      modifies this
      ensures registry == MarkFixed(old(registry), cycle)
    {
      for i := 0 to |registry|
        invariant |registry| == |old(registry)|
        invariant forall j | 0 <= j < i :: registry[j] == MarkFixed(old(registry), cycle)[j]
        invariant forall j | i <= j < |registry| :: registry[j] == old(registry)[j]
      {
        if Lapsed(registry[i], cycle) {
          registry := registry[i := registry[i].(disposition := Fixed)];
        }
      }
    }
  }

  lemma UpdateIs(reg: seq<Record>, bs: seq<Bucket>, cycle: int)
    requires NonemptyBuckets(bs)
    ensures var p := Process(reg, bs, |bs|, cycle);
            Update(reg, bs, cycle) == Progress(MarkFixed(p.registry, cycle), p.classified)
  {
  }

  /** The reports are the findings of every reviewer in turn: a result's findings follow those
      of the results before it. */
  lemma {:induction false} ReportsAre(results: seq<(string, seq<Finding>)>, i: nat, j: nat)
    requires i < |results| && j < |results[i].1|
    ensures |AllReports(results[..i])| + j < |AllReports(results)|
    ensures AllReports(results)[|AllReports(results[..i])| + j] == Report(results[i].0, results[i].1[j])
    ensures |AllReports(results[..i + 1])| == |AllReports(results[..i])| + |results[i].1|
    decreases results
  {
    var n := |results| - 1;
    assert results[..i + 1][..i] == results[..i];
    if i < n {
      ReportsAre(results[..n], i, j);
      assert results[..n][..i] == results[..i] && results[..n][..i + 1] == results[..i + 1];
    } else {
      assert results[..i + 1] == results;
    }
  }

  function AllReports(results: seq<(string, seq<Finding>)>): seq<Report> {
    if results == [] then []
    else
      var (name, findings) := results[|results| - 1];
      AllReports(results[..|results| - 1]) + seq(|findings|, i requires 0 <= i < |findings| => Report(name, findings[i]))
  }

  method Collect(results: seq<(string, seq<Finding>)>) returns (reports: seq<Report>)
    ensures reports == AllReports(results)
  {
    reports := [];
    for n := 0 to |results|
      invariant reports == AllReports(results[..n])
    {
      var (name, findings) := results[n];
      ghost var before := reports;
      for i := 0 to |findings|
        invariant reports == before + seq(i, j requires 0 <= j < i => Report(name, findings[j]))
      {
        reports := reports + [Report(name, findings[i])];
      }
      assert results[..n + 1][..n] == results[..n];
    }
    assert results[..|results|] == results;
  }
}
