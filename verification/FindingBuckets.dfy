/** Grouping one review cycle's findings (`finding_classifier.py`): single-pass assignment to
    the first matching bucket, then a merge sweep on line proximity. */
module FindingBuckets {
  import opened Common

  /** A finding; `tokens` is the normalized word set of its description. */
  datatype Finding = Finding(severity: string, file: Option<string>, line: Option<int>, tokens: set<string>)
  {
    predicate Comparable() { file.Some? && line.Some? }
  }

  datatype Report = Report(reviewer: string, finding: Finding)

  type Bucket = seq<Report>

  /** Jaccard overlap of at least one half; two empty sets overlap fully. */
  predicate Overlaps(a: set<string>, b: set<string>) {
    2 * |a * b| >= |a + b|
  }

  function Reviewers(b: Bucket): set<string> { set r | r in b :: r.reviewer }

  predicate Alike(f: Finding, g: Finding) {
    g.severity == f.severity && g.file == f.file && Overlaps(f.tokens, g.tokens)
  }

  /** `_jaccard_matches_bucket`. */
  predicate Joins(r: Report, b: Bucket) {
    r.reviewer !in Reviewers(b) && exists x | x in b :: Alike(r.finding, x.finding)
  }

  predicate PairNear(f: Finding, g: Finding)
    requires f.Comparable() && g.Comparable()
  {
    f.severity == g.severity && f.file == g.file && -3 <= f.line.value - g.line.value <= 3
  }

  predicate HasComparable(b: Bucket) {
    exists i :: 0 <= i < |b| && b[i].finding.Comparable()
  }

  /** `_should_merge_line_proximity`: every comparable pair across the buckets is near. */
  predicate Near(a: Bucket, b: Bucket) {
    && HasComparable(a) && HasComparable(b)
    && forall i, j | 0 <= i < |a| && 0 <= j < |b| && a[i].finding.Comparable() && b[j].finding.Comparable() ::
         PairNear(a[i].finding, b[j].finding)
  }

  /** Growing a bucket that already has a comparable finding never makes it near another. */
  lemma GrowingStaysFar(a: Bucket, b: Bucket, more: Bucket)
    requires !Near(a, b) && HasComparable(b)
    ensures !Near(a, b + more)
  {
    if HasComparable(a) {
      var i, j :| 0 <= i < |a| && 0 <= j < |b| && a[i].finding.Comparable() && b[j].finding.Comparable()
                  && !PairNear(a[i].finding, b[j].finding);
      assert (b + more)[j] == b[j];
    }
  }

  lemma NearIsSymmetric(a: Bucket, b: Bucket)
    ensures Near(a, b) <==> Near(b, a)
  {
  }

  // ----- Contents and uniformity -----

  /** How often the buckets together hold a report. */
  function Held(bs: seq<Bucket>, x: Report): nat {
    if bs == [] then 0 else multiset(bs[0])[x] + Held(bs[1..], x)
  }

  /** The buckets hold exactly these reports, each as often as it occurs. */
  ghost predicate Partition(bs: seq<Bucket>, reports: seq<Report>) {
    forall x :: Held(bs, x) == multiset(reports)[x]
  }

  lemma {:induction false} HeldAppend(bs: seq<Bucket>, b: Bucket, x: Report)
    ensures Held(bs + [b], x) == Held(bs, x) + multiset(b)[x]
    decreases bs
  {
    if bs == [] {
      assert bs + [b] == [b] && [b][1..] == [];
    } else {
      assert (bs + [b])[1..] == bs[1..] + [b];
      HeldAppend(bs[1..], b, x);
    }
  }

  lemma {:induction false} HeldUpdate(bs: seq<Bucket>, i: nat, b: Bucket, x: Report)
    requires i < |bs|
    ensures Held(bs[i := b], x) == Held(bs, x) - multiset(bs[i])[x] + multiset(b)[x]
    decreases bs
  {
    if i == 0 {
      assert bs[0 := b][1..] == bs[1..];
    } else {
      assert bs[i := b][1..] == bs[1..][i - 1 := b];
      HeldUpdate(bs[1..], i - 1, b, x);
    }
  }

  lemma {:induction false} HeldRemove(bs: seq<Bucket>, j: nat, x: Report)
    requires j < |bs|
    ensures Held(bs[..j] + bs[j + 1..], x) == Held(bs, x) - multiset(bs[j])[x]
    decreases bs
  {
    if j == 0 {
      assert bs[..0] + bs[1..] == bs[1..];
    } else {
      assert (bs[..j] + bs[j + 1..])[1..] == bs[1..][..j - 1] + bs[1..][j..];
      HeldRemove(bs[1..], j - 1, x);
    }
  }

  predicate Uniform(b: Bucket) {
    forall i, j | 0 <= i < |b| && 0 <= j < |b| ::
      b[i].finding.severity == b[j].finding.severity && b[i].finding.file == b[j].finding.file
  }

  /** Buckets that are non-empty and agree inside on file and severity. */
  ghost predicate WellGrouped(bs: seq<Bucket>) {
    forall i | 0 <= i < |bs| :: bs[i] != [] && Uniform(bs[i])
  }

  lemma JoiningStaysUniform(r: Report, b: Bucket)
    requires Uniform(b) && Joins(r, b)
    ensures Uniform(b + [r])
  {
    var x :| x in b && Alike(r.finding, x.finding);
    var k :| 0 <= k < |b| && b[k] == x;
    forall i, j | 0 <= i < |b + [r]| && 0 <= j < |b + [r]|
      ensures (b + [r])[i].finding.severity == (b + [r])[j].finding.severity
              && (b + [r])[i].finding.file == (b + [r])[j].finding.file
    {
      assert i < |b| ==> b[i].finding.severity == b[k].finding.severity && b[i].finding.file == b[k].finding.file;
      assert j < |b| ==> b[j].finding.severity == b[k].finding.severity && b[j].finding.file == b[k].finding.file;
    }
  }

  lemma MergingStaysUniform(a: Bucket, b: Bucket)
    requires Uniform(a) && Uniform(b) && Near(a, b)
    ensures Uniform(a + b)
  {
    var p :| 0 <= p < |a| && a[p].finding.Comparable();
    var q :| 0 <= q < |b| && b[q].finding.Comparable();
    assert PairNear(a[p].finding, b[q].finding);
    var c := a + b;
    forall i | 0 <= i < |c|
      ensures c[i].finding.severity == a[p].finding.severity && c[i].finding.file == a[p].finding.file
    {
      if i >= |a| {
        assert c[i] == b[i - |a|];
        assert b[i - |a|].finding.severity == b[q].finding.severity && b[i - |a|].finding.file == b[q].finding.file;
      }
    }
  }

  // ----- Assignment -----

  /** No reviewer appears twice in a bucket. */
  ghost predicate OneVoiceEach(bs: seq<Bucket>) {
    forall i, p, q | 0 <= i < |bs| && 0 <= p < q < |bs[i]| :: bs[i][p].reviewer != bs[i][q].reviewer
  }

  /** The index of the first bucket a report joins, or the number of buckets. */
  function FirstJoin(r: Report, bs: seq<Bucket>): (k: nat)
    ensures k <= |bs| && (k < |bs| ==> Joins(r, bs[k]))
    ensures forall i | 0 <= i < k :: !Joins(r, bs[i])
  {
    if bs == [] || Joins(r, bs[0]) then 0 else 1 + FirstJoin(r, bs[1..])
  }

  /** First match wins; a report that matches nothing opens a bucket. */
  function Assigned(reports: seq<Report>, n: nat): seq<Bucket>
    requires n <= |reports|
  {
    if n == 0 then []
    else
      var bs, r := Assigned(reports, n - 1), reports[n - 1];
      var k := FirstJoin(r, bs);
      if k < |bs| then bs[k := bs[k] + [r]] else bs + [[r]]
  }

  // ----- The rules written out -----

  /** At least half of all words are shared; no words at all count as shared. */
  ghost predicate HalfShared(a: set<string>, b: set<string>) { 2 * |a * b| >= |a + b| }

  /** The bucket has nothing from this reviewer yet, and one of its findings is on the same file,
      at the same severity, with at least half the words shared. */
  ghost predicate JoinRule(r: Report, b: Bucket) {
    && (forall x | x in b :: x.reviewer != r.reviewer)
    && exists x | x in b ::
         && x.finding.severity == r.finding.severity && x.finding.file == r.finding.file
         && HalfShared(x.finding.tokens, r.finding.tokens)
  }

  lemma JoinsFollowsRule(r: Report, b: Bucket)
    ensures Joins(r, b) <==> JoinRule(r, b)
  {
    forall x | x in b
      ensures Overlaps(r.finding.tokens, x.finding.tokens) <==> HalfShared(x.finding.tokens, r.finding.tokens)
    {
      assert r.finding.tokens * x.finding.tokens == x.finding.tokens * r.finding.tokens;
      assert r.finding.tokens + x.finding.tokens == x.finding.tokens + r.finding.tokens;
    }
    assert r.reviewer in Reviewers(b) <==> exists x | x in b :: x.reviewer == r.reviewer;
  }

  /** One report: to the end of the first bucket it may join, or into a new last bucket. */
  ghost predicate PlaceRule(before: seq<Bucket>, r: Report, after: seq<Bucket>) {
    exists k: nat :: PlacedAt(before, r, after, k)
  }

  ghost predicate PlacedAt(before: seq<Bucket>, r: Report, after: seq<Bucket>, k: nat) {
    && k <= |before| && (forall i | 0 <= i < k :: !JoinRule(r, before[i]))
    && (if k < |before| then JoinRule(r, before[k]) && after == before[k := before[k] + [r]] else after == before + [[r]])
  }

  /** The reports placed one after another, from no bucket at all. */
  ghost predicate AssignRule(reports: seq<Report>, buckets: seq<Bucket>) {
    exists stages: seq<seq<Bucket>> | |stages| == |reports| + 1 ::
      && stages[0] == [] && stages[|reports|] == buckets
      && forall n | 0 <= n < |reports| :: PlaceRule(stages[n], reports[n], stages[n + 1])
  }

  lemma PlaceFollowsRule(reports: seq<Report>, n: nat)
    requires n < |reports|
    ensures PlaceRule(Assigned(reports, n), reports[n], Assigned(reports, n + 1))
  {
    hide Joins, JoinRule;
    var bs, r := Assigned(reports, n), reports[n];
    var k := FirstJoin(r, bs);
    forall i | 0 <= i < |bs|
      ensures Joins(r, bs[i]) <==> JoinRule(r, bs[i])
    {
      JoinsFollowsRule(r, bs[i]);
    }
    assert forall i | 0 <= i < k :: !JoinRule(r, bs[i]);
    assert PlacedAt(bs, r, Assigned(reports, n + 1), k);
  }

  lemma AssignedFollowsRule(reports: seq<Report>)
    ensures AssignRule(reports, Assigned(reports, |reports|))
  {
    hide PlaceRule;
    var stages := seq(|reports| + 1, n requires 0 <= n <= |reports| => Assigned(reports, n));
    assert stages[0] == Assigned(reports, 0) == [];
    forall n | 0 <= n < |reports|
      ensures PlaceRule(stages[n], reports[n], stages[n + 1])
    {
      PlaceFollowsRule(reports, n);
    }
  }

  ghost predicate Located(r: Report) { r.finding.file.Some? && r.finding.line.Some? }

  /** Both buckets have a finding with file and line, and all such pairs across them agree on
      severity and file and lie at most three lines apart. */
  ghost predicate NearRule(a: Bucket, b: Bucket) {
    && (exists x | x in a :: Located(x)) && (exists y | y in b :: Located(y))
    && forall x, y | x in a && y in b && Located(x) && Located(y) ::
         && x.finding.severity == y.finding.severity && x.finding.file == y.finding.file
         && x.finding.line.value <= y.finding.line.value + 3 && y.finding.line.value <= x.finding.line.value + 3
  }

  lemma NearFollowsRule(a: Bucket, b: Bucket)
    ensures Near(a, b) <==> NearRule(a, b)
  {
    if Near(a, b) {
      forall x, y | x in a && y in b && Located(x) && Located(y)
        ensures PairNear(x.finding, y.finding)
      {
        var i :| 0 <= i < |a| && a[i] == x;
        var j :| 0 <= j < |b| && b[j] == y;
      }
    }
    if NearRule(a, b) {
      var x :| x in a && Located(x);
      var y :| y in b && Located(y);
      assert HasComparable(a) && HasComparable(b);
      assert forall i, j | 0 <= i < |a| && 0 <= j < |b| :: a[i] in a && b[j] in b;
    }
  }

  /** The single-pass assignment. A finding goes to a bucket of the same file and severity that
      none of its reviewer's findings is in yet, or to a bucket of its own. */
  method AssignBuckets(reports: seq<Report>) returns (buckets: seq<Bucket>)
    ensures buckets == Assigned(reports, |reports|)
    ensures AssignRule(reports, buckets)
    ensures Partition(buckets, reports)
    ensures WellGrouped(buckets)
    ensures OneVoiceEach(buckets)
  {
    hide WellGrouped, OneVoiceEach, Assigned, Partition, Held, AssignRule;
    AssignedFollowsRule(reports);
    buckets := [];
    NothingAssigned(reports);
    for n := 0 to |reports|
      invariant buckets == Assigned(reports, n)
      invariant Partition(buckets, reports[..n])
      invariant WellGrouped(buckets)
      invariant OneVoiceEach(buckets)
    {
      ghost var before := buckets;
      var k := FirstJoined(reports[n], buckets);
      if k < |buckets| {
        buckets := AddTo(buckets, k, reports[n]);
      } else {
        buckets := AddNew(buckets, reports[n]);
      }
      AssignedStep(reports, n, before, buckets);
    }
    assert reports[..|reports|] == reports;
  }

  lemma NothingAssigned(reports: seq<Report>)
    ensures Assigned(reports, 0) == [] && Partition([], reports[..0]) && WellGrouped([]) && OneVoiceEach([])
  {
  }

  lemma AssignedStep(reports: seq<Report>, n: nat, bs: seq<Bucket>, out: seq<Bucket>)
    requires n < |reports| && bs == Assigned(reports, n) && Partition(bs, reports[..n])
    requires forall x :: Held(out, x) == Held(bs, x) + multiset{reports[n]}[x]
    requires var r := reports[n]; var k := FirstJoin(r, bs);
             out == if k < |bs| then bs[k := bs[k] + [r]] else bs + [[r]]
    ensures out == Assigned(reports, n + 1) && Partition(out, reports[..n + 1])
  {
    hide Held, Joins;
    assert reports[..n + 1] == reports[..n] + [reports[n]];
  }

  method FirstJoined(r: Report, buckets: seq<Bucket>) returns (k: nat)
    ensures k == FirstJoin(r, buckets)
  {
    k := 0;
    while k < |buckets| && !Joins(r, buckets[k])
      invariant k <= |buckets| && FirstJoin(r, buckets) == k + FirstJoin(r, buckets[k..])
    {
      assert buckets[k..][1..] == buckets[k + 1..];
      k := k + 1;
    }
  }

  method AddTo(buckets: seq<Bucket>, k: nat, r: Report) returns (out: seq<Bucket>)
    requires k < |buckets| && Joins(r, buckets[k]) && WellGrouped(buckets) && OneVoiceEach(buckets)
    ensures out == buckets[k := buckets[k] + [r]]
    ensures forall x :: Held(out, x) == Held(buckets, x) + multiset{r}[x]
    ensures WellGrouped(out) && OneVoiceEach(out)
  {
    out := buckets[k := buckets[k] + [r]];
    JoiningStaysUniform(r, buckets[k]);
    forall x
      ensures Held(out, x) == Held(buckets, x) + multiset{r}[x]
    {
      HeldUpdate(buckets, k, buckets[k] + [r], x);
    }
    forall i, p, q | 0 <= i < |out| && 0 <= p < q < |out[i]|
      ensures out[i][p].reviewer != out[i][q].reviewer
    {
      if i == k && q == |buckets[k]| {
        assert buckets[k][p] in buckets[k];
        assert buckets[k][p].reviewer in Reviewers(buckets[k]);
      } else {
        assert buckets[i][p].reviewer != buckets[i][q].reviewer;
      }
    }
  }

  method AddNew(buckets: seq<Bucket>, r: Report) returns (out: seq<Bucket>)
    requires WellGrouped(buckets) && OneVoiceEach(buckets)
    ensures out == buckets + [[r]]
    ensures forall x :: Held(out, x) == Held(buckets, x) + multiset{r}[x]
    ensures WellGrouped(out) && OneVoiceEach(out)
  {
    out := buckets + [[r]];
    forall x
      ensures Held(out, x) == Held(buckets, x) + multiset{r}[x]
    {
      HeldAppend(buckets, [r], x);
    }
  }

  // ----- The merge sweep -----

  ghost predicate FarApart(bs: seq<Bucket>, i: nat, upTo: nat)
    requires upTo <= |bs|
  {
    forall q | i < q < upTo :: i < |bs| && !Near(bs[i], bs[q])
  }

  /** `buckets[i].extend(buckets.pop(j))`. */
  function Absorb(bs: seq<Bucket>, i: nat, j: nat): seq<Bucket>
    requires i < j < |bs|
  {
    bs[i := bs[i] + bs[j]][..j] + bs[j + 1..]
  }

  lemma AbsorbKeepsContents(bs: seq<Bucket>, i: nat, j: nat, x: Report)
    requires i < j < |bs|
    ensures Held(Absorb(bs, i, j), x) == Held(bs, x)
  {
    hide Held;
    var mid := bs[i := bs[i] + bs[j]];
    HeldUpdate(bs, i, bs[i] + bs[j], x);
    HeldRemove(mid, j, x);
    assert Absorb(bs, i, j) == mid[..j] + mid[j + 1..];
  }

  lemma AbsorbStaysFar(bs: seq<Bucket>, p: nat, i: nat, j: nat)
    requires p < i < j < |bs| && Near(bs[i], bs[j]) && FarApart(bs, p, |bs|)
    ensures FarApart(Absorb(bs, i, j), p, |bs| - 1)
  {
    var out := Absorb(bs, i, j);
    forall q | p < q < |out|
      ensures !Near(out[p], out[q])
    {
      assert out[p] == bs[p];
      if q == i {
        assert !Near(bs[p], bs[i]);
        GrowingStaysFar(bs[p], bs[i], bs[j]);
      } else {
        assert out[q] == bs[if q < j then q else q + 1];
      }
    }
  }

  /** The buckets before `i` are far from every later one. */
  ghost predicate SweptTo(bs: seq<Bucket>, i: nat) {
    forall p: nat | p < i :: FarApart(bs, p, |bs|)
  }

  lemma AbsorbStaysSwept(bs: seq<Bucket>, i: nat, j: nat)
    requires i < j < |bs| && Near(bs[i], bs[j]) && SweptTo(bs, i)
    ensures SweptTo(Absorb(bs, i, j), i)
  {
    hide Near;
    forall p: nat | p < i
      ensures FarApart(Absorb(bs, i, j), p, |Absorb(bs, i, j)|)
    {
      AbsorbStaysFar(bs, p, i, j);
    }
  }

  lemma AbsorberStaysFar(bs: seq<Bucket>, i: nat, j: nat)
    requires i < j < |bs| && Near(bs[i], bs[j]) && FarApart(bs, i, j)
    ensures FarApart(Absorb(bs, i, j), i, j)
  {
    var out := Absorb(bs, i, j);
    forall q | i < q < j
      ensures !Near(out[i], out[q])
    {
      assert out[q] == bs[q] && !Near(bs[i], bs[q]);
      NearIsSymmetric(bs[i], bs[q]);
      GrowingStaysFar(bs[q], bs[i], bs[j]);
      NearIsSymmetric(bs[q], out[i]);
    }
  }

  /** `i` and `j` are the first near pair, in the order the sweep looks at pairs. */
  ghost predicate FirstNear(bs: seq<Bucket>, i: nat, j: nat) {
    && i < j < |bs| && Near(bs[i], bs[j])
    && (forall p, q | 0 <= p < i && p < q < |bs| :: !Near(bs[p], bs[q])) && (forall q | i < q < j :: !Near(bs[i], bs[q]))
  }

  lemma SweepFindsFirst(bs: seq<Bucket>, i: nat, j: nat)
    requires i < j < |bs| && Near(bs[i], bs[j]) && SweptTo(bs, i) && FarApart(bs, i, j)
    ensures FirstNear(bs, i, j)
  {
    hide Near;
    forall p, q | 0 <= p < i && p < q < |bs|
      ensures !Near(bs[p], bs[q])
    {
      assert FarApart(bs, p, |bs|);
    }
  }

  /** `steps` absorb the first near pair, again and again, and lead from `bs` to `out`. */
  ghost predicate Leads(bs: seq<Bucket>, steps: seq<(nat, nat)>, out: seq<Bucket>)
    decreases steps
  {
    if steps == [] then bs == out
    else
      var (i, j) := steps[0];
      FirstNear(bs, i, j) && Leads(Absorb(bs, i, j), steps[1..], out)
  }

  lemma LeadsNowhere(bs: seq<Bucket>)
    ensures Leads(bs, [], bs)
  {
  }

  lemma {:induction false} LeadsOn(bs: seq<Bucket>, steps: seq<(nat, nat)>, out: seq<Bucket>, i: nat, j: nat)
    requires Leads(bs, steps, out) && FirstNear(out, i, j)
    ensures Leads(bs, steps + [(i, j)], Absorb(out, i, j))
    decreases steps
  {
    if steps == [] {
      assert Leads(Absorb(out, i, j), ([(i, j)])[1..], Absorb(out, i, j));
      assert steps + [(i, j)] == [(i, j)];
    } else {
      LeadsOn(Absorb(bs, steps[0].0, steps[0].1), steps[1..], out, i, j);
      assert (steps + [(i, j)])[1..] == steps[1..] + [(i, j)];
    }
  }

  /** One sweep over the pairs already reaches a fixpoint: no two buckets it leaves would merge. */
  method MergeSweep(buckets: seq<Bucket>) returns (out: seq<Bucket>, ghost steps: seq<(nat, nat)>)
    requires WellGrouped(buckets)
    ensures Leads(buckets, steps, out)
    ensures forall x :: Held(out, x) == Held(buckets, x)
    ensures WellGrouped(out)
    ensures forall p, q | 0 <= p < |out| && 0 <= q < |out| && p != q :: !Near(out[p], out[q]) && !NearRule(out[p], out[q])
  {
    hide Held, Near, Uniform, Leads, NearRule, FirstNear;
    LeadsNowhere(buckets);
    out, steps := buckets, [];
    var i := 0;
    while i < |out|
      invariant 0 <= i <= |out|
      invariant (forall x :: Held(out, x) == Held(buckets, x)) && WellGrouped(out)
      invariant SweptTo(out, i) && Leads(buckets, steps, out)
      decreases |out| - i
    {
      var j := i + 1;
      ghost var size := |out|;
      while j < |out|
        invariant i < j <= |out| <= size
        invariant (forall x :: Held(out, x) == Held(buckets, x)) && WellGrouped(out)
        invariant SweptTo(out, i) && Leads(buckets, steps, out)
        invariant FarApart(out, i, j)
        decreases |out| - j
      {
        if Near(out[i], out[j]) {
          forall x
            ensures Held(Absorb(out, i, j), x) == Held(out, x)
          {
            AbsorbKeepsContents(out, i, j, x);
          }
          MergingStaysUniform(out[i], out[j]);
          AbsorberStaysFar(out, i, j);
          AbsorbStaysSwept(out, i, j);
          SweepFindsFirst(out, i, j);
          LeadsOn(buckets, steps, out, i, j);
          out, steps := Absorb(out, i, j), steps + [(i, j)];
        } else {
          j := j + 1;
        }
      }
      i := i + 1;
    }
    forall p, q | 0 <= p < |out| && 0 <= q < |out| && p != q
      ensures !Near(out[p], out[q]) && !NearRule(out[p], out[q])
    {
      var low, high := if p < q then p else q, if p < q then q else p;
      assert FarApart(out, low, |out|);
      NearIsSymmetric(out[p], out[q]);
      NearFollowsRule(out[p], out[q]);
    }
  }
}
