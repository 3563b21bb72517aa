/** What one advisory update does to the shared rolling artifact (`advisory_conventions.py`):
    the two read-merge-write sections, as functions of the persisted value, and the key,
    `first_seen` and issue laws that hold over any sequence of them. */
module AdvisoryArtifact {
  import opened Common

  /** `_entry_key`: JSON of `[rule, file]`, which is injective. */
  datatype Key = Key(rule: string, file: string)

  /** A normalized violation. */
  datatype Norm = Norm(key: Key, detail: string, lineCount: int, limit: int, gap: int)

  type Issue = string

  /** A persisted entry. `None` stands for a field that is absent or unusable: an empty
      `first_seen`, a `last_seen` that does not parse, an issue block that is not a
      non-empty mapping. `firstSeen` and `lastSeen` are in whole seconds. */
  datatype Entry = Entry(norm: Norm, firstSeen: Option<int>, lastSeen: Option<int>,
                         runId: string, storySlug: string, issue: Option<Issue>)

  /** The value under a key of the file; `Junk` is one that is not a mapping. */
  datatype Stored = Junk | Record(entry: Entry)

  datatype Artifact = Artifact(updatedAt: Option<int>, entries: map<Key, Stored>)

  /** One worker's scan; `at` is in microseconds. */
  datatype Scan = Scan(norms: seq<Norm>, at: int, runId: string, storySlug: string)

  const MICROS := 1_000_000
  const RETENTION_SECONDS := 24 * 60 * 60

  /** The stored stamp drops the fraction of a second. */
  function Stamp(at: int): int { at / MICROS }

  /** `_entry_is_fresh` on the parsed stamp: the age uses the unrounded scan time. */
  predicate FreshAt(lastSeen: int, at: int) {
    at - lastSeen * MICROS < RETENTION_SECONDS * MICROS
  }

  predicate Fresh(s: Stored, at: int) {
    s.Record? && s.entry.lastSeen.Some? && FreshAt(s.entry.lastSeen.value, at)
  }

  /** The keys of the first `n` normalized violations. */
  function KeysUpTo(norms: seq<Norm>, n: nat): set<Key>
    requires n <= |norms|
  {
    set i | 0 <= i < n :: norms[i].key
  }

  function ObservedKeys(norms: seq<Norm>): set<Key> { KeysUpTo(norms, |norms|) }

  /** The last of the first `n` violations with a key: it overwrites the others. */
  function LastNorm(norms: seq<Norm>, n: nat, k: Key): Norm
    requires n <= |norms| && k in KeysUpTo(norms, n)
  {
    if norms[n - 1].key == k then norms[n - 1] else LastNorm(norms, n - 1, k)
  }

  /** The entry a scan writes for one observation. */
  function Observe(prior: Option<Stored>, norm: Norm, scan: Scan): Entry {
    var known := prior.Some? && prior.value.Record?;
    Entry(norm,
          if known && prior.value.entry.firstSeen.Some? then prior.value.entry.firstSeen else Some(Stamp(scan.at)),
          Some(Stamp(scan.at)), scan.runId, scan.storySlug,
          if known then prior.value.entry.issue else None)
  }

  function Lookup(a: Artifact, k: Key): Option<Stored> {
    if k in a.entries then Some(a.entries[k]) else None
  }

  /** The entries the first `n` violations of a scan of `a` give, by key. */
  function ObservedUpTo(a: Artifact, scan: Scan, n: nat): map<Key, Entry>
    requires n <= |scan.norms|
  {
    map k | k in KeysUpTo(scan.norms, n) :: Observe(Lookup(a, k), LastNorm(scan.norms, n, k), scan)
  }

  function Observed(a: Artifact, scan: Scan): map<Key, Entry> { ObservedUpTo(a, scan, |scan.norms|) }

  /** The artifact after the first critical section: observed entries win, unobserved ones
      stay while fresh. */
  function Merge(a: Artifact, scan: Scan): Artifact {
    var observed := Observed(a, scan);
    Artifact(Some(Stamp(scan.at)),
             map k | k in a.entries.Keys + observed.Keys && (k in observed || Fresh(a.entries[k], scan.at)) ::
               if k in observed then Record(observed[k]) else a.entries[k])
  }

  /** Violation `i` is the last of the scan under its key. */
  ghost predicate LastOfKey(norms: seq<Norm>, i: nat) {
    i < |norms| && forall j | i < j < |norms| :: norms[j].key != norms[i].key
  }

  /** Last seen less than twenty-four hours before the scan, to the microsecond. */
  ghost predicate SeenWithinADay(s: Stored, at: int) {
    s.Record? && s.entry.lastSeen.Some? && at - s.entry.lastSeen.value * 1_000_000 < 86_400_000_000
  }

  /** What a scan must write over `prior` for one observation: the observed values, its own run
      and story, the time of the scan, and the first sighting and issue already on record. */
  ghost predicate Overwrites(prior: Option<Stored>, norm: Norm, scan: Scan, written: Stored) {
    && written.Record?
    && written.entry.norm == norm
    && written.entry.runId == scan.runId && written.entry.storySlug == scan.storySlug
    && written.entry.lastSeen == Some(scan.at / 1_000_000)
    && (if prior.Some? && prior.value.Record?
        then written.entry.issue == prior.value.entry.issue
             && written.entry.firstSeen == (if prior.value.entry.firstSeen.Some? then prior.value.entry.firstSeen
                                            else Some(scan.at / 1_000_000))
        else written.entry.issue.None? && written.entry.firstSeen == Some(scan.at / 1_000_000))
  }

  /** The merge, key by key: the last observation of each key wins, what the scan did not observe
      stays as it is while it is fresh, and nothing else is left. */
  ghost predicate MergeRule(before: Artifact, scan: Scan, after: Artifact) {
    && after.updatedAt == Some(scan.at / 1_000_000)
    && (forall k :: k in after.entries <==>
          || (exists i | 0 <= i < |scan.norms| :: scan.norms[i].key == k)
          || (k in before.entries && SeenWithinADay(before.entries[k], scan.at)))
    && (forall i: nat | LastOfKey(scan.norms, i) ::
          var k := scan.norms[i].key;
          Overwrites(if k in before.entries then Some(before.entries[k]) else None, scan.norms[i], scan, after.entries[k]))
    && (forall k | k in after.entries && (forall i | 0 <= i < |scan.norms| :: scan.norms[i].key != k) ::
          after.entries[k] == before.entries[k])
  }

  lemma {:induction false} LastNormIs(norms: seq<Norm>, n: nat, i: nat)
    requires i < n <= |norms| && forall j | i < j < n :: norms[j].key != norms[i].key
    ensures norms[i].key in KeysUpTo(norms, n) && LastNorm(norms, n, norms[i].key) == norms[i]
    decreases n
  {
    if i < n - 1 {
      LastNormIs(norms, n - 1, i);
    }
  }

  lemma MergeFollowsRule(a: Artifact, scan: Scan)
    ensures MergeRule(a, scan, Merge(a, scan))
  {
    var m := Merge(a, scan);
    forall k
      ensures k in ObservedKeys(scan.norms) <==> exists i | 0 <= i < |scan.norms| :: scan.norms[i].key == k
    {
    }
    forall i: nat | LastOfKey(scan.norms, i)
      ensures var k := scan.norms[i].key;
              && k in m.entries
              && Overwrites(if k in a.entries then Some(a.entries[k]) else None, scan.norms[i], scan, m.entries[k])
    {
      LastNormIs(scan.norms, |scan.norms|, i);
    }
  }

  method CollectObserved(existing: Artifact, scan: Scan) returns (observed: map<Key, Entry>)
    ensures observed == Observed(existing, scan)
  {
    observed := map[];
    for i := 0 to |scan.norms|
      invariant observed == ObservedUpTo(existing, scan, i)
    {
      var norm := scan.norms[i];
      assert KeysUpTo(scan.norms, i + 1) == KeysUpTo(scan.norms, i) + {norm.key};
      observed := observed[norm.key := Observe(Lookup(existing, norm.key), norm, scan)];
    }
  }

  /** `_merge_observations`. */
  method MergeObservations(existing: Artifact, scan: Scan) returns (merged: Artifact)
    ensures merged == Merge(existing, scan)
    ensures MergeRule(existing, scan, merged)
  {
    hide MergeRule;
    MergeFollowsRule(existing, scan);
    var observed := CollectObserved(existing, scan);
    hide Observed, Fresh;
    var entries: map<Key, Stored> := map[];
    var todo := existing.entries.Keys;
    while todo != {}
      invariant todo <= existing.entries.Keys
      invariant forall k :: k in entries <==>
                  k in existing.entries && k !in todo && (k in observed || Fresh(existing.entries[k], scan.at))
      invariant forall k | k in entries ::
                  entries[k] == if k in observed then Record(observed[k]) else existing.entries[k]
      decreases todo
    {
      var k :| k in todo;
      todo := todo - {k};
      if k in observed {
        entries := entries[k := Record(observed[k])];
      } else if Fresh(existing.entries[k], scan.at) {
        entries := entries[k := existing.entries[k]];
      }
    }
    todo := observed.Keys;
    while todo != {}
      invariant todo <= observed.Keys
      invariant forall k :: k in entries <==>
                  || (k in existing.entries && (k in observed || Fresh(existing.entries[k], scan.at)))
                  || (k in observed && k !in todo)
      invariant forall k | k in entries ::
                  entries[k] == if k in observed then Record(observed[k]) else existing.entries[k]
      decreases todo
    {
      var k :| k in todo;
      todo := todo - {k};
      if k !in entries {
        entries := entries[k := Record(observed[k])];
      }
    }
    merged := Artifact(Some(Stamp(scan.at)), entries);
    assert merged.entries == Merge(existing, scan).entries;
  }

  /** A filed issue and the worker's own copy of the entry it was filed for. */
  datatype Filing = Filing(issue: Issue, own: Entry)

  function AttachTo(prior: Option<Stored>, filing: Filing): Stored {
    var base := if prior.Some? && prior.value.Record? then prior.value.entry else filing.own;
    Record(base.(issue := Some(filing.issue)))
  }

  /** The artifact after the second critical section: each filed issue lands on the entry
      now in the file, or on the worker's own copy when the key is gone. */
  function Attach(a: Artifact, filed: map<Key, Filing>, stamp: int): Artifact {
    Artifact(Some(stamp),
             a.entries + map k | k in filed :: AttachTo(Lookup(a, k), filed[k]))
  }

  /** The second critical section's loop, over the filings of one worker in any order. */
  method AttachIssues(a: Artifact, keys: seq<Key>, filed: map<Key, Filing>, stamp: int) returns (r: Artifact)
    requires forall k :: k in keys <==> k in filed
    requires forall i, j | 0 <= i < j < |keys| :: keys[i] != keys[j]
    ensures r == Attach(a, filed, stamp)
    ensures r.updatedAt == Some(stamp)
    ensures forall k | k in filed :: r.entries[k].Record? && r.entries[k].entry ==
              (if k in a.entries && a.entries[k].Record? then a.entries[k].entry else filed[k].own).(issue := Some(filed[k].issue))
    ensures forall k | k !in filed :: (k in r.entries <==> k in a.entries) && (k in a.entries ==> r.entries[k] == a.entries[k])
  {
    hide AttachedTo;
    var entries := a.entries;
    NothingAttached(a, filed);
    for i := 0 to |keys|
      invariant AttachedTo(entries, a, filed, keys[..i])
    {
      var key := keys[i];
      assert key in filed && key !in keys[..i];
      var current := if key in entries && entries[key].Record? then entries[key].entry else filed[key].own;
      ghost var was := entries;
      entries := entries[key := Record(current.(issue := Some(filed[key].issue)))];
      AttachStep(was, a, filed, keys[..i], key);
      assert keys[..i + 1] == keys[..i] + [key];
    }
    assert keys[..|keys|] == keys;
    AttachedIsAttach(entries, a, filed, keys, stamp);
    r := Artifact(Some(stamp), entries);
  }

  /** The filings of the keys done so far have landed, and nothing else has changed. */
  ghost predicate AttachedTo(entries: map<Key, Stored>, a: Artifact, filed: map<Key, Filing>, done: seq<Key>) {
    && (forall k :: k in entries <==> k in a.entries || k in done)
    && (forall k | k in done :: k in filed && entries[k] == AttachTo(Lookup(a, k), filed[k]))
    && (forall k | k in entries && k !in done :: entries[k] == a.entries[k])
  }

  lemma NothingAttached(a: Artifact, filed: map<Key, Filing>)
    ensures AttachedTo(a.entries, a, filed, [])
  {
  }

  lemma AttachStep(entries: map<Key, Stored>, a: Artifact, filed: map<Key, Filing>, done: seq<Key>, key: Key)
    requires AttachedTo(entries, a, filed, done) && key in filed && key !in done
    ensures Lookup(a, key) == if key in entries then Some(entries[key]) else None
    ensures AttachedTo(entries[key := AttachTo(Lookup(a, key), filed[key])], a, filed, done + [key])
  {
    hide AttachTo;
  }

  lemma AttachedIsAttach(entries: map<Key, Stored>, a: Artifact, filed: map<Key, Filing>, keys: seq<Key>, stamp: int)
    requires AttachedTo(entries, a, filed, keys) && forall k :: k in keys <==> k in filed
    ensures entries == Attach(a, filed, stamp).entries
  {
    hide AttachTo, Lookup;
    var goal := Attach(a, filed, stamp).entries;
    assert forall k :: k in goal <==> k in entries;
    assert forall k | k in goal :: goal[k] == entries[k];
  }

  // ----- Histories of critical sections -----

  datatype Commit =
    | ScanCommit(worker: nat, scan: Scan)
    | FileCommit(worker: nat, filed: map<Key, Filing>, stamp: int)

  function Apply(a: Artifact, c: Commit): Artifact {
    match c
    case ScanCommit(_, scan) => Merge(a, scan)
    case FileCommit(_, filed, stamp) => Attach(a, filed, stamp)
  }

  /** The first `n` critical sections, run one after another. */
  function Replay(a: Artifact, log: seq<Commit>, n: nat): Artifact
    requires n <= |log|
  {
    if n == 0 then a else Apply(Replay(a, log, n - 1), log[n - 1])
  }

  lemma ReplayStep(a: Artifact, log: seq<Commit>, n: nat)
    requires n <= |log|
    ensures Replay(a, log, n) == if n == 0 then a else Apply(Replay(a, log, n - 1), log[n - 1])
  {
  }

  lemma {:induction false} ReplayIgnoresLater(a: Artifact, log: seq<Commit>, more: seq<Commit>, n: nat)
    requires n <= |log|
    ensures Replay(a, log + more, n) == Replay(a, log, n)
    decreases n
  {
    if n > 0 {
      ReplayIgnoresLater(a, log, more, n - 1);
    }
  }

  /** A filing section belongs to an earlier scan of the same worker: it files only keys that
      scan observed, with entries stamped by it. */
  predicate ScanOf(scan: Commit, file: Commit)
    requires file.FileCommit?
  {
    && scan.ScanCommit? && scan.worker == file.worker
    && file.stamp == Stamp(scan.scan.at)
    && file.filed.Keys <= ObservedKeys(scan.scan.norms)
    && forall k | k in file.filed :: file.filed[k].own.lastSeen == Some(file.stamp)
  }

  ghost predicate FilingFollowsScan(log: seq<Commit>) {
    forall j | 0 <= j < |log| && log[j].FileCommit? :: exists i :: 0 <= i < j && ScanOf(log[i], log[j])
  }

  /** Some scan among the first `n` commits observed `k`. */
  ghost predicate ScannedBy(log: seq<Commit>, n: nat, k: Key)
    requires n <= |log|
  {
    exists i :: 0 <= i < n && log[i].ScanCommit? && k in ObservedKeys(log[i].scan.norms)
  }

  /** Each scan of the run finds a stamp fresh, whether the stamp was in the file at the
      start or is one of the run's own. */
  ghost predicate WithinRetention(a: Artifact, log: seq<Commit>) {
    && (forall i, k | 0 <= i < |log| && log[i].ScanCommit? && k in a.entries :: Fresh(a.entries[k], log[i].scan.at))
    && (forall i, j | 0 <= i < |log| && 0 <= j < |log| && log[i].ScanCommit? && log[j].ScanCommit? ::
          FreshAt(Stamp(log[j].scan.at), log[i].scan.at))
  }

  ghost predicate AllFresh(now: Artifact, log: seq<Commit>) {
    forall i, k | 0 <= i < |log| && log[i].ScanCommit? && k in now.entries :: Fresh(now.entries[k], log[i].scan.at)
  }

  lemma MergeStamps(a: Artifact, scan: Scan, k: Key)
    requires k in Merge(a, scan).entries
    ensures var e := Merge(a, scan).entries[k];
            || (k in a.entries && e == a.entries[k])
            || (e.Record? && e.entry.lastSeen == Some(Stamp(scan.at)))
  {
  }

  lemma AttachStamps(a: Artifact, filed: map<Key, Filing>, stamp: int, k: Key)
    requires k in Attach(a, filed, stamp).entries && forall j | j in filed :: filed[j].own.lastSeen == Some(stamp)
    ensures var e := Attach(a, filed, stamp).entries[k];
            || (k in a.entries && LastSeen(e) == LastSeen(a.entries[k]))
            || (e.Record? && e.entry.lastSeen == Some(stamp))
  {
  }

  /** What freshness looks at. */
  function LastSeen(s: Stored): Option<int> { if s.Record? then s.entry.lastSeen else None }

  lemma FreshBySeen(s: Stored, t: Stored, at: int)
    requires LastSeen(s) == LastSeen(t)
    ensures Fresh(s, at) == Fresh(t, at)
  {
  }

  /** After a scan or a filing every entry keeps its old stamp or bears the commit's own. */
  lemma CommitStamps(before: Artifact, log: seq<Commit>, n: nat, k: Key)
    requires 0 < n <= |log| && FilingFollowsScan(log) && k in Apply(before, log[n - 1]).entries
    ensures var e := Apply(before, log[n - 1]).entries[k];
            || (k in before.entries && LastSeen(e) == LastSeen(before.entries[k]))
            || (exists i | 0 <= i < n :: log[i].ScanCommit? && e.Record? && e.entry.lastSeen == Some(Stamp(log[i].scan.at)))
  {
    hide Merge, Attach, ObservedKeys, LastSeen;
    var c := log[n - 1];
    if c.ScanCommit? {
      MergeStamps(before, c.scan, k);
    } else {
      var i :| 0 <= i < n - 1 && ScanOf(log[i], c);
      AttachStamps(before, c.filed, c.stamp, k);
    }
  }

  lemma {:induction false} NothingGoesStale(a: Artifact, log: seq<Commit>, n: nat)
    requires n <= |log| && FilingFollowsScan(log) && WithinRetention(a, log)
    ensures AllFresh(Replay(a, log, n), log)
    decreases n
  {
    hide Replay, Apply, FilingFollowsScan, LastSeen, Stamp;
    ReplayStep(a, log, n);
    if n > 0 {
      NothingGoesStale(a, log, n - 1);
      var before := Replay(a, log, n - 1);
      var now := Apply(before, log[n - 1]);
      forall d, k | 0 <= d < |log| && log[d].ScanCommit? && k in now.entries
        ensures Fresh(now.entries[k], log[d].scan.at)
      {
        CommitStamps(before, log, n, k);
        if k in before.entries && LastSeen(now.entries[k]) == LastSeen(before.entries[k]) {
          FreshBySeen(now.entries[k], before.entries[k], log[d].scan.at);
        }
      }
    }
  }

  /** Exactly what one scan removes: the entries it neither observes nor finds fresh. */
  lemma ScanRemovesExactlyTheStale(a: Artifact, scan: Scan, k: Key)
    ensures k in Merge(a, scan).entries <==>
              k in ObservedKeys(scan.norms) || (k in a.entries && Fresh(a.entries[k], scan.at))
  {
  }

  /** No lost observation: while every stamp stays inside the retention window, the file
      holds exactly the keys it started with and every key a committed scan observed. */
  lemma {:induction false} NoLostObservation(a: Artifact, log: seq<Commit>, n: nat, k: Key)
    requires n <= |log| && FilingFollowsScan(log) && WithinRetention(a, log)
    ensures k in Replay(a, log, n).entries <==> k in a.entries || ScannedBy(log, n, k)
    decreases n
  {
    hide Replay, ObservedKeys, Apply, AllFresh, WithinRetention, FilingFollowsScan;
    ReplayStep(a, log, n);
    if n > 0 {
      NoLostObservation(a, log, n - 1, k);
      NothingGoesStale(a, log, n - 1);
      ScannedByOneMore(log, n, k);
      CommitKeepsKeys(Replay(a, log, n - 1), log, n, k);
    }
  }

  lemma ScannedByOneMore(log: seq<Commit>, n: nat, k: Key)
    requires 0 < n <= |log|
    ensures ScannedBy(log, n, k) <==>
            ScannedBy(log, n - 1, k) || (log[n - 1].ScanCommit? && k in ObservedKeys(log[n - 1].scan.norms))
  {
    hide ObservedKeys;
  }

  /** One commit on a file where nothing is stale adds the keys it observed and drops none. */
  lemma CommitKeepsKeys(before: Artifact, log: seq<Commit>, n: nat, k: Key)
    requires 0 < n <= |log| && FilingFollowsScan(log) && AllFresh(before, log)
    ensures var c := log[n - 1];
            && (c.ScanCommit? ==>
                  (k in Apply(before, c).entries <==> k in before.entries || k in ObservedKeys(c.scan.norms)))
            && (c.FileCommit? ==> k in before.entries ==> k in Apply(before, c).entries)
            && (c.FileCommit? ==> k in Apply(before, c).entries ==> k in before.entries || ScannedBy(log, n - 1, k))
  {
    hide ObservedKeys, Merge, Fresh;
    var c := log[n - 1];
    if c.FileCommit? {
      var i :| 0 <= i < n - 1 && ScanOf(log[i], c);
    } else {
      ScanRemovesExactlyTheStale(before, c.scan, k);
    }
  }

  ghost predicate PresentFrom(a: Artifact, log: seq<Commit>, i: nat, n: nat, k: Key)
    requires i <= n <= |log|
  {
    forall m | i <= m <= n :: k in Replay(a, log, m).entries
  }

  ghost predicate FiledBetween(log: seq<Commit>, i: nat, n: nat, k: Key, issue: Issue)
    requires i <= n <= |log|
  {
    exists m :: i <= m < n && log[m].FileCommit? && k in log[m].filed && log[m].filed[k].issue == issue
  }

  /** `now` is the same finding as `then_`: the first sighting is unmoved, and an issue block
      stays unless the commits filed another for the key. */
  ghost predicate SameFinding(then_: Entry, now: Entry, log: seq<Commit>, i: nat, n: nat, k: Key)
    requires i <= n <= |log|
  {
    && (then_.firstSeen.Some? ==> now.firstSeen == then_.firstSeen)
    && (then_.issue.Some? ==>
          now.issue == then_.issue || (now.issue.Some? && FiledBetween(log, i, n, k, now.issue.value)))
  }

  lemma StepKeepsIdentity(a: Artifact, c: Commit, k: Key)
    requires k in a.entries && a.entries[k].Record? && k in Apply(a, c).entries
    ensures Apply(a, c).entries[k].Record?
    ensures var then_, now := a.entries[k].entry, Apply(a, c).entries[k].entry;
            && (then_.firstSeen.Some? ==> now.firstSeen == then_.firstSeen)
            && (then_.issue.Some? ==>
                  now.issue == then_.issue || (c.FileCommit? && k in c.filed && now.issue == Some(c.filed[k].issue)))
  {
  }

  lemma {:induction false} IdentityIsStable(a: Artifact, log: seq<Commit>, i: nat, n: nat, k: Key)
    requires i <= n <= |log| && PresentFrom(a, log, i, n, k)
    requires Replay(a, log, i).entries[k].Record?
    ensures Replay(a, log, n).entries[k].Record?
    ensures SameFinding(Replay(a, log, i).entries[k].entry, Replay(a, log, n).entries[k].entry, log, i, n, k)
    decreases n
  {
    hide Apply, Replay;
    assert k in Replay(a, log, n).entries;
    if i < n {
      IdentityIsStable(a, log, i, n - 1, k);
      var before, c := Replay(a, log, n - 1), log[n - 1];
      ReplayStep(a, log, n);
      assert k in Replay(a, log, n).entries;
      StepKeepsIdentity(before, c, k);
      assert forall issue | FiledBetween(log, i, n - 1, k, issue) :: FiledBetween(log, i, n, k, issue);
      if c.FileCommit? && k in c.filed {
        assert FiledBetween(log, i, n, k, c.filed[k].issue);
      }
    }
  }
}
