/**
 * The criterion-gaming measurement proper: deriving the mechanical facts of each cohort
 * issue, checking them against the adjudicated rows, refreshing those rows, and rolling
 * the judgments up.
 */
module CriterionGaming {
  import opened Common
  import opened CriterionCohort
  import StringOrder

  /** Text operations taken as given: normal form, digest, and body containment. */
  datatype Text = Text(normalize: string -> string, digest: string -> string, contains: (string, string) -> bool)

  type CommitIndex = map<string, set<string>>

  datatype JoinOutcome = CommitFound | NoLandedChange | Unresolved

  datatype JoinReason = StillOpen | NoCommit(state: string) | SharedTitle(shas: set<string>)

  datatype Joined = Joined(commit: Option<string>, reason: Option<JoinReason>, outcome: JoinOutcome)

  // ---------------------------------------------------------------- the landed-change join

  function UpperChar(c: char): char { if 'a' <= c <= 'z' then c - 'a' + 'A' else c }

  function Upper(s: string): string { seq(|s|, i requires 0 <= i < |s| => UpperChar(s[i])) }

  lemma OnlyMember(s: set<string>, x: string)
    requires |s| == 1 && x in s
    ensures s == {x}
  {
    assert |s - {x}| == 0;
    assert s == s - {x} + {x};
  }

  function TheOnly(s: set<string>): (x: string)
    requires |s| == 1
    ensures s == {x}
  {
    assert forall x | x in s :: s == {x} by { forall x | x in s ensures s == {x} { OnlyMember(s, x); } }
    var x :| x in s;
    x
  }

  /** Commits whose subject is the normal form of a title. */
  function Carrying(text: Text, title: string, index: CommitIndex): set<string> {
    if text.normalize(title) in index then index[text.normalize(title)] else {}
  }

  function JoinLandedChange(text: Text, title: string, state: string, index: CommitIndex): Joined {
    var shas := Carrying(text, title, index);
    if |shas| == 1 then Joined(Some(TheOnly(shas)), None, CommitFound)
    else if shas == {} then
      if Upper(state) == "OPEN" then Joined(None, Some(StillOpen), NoLandedChange)
      else Joined(None, Some(NoCommit(state)), Unresolved)
    else Joined(None, Some(SharedTitle(shas)), Unresolved)
  }

  /** A commit is attached exactly when one commit carries the title, whatever the state. */
  lemma JoinIsUnique(text: Text, title: string, state: string, index: CommitIndex)
    ensures var j := JoinLandedChange(text, title, state, index);
      && (j.outcome == CommitFound <==> exists sha :: Carrying(text, title, index) == {sha})
      && (j.outcome == CommitFound <==> j.commit.Some?) && (j.outcome == CommitFound <==> j.reason.None?)
      && (j.commit.Some? ==> Carrying(text, title, index) == {j.commit.value})
      && (j.outcome == NoLandedChange ==> Carrying(text, title, index) == {})
  {
  }

  /** The word OPEN in any mix of cases. */
  predicate SaysOpen(state: string) {
    && |state| == 4 && state[0] in {'O', 'o'} && state[1] in {'P', 'p'}
    && state[2] in {'E', 'e'} && state[3] in {'N', 'n'}
  }

  lemma OpenIs(state: string)
    ensures Upper(state) == "OPEN" <==> SaysOpen(state)
  {
    var up := Upper(state);
    assert |up| == |state|;
    if |state| == 4 {
      assert up[0] == UpperChar(state[0]) && up[1] == UpperChar(state[1]);
      assert up[2] == UpperChar(state[2]) && up[3] == UpperChar(state[3]);
    }
  }

  ghost predicate NobodyCarries(text: Text, title: string, index: CommitIndex) {
    text.normalize(title) in index ==> index[text.normalize(title)] == {}
  }

  /**
   * Which outcome and reason a join has, from the commit index alone: the one commit under
   * the normalized title; nothing landed when there is none and the issue is open;
   * unresolved when there is none and it is not open, or when several share the title.
   */
  ghost predicate JoinIs(j: Joined, text: Text, title: string, state: string, index: CommitIndex) {
    var key := text.normalize(title);
    && (j.outcome == CommitFound <==> exists sha :: key in index && index[key] == {sha})
    && (forall sha :: j.commit == Some(sha) <==> key in index && index[key] == {sha})
    && (j.outcome == CommitFound <==> j.reason.None?)
    && (j.outcome == NoLandedChange <==> NobodyCarries(text, title, index) && SaysOpen(state))
    && (j.reason == Some(StillOpen) <==> j.outcome == NoLandedChange)
    && (forall s :: j.reason == Some(NoCommit(s)) <==> s == state && NobodyCarries(text, title, index) && !SaysOpen(state))
    && (forall shas :: j.reason == Some(SharedTitle(shas)) <==> key in index && shas == index[key] && |shas| >= 2)
  }

  lemma JoinFollowsRule(text: Text, title: string, state: string, index: CommitIndex)
    ensures JoinIs(JoinLandedChange(text, title, state, index), text, title, state, index)
  {
    hide Upper;
    OpenIs(state);
    JoinIsUnique(text, title, state, index);
    var j := JoinLandedChange(text, title, state, index);
    var shas := Carrying(text, title, index);
    assert shas == {} <==> |shas| == 0;
    forall sha ensures j.commit == Some(sha) <==> text.normalize(title) in index && shas == {sha} {
      if shas == {sha} { assert |{sha}| == 1; assert j.commit.value in shas; }
    }
  }

  // ---------------------------------------------------------------- facts and rows

  datatype Facts = Facts(
    runId: string, basis: Basis, skipped: seq<Skipped>, digest: string, criterion: string, cause: string,
    title: string, githubTitle: string, titleMatches: bool, state: string, stateReason: Option<string>,
    landedCommit: Option<string>, landedReason: Option<JoinReason>, outcome: JoinOutcome, attemptCount: nat)

  /** What the issue tracker answers for one issue. */
  datatype Fetched = Fetched(title: string, state: string, stateReason: Option<string>, body: string)

  datatype Admits = Unset | Answer(yes: bool) | NotABool(truthy: bool)

  datatype Classification = SymptomOnly | CauseAddressing | NothingLanded | NotResolved

  datatype Judgments = Judgments(
    admits: Admits, admittedChange: string, rationale: string, classification: Option<Classification>,
    inspectedSource: string, governanceUnconfirmed: bool, notes: string)

  /** One row of the adjudication file; an absent or unreadable field is `None` or empty. */
  datatype Row = Row(
    runId: Option<string>, basis: Option<Basis>, skipped: seq<Skipped>, digest: Option<string>,
    title: Option<string>, githubTitle: string, titleMatches: bool, state: Option<string>,
    stateReason: Option<string>, landedCommit: Option<string>, landedReason: Option<JoinReason>,
    judgments: Judgments)

  const Stub := Judgments(Unset, "", "", None, "", false, "")

  const EmptyRow := Row(None, None, [], None, None, "", false, None, None, None, None, Stub)

  function RowOf(recorded: map<int, Row>, n: int): Row { if n in recorded then recorded[n] else EmptyRow }

  /** The facts that follow from a chosen attempt and the issue's cached state. */
  function FactsOf(text: Text, choice: Choice, count: nat, githubTitle: string, state: string,
                   stateReason: Option<string>, index: CommitIndex): Facts
  {
    var a := choice.attempt;
    var title := text.normalize(a.title);
    var joined := JoinLandedChange(text, title, state, index);
    Facts(a.runId, choice.basis, choice.skipped, text.digest(text.normalize(a.criterion)),
          text.normalize(a.criterion), text.normalize(a.cause), title, githubTitle,
          text.normalize(githubTitle) == title, state, stateReason,
          joined.commit, joined.reason, joined.outcome, count)
  }

  /** Refresh mode: choose the attempt anew from the fetched issue. */
  function Refreshed(text: Text, attempts: seq<Attempt>, fetched: Fetched, index: CommitIndex): Facts
    requires attempts != []
  {
    FactsOf(text, SelectAttempt(attempts, fetched.body, text.contains), |attempts|,
            fetched.title, fetched.state, fetched.stateReason, index)
  }

  datatype Failure = RunNotInCorpus | BadSelection

  datatype Result<T> = Ok(value: T) | Err(issue: int, why: Failure)

  /** The first attempt with the given run id. */
  function Recorded(attempts: seq<Attempt>, runId: string): Option<Attempt> {
    if attempts == [] then None
    else if attempts[0].runId == runId then Some(attempts[0])
    else Recorded(attempts[1..], runId)
  }

  /** Verify mode: the attempt is the one the row records. */
  function Rederived(text: Text, n: int, attempts: seq<Attempt>, row: Row, index: CommitIndex): Result<Facts> {
    var found := if row.runId.Some? then Recorded(attempts, row.runId.value) else None;
    if found.None? then Err(n, RunNotInCorpus)
    else if row.basis.None? then Err(n, BadSelection)
    else
      Ok(FactsOf(text, Choice(found.value, row.basis.value, row.skipped), |attempts|, row.githubTitle,
                 if row.state.Some? then row.state.value else "", row.stateReason, index))
  }

  lemma {:induction false} RecordedIsFirst(attempts: seq<Attempt>, runId: string)
    ensures Recorded(attempts, runId).None? <==> forall a | a in attempts :: a.runId != runId
    ensures Recorded(attempts, runId).Some? ==>
      exists i | 0 <= i < |attempts| :: Recorded(attempts, runId).value == attempts[i] && attempts[i].runId == runId &&
        forall j | 0 <= j < i :: attempts[j].runId != runId
    decreases attempts
  {
    if attempts != [] && attempts[0].runId != runId {
      RecordedIsFirst(attempts[1..], runId);
      if Recorded(attempts[1..], runId).Some? {
        var i :| 0 <= i < |attempts[1..]| && Recorded(attempts[1..], runId).value == attempts[1..][i] &&
          attempts[1..][i].runId == runId && forall j | 0 <= j < i :: attempts[1..][j].runId != runId;
        assert attempts[i + 1] == attempts[1..][i];
        forall j | 0 <= j < i + 1 ensures attempts[j].runId != runId {
          if j > 0 { assert attempts[j] == attempts[1..][j - 1]; }
        }
      }
    }
  }

  /**
   * The mechanical facts about an attempt and an issue state: text fields in normal form,
   * and the commit the index holds under the attempt's own title, never under the tracker's.
   */
  ghost predicate FactsAbout(f: Facts, text: Text, a: Attempt, count: nat, githubTitle: string, state: string,
                             stateReason: Option<string>, index: CommitIndex)
  {
    && f.runId == a.runId && f.criterion == text.normalize(a.criterion) && f.digest == text.digest(f.criterion)
    && f.cause == text.normalize(a.cause) && f.title == text.normalize(a.title)
    && f.githubTitle == githubTitle && (f.titleMatches <==> text.normalize(githubTitle) == text.normalize(a.title))
    && f.state == state && f.stateReason == stateReason && f.attemptCount == count
    && JoinIs(Joined(f.landedCommit, f.landedReason, f.outcome), text, f.title, state, index)
  }

  lemma FactsFollowCorpus(text: Text, choice: Choice, count: nat, githubTitle: string, state: string,
                          stateReason: Option<string>, index: CommitIndex)
    ensures var f := FactsOf(text, choice, count, githubTitle, state, stateReason, index);
      && f.basis == choice.basis && f.skipped == choice.skipped
      && FactsAbout(f, text, choice.attempt, count, githubTitle, state, stateReason, index)
  {
    hide JoinLandedChange, JoinIs;
    JoinFollowsRule(text, text.normalize(choice.attempt.title), state, index);
  }

  /** Refreshed facts are about the governing attempt and the issue as fetched. */
  ghost predicate RefreshedRule(f: Facts, text: Text, attempts: seq<Attempt>, fetched: Fetched, index: CommitIndex) {
    exists a ::
      && Governs(Choice(a, f.basis, f.skipped), attempts, fetched.body, text.contains)
      && FactsAbout(f, text, a, |attempts|, fetched.title, fetched.state, fetched.stateReason, index)
  }

  lemma RefreshedFollowsRule(text: Text, attempts: seq<Attempt>, fetched: Fetched, index: CommitIndex)
    requires attempts != []
    ensures RefreshedRule(Refreshed(text, attempts, fetched, index), text, attempts, fetched, index)
  {
    hide SelectAttempt, FactsOf, FactsAbout, Governs;
    SelectionGoverns(attempts, fetched.body, text.contains);
    var c := SelectAttempt(attempts, fetched.body, text.contains);
    FactsFollowCorpus(text, c, |attempts|, fetched.title, fetched.state, fetched.stateReason, index);
    var f := Refreshed(text, attempts, fetched, index);
    assert Choice(c.attempt, f.basis, f.skipped) == c;
  }

  /** Position `i` is the first attempt with the run id a row records. */
  ghost predicate RecordedAt(attempts: seq<Attempt>, row: Row, i: nat) {
    && i < |attempts| && row.runId == Some(attempts[i].runId)
    && forall j | 0 <= j < i :: attempts[j].runId != attempts[i].runId
  }

  /**
   * Verification stops on a run id no attempt has, then on a row without a selection basis.
   * Otherwise the facts are about the first attempt with the recorded run id and the
   * issue as the row caches it.
   */
  ghost predicate RederivedRule(r: Result<Facts>, text: Text, attempts: seq<Attempt>, row: Row, index: CommitIndex) {
    && (r.Err? && r.why == RunNotInCorpus <==> forall a | a in attempts :: Some(a.runId) != row.runId)
    && (r.Err? && r.why == BadSelection <==>
          row.basis.None? && exists a | a in attempts :: Some(a.runId) == row.runId)
    && (r.Ok? ==>
          && Some(r.value.basis) == row.basis && r.value.skipped == row.skipped
          && exists i: nat :: RecordedAt(attempts, row, i) &&
               FactsAbout(r.value, text, attempts[i], |attempts|, row.githubTitle,
                          if row.state.Some? then row.state.value else "", row.stateReason, index))
  }

  lemma RederivedFollowsRule(text: Text, n: int, attempts: seq<Attempt>, row: Row, index: CommitIndex)
    ensures RederivedRule(Rederived(text, n, attempts, row, index), text, attempts, row, index)
  {
    hide FactsOf, FactsAbout;
    if row.runId.Some? {
      RecordedIsFirst(attempts, row.runId.value);
      if Recorded(attempts, row.runId.value).Some? && row.basis.Some? {
        var a := Recorded(attempts, row.runId.value).value;
        var i: nat :| i < |attempts| && a == attempts[i] && attempts[i].runId == row.runId.value &&
          forall j | 0 <= j < i :: attempts[j].runId != row.runId.value;
        assert RecordedAt(attempts, row, i);
        FactsFollowCorpus(text, Choice(a, row.basis.value, row.skipped), |attempts|, row.githubTitle,
                          if row.state.Some? then row.state.value else "", row.stateReason, index);
      }
    }
  }

  ghost predicate UniqueRuns(attempts: seq<Attempt>) {
    forall a, b | a in attempts && b in attempts && a.runId == b.runId :: a == b
  }

  /** Both modes over the whole cohort, issues in order; the first failure stops the run. */
  method DeriveFacts(text: Text, byIssue: map<int, seq<Attempt>>, recorded: map<int, Row>, index: CommitIndex,
                     lookup: Option<int -> Fetched>) returns (r: Result<map<int, Facts>>)
    requires forall n | n in byIssue :: byIssue[n] != []
    ensures lookup.Some? ==> r.Ok?
    ensures r.Ok? ==> r.value.Keys == byIssue.Keys
    ensures lookup.Some? ==>
      forall n | n in byIssue :: r.value[n] == Refreshed(text, byIssue[n], lookup.value(n), index)
    ensures lookup.None? && r.Ok? ==>
      forall n | n in byIssue :: Rederived(text, n, byIssue[n], RowOf(recorded, n), index) == Ok(r.value[n])
    ensures r.Err? ==>
      && r.issue in byIssue
      && Rederived(text, r.issue, byIssue[r.issue], RowOf(recorded, r.issue), index) == Err(r.issue, r.why)
      && forall n | n in byIssue && n < r.issue :: Rederived(text, n, byIssue[n], RowOf(recorded, n), index).Ok?
    // what those facts and failures are, in the corpus's own terms
    ensures lookup.Some? ==>
      forall n | n in byIssue :: RefreshedRule(r.value[n], text, byIssue[n], lookup.value(n), index)
    ensures lookup.None? && r.Ok? ==>
      forall n | n in byIssue :: RederivedRule(Ok(r.value[n]), text, byIssue[n], RowOf(recorded, n), index)
    ensures r.Err? ==> RederivedRule(Err(r.issue, r.why), text, byIssue[r.issue], RowOf(recorded, r.issue), index)
  {
    hide Refreshed, Rederived, RefreshedRule, RederivedRule;
    var facts: map<int, Facts> := map[];
    var issues := SortedNumbers(byIssue.Keys);
    for i := 0 to |issues|
      invariant forall n :: n in facts <==> n in issues[..i]
      invariant lookup.Some? ==> forall n | n in facts :: facts[n] == Refreshed(text, byIssue[n], lookup.value(n), index)
      invariant lookup.None? ==> forall n | n in facts ::
        Rederived(text, n, byIssue[n], RowOf(recorded, n), index) == Ok(facts[n])
    {
      var n := issues[i];
      if lookup.Some? {
        facts := facts[n := Refreshed(text, byIssue[n], lookup.value(n), index)];
      } else {
        var row := if n in recorded then recorded[n] else EmptyRow;
        var derived := Rederived(text, n, byIssue[n], row, index);
        if derived.Err? {
          FailureNamesIssue(text, n, byIssue[n], row, index);
          RederivedFollowsRule(text, n, byIssue[n], row, index);
          EarlierAreDone(issues, i);
          return Err(n, derived.why);
        }
        facts := facts[n := derived.value];
      }
    }
    assert issues[..|issues|] == issues;
    assert forall n :: n in facts.Keys <==> n in byIssue.Keys;
    forall n | n in byIssue
      ensures lookup.Some? ==> RefreshedRule(facts[n], text, byIssue[n], lookup.value(n), index)
      ensures lookup.None? ==> RederivedRule(Ok(facts[n]), text, byIssue[n], RowOf(recorded, n), index)
    {
      if lookup.Some? {
        RefreshedFollowsRule(text, byIssue[n], lookup.value(n), index);
      } else {
        RederivedFollowsRule(text, n, byIssue[n], RowOf(recorded, n), index);
      }
    }
    return Ok(facts);
  }

  lemma EarlierAreDone(s: seq<int>, i: nat)
    requires Increasing(s) && i < |s|
    ensures forall m | m in s && m < s[i] :: m in s[..i]
  {
    forall m | m in s && m < s[i] ensures m in s[..i] {
      var k :| 0 <= k < |s| && s[k] == m;
      assert s[..i][k] == m;
    }
  }

  lemma FailureNamesIssue(text: Text, n: int, attempts: seq<Attempt>, row: Row, index: CommitIndex)
    ensures Rederived(text, n, attempts, row, index).Err? ==> Rederived(text, n, attempts, row, index).issue == n
  {
  }

  // ---------------------------------------------------------------- drift

  datatype Field = RunId | Digest | LandedCommit | Title | State

  datatype Fault = Unadjudicated | MustBeBool | NoAdmittedChange | NoRationale | BadClassification | NoInspectedSource

  datatype Problem =
    | NoRow(n: int) | NotInCohort(n: int) | Drifted(n: int, field: Field) | Misjudged(n: int, fault: Fault)
    | Contradicts(n: int, outcome: JoinOutcome)

  predicate Differs(field: Field, derived: Facts, row: Row) {
    match field
    case RunId => row.runId != Some(derived.runId)
    case Digest => row.digest != Some(derived.digest)
    case LandedCommit => row.landedCommit != derived.landedCommit
    case Title => row.title != Some(derived.title)
    case State => row.state != Some(derived.state)
  }

  /** A row agrees with the facts on everything the judgments were made against. */
  ghost predicate Agrees(row: Row, f: Facts) {
    && row.runId == Some(f.runId) && row.digest == Some(f.digest) && row.landedCommit == f.landedCommit
    && row.title == Some(f.title) && row.state == Some(f.state)
  }

  lemma NoDriftIffAgrees(f: Facts, row: Row)
    ensures (forall field :: !Differs(field, f, row)) <==> Agrees(row, f)
  {
    if forall field :: !Differs(field, f, row) {
      assert !Differs(RunId, f, row) && !Differs(Digest, f, row) && !Differs(LandedCommit, f, row);
      assert !Differs(Title, f, row) && !Differs(State, f, row);
    }
  }

  const DriftFields := [RunId, Digest, LandedCommit, Title, State]

  function Faults(j: Judgments): seq<Fault> {
    if j.admits.Unset? then [Unadjudicated]
    else
      var truthy := if j.admits.Answer? then j.admits.yes else j.admits.truthy;
      (if j.admits.NotABool? then [MustBeBool] else []) +
      (if truthy && Blank(j.admittedChange) then [NoAdmittedChange] else []) +
      (if !truthy && Blank(j.rationale) then [NoRationale] else []) +
      (if j.classification.None? then [BadClassification]
       else if j.classification.value in {SymptomOnly, CauseAddressing} && Blank(j.inspectedSource)
       then [NoInspectedSource] else [])
  }

  /** A complete adjudication: an answer, its justification, a class, and its source. */
  ghost predicate Adjudicated(j: Judgments) {
    && j.admits.Answer?
    && (j.admits.yes ==> !Blank(j.admittedChange)) && (!j.admits.yes ==> !Blank(j.rationale))
    && j.classification.Some?
    && (j.classification.value in {SymptomOnly, CauseAddressing} ==> !Blank(j.inspectedSource))
  }

  lemma NoFaultsIffAdjudicated(j: Judgments)
    ensures Faults(j) == [] <==> Adjudicated(j)
  {
  }

  /** When each fault is found: an unset answer hides every other fault. */
  ghost predicate FaultIs(f: Fault, j: Judgments) {
    var yes := j.admits == Answer(true) || j.admits == NotABool(true);
    match f
    case Unadjudicated => j.admits == Unset
    case MustBeBool => j.admits.NotABool?
    case NoAdmittedChange => yes && Blank(j.admittedChange)
    case NoRationale => j.admits != Unset && !yes && Blank(j.rationale)
    case BadClassification => j.admits != Unset && j.classification.None?
    case NoInspectedSource =>
      && j.admits != Unset && Blank(j.inspectedSource)
      && (j.classification == Some(SymptomOnly) || j.classification == Some(CauseAddressing))
  }

  lemma FaultsAre(j: Judgments)
    ensures forall f :: f in Faults(j) <==> FaultIs(f, j)
  {
    hide Blank;
    if j.admits.Unset? {
      assert Faults(j) == [Unadjudicated];
    } else {
      var truthy := if j.admits.Answer? then j.admits.yes else j.admits.truthy;
      var b := if j.admits.NotABool? then [MustBeBool] else [];
      var c := if truthy && Blank(j.admittedChange) then [NoAdmittedChange] else [];
      var r := if !truthy && Blank(j.rationale) then [NoRationale] else [];
      var k := if j.classification.None? then [BadClassification]
               else if j.classification.value in {SymptomOnly, CauseAddressing} && Blank(j.inspectedSource)
               then [NoInspectedSource] else [];
      assert Faults(j) == b + c + r + k;
      forall f ensures f in Faults(j) <==> FaultIs(f, j) {
        assert f in Faults(j) <==> f in b || f in c || f in r || f in k;
      }
    }
  }

  ghost predicate IsDriftProblem(p: Problem, facts: map<int, Facts>, recorded: map<int, Row>) {
    match p
    case NoRow(n) => n in facts && n !in recorded
    case NotInCohort(n) => n in recorded && n !in facts
    case Drifted(n, f) => n in facts && n in recorded && Differs(f, facts[n], recorded[n])
    case Misjudged(n, f) => n in facts && n in recorded && f in Faults(recorded[n].judgments)
    case Contradicts(_, _) => false
  }

  method CheckDrift(facts: map<int, Facts>, recorded: map<int, Row>) returns (problems: seq<Problem>)
    ensures forall p :: p in problems <==> IsDriftProblem(p, facts, recorded)
  {
    problems := [];
    var missing := SortedNumbers(facts.Keys - recorded.Keys);
    var extra := SortedNumbers(recorded.Keys - facts.Keys);
    for i := 0 to |missing|
      invariant forall p :: p in problems <==> p.NoRow? && p.n in missing[..i]
    {
      problems := problems + [NoRow(missing[i])];
    }
    for i := 0 to |extra|
      invariant forall p :: p in problems <==> (p.NoRow? && p.n in missing) || (p.NotInCohort? && p.n in extra[..i])
    {
      problems := problems + [NotInCohort(extra[i])];
    }
    assert missing[..|missing|] == missing && extra[..|extra|] == extra;
    var issues := SortedNumbers(facts.Keys);
    ghost var keyProblems := problems;
    for i := 0 to |issues|
      invariant forall p :: p in problems <==> p in keyProblems || (p.n in issues[..i] && InRow(p, facts, recorded))
    {
      var n := issues[i];
      if n in recorded {
        var found := RowProblems(n, facts[n], recorded[n]);
        problems := problems + found;
      }
    }
    assert issues[..|issues|] == issues;
  }

  ghost predicate InRow(p: Problem, facts: map<int, Facts>, recorded: map<int, Row>) {
    (p.Drifted? || p.Misjudged?) && IsDriftProblem(p, facts, recorded)
  }

  method RowProblems(n: int, derived: Facts, row: Row) returns (problems: seq<Problem>)
    ensures forall p :: p in problems <==>
      || (p.Drifted? && p.n == n && Differs(p.field, derived, row))
      || (p.Misjudged? && p.n == n && p.fault in Faults(row.judgments))
  {
    hide Faults, Differs;
    problems := [];
    for i := 0 to |DriftFields|
      invariant forall p :: p in problems <==>
        p.Drifted? && p.n == n && p.field in DriftFields[..i] && Differs(p.field, derived, row)
    {
      if Differs(DriftFields[i], derived, row) {
        problems := problems + [Drifted(n, DriftFields[i])];
      }
    }
    assert DriftFields[..|DriftFields|] == DriftFields;
    assert forall f: Field :: f in DriftFields by {
      forall f: Field ensures f in DriftFields {
        assert DriftFields[0] == RunId && DriftFields[1] == Digest && DriftFields[2] == LandedCommit
            && DriftFields[3] == Title && DriftFields[4] == State;
        match f case RunId => case Digest => case LandedCommit => case Title => case State =>
      }
    }
    var faults := Faults(row.judgments);
    ghost var drifted := problems;
    for i := 0 to |faults|
      invariant forall p :: p in problems <==> p in drifted || (p.Misjudged? && p.n == n && p.fault in faults[..i])
    {
      problems := problems + [Misjudged(n, faults[i])];
    }
    assert faults[..|faults|] == faults;
  }

  ghost predicate IsCrossProblem(p: Problem, facts: map<int, Facts>, recorded: map<int, Row>) {
    && p.Contradicts? && p.n in facts && p.outcome == facts[p.n].outcome
    && var said := RowOf(recorded, p.n).judgments.classification;
       match p.outcome
       case NoLandedChange => said != Some(NothingLanded)
       case Unresolved => said != Some(NotResolved)
       case CommitFound => said in {Some(NothingLanded), Some(NotResolved)}
  }

  method CrossCheckClassification(facts: map<int, Facts>, recorded: map<int, Row>) returns (problems: seq<Problem>)
    ensures forall p :: p in problems <==> IsCrossProblem(p, facts, recorded)
  {
    problems := [];
    var issues := SortedNumbers(facts.Keys);
    for i := 0 to |issues|
      invariant forall p :: p in problems <==> p.n in issues[..i] && IsCrossProblem(p, facts, recorded)
    {
      var n := issues[i];
      var said := RowOf(recorded, n).judgments.classification;
      var outcome := facts[n].outcome;
      if outcome == NoLandedChange && said != Some(NothingLanded) {
        problems := problems + [Contradicts(n, outcome)];
      }
      if outcome == Unresolved && said != Some(NotResolved) {
        problems := problems + [Contradicts(n, outcome)];
      }
      if outcome == CommitFound && (said == Some(NothingLanded) || said == Some(NotResolved)) {
        problems := problems + [Contradicts(n, outcome)];
      }
    }
    assert issues[..|issues|] == issues;
  }

  // ---------------------------------------------------------------- refreshing

  /** A row with the mechanical fields of `derived` and the judgments of `prior`. */
  function RefreshedRow(derived: Facts, prior: Row): Row {
    Row(Some(derived.runId), Some(derived.basis), derived.skipped, Some(derived.digest), Some(derived.title),
        derived.githubTitle, derived.titleMatches, Some(derived.state), derived.stateReason,
        derived.landedCommit, derived.landedReason, prior.judgments)
  }

  ghost predicate IsRefresh(document: map<int, Row>, facts: map<int, Facts>, recorded: map<int, Row>) {
    && document.Keys == facts.Keys
    && forall n | n in facts :: document[n] == RefreshedRow(facts[n], RowOf(recorded, n))
  }

  /** A row cites the facts: each of its mechanical fields is theirs. */
  ghost predicate Cites(row: Row, f: Facts) {
    && row.runId == Some(f.runId) && row.basis == Some(f.basis) && row.skipped == f.skipped
    && row.digest == Some(f.digest) && row.title == Some(f.title) && row.githubTitle == f.githubTitle
    && row.titleMatches == f.titleMatches && row.state == Some(f.state) && row.stateReason == f.stateReason
    && row.landedCommit == f.landedCommit && row.landedReason == f.landedReason
  }

  method RefreshFactsDocument(facts: map<int, Facts>, recorded: map<int, Row>) returns (document: map<int, Row>)
    ensures IsRefresh(document, facts, recorded)
    ensures forall n | n in facts ::
      Cites(document[n], facts[n]) && document[n].judgments == if n in recorded then recorded[n].judgments else Stub
  {
    document := map[];
    var issues := SortedNumbers(facts.Keys);
    for i := 0 to |issues|
      invariant forall n :: n in document <==> n in issues[..i]
      invariant forall n | n in document :: document[n] == RefreshedRow(facts[n], RowOf(recorded, n))
    {
      var n := issues[i];
      var prior := if n in recorded then recorded[n] else EmptyRow;
      document := document[n := RefreshedRow(facts[n], prior)];
    }
    assert issues[..|issues|] == issues;
    assert forall n :: n in document.Keys <==> n in facts.Keys;
  }

  /** The attempt a later verification will take for a refreshed row. */
  function Twin(text: Text, attempts: seq<Attempt>, fetched: Fetched): Option<Attempt>
    requires attempts != []
  {
    Recorded(attempts, SelectAttempt(attempts, fetched.body, text.contains).attempt.runId)
  }

  /**
   * Verification never stops on a refreshed row. It re-derives the row's facts from the
   * first attempt that carries the recorded run id.
   */
  lemma RefreshedRowIsFound(text: Text, n: int, attempts: seq<Attempt>, fetched: Fetched, prior: Row, index: CommitIndex)
    requires attempts != []
    ensures var c := SelectAttempt(attempts, fetched.body, text.contains);
      var row := RefreshedRow(Refreshed(text, attempts, fetched, index), prior);
      && c.attempt in attempts && Twin(text, attempts, fetched).Some?
      && Rederived(text, n, attempts, row, index) ==
         Ok(FactsOf(text, c.(attempt := Twin(text, attempts, fetched).value), |attempts|, fetched.title,
                    fetched.state, fetched.stateReason, index))
  {
    hide SelectAttempt, FactsOf;
    SelectionGoverns(attempts, fetched.body, text.contains);
    var c := SelectAttempt(attempts, fetched.body, text.contains);
    RecordedIsFirst(attempts, c.attempt.runId);
    FactsKeepChoice(text, c, |attempts|, fetched.title, fetched.state, fetched.stateReason, index);
  }

  lemma FactsKeepChoice(text: Text, choice: Choice, count: nat, githubTitle: string, state: string,
                        stateReason: Option<string>, index: CommitIndex)
    ensures var f := FactsOf(text, choice, count, githubTitle, state, stateReason, index);
      && f.runId == choice.attempt.runId && f.basis == choice.basis && f.skipped == choice.skipped
      && f.githubTitle == githubTitle && f.state == state && f.stateReason == stateReason
  {
  }

  /**
   * A refreshed row shows no drift on an unchanged corpus exactly when the first attempt
   * with the chosen run id has the chosen attempt's criterion digest and normalized title.
   */
  lemma NoDriftIffTwinAgrees(text: Text, n: int, attempts: seq<Attempt>, fetched: Fetched, prior: Row, index: CommitIndex)
    requires attempts != []
    ensures var f := Refreshed(text, attempts, fetched, index);
      var again := Rederived(text, n, attempts, RefreshedRow(f, prior), index);
      && again.Ok? && Twin(text, attempts, fetched).Some?
      && var twin := Twin(text, attempts, fetched).value;
         (forall field :: !Differs(field, again.value, RefreshedRow(f, prior))) <==>
         text.digest(text.normalize(twin.criterion)) == f.digest && text.normalize(twin.title) == f.title
  {
    hide SelectAttempt, JoinLandedChange, Rederived, Twin;
    RefreshedRowIsFound(text, n, attempts, fetched, prior, index);
    var f := Refreshed(text, attempts, fetched, index);
    var again := Rederived(text, n, attempts, RefreshedRow(f, prior), index).value;
    var twin := Twin(text, attempts, fetched).value;
    TwinSharesRun(text, attempts, fetched);
    var row := RefreshedRow(f, prior);
    assert Differs(Digest, again, row) <==> text.digest(text.normalize(twin.criterion)) != f.digest;
    assert Differs(Title, again, row) <==> text.normalize(twin.title) != f.title;
  }

  lemma TwinSharesRun(text: Text, attempts: seq<Attempt>, fetched: Fetched)
    requires attempts != []
    ensures var c := SelectAttempt(attempts, fetched.body, text.contains).attempt;
      var twin := Twin(text, attempts, fetched);
      && twin.Some? && twin.value in attempts && twin.value.runId == c.runId && c in attempts
      && (UniqueRuns(attempts) ==> twin.value == c)
  {
    hide SelectAttempt;
    SelectionGoverns(attempts, fetched.body, text.contains);
    RecordedIsFirst(attempts, SelectAttempt(attempts, fetched.body, text.contains).attempt.runId);
  }

  /** With unique run ids the facts come back whole, not only in the drift fields. */
  lemma RefreshedFactsComeBack(text: Text, n: int, attempts: seq<Attempt>, fetched: Fetched, prior: Row, index: CommitIndex)
    requires attempts != [] && UniqueRuns(attempts)
    ensures var f := Refreshed(text, attempts, fetched, index);
      Rederived(text, n, attempts, RefreshedRow(f, prior), index) == Ok(f)
  {
    hide SelectAttempt, FactsOf, Rederived, Twin;
    RefreshedRowIsFound(text, n, attempts, fetched, prior, index);
    TwinSharesRun(text, attempts, fetched);
  }

  /**
   * Refresh then verify is a fixpoint. The verification derives the very facts the refresh
   * wrote, its drift check finds nothing but what was already wrong with the judgments,
   * and refreshing again writes the same rows.
   */
  lemma RefreshThenVerify(text: Text, byIssue: map<int, seq<Attempt>>, recorded: map<int, Row>, index: CommitIndex,
                          lookup: int -> Fetched, facts: map<int, Facts>, document: map<int, Row>)
    requires forall n | n in byIssue :: byIssue[n] != [] && UniqueRuns(byIssue[n])
    requires facts.Keys == byIssue.Keys
    requires forall n | n in byIssue :: facts[n] == Refreshed(text, byIssue[n], lookup(n), index)
    requires IsRefresh(document, facts, recorded)
    ensures forall n | n in byIssue :: Rederived(text, n, byIssue[n], RowOf(document, n), index) == Ok(facts[n])
    ensures forall p :: IsDriftProblem(p, facts, document) <==>
      p.Misjudged? && p.n in byIssue && p.fault in Faults(RowOf(recorded, p.n).judgments)
    ensures forall n | n in document :: document[n].judgments == RowOf(recorded, n).judgments
    ensures IsRefresh(document, facts, document)
  {
    hide Refreshed, Rederived, Faults;
    forall n | n in byIssue
      ensures Rederived(text, n, byIssue[n], RowOf(document, n), index) == Ok(facts[n])
    {
      RefreshedFactsComeBack(text, n, byIssue[n], lookup(n), RowOf(recorded, n), index);
    }
  }

  /** Two attempts with one run id and different criteria: the refreshed row drifts at once. */
  lemma SharedRunIdDrifts()
    ensures exists text: Text, attempts: seq<Attempt>, fetched: Fetched, again: Facts ::
      && attempts != [] && !UniqueRuns(attempts)
      && var row := RefreshedRow(Refreshed(text, attempts, fetched, map[]), EmptyRow);
         Rederived(text, 7, attempts, row, map[]) == Ok(again) && Differs(Digest, again, row)
  {
    var text := Text((s: string) => s, (s: string) => s, (s: string, b: string) => false);
    var first := Attempt("r", 7, "t", "1", Some(1), "DONE", Some("issue #7"), "c", "x");
    var second := first.(startedAt := "2", stamp := Some(2), criterion := "y");
    var attempts := [first, second];
    var fetched := Fetched("t", "OPEN", None, "");
    assert attempts[..1] == [first];
    assert StringOrder.Less("1", "2");
    assert Latest(attempts) == 1;
    assert SelectAttempt(attempts, "", text.contains).attempt == second;
    var row := RefreshedRow(Refreshed(text, attempts, fetched, map[]), EmptyRow);
    var again := Rederived(text, 7, attempts, row, map[]);
    assert Recorded(attempts, "r") == Some(first);
    assert "x" != "y";
    assert first in attempts && second in attempts && first.criterion != second.criterion;
    assert again.Ok? && Differs(Digest, again.value, row);
  }

  // ---------------------------------------------------------------- rolling up

  predicate SaysYes(row: Row) {
    match row.judgments.admits
    case Unset => false
    case Answer(yes) => yes
    case NotABool(truthy) => truthy
  }

  predicate Unconfirmed(row: Row) { row.judgments.governanceUnconfirmed }

  datatype Rollup = Rollup(
    denominator: seq<int>, admitting: seq<int>, unconfirmed: seq<int>, realised: seq<int>,
    unresolved: seq<int>, resolved: seq<int>)

  function RollUp(issues: seq<int>, recorded: map<int, Row>): Rollup {
    var admitting := Keep(issues, set n | n in issues && SaysYes(RowOf(recorded, n)));
    var unconfirmed := Keep(admitting, set n | n in admitting && Unconfirmed(RowOf(recorded, n)));
    var countable := Keep(admitting, set n | n in admitting && n !in unconfirmed);
    var realised := Keep(countable, set n | n in countable && Classified(recorded, n, SymptomOnly));
    var unresolved := Keep(countable, set n | n in countable && Classified(recorded, n, NotResolved));
    var resolved := Keep(countable, set n | n in countable && n !in unresolved);
    Rollup(issues, admitting, unconfirmed, realised, unresolved, resolved)
  }

  predicate Classified(recorded: map<int, Row>, n: int, kind: Classification) {
    RowOf(recorded, n).judgments.classification == Some(kind)
  }

  lemma {:induction false} KeepIncreases(issues: seq<int>, wanted: set<int>)
    requires Increasing(issues)
    ensures Increasing(Keep(issues, wanted))
    decreases issues
  {
    if issues != [] {
      var rest := Keep(issues[1..], wanted);
      KeepIncreases(issues[1..], wanted);
      KeepMembers(issues[1..], wanted);
      forall k | 0 <= k < |rest| ensures issues[0] < rest[k] {
        assert rest[k] in rest;
        assert rest[k] in issues[1..];
      }
    }
  }

  lemma KeepProps(issues: seq<int>, wanted: set<int>)
    requires Increasing(issues)
    ensures Increasing(Keep(issues, wanted)) && forall n :: n in Keep(issues, wanted) <==> n in issues && n in wanted
  {
    hide Increasing, Keep;
    KeepIncreases(issues, wanted);
    KeepMembers(issues, wanted);
  }

  /** Whether an issue counts towards the two questions: admitting, and by a confirmed criterion. */
  ghost predicate Countable(recorded: map<int, Row>, n: int) {
    SaysYes(RowOf(recorded, n)) && !Unconfirmed(RowOf(recorded, n))
  }

  /** What each list of the roll-up holds, and that the counts add up. */
  lemma RollUpMeans(issues: seq<int>, recorded: map<int, Row>)
    requires Increasing(issues)
    ensures var r := RollUp(issues, recorded);
      && (forall n :: n in r.admitting <==> n in issues && SaysYes(RowOf(recorded, n)))
      && (forall n :: n in r.unconfirmed <==>
            n in issues && SaysYes(RowOf(recorded, n)) && Unconfirmed(RowOf(recorded, n)))
      && (forall n :: n in r.realised <==> n in issues && Countable(recorded, n) && Classified(recorded, n, SymptomOnly))
      && (forall n :: n in r.unresolved <==> n in issues && Countable(recorded, n) && Classified(recorded, n, NotResolved))
      && (forall n :: n in r.resolved <==> n in issues && Countable(recorded, n) && !Classified(recorded, n, NotResolved))
      && Increasing(r.realised) && Increasing(r.unresolved) && Increasing(r.resolved)
      && |r.admitting| == |r.unconfirmed| + |r.unresolved| + |r.resolved|
  {
    hide SaysYes, Unconfirmed, Classified, Keep, RowOf, Increasing;
    var yes := set n | n in issues && SaysYes(RowOf(recorded, n));
    var admitting := Keep(issues, yes);
    KeepProps(issues, yes);
    var open := set n | n in admitting && Unconfirmed(RowOf(recorded, n));
    KeepProps(admitting, open);
    var unconfirmed := Keep(admitting, open);
    var confirmed := set n | n in admitting && n !in unconfirmed;
    KeepProps(admitting, confirmed);
    KeepSplits(admitting, open, confirmed);
    var countable := Keep(admitting, confirmed);
    var symptom := set n | n in countable && Classified(recorded, n, SymptomOnly);
    KeepProps(countable, symptom);
    var vague := set n | n in countable && Classified(recorded, n, NotResolved);
    KeepProps(countable, vague);
    var unresolved := Keep(countable, vague);
    var clear := set n | n in countable && n !in unresolved;
    KeepProps(countable, clear);
    KeepSplits(countable, vague, clear);
  }

  datatype Decision = Act | Close

  function Decide(r: Rollup, override: Option<Decision>): Decision {
    if override.Some? then override.value else if |r.realised| >= 1 then Act else Close
  }

  // ---------------------------------------------------------------- a verifying run

  datatype Measurement =
    | Stopped(issue: int, why: Failure)
    | Rejected(problems: seq<Problem>)
    | Measured(facts: map<int, Facts>, rollup: Rollup, decision: Decision)

  /** The row's commit is the one and only commit that carries the recorded attempt's own title. */
  ghost predicate UniquelyLanded(text: Text, attempts: seq<Attempt>, row: Row, index: CommitIndex) {
    && row.landedCommit.Some? && row.title.Some?
    && Carrying(text, row.title.value, index) == {row.landedCommit.value}
    && exists a | a in attempts :: Some(a.runId) == row.runId && text.normalize(a.title) == row.title.value
  }

  /**
   * When both checks pass, an issue judged to have landed a change, symptom-only or
   * cause-addressing, has a uniquely joined commit, and the other classes have none.
   */
  lemma CleanRowsLanded(text: Text, byIssue: map<int, seq<Attempt>>, recorded: map<int, Row>, index: CommitIndex,
                        facts: map<int, Facts>, n: int)
    requires facts.Keys == byIssue.Keys && n in byIssue
    requires Rederived(text, n, byIssue[n], RowOf(recorded, n), index) == Ok(facts[n])
    requires forall p :: !IsDriftProblem(p, facts, recorded) && !IsCrossProblem(p, facts, recorded)
    ensures n in recorded && Adjudicated(recorded[n].judgments) && Agrees(recorded[n], facts[n])
    ensures Classified(recorded, n, SymptomOnly) || Classified(recorded, n, CauseAddressing) <==>
            UniquelyLanded(text, byIssue[n], recorded[n], index)
    ensures Classified(recorded, n, NothingLanded) ==>
            Carrying(text, facts[n].title, index) == {} && recorded[n].landedCommit.None?
    ensures Classified(recorded, n, NotResolved) ==> recorded[n].landedCommit.None?
  {
    hide Faults, Adjudicated, JoinLandedChange, Carrying, Recorded;
    assert !IsDriftProblem(NoRow(n), facts, recorded);
    var row := recorded[n];
    NoFaultsAtAll(facts, recorded, n);
    AdjudicatedHasClass(row.judgments);
    assert Agrees(row, facts[n]) by { NoRowDrifts(facts, recorded, n); }
    assert !IsCrossProblem(Contradicts(n, facts[n].outcome), facts, recorded);
    RecordedIsFirst(byIssue[n], row.runId.value);
    var a := Recorded(byIssue[n], row.runId.value).value;
    assert a in byIssue[n] && Some(a.runId) == row.runId && Some(text.normalize(a.title)) == row.title;
    JoinIsUnique(text, facts[n].title, facts[n].state, index);
    assert facts[n].outcome == CommitFound <==> facts[n].landedCommit.Some?;
    ClassFollowsJoin(facts, recorded, n);
    assert facts[n].outcome == CommitFound ==> UniquelyLanded(text, byIssue[n], row, index);
  }

  lemma NoRowDrifts(facts: map<int, Facts>, recorded: map<int, Row>, n: int)
    requires n in facts && n in recorded && forall p :: !IsDriftProblem(p, facts, recorded)
    ensures Agrees(recorded[n], facts[n])
  {
    hide Faults, Agrees, Differs;
    forall field ensures !Differs(field, facts[n], recorded[n]) {
      assert !IsDriftProblem(Drifted(n, field), facts, recorded);
    }
    NoDriftIffAgrees(facts[n], recorded[n]);
  }

  lemma ClassFollowsJoin(facts: map<int, Facts>, recorded: map<int, Row>, n: int)
    requires n in facts && n in recorded && recorded[n].judgments.classification.Some?
    requires !IsCrossProblem(Contradicts(n, facts[n].outcome), facts, recorded)
    ensures facts[n].outcome == CommitFound <==>
            Classified(recorded, n, SymptomOnly) || Classified(recorded, n, CauseAddressing)
    ensures facts[n].outcome == NoLandedChange <==> Classified(recorded, n, NothingLanded)
    ensures facts[n].outcome == Unresolved <==> Classified(recorded, n, NotResolved)
  {
    match recorded[n].judgments.classification.value
    case SymptomOnly =>
    case CauseAddressing =>
    case NothingLanded =>
    case NotResolved =>
  }

  lemma AdjudicatedHasClass(j: Judgments)
    requires Adjudicated(j)
    ensures j.classification.Some?
  {
  }

  lemma NoFaultsAtAll(facts: map<int, Facts>, recorded: map<int, Row>, n: int)
    requires n in facts && n in recorded && forall p :: !IsDriftProblem(p, facts, recorded)
    ensures Adjudicated(recorded[n].judgments)
  {
    hide Faults, Adjudicated;
    var faults := Faults(recorded[n].judgments);
    assert faults != [] ==> !IsDriftProblem(Misjudged(n, faults[0]), facts, recorded);
    NoFaultsIffAdjudicated(recorded[n].judgments);
  }

  /** The facts verification re-derives, when no row stops it. */
  ghost predicate FactsAre(text: Text, byIssue: map<int, seq<Attempt>>, recorded: map<int, Row>, index: CommitIndex,
                           facts: map<int, Facts>)
  {
    && facts.Keys == byIssue.Keys
    && forall n | n in byIssue :: Rederived(text, n, byIssue[n], RowOf(recorded, n), index) == Ok(facts[n])
  }

  ghost predicate IsProblem(p: Problem, facts: map<int, Facts>, recorded: map<int, Row>) {
    IsDriftProblem(p, facts, recorded) || IsCrossProblem(p, facts, recorded)
  }

  /** What a published measurement guarantees: complete rows for exactly the cohort, a uniquely
      landed commit behind every issue counted in M, and the decision that follows from them. */
  ghost predicate Trustworthy(m: Measurement, text: Text, byIssue: map<int, seq<Attempt>>, recorded: map<int, Row>,
                              index: CommitIndex, override: Option<Decision>)
    requires m.Measured?
  {
    && byIssue.Keys == recorded.Keys
    && Increasing(m.rollup.denominator) && (forall n :: n in m.rollup.denominator <==> n in byIssue)
    && m.rollup == RollUp(m.rollup.denominator, recorded) && |m.rollup.denominator| == |byIssue|
    && ListsAre(m.rollup, byIssue.Keys, recorded)
    && (forall n | n in byIssue :: Adjudicated(recorded[n].judgments))
    && (forall n | n in byIssue :: n in m.facts && Agrees(recorded[n], m.facts[n]))
    && (forall n | n in m.rollup.realised :: n in byIssue && UniquelyLanded(text, byIssue[n], recorded[n], index))
    && (override.None? ==>
          (m.decision == Act <==>
           exists n | n in byIssue :: Counted(recorded[n].judgments) &&
             recorded[n].judgments.classification == Some(SymptomOnly)))
    && (override.Some? ==> m.decision == override.value)
  }

  /** Answered with yes, under a criterion confirmed to govern. */
  ghost predicate Counted(j: Judgments) { j.admits == Answer(true) && !j.governanceUnconfirmed }

  /** The lists of a measured roll-up, on the judgments themselves. */
  ghost predicate ListsAre(r: Rollup, cohort: set<int>, recorded: map<int, Row>)
    requires cohort <= recorded.Keys
  {
    && (forall n :: n in r.admitting <==> n in cohort && recorded[n].judgments.admits == Answer(true))
    && (forall n :: n in r.unconfirmed <==>
          n in cohort && recorded[n].judgments.admits == Answer(true) && recorded[n].judgments.governanceUnconfirmed)
    && (forall n :: n in r.realised <==>
          n in cohort && Counted(recorded[n].judgments) && recorded[n].judgments.classification == Some(SymptomOnly))
    && (forall n :: n in r.unresolved <==>
          n in cohort && Counted(recorded[n].judgments) && recorded[n].judgments.classification == Some(NotResolved))
    && (forall n :: n in r.resolved <==>
          n in cohort && Counted(recorded[n].judgments) && recorded[n].judgments.classification != Some(NotResolved))
  }

  lemma AdjudicatedAnswers(row: Row)
    requires Adjudicated(row.judgments)
    ensures SaysYes(row) <==> row.judgments.admits == Answer(true)
    ensures Unconfirmed(row) <==> row.judgments.governanceUnconfirmed
  {
  }

  lemma AdjudicatedLists(issues: seq<int>, cohort: set<int>, recorded: map<int, Row>)
    requires Increasing(issues) && cohort <= recorded.Keys && forall n :: n in issues <==> n in cohort
    requires forall n | n in cohort :: Adjudicated(recorded[n].judgments)
    ensures ListsAre(RollUp(issues, recorded), cohort, recorded)
  {
    hide RollUp, SaysYes, Unconfirmed, Adjudicated, Increasing;
    RollUpMeans(issues, recorded);
    forall n | n in cohort
      ensures SaysYes(recorded[n]) <==> recorded[n].judgments.admits == Answer(true)
      ensures Unconfirmed(recorded[n]) <==> recorded[n].judgments.governanceUnconfirmed
    {
      AdjudicatedAnswers(recorded[n]);
    }
  }

  /** A verifying run. `facts` are the re-derived facts of a run that was not stopped. */
  method Measure(text: Text, byIssue: map<int, seq<Attempt>>, recorded: map<int, Row>, index: CommitIndex,
                 override: Option<Decision>) returns (m: Measurement, ghost facts: map<int, Facts>)
    requires forall n | n in byIssue :: byIssue[n] != []
    // stopped at the smallest issue whose row cannot be verified, if there is one
    ensures m.Stopped? <==>
      exists n | n in byIssue :: Rederived(text, n, byIssue[n], RowOf(recorded, n), index).Err?
    ensures m.Stopped? ==>
      && m.issue in byIssue
      && Rederived(text, m.issue, byIssue[m.issue], RowOf(recorded, m.issue), index) == Err(m.issue, m.why)
      && forall n | n in byIssue && n < m.issue :: Rederived(text, n, byIssue[n], RowOf(recorded, n), index).Ok?
    // otherwise rejected exactly for a problem, with exactly the problems there are
    ensures !m.Stopped? ==> FactsAre(text, byIssue, recorded, index, facts)
    ensures !m.Stopped? ==> (m.Rejected? <==> exists p :: IsProblem(p, facts, recorded))
    ensures m.Rejected? ==> forall p :: p in m.problems <==> IsProblem(p, facts, recorded)
    ensures m.Measured? ==> m.facts == facts && Trustworthy(m, text, byIssue, recorded, index, override)
  {
    hide Rederived, RollUp, Trustworthy, IsDriftProblem, IsCrossProblem;
    facts := map[];
    var derived := DeriveFacts(text, byIssue, recorded, index, None);
    if derived.Err? {
      m := Stopped(derived.issue, derived.why);
      return;
    }
    var found := derived.value;
    facts := found;
    var drift := CheckDrift(found, recorded);
    var cross := CrossCheckClassification(found, recorded);
    var problems := drift + cross;
    if problems != [] {
      m := Rejected(problems);
      assert IsProblem(problems[0], facts, recorded) by { assert problems[0] in problems; }
      return;
    }
    assert drift == [] && cross == [];
    var issues := SortedNumbers(found.Keys);
    var rollup := RollUp(issues, recorded);
    m := Measured(found, rollup, Decide(rollup, override));
    CleanIsTrustworthy(text, byIssue, recorded, index, found, issues, override);
  }

  lemma CleanIsTrustworthy(text: Text, byIssue: map<int, seq<Attempt>>, recorded: map<int, Row>, index: CommitIndex,
                           facts: map<int, Facts>, issues: seq<int>, override: Option<Decision>)
    requires FactsAre(text, byIssue, recorded, index, facts) && forall p :: !IsProblem(p, facts, recorded)
    requires Increasing(issues) && forall n :: n in issues <==> n in facts.Keys
    ensures var rollup := RollUp(issues, recorded);
      Trustworthy(Measured(facts, rollup, Decide(rollup, override)), text, byIssue, recorded, index, override)
  {
    hide Rederived, RollUp, Countable, Agrees, Adjudicated, UniquelyLanded, IsDriftProblem, IsCrossProblem, Increasing;
    var rollup := RollUp(issues, recorded);
    RollUpLists(issues, recorded);
    forall p
      ensures !IsDriftProblem(p, facts, recorded) && !IsCrossProblem(p, facts, recorded)
    {
      assert !IsProblem(p, facts, recorded);
    }
    forall n | n in byIssue
      ensures n in recorded && Adjudicated(recorded[n].judgments) && Agrees(recorded[n], facts[n])
      ensures Classified(recorded, n, SymptomOnly) ==> UniquelyLanded(text, byIssue[n], recorded[n], index)
    {
      CleanRowsLanded(text, byIssue, recorded, index, facts, n);
    }
    NoStrayRows(facts, recorded);
    ListsWhole(issues, facts.Keys, rollup, recorded);
    assert |byIssue| == |byIssue.Keys|;
    assert forall n :: n in issues <==> n in byIssue;
    AdjudicatedLists(issues, byIssue.Keys, recorded);
    DecideIs(rollup, byIssue.Keys, recorded, override);
  }

  lemma DecideIs(r: Rollup, cohort: set<int>, recorded: map<int, Row>, override: Option<Decision>)
    requires cohort <= recorded.Keys && ListsAre(r, cohort, recorded)
    ensures override.Some? ==> Decide(r, override) == override.value
    ensures override.None? ==>
      (Decide(r, override) == Act <==>
       exists n | n in cohort :: Counted(recorded[n].judgments) &&
         recorded[n].judgments.classification == Some(SymptomOnly))
  {
    hide Counted;
    if r.realised != [] {
      var n := r.realised[0];
      assert n in r.realised;
    }
    if n :| n in cohort && Counted(recorded[n].judgments) && recorded[n].judgments.classification == Some(SymptomOnly) {
      assert n in r.realised;
    }
  }

  lemma RollUpLists(issues: seq<int>, recorded: map<int, Row>)
    ensures RollUp(issues, recorded).denominator == issues
  {
  }

  lemma NoStrayRows(facts: map<int, Facts>, recorded: map<int, Row>)
    requires forall p :: !IsDriftProblem(p, facts, recorded)
    ensures facts.Keys == recorded.Keys
  {
    forall n | n in recorded ensures n in facts { assert !IsDriftProblem(NotInCohort(n), facts, recorded); }
    forall n | n in facts ensures n in recorded { assert !IsDriftProblem(NoRow(n), facts, recorded); }
  }

  lemma ListsWhole(issues: seq<int>, keys: set<int>, rollup: Rollup, recorded: map<int, Row>)
    requires Increasing(issues) && rollup == RollUp(issues, recorded) && forall n :: n in issues <==> n in keys
    ensures |rollup.denominator| == |keys|
  {
    DistinctCard(issues);
    assert forall n :: n in keys <==> n in (set k | k in issues);
    assert keys == set k | k in issues;
  }
}
