/** Landing a diagnosis in an issue body (`upsert_diagnosis_section` in `diagnose_types.py`).

    Text is a sequence of classified lines. Trailing whitespace of the whole text is a run of
    trailing blank lines here. */
module DiagnosisSection {
  import opened Common

  /** `text` is the normalized heading text; `mark` and `length` describe a fence marker and
      `bare` says nothing follows it. */
  datatype Line =
    | Blank
    | Text(content: string)
    | Heading(level: nat, text: string)
    | Fence(mark: char, length: nat, bare: bool)

  datatype FenceState = Outside | Inside(mark: char, length: nat)

  function Step(st: FenceState, line: Line): FenceState {
    match line
    case Fence(mark, length, bare) =>
      if st.Outside? then Inside(mark, length)
      else if mark == st.mark && length >= st.length && bare then Outside
      else st
    case _ => st
  }

  /** The fence state after the lines. */
  function Run(st: FenceState, lines: seq<Line>): FenceState
    decreases lines
  {
    if lines == [] then st else Run(Step(st, lines[0]), lines[1..])
  }

  lemma {:induction false} RunConcat(st: FenceState, a: seq<Line>, b: seq<Line>)
    ensures Run(st, a + b) == Run(Run(st, a), b)
    decreases a
  {
    if a == [] {
      assert a + b == b;
    } else {
      assert (a + b)[1..] == a[1..] + b;
      RunConcat(Step(st, a[0]), a[1..], b);
    }
  }

  /** The fence state in front of line `i` of a text. */
  function StateAt(lines: seq<Line>, i: nat): FenceState
    requires i <= |lines|
  {
    Run(Outside, lines[..i])
  }

  lemma StateAtNext(lines: seq<Line>, i: nat)
    requires i < |lines|
    ensures StateAt(lines, i + 1) == Step(StateAt(lines, i), lines[i])
  {
    assert lines[..i + 1] == lines[..i] + [lines[i]];
    RunConcat(Outside, lines[..i], [lines[i]]);
    assert Run(StateAt(lines, i), [lines[i]]) == Step(StateAt(lines, i), lines[i]);
  }

  /** A line that closes a fence of the given mark and length. */
  predicate Closes(line: Line, mark: char, length: nat) {
    line.Fence? && line.mark == mark && line.length >= length && line.bare
  }

  /** Line `i` lies behind an opening fence that no line in between has closed. */
  ghost predicate Fenced(lines: seq<Line>, i: nat)
    decreases i, 0
  {
    i <= |lines| && exists j: nat | j < i :: Opens(lines, j) && StaysOpen(lines, j, i)
  }

  /** A fence line that is not itself fenced opens a fence. */
  ghost predicate Opens(lines: seq<Line>, j: nat)
    decreases j, 1
  {
    j < |lines| && lines[j].Fence? && !Fenced(lines, j)
  }

  ghost predicate StaysOpen(lines: seq<Line>, j: nat, i: nat) {
    && j < i <= |lines| && lines[j].Fence?
    && forall k | j < k < i :: !Closes(lines[k], lines[j].mark, lines[j].length)
  }

  /** The scanning state agrees with that reading of the whole text. */
  lemma {:induction false} FenceLaw(lines: seq<Line>, i: nat)
    requires i <= |lines|
    ensures StateAt(lines, i).Inside? <==> Fenced(lines, i)
    ensures forall j: nat | j < i && Opens(lines, j) && StaysOpen(lines, j, i) ::
              StateAt(lines, i) == Inside(lines[j].mark, lines[j].length)
    decreases i
  {
    hide Run;
    if i == 0 {
      assert lines[..0] == [];
      assert StateAt(lines, 0) == Outside by { RunNothing(Outside); }
    } else {
      FenceLaw(lines, i - 1);
      StateAtNext(lines, i - 1);
      var st := StateAt(lines, i - 1);
      forall j: nat | j < i && Opens(lines, j) && StaysOpen(lines, j, i)
        ensures StateAt(lines, i) == Inside(lines[j].mark, lines[j].length)
      {
        if j < i - 1 { assert StaysOpen(lines, j, i - 1); }
      }
      if StateAt(lines, i).Inside? {
        StillFenced(lines, i);
      }
    }
  }

  lemma RunNothing(st: FenceState)
    ensures Run(st, []) == st
  {
  }

  lemma StillFenced(lines: seq<Line>, i: nat)
    requires 0 < i <= |lines| && Step(StateAt(lines, i - 1), lines[i - 1]).Inside?
    requires StateAt(lines, i - 1).Inside? <==> Fenced(lines, i - 1)
    requires forall j: nat | j < i - 1 && Opens(lines, j) && StaysOpen(lines, j, i - 1) ::
               StateAt(lines, i - 1) == Inside(lines[j].mark, lines[j].length)
    ensures Fenced(lines, i)
  {
    if StateAt(lines, i - 1).Inside? {
      var j: nat :| j < i - 1 && Opens(lines, j) && StaysOpen(lines, j, i - 1);
      assert StaysOpen(lines, j, i);
    } else {
      assert Opens(lines, i - 1) && StaysOpen(lines, i - 1, i);
    }
  }

  lemma HeadingIff(lines: seq<Line>, i: nat)
    ensures HeadingAt(lines, i) <==> i < |lines| && lines[i].Heading? && !Fenced(lines, i)
  {
    if i < |lines| { FenceLaw(lines, i); }
  }

  /** Line `i` is a heading outside any fence. */
  predicate HeadingAt(lines: seq<Line>, i: nat) {
    i < |lines| && StateAt(lines, i).Outside? && lines[i].Heading?
  }

  predicate MatchAt(lines: seq<Line>, i: nat, target: string) {
    HeadingAt(lines, i) && lines[i].text == target
  }

  datatype HeadingRef = HeadingRef(index: nat, level: nat, text: string)

  function HeadingsUpTo(lines: seq<Line>, n: nat): seq<HeadingRef>
    requires n <= |lines|
  {
    if n == 0 then []
    else HeadingsUpTo(lines, n - 1) +
         if HeadingAt(lines, n - 1) then [HeadingRef(n - 1, lines[n - 1].level, lines[n - 1].text)] else []
  }

  /** `_iter_heading_lines`. */
  method IterHeadingLines(lines: seq<Line>) returns (headings: seq<HeadingRef>)
    ensures headings == HeadingsUpTo(lines, |lines|)
    // exactly the unfenced headings, in order
    ensures Ascending(headings)
    ensures forall h :: h in headings <==>
      h.index < |lines| && !Fenced(lines, h.index) && lines[h.index] == Heading(h.level, h.text)
  {
    headings := [];
    var st := Outside;
    for i := 0 to |lines|
      invariant st == StateAt(lines, i)
      invariant headings == HeadingsUpTo(lines, i)
    {
      StateAtNext(lines, i);
      var line := lines[i];
      if line.Fence? && (st.Outside? || (line.mark == st.mark && line.length >= st.length && line.bare)) {
        st := if st.Outside? then Inside(line.mark, line.length) else Outside;
      } else if st.Outside? && line.Heading? {
        headings := headings + [HeadingRef(i, line.level, line.text)];
      }
    }
    HeadingsOrdered(lines, |lines|);
    forall h
      ensures h in headings <==>
        h.index < |lines| && !Fenced(lines, h.index) && lines[h.index] == Heading(h.level, h.text)
    {
      HeadingsAre(lines, |lines|, h);
      HeadingIff(lines, h.index);
    }
  }

  lemma {:induction false} HeadingsAre(lines: seq<Line>, n: nat, h: HeadingRef)
    requires n <= |lines|
    ensures h in HeadingsUpTo(lines, n) <==>
              h.index < n && HeadingAt(lines, h.index) && h.level == lines[h.index].level && h.text == lines[h.index].text
    decreases n
  {
    hide HeadingAt;
    if n > 0 {
      HeadingsAre(lines, n - 1, h);
    }
  }

  // ----- Matches and spans -----

  /** The indices of the matching headings among the first `n` lines, in order. */
  function MatchesUpTo(lines: seq<Line>, target: string, n: nat): (ms: seq<nat>)
    requires n <= |lines|
    ensures forall k | 0 <= k < |ms| :: ms[k] < n && MatchAt(lines, ms[k], target)
    ensures forall j, k | 0 <= j < k < |ms| :: ms[j] < ms[k]
    ensures forall i | 0 <= i < n && MatchAt(lines, i, target) :: i in ms
  {
    if n == 0 then []
    else MatchesUpTo(lines, target, n - 1) + if MatchAt(lines, n - 1, target) then [n - 1] else []
  }

  /** The next heading at `level` or above after line `i`, or the end of the text. */
  function SectionEndFrom(lines: seq<Line>, level: nat, j: nat): (e: nat)
    requires j <= |lines|
    ensures j <= e <= |lines|
    ensures e < |lines| ==> HeadingAt(lines, e) && lines[e].level <= level
    ensures forall i | j <= i < e :: !(HeadingAt(lines, i) && lines[i].level <= level)
    decreases |lines| - j
  {
    if j == |lines| || (HeadingAt(lines, j) && lines[j].level <= level) then j
    else SectionEndFrom(lines, level, j + 1)
  }

  function SectionEnd(lines: seq<Line>, i: nat): (e: nat)
    requires HeadingAt(lines, i)
    ensures i < e <= |lines|
  {
    SectionEndFrom(lines, lines[i].level, i + 1)
  }

  /** Python's `lines[a:b]` for in-range bounds: empty when they cross. */
  function Slice(lines: seq<Line>, a: nat, b: nat): seq<Line>
    requires a <= |lines| && b <= |lines|
  {
    if a <= b then lines[a..b] else []
  }

  /** What follows the landed section: the text between one span's end and the next match,
      match after match, then the rest. */
  function Pieces(lines: seq<Line>, ms: seq<nat>, k: nat, prevEnd: nat): seq<Line>
    requires k <= |ms| && prevEnd <= |lines|
    requires forall m | m in ms :: HeadingAt(lines, m)
    decreases |ms| - k
  {
    if k == |ms| then lines[prevEnd..]
    else
      assert ms[k] in ms && HeadingAt(lines, ms[k]);
      Slice(lines, prevEnd, ms[k]) + Pieces(lines, ms, k + 1, SectionEnd(lines, ms[k]))
  }

  // ----- Landing -----

  predicate AllBlank(lines: seq<Line>) { forall i | 0 <= i < |lines| :: lines[i].Blank? }

  function RStrip(lines: seq<Line>): (out: seq<Line>)
    ensures out <= lines && (out != [] ==> !out[|out| - 1].Blank?)
    ensures forall i | |out| <= i < |lines| :: lines[i].Blank?
  {
    if lines == [] || !lines[|lines| - 1].Blank? then lines else RStrip(lines[..|lines| - 1])
  }

  /** `section_markdown.rstrip() + "\n"`, as lines. */
  function Landed(section: seq<Line>): seq<Line> {
    if RStrip(section) == [] then [Blank] else RStrip(section)
  }

  /** `_leading_heading_text`. */
  function LeadingText(section: seq<Line>): Option<string> {
    if section == [] then None
    else if section[0].Blank? then LeadingText(section[1..])
    else if section[0].Heading? then Some(section[0].text)
    else None
  }

  function Targets(body: seq<Line>, section: seq<Line>): (ms: seq<nat>)
    ensures forall m | m in ms :: HeadingAt(body, m)
  {
    var t := LeadingText(section);
    if t.None? then [] else
      var ms := MatchesUpTo(body, t.value, |body|);
      assert forall m | m in ms :: MatchAt(body, m, t.value);
      ms
  }

  /** The section opens with a heading of this text, behind blank lines only. */
  ghost predicate OpensWith(section: seq<Line>, text: string) {
    exists i: nat | i < |section| :: section[i].Heading? && section[i].text == text && AllBlank(section[..i])
  }

  lemma {:induction false} LeadingIs(section: seq<Line>, text: string)
    ensures LeadingText(section) == Some(text) <==> OpensWith(section, text)
    decreases section
  {
    if section != [] && section[0].Blank? {
      var rest := section[1..];
      LeadingIs(rest, text);
      if OpensWith(rest, text) {
        var i: nat :| i < |rest| && rest[i].Heading? && rest[i].text == text && AllBlank(rest[..i]);
        assert section[i + 1] == rest[i];
        assert AllBlank(section[..i + 1]) by {
          forall j | 0 <= j < i + 1 ensures section[j].Blank? { if j > 0 { assert section[j] == rest[..i][j - 1]; } }
        }
      }
      if OpensWith(section, text) {
        var i: nat :| i < |section| && section[i].Heading? && section[i].text == text && AllBlank(section[..i]);
        assert rest[i - 1] == section[i];
        assert AllBlank(rest[..i - 1]) by {
          forall j | 0 <= j < i - 1 ensures rest[j].Blank? { assert rest[j] == section[..i][j + 1]; }
        }
      }
    }
  }

  /** The replaced headings: those unfenced headings whose text opens the section. */
  lemma TargetsAre(body: seq<Line>, section: seq<Line>)
    ensures forall m :: m in Targets(body, section) <==>
      0 <= m < |body| && body[m].Heading? && !Fenced(body, m) && OpensWith(section, body[m].text)
  {
    hide StateAt, Fenced, OpensWith, LeadingText;
    forall m: nat
      ensures m in Targets(body, section) <==>
        m < |body| && body[m].Heading? && !Fenced(body, m) && OpensWith(section, body[m].text)
    {
      HeadingIff(body, m);
      if HeadingAt(body, m) { LeadingIs(section, body[m].text); }
      TargetsMatch(body, section, m);
    }
  }

  lemma TargetsMatch(body: seq<Line>, section: seq<Line>, m: nat)
    ensures m in Targets(body, section) <==> HeadingAt(body, m) && LeadingText(section) == Some(body[m].text)
  {
    hide StateAt, LeadingText;
    var t := LeadingText(section);
    if t.Some? && m in Targets(body, section) { assert MatchAt(body, m, t.value); }
  }

  /** A section without its trailing blank lines; a blank one lands as a blank line. */
  ghost predicate TrimmedTo(section: seq<Line>, landed: seq<Line>) {
    if AllBlank(section) then landed == [Blank]
    else landed <= section && landed != [] && !landed[|landed| - 1].Blank? && AllBlank(section[|landed|..])
  }

  lemma LandedIs(section: seq<Line>)
    ensures TrimmedTo(section, Landed(section))
  {
    var out := RStrip(section);
    assert forall i | 0 <= i < |out| :: out[i] == section[i];
  }

  /** `upsert_diagnosis_section`. */
  function Upsert(body: seq<Line>, section: seq<Line>): seq<Line> {
    var landed := Landed(section);
    var ms := Targets(body, section);
    if AllBlank(body) then landed
    else if ms == [] then body + [Blank] + landed
    else
      assert ms[0] in ms;
      RStrip(body[..ms[0]] + landed + Pieces(body, ms, 1, SectionEnd(body, ms[0])))
  }

  // ----- The code's route to the same spans, through the heading list -----

  function MatchIndices(hs: seq<HeadingRef>, target: string, n: nat): seq<nat>
    requires n <= |hs|
  {
    if n == 0 then [] else MatchIndices(hs, target, n - 1) + if hs[n - 1].text == target then [hs[n - 1].index] else []
  }

  lemma {:induction false} MatchIndicesExtend(hs: seq<HeadingRef>, more: seq<HeadingRef>, target: string, n: nat)
    requires n <= |hs|
    ensures MatchIndices(hs + more, target, n) == MatchIndices(hs, target, n)
    decreases n
  {
    if n > 0 {
      MatchIndicesExtend(hs, more, target, n - 1);
    }
  }

  lemma MatchesStep(lines: seq<Line>, target: string, n: nat)
    requires n < |lines|
    ensures MatchesUpTo(lines, target, n + 1) ==
            MatchesUpTo(lines, target, n) + if MatchAt(lines, n, target) then [n] else []
  {
  }

  lemma {:induction false} HeadingListMatches(lines: seq<Line>, target: string, n: nat)
    requires n <= |lines|
    ensures MatchIndices(HeadingsUpTo(lines, n), target, |HeadingsUpTo(lines, n)|) == MatchesUpTo(lines, target, n)
    decreases n
  {
    hide StateAt, MatchesUpTo;
    if n == 0 {
      NoLinesNoMatches(lines, target);
    } else {
      HeadingListMatches(lines, target, n - 1);
      MatchesStep(lines, target, n - 1);
      var hs := HeadingsUpTo(lines, n - 1);
      if HeadingAt(lines, n - 1) {
        var h := HeadingRef(n - 1, lines[n - 1].level, lines[n - 1].text);
        MatchIndicesExtend(hs, [h], target, |hs|);
        assert HeadingsUpTo(lines, n) == hs + [h];
      } else {
        assert HeadingsUpTo(lines, n) == hs;
      }
    }
  }

  lemma NoLinesNoMatches(lines: seq<Line>, target: string)
    ensures MatchesUpTo(lines, target, 0) == []
  {
  }

  method CanonicalIndices(headings: seq<HeadingRef>, target: string) returns (ms: seq<nat>)
    ensures ms == MatchIndices(headings, target, |headings|)
  {
    ms := [];
    for n := 0 to |headings|
      invariant ms == MatchIndices(headings, target, n)
    {
      if headings[n].text == target {
        ms := ms + [headings[n].index];
      }
    }
  }

  predicate Ascending(hs: seq<HeadingRef>) {
    forall j, k | 0 <= j < k < |hs| :: hs[j].index < hs[k].index
  }

  lemma {:induction false} HeadingsOrdered(lines: seq<Line>, n: nat)
    requires n <= |lines|
    ensures Ascending(HeadingsUpTo(lines, n))
    ensures forall h | h in HeadingsUpTo(lines, n) :: h.index < n
    decreases n
  {
    hide HeadingAt;
    if n > 0 {
      HeadingsOrdered(lines, n - 1);
      var shorter, hs := HeadingsUpTo(lines, n - 1), HeadingsUpTo(lines, n);
      forall j, k | 0 <= j < k < |hs|
        ensures hs[j].index < hs[k].index
      {
        assert hs[j] == shorter[j] && shorter[j] in shorter;
        if k < |shorter| {
          assert hs[k] == shorter[k] && shorter[k] in shorter && shorter[j].index < shorter[k].index;
        } else {
          assert hs[k].index == n - 1;
        }
      }
    }
  }

  /** `_section_end`: the first later heading at this level or above. */
  method SectionEndOf(lines: seq<Line>, headings: seq<HeadingRef>, start: nat) returns (e: nat)
    requires HeadingAt(lines, start) && headings == HeadingsUpTo(lines, |lines|)
    ensures e == SectionEnd(lines, start)
    // the next unfenced heading at this level or above, or the end
    ensures start < e <= |lines|
    ensures e < |lines| ==> lines[e].Heading? && !Fenced(lines, e) && lines[e].level <= lines[start].level
    ensures forall i | start < i < e :: lines[i].Heading? && !Fenced(lines, i) ==> lines[i].level > lines[start].level
  {
    forall i: nat ensures HeadingAt(lines, i) <==> i < |lines| && lines[i].Heading? && !Fenced(lines, i) {
      HeadingIff(lines, i);
    }
    hide HeadingsUpTo, StateAt;
    HeadingsOrdered(lines, |lines|);
    var level := lines[start].level;
    forall h
      ensures h in headings <==>
                h.index < |lines| && HeadingAt(lines, h.index) && h.level == lines[h.index].level && h.text == lines[h.index].text
    {
      HeadingsAre(lines, |lines|, h);
    }
    for n := 0 to |headings|
      invariant forall k | 0 <= k < n :: headings[k].index <= start || headings[k].level > level
    {
      var h := headings[n];
      assert h in headings;
      if h.index > start && h.level <= level {
        forall i | start < i < h.index
          ensures !(HeadingAt(lines, i) && lines[i].level <= level)
        {
          if HeadingAt(lines, i) {
            var g := HeadingRef(i, lines[i].level, lines[i].text);
            assert g in headings;
            var k :| 0 <= k < |headings| && headings[k] == g;
            assert k < n;
          }
        }
        return h.index;
      }
    }
    forall i | start < i < |lines|
      ensures !(HeadingAt(lines, i) && lines[i].level <= level)
    {
      if HeadingAt(lines, i) {
        var g := HeadingRef(i, lines[i].level, lines[i].text);
        assert g in headings;
      }
    }
    e := |lines|;
  }

  ghost predicate NothingToReplace(body: seq<Line>, section: seq<Line>) {
    forall i | 0 <= i < |body| && body[i].Heading? :: Fenced(body, i) || !OpensWith(section, body[i].text)
  }

  method UpsertDiagnosisSection(body: seq<Line>, section: seq<Line>) returns (out: seq<Line>)
    ensures out == Upsert(body, section)
    // with nothing to replace, the section alone or behind the body and a blank line
    ensures AllBlank(body) ==> TrimmedTo(section, out)
    ensures !AllBlank(body) && NothingToReplace(body, section) ==>
      |body| < |out| && out[..|body|] == body && out[|body|].Blank? && TrimmedTo(section, out[|body| + 1..])
  {
    LandedIs(section);
    TargetsAre(body, section);
    hide StateAt, MatchesUpTo, HeadingsUpTo, RStrip, TrimmedTo, Fenced, OpensWith, Landed;
    var landed := Landed(section);
    if AllBlank(body) {
      return landed;
    }
    var target := LeadingText(section);
    var headings := IterHeadingLines(body);
    var ms: seq<nat> := [];
    if target.Some? {
      ms := CanonicalIndices(headings, target.value);
      HeadingListMatches(body, target.value, |body|);
    }
    assert ms == Targets(body, section);
    if ms == [] {
      return body + [Blank] + landed;
    }
    assert ms[0] in ms && HeadingAt(body, ms[0]);
    var prevEnd := SectionEndOf(body, headings, ms[0]);
    var rest := CollectPieces(body, headings, ms, prevEnd);
    out := RStrip(body[..ms[0]] + landed + rest);
  }

  method CollectPieces(body: seq<Line>, headings: seq<HeadingRef>, ms: seq<nat>, firstEnd: nat) returns (rest: seq<Line>)
    requires headings == HeadingsUpTo(body, |body|) && ms != [] && firstEnd <= |body|
    requires forall m | m in ms :: HeadingAt(body, m)
    ensures rest == Pieces(body, ms, 1, firstEnd)
  {
    hide StateAt, HeadingsUpTo, Slice;
    rest := [];
    var prevEnd := firstEnd;
    for k := 1 to |ms|
      invariant 0 <= prevEnd <= |body|
      invariant rest + Pieces(body, ms, k, prevEnd) == Pieces(body, ms, 1, firstEnd)
    {
      assert ms[k] in ms && HeadingAt(body, ms[k]);
      var end := SectionEndOf(body, headings, ms[k]);
      ghost var piece, later := Slice(body, prevEnd, ms[k]), Pieces(body, ms, k + 1, end);
      assert (rest + piece) + later == rest + (piece + later);
      rest := rest + Slice(body, prevEnd, ms[k]);
      prevEnd := end;
    }
    rest := rest + body[prevEnd..];
  }
}
