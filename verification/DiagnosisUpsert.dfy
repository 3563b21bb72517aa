/** What landing a diagnosis guarantees: one section, and when landing it again changes nothing. */
module DiagnosisUpsert {
  import opened Common
  import opened DiagnosisSection

  // ----- Counting matching headings -----

  /** Matching headings a reader sees, scanning from a fence state. */
  function Count(st: FenceState, lines: seq<Line>, target: string): nat
    decreases lines
  {
    if lines == [] then 0
    else (if st.Outside? && lines[0].Heading? && lines[0].text == target then 1 else 0)
         + Count(Step(st, lines[0]), lines[1..], target)
  }

  lemma {:induction false} CountConcat(st: FenceState, a: seq<Line>, b: seq<Line>, target: string)
    ensures Count(st, a + b, target) == Count(st, a, target) + Count(Run(st, a), b, target)
    decreases a
  {
    if a == [] {
      assert a + b == b;
    } else {
      assert (a + b)[1..] == a[1..] + b;
      CountConcat(Step(st, a[0]), a[1..], b, target);
    }
  }

  lemma CountLast(lines: seq<Line>, i: nat, target: string)
    requires i < |lines|
    ensures Count(Outside, lines[..i + 1], target) ==
            Count(Outside, lines[..i], target) + if MatchAt(lines, i, target) then 1 else 0
  {
    assert lines[..i + 1] == lines[..i] + [lines[i]];
    CountConcat(Outside, lines[..i], [lines[i]], target);
    assert [lines[i]][1..] == [];
  }

  lemma {:induction false} CountIsZero(lines: seq<Line>, n: nat, target: string)
    requires n <= |lines|
    ensures Count(Outside, lines[..n], target) == 0 <==> forall i | 0 <= i < n :: !MatchAt(lines, i, target)
    decreases n
  {
    hide MatchAt;
    if n == 0 {
      assert lines[..0] == [];
    } else {
      CountIsZero(lines, n - 1, target);
      CountLast(lines, n - 1, target);
    }
  }

  // ----- Texts made of parts -----

  lemma StateInFront(a: seq<Line>, b: seq<Line>, i: nat)
    requires i <= |a|
    ensures StateAt(a + b, i) == StateAt(a, i)
  {
    assert (a + b)[..i] == a[..i];
  }

  lemma StateBehind(a: seq<Line>, b: seq<Line>, i: nat)
    requires i <= |b| && Run(Outside, a) == Outside
    ensures StateAt(a + b, |a| + i) == StateAt(b, i)
  {
    assert (a + b)[..|a| + i] == a + b[..i];
    RunConcat(Outside, a, b[..i]);
  }

  lemma HeadingInFront(a: seq<Line>, b: seq<Line>, i: nat)
    requires i < |a|
    ensures HeadingAt(a + b, i) <==> HeadingAt(a, i)
  {
    StateInFront(a, b, i);
  }

  lemma HeadingBehind(a: seq<Line>, b: seq<Line>, i: nat)
    requires Run(Outside, a) == Outside
    ensures HeadingAt(a + b, |a| + i) <==> HeadingAt(b, i)
  {
    if i < |b| {
      StateBehind(a, b, i);
    }
  }

  /** A stretch of the text that starts outside fences reads the same on its own. */
  lemma StretchStates(lines: seq<Line>, p: nat, q: nat)
    requires p <= q <= |lines| && StateAt(lines, p) == Outside
    ensures Run(Outside, lines[p..q]) == StateAt(lines, q)
  {
    assert lines[..q] == lines[..p] + lines[p..q];
    RunConcat(Outside, lines[..p], lines[p..q]);
  }

  lemma StretchIsClean(lines: seq<Line>, p: nat, q: nat, target: string)
    requires p <= q <= |lines| && StateAt(lines, p) == Outside
    requires forall i | p <= i < q :: !MatchAt(lines, i, target)
    ensures Count(Outside, lines[p..q], target) == 0
  {
    hide Run;
    var stretch := lines[p..q];
    forall i | 0 <= i < |stretch|
      ensures !MatchAt(stretch, i, target)
    {
      StretchStates(lines, p, p + i);
      assert stretch[..i] == lines[p..p + i];
      assert !MatchAt(lines, p + i, target);
    }
    CountIsZero(stretch, |stretch|, target);
    assert stretch[..|stretch|] == stretch;
  }

  // ----- The text after the landed section -----

  /** A span can end there: at a heading outside fences, or at the end of the text. */
  predicate Boundary(lines: seq<Line>, e: nat) { e == |lines| || HeadingAt(lines, e) }

  lemma {:induction false} PiecesAreClean(lines: seq<Line>, target: string, ms: seq<nat>, k: nat, prevEnd: nat)
    requires ms == MatchesUpTo(lines, target, |lines|) && 1 <= k <= |ms|
    requires (forall m | m in ms :: HeadingAt(lines, m)) && ms[k - 1] < prevEnd <= |lines| && Boundary(lines, prevEnd)
    ensures Count(Outside, Pieces(lines, ms, k, prevEnd), target) == 0
    ensures var rest := Pieces(lines, ms, k, prevEnd); rest == [] || rest[0].Heading?
    decreases |ms| - k
  {
    hide Run, Count, MatchesUpTo;
    if k == |ms| {
      if prevEnd < |lines| {
        NoMatchAfter(lines, target, ms, k - 1);
        StretchIsClean(lines, prevEnd, |lines|, target);
        assert lines[prevEnd..] == lines[prevEnd..|lines|];
      } else {
        assert lines[prevEnd..] == [];
        NothingToCount(target);
      }
    } else {
      assert ms[k] in ms && HeadingAt(lines, ms[k]);
      var end := SectionEnd(lines, ms[k]);
      PiecesAreClean(lines, target, ms, k + 1, end);
      var piece, rest := Slice(lines, prevEnd, ms[k]), Pieces(lines, ms, k + 1, end);
      if prevEnd < ms[k] {
        NoMatchBetween(lines, target, ms, k);
        StretchIsClean(lines, prevEnd, ms[k], target);
        StretchStates(lines, prevEnd, ms[k]);
        CountConcat(Outside, piece, rest, target);
      } else {
        assert piece == [] && piece + rest == rest;
      }
    }
  }

  lemma NothingToCount(target: string)
    ensures Count(Outside, [], target) == 0
  {
  }

  lemma NoMatchBetween(lines: seq<Line>, target: string, ms: seq<nat>, k: nat)
    requires ms == MatchesUpTo(lines, target, |lines|) && 1 <= k < |ms|
    ensures forall i | ms[k - 1] < i < ms[k] :: !MatchAt(lines, i, target)
  {
    assert forall j | 0 <= j < |ms| :: ms[j] <= ms[k - 1] || ms[j] >= ms[k];
    assert forall i | ms[k - 1] < i < ms[k] :: i !in ms;
  }

  lemma NoMatchAfter(lines: seq<Line>, target: string, ms: seq<nat>, k: nat)
    requires ms == MatchesUpTo(lines, target, |lines|) && k == |ms| - 1
    ensures forall i | ms[k] < i < |lines| :: !MatchAt(lines, i, target)
  {
    assert forall j | 0 <= j < |ms| :: ms[j] <= ms[k];
    assert forall i | ms[k] < i < |lines| :: i !in ms;
  }

  // ----- The landed section -----

  /** A section worth landing: it opens with its heading, closes its fences, and below the
      heading has only deeper headings with other texts. */
  predicate WellFormed(section: seq<Line>) {
    var s := RStrip(section);
    && s != [] && s[0].Heading? && Run(Outside, s) == Outside
    && forall i | 0 < i < |s| && HeadingAt(s, i) :: s[i].level > s[0].level && s[i].text != s[0].text
  }

  predicate Balanced(body: seq<Line>) { Run(Outside, body) == Outside }

  lemma SectionHasOne(section: seq<Line>)
    requires WellFormed(section)
    ensures var s := RStrip(section);
            && Landed(section) == s && LeadingText(section) == Some(s[0].text)
            && Count(Outside, s, s[0].text) == 1
            && MatchAt(s, 0, s[0].text) && (forall i | 0 < i < |s| :: !MatchAt(s, i, s[0].text))
  {
    var s := RStrip(section);
    var t := s[0].text;
    assert section[0] == s[0];
    assert s[..0] == [];
    assert s == s[..1] + s[1..];
    CountConcat(Outside, s[..1], s[1..], t);
    assert s[..1] == [s[0]] && [s[0]][1..] == [];
    assert StateAt(s, 1) == Outside by { StateAtNext(s, 0); }
    StretchIsClean(s, 1, |s|, t);
    assert s[1..|s|] == s[1..];
  }

  lemma {:induction false} BlanksCountNothing(st: FenceState, blanks: seq<Line>, target: string)
    requires AllBlank(blanks)
    ensures Count(st, blanks, target) == 0 && Run(st, blanks) == st
    decreases blanks
  {
    if blanks != [] {
      BlanksCountNothing(st, blanks[1..], target);
    }
  }

  lemma StripKeepsCount(lines: seq<Line>, target: string)
    ensures Count(Outside, RStrip(lines), target) == Count(Outside, lines, target)
  {
    hide Count, Run;
    var s := RStrip(lines);
    assert lines == s + lines[|s|..];
    CountConcat(Outside, s, lines[|s|..], target);
    BlanksCountNothing(Run(Outside, s), lines[|s|..], target);
  }

  lemma FrontIsClean(body: seq<Line>, target: string, ms: seq<nat>)
    requires ms == MatchesUpTo(body, target, |body|)
    ensures ms == [] ==> Count(Outside, body, target) == 0
    ensures ms != [] ==> Count(Outside, body[..ms[0]], target) == 0 && Run(Outside, body[..ms[0]]) == Outside
  {
    var n := if ms == [] then |body| else ms[0];
    assert forall j | 0 <= j < |ms| :: ms[j] >= n;
    assert forall i | 0 <= i < n :: i !in ms;
    CountIsZero(body, n, target);
    assert body[..|body|] == body;
    if ms != [] {
      assert MatchAt(body, ms[0], target);
    }
  }

  /** A body never ends up with two sections, or with none: whatever matches it carried, at
      any level and however nested, exactly one matching heading is left. */
  lemma ExactlyOneSection(body: seq<Line>, section: seq<Line>)
    requires WellFormed(section) && (Balanced(body) || Targets(body, section) != [])
    ensures Count(Outside, Upsert(body, section), RStrip(section)[0].text) == 1
  {
    hide Run, Count, MatchesUpTo, WellFormed;
    SectionHasOneHere(section);
    var s := RStrip(section);
    var t, ms := s[0].text, Targets(body, section);
    FrontIsClean(body, t, ms);
    if AllBlank(body) {
    } else if ms == [] {
      CountConcat(Outside, body + [Blank], s, t);
      CountConcat(Outside, body, [Blank], t);
      RunConcat(Outside, body, [Blank]);
      BlanksCountNothing(Outside, [Blank], t);
    } else {
      assert ms[0] in ms && HeadingAt(body, ms[0]);
      var end := SectionEnd(body, ms[0]);
      PiecesAreClean(body, t, ms, 1, end);
      var pre, rest := body[..ms[0]], Pieces(body, ms, 1, end);
      CountConcat(Outside, pre + s, rest, t);
      CountConcat(Outside, pre, s, t);
      RunConcat(Outside, pre, s);
      StripKeepsCount(pre + s + rest, t);
    }
  }

  lemma SectionHasOneHere(section: seq<Line>)
    requires WellFormed(section)
    ensures var s := RStrip(section);
            && s != [] && s[0].Heading? && Run(Outside, s) == Outside
            && Landed(section) == s && LeadingText(section) == Some(s[0].text)
            && Count(Outside, s, s[0].text) == 1
  {
    SectionHasOne(section);
  }

  // ----- Landing the same section again -----

  /** Level of the heading that follows the landed section, if anything follows it. */
  function Follower(body: seq<Line>, section: seq<Line>): Option<nat> {
    var ms := Targets(body, section);
    if AllBlank(body) || ms == [] then None
    else
      assert ms[0] in ms;
      var rest := Pieces(body, ms, 1, SectionEnd(body, ms[0]));
      if rest != [] && rest[0].Heading? then Some(rest[0].level) else None
  }

  /** `text` is some clean front, the section, and a clean tail that is empty or opens with a
      heading. */
  ghost predicate Holds(text: seq<Line>, front: seq<Line>, s: seq<Line>, tail: seq<Line>) {
    && text == front + s + tail && s != [] && s[0].Heading?
    && Run(Outside, front) == Outside && Run(Outside, s) == Outside
    && Count(Outside, front, s[0].text) == 0 && Count(Outside, tail, s[0].text) == 0
    && (tail != [] ==> tail[0].Heading?)
    && RStrip(text) == text
  }

  lemma {:induction false} StripFixed(lines: seq<Line>)
    requires lines != [] && !lines[|lines| - 1].Blank?
    ensures RStrip(lines) == lines
  {
  }

  lemma {:induction false} StripBehind(front: seq<Line>, tail: seq<Line>)
    requires front != [] && !front[|front| - 1].Blank?
    ensures RStrip(front + tail) == front + RStrip(tail)
    decreases tail
  {
    if tail == [] {
      assert front + tail == front;
    } else {
      var whole := front + tail;
      if tail[|tail| - 1].Blank? {
        assert whole[..|whole| - 1] == front + tail[..|tail| - 1];
        StripBehind(front, tail[..|tail| - 1]);
      }
    }
  }

  /** Every result of landing has that shape. */
  lemma LandedShape(body: seq<Line>, section: seq<Line>) returns (front: seq<Line>, tail: seq<Line>)
    requires WellFormed(section) && (Balanced(body) || Targets(body, section) != [])
    ensures Holds(Upsert(body, section), front, RStrip(section), tail)
    ensures Follower(body, section) == if tail == [] then None else Some(tail[0].level)
  {
    hide Run, Count, MatchesUpTo, WellFormed, StateAt;
    SectionHasOneHere(section);
    var s := RStrip(section);
    var t, ms := s[0].text, Targets(body, section);
    FrontIsClean(body, t, ms);
    NothingToCount(t);
    NothingToRun();
    if AllBlank(body) {
      front, tail := [], [];
      assert front + s + tail == s;
      StripFixed(s);
    } else if ms == [] {
      front, tail := body + [Blank], [];
      CountConcat(Outside, body, [Blank], t);
      RunConcat(Outside, body, [Blank]);
      BlanksCountNothing(Outside, [Blank], t);
      assert front + s + tail == front + s;
      StripFixed(front + s);
    } else {
      assert ms[0] in ms && HeadingAt(body, ms[0]);
      var end := SectionEnd(body, ms[0]);
      PiecesAreClean(body, t, ms, 1, end);
      var rest := Pieces(body, ms, 1, end);
      front, tail := body[..ms[0]], RStrip(rest);
      StripKeepsCount(rest, t);
      StripBehind(front + s, rest);
      assert rest != [] ==> tail != [] && tail[0] == rest[0];
      assert (front + s) + tail == front + s + tail;
      StripIsFinal(front + s + rest);
    }
  }

  lemma NothingToRun()
    ensures Run(Outside, []) == Outside
  {
  }

  lemma StripIsFinal(lines: seq<Line>)
    ensures RStrip(RStrip(lines)) == RStrip(lines)
  {
    if RStrip(lines) != [] {
      StripFixed(RStrip(lines));
    }
  }

  lemma {:induction false} SingleMatch(lines: seq<Line>, target: string, p: nat)
    requires MatchAt(lines, p, target) && forall i | 0 <= i < |lines| && i != p :: !MatchAt(lines, i, target)
    ensures MatchesUpTo(lines, target, |lines|) == [p]
  {
    hide MatchAt;
    MatchIsInRange(lines, p, target);
    var ms := MatchesUpTo(lines, target, |lines|);
    assert p in ms;
    var j :| 0 <= j < |ms| && ms[j] == p;
    assert forall k | 0 <= k < |ms| :: ms[k] == p;
    NeighboursDiffer(ms);
  }

  lemma NeighboursDiffer(ms: seq<nat>)
    requires forall j, k | 0 <= j < k < |ms| :: ms[j] < ms[k]
    ensures |ms| >= 2 ==> ms[0] != ms[1]
  {
  }

  lemma MatchIsInRange(lines: seq<Line>, p: nat, target: string)
    requires MatchAt(lines, p, target)
    ensures p < |lines|
  {
  }

  /** In a text of that shape the section is the only match. */
  lemma ShapeHasOneMatch(text: seq<Line>, front: seq<Line>, section: seq<Line>, tail: seq<Line>)
    requires WellFormed(section) && Holds(text, front, RStrip(section), tail)
    ensures Targets(text, section) == [|front|]
  {
    hide Run, Count, MatchesUpTo, StateAt;
    var s := RStrip(section);
    var t := s[0].text;
    SectionHasOne(section);
    assert text == front + (s + tail);
    CountIsZero(front, |front|, t);
    assert front[..|front|] == front;
    CountIsZero(tail, |tail|, t);
    assert tail[..|tail|] == tail;
    forall i | 0 <= i < |text| && i != |front|
      ensures !MatchAt(text, i, t)
    {
      if i < |front| {
        HeadingInFront(front, s + tail, i);
        assert !MatchAt(front, i, t);
      } else if i < |front| + |s| {
        HeadingBehind(front, s + tail, i - |front|);
        HeadingInFront(s, tail, i - |front|);
        assert !MatchAt(s, i - |front|, t);
      } else {
        HeadingBehind(front, s + tail, i - |front|);
        HeadingBehind(s, tail, i - |front| - |s|);
        assert !MatchAt(tail, i - |front| - |s|, t);
      }
    }
    HeadingBehind(front, s + tail, 0);
    HeadingInFront(s, tail, 0);
    SingleMatch(text, t, |front|);
  }

  /** Its span runs to the end of the section, and past it exactly over a deeper follower. */
  lemma ShapeSpan(text: seq<Line>, front: seq<Line>, section: seq<Line>, tail: seq<Line>)
    requires WellFormed(section) && Holds(text, front, RStrip(section), tail)
    requires HeadingAt(text, |front|)
    ensures var s, e := RStrip(section), SectionEnd(text, |front|);
            && |front| + |s| <= e
            && (e == |front| + |s| <==> tail == [] || tail[0].level <= s[0].level)
  {
    hide Run, Count, MatchesUpTo, StateAt, RStrip;
    var s, e := RStrip(section), SectionEnd(text, |front|);
    SectionHasOneHere(section);
    assert text[|front|] == s[0];
    assert text == front + (s + tail);
    forall i | |front| < i < |front| + |s|
      ensures !(HeadingAt(text, i) && text[i].level <= s[0].level)
    {
      HeadingBehind(front, s + tail, i - |front|);
      HeadingInFront(s, tail, i - |front|);
    }
    if tail != [] {
      HeadingBehind(front, s + tail, |s|);
      HeadingBehind(s, tail, 0);
      TextStartsOutside(tail);
    }
  }

  lemma TextStartsOutside(lines: seq<Line>)
    requires lines != [] && lines[0].Heading?
    ensures HeadingAt(lines, 0)
  {
    assert lines[..0] == [];
  }

  /** Landing the same section again changes nothing exactly when what follows the landed
      section is not a deeper heading, which would now belong to it. */
  lemma LandingAgain(body: seq<Line>, section: seq<Line>)
    requires WellFormed(section) && (Balanced(body) || Targets(body, section) != [])
    ensures var f := Follower(body, section);
            Upsert(Upsert(body, section), section) == Upsert(body, section) <==>
              f.None? || f.value <= RStrip(section)[0].level
  {
    hide Run, Count, MatchesUpTo, WellFormed, StateAt, Follower;
    var s, text := RStrip(section), Upsert(body, section);
    SectionHasOneHere(section);
    var front, tail := LandedShape(body, section);
    ShapeHasOneMatch(text, front, section, tail);
    var ms := Targets(text, section);
    assert ms == [|front|] && ms[0] in ms && HeadingAt(text, |front|);
    ShapeSpan(text, front, section, tail);
    var e := SectionEnd(text, |front|);
    assert text[|front|].Heading?;
    assert !AllBlank(text);
    assert text[..|front|] == front;
    assert Upsert(text, section) == RStrip(front + s + text[e..]);
    if e == |front| + |s| {
      assert front + s + text[e..] == text;
    } else {
      assert |front + s + text[e..]| < |text|;
    }
  }

  ghost predicate MatchesNoDeeper(body: seq<Line>, section: seq<Line>, level: nat) {
    forall m | m in Targets(body, section) :: body[m].level <= level
  }

  lemma {:induction false} PiecesFollower(lines: seq<Line>, ms: seq<nat>, k: nat, prevEnd: nat, level: nat)
    requires 1 <= k <= |ms| && prevEnd <= |lines|
    requires forall m | m in ms :: HeadingAt(lines, m) && lines[m].Heading? && lines[m].level <= level
    requires prevEnd < |lines| ==> lines[prevEnd].Heading? && lines[prevEnd].level <= level
    ensures var rest := Pieces(lines, ms, k, prevEnd);
            rest != [] ==> rest[0].Heading? && rest[0].level <= level
    decreases |ms| - k
  {
    hide HeadingAt, SectionEnd;
    if k < |ms| {
      assert ms[k] in ms;
      EndOpensNext(lines, ms[k]);
      PiecesFollower(lines, ms, k + 1, SectionEnd(lines, ms[k]), level);
    }
  }

  lemma EndOpensNext(lines: seq<Line>, i: nat)
    requires HeadingAt(lines, i)
    ensures var e := SectionEnd(lines, i);
            lines[i].Heading? && (e < |lines| ==> lines[e].Heading? && lines[e].level <= lines[i].level)
  {
    hide StateAt;
  }

  /** So it is idempotent when no existing match is deeper than the landed section. */
  lemma LandingIsIdempotent(body: seq<Line>, section: seq<Line>)
    requires WellFormed(section) && (Balanced(body) || Targets(body, section) != [])
    requires MatchesNoDeeper(body, section, RStrip(section)[0].level)
    ensures Upsert(Upsert(body, section), section) == Upsert(body, section)
  {
    hide StateAt, Upsert, WellFormed, RStrip;
    SectionHasOneHere(section);
    LandingAgain(body, section);
    var ms, level := Targets(body, section), RStrip(section)[0].level;
    if ms != [] {
      assert ms[0] in ms && HeadingAt(body, ms[0]);
      PiecesFollower(body, ms, 1, SectionEnd(body, ms[0]), level);
    }
  }

  /** It can fail otherwise: a match deeper than the section leaves its siblings behind, and
      the next landing takes them in. */
  lemma LandingAgainCanShrink()
    ensures var body, section := [Heading(3, "diagnosis"), Heading(3, "other")], [Heading(2, "diagnosis")];
            && WellFormed(section) && Balanced(body)
            && Upsert(body, section) == [Heading(2, "diagnosis"), Heading(3, "other")]
            && Upsert(Upsert(body, section), section) == [Heading(2, "diagnosis")]
  {
    hide MatchesUpTo, StateAt, RStrip, Run, Targets;
    var body, section := [Heading(3, "diagnosis"), Heading(3, "other")], [Heading(2, "diagnosis")];
    var once := [Heading(2, "diagnosis"), Heading(3, "other")];
    TwoHeadings(body[0], body[1]);
    TwoHeadings(once[0], once[1]);
    OneHeading(section[0]);
    StripFixed(section);
    StripFixed(once);
    UpsertAtTop(body, section);
    UpsertAtTop(once, section);
    assert section + body[1..] == once;
    assert section + once[2..] == section;
  }

  lemma OneHeading(a: Line)
    requires a.Heading?
    ensures Run(Outside, [a]) == Outside
  {
    assert [a][1..] == [];
  }

  /** Landing over a text whose only match is its first line. */
  lemma UpsertAtTop(body: seq<Line>, section: seq<Line>)
    requires |body| == 2 && MatchAt(body, 0, "diagnosis") && !MatchAt(body, 1, "diagnosis")
    requires |section| == 1 && section[0].Heading? && section[0].text == "diagnosis"
    ensures Upsert(body, section) == RStrip(section + body[SectionEnd(body, 0)..])
  {
    hide MatchesUpTo, StateAt;
    SingleMatch(body, "diagnosis", 0);
    assert LeadingText(section) == Some("diagnosis");
    assert Targets(body, section) == [0];
    StripFixed(section);
    assert body[..0] + section == section;
  }

  lemma TwoHeadings(a: Line, b: Line)
    requires a.Heading? && b.Heading?
    ensures StateAt([a, b], 0) == Outside && StateAt([a, b], 1) == Outside && Run(Outside, [a, b]) == Outside
  {
    assert [a, b][..0] == [] && [a, b][..1] == [a] && [a][1..] == [] && [a, b][1..] == [b] && [b][1..] == [];
  }

  // ----- What survives around the section -----

  /** No match lies inside another's span. */
  ghost predicate UnNested(lines: seq<Line>, ms: seq<nat>)
    requires forall m | m in ms :: HeadingAt(lines, m)
  {
    forall k | 0 < k < |ms| :: (assert ms[k - 1] in ms; SectionEnd(lines, ms[k - 1])) <= ms[k]
  }

  /** Line `i` is in no replaced span. */
  ghost predicate Untouched(lines: seq<Line>, ms: seq<nat>, i: nat)
    requires forall m | m in ms :: HeadingAt(lines, m)
  {
    forall m | m in ms :: i < m || SectionEnd(lines, m) <= i
  }

  /** Match `k` is the nearest one at or before line `i`. */
  predicate Nearest(ms: seq<nat>, i: nat, k: nat) {
    k < |ms| && ms[k] <= i && (k + 1 < |ms| ==> i < ms[k + 1])
  }

  /** Line `i` lies at or past the end of the span of the nearest match at or before it. */
  ghost predicate PastNearest(lines: seq<Line>, ms: seq<nat>, i: nat)
    requires forall m | m in ms :: HeadingAt(lines, m)
  {
    forall k: nat | Nearest(ms, i, k) :: (assert ms[k] in ms; SectionEnd(lines, ms[k])) <= i
  }

  /** The surviving lines from line `i` on, in order. */
  ghost function Survivors(lines: seq<Line>, ms: seq<nat>, i: nat): seq<Line>
    requires i <= |lines| && forall m | m in ms :: HeadingAt(lines, m)
    decreases |lines| - i
  {
    if i == |lines| then []
    else (if PastNearest(lines, ms, i) then [lines[i]] else []) + Survivors(lines, ms, i + 1)
  }

  lemma {:induction false} SurvivorsOver(lines: seq<Line>, ms: seq<nat>, p: nat, q: nat, kept: bool)
    requires p <= q <= |lines| && forall m | m in ms :: HeadingAt(lines, m)
    requires forall i: nat | p <= i < q :: PastNearest(lines, ms, i) == kept
    ensures Survivors(lines, ms, p) == (if kept then lines[p..q] else []) + Survivors(lines, ms, q)
    decreases q - p
  {
    hide PastNearest;
    if p < q {
      SurvivorsOver(lines, ms, p + 1, q, kept);
      if kept {
        assert [lines[p]] + (lines[p + 1..q] + Survivors(lines, ms, q)) == lines[p..q] + Survivors(lines, ms, q);
      }
    }
  }

  lemma OneNearest(ms: seq<nat>, i: nat, j: nat, k: nat)
    requires Increasing(ms) && Nearest(ms, i, j) && Nearest(ms, i, k)
    ensures j == k
  {
  }

  /** Between a match and the next one, the lines past the match's own span survive. */
  lemma NearestDecides(lines: seq<Line>, ms: seq<nat>, k: nat, i: nat)
    requires (forall m | m in ms :: HeadingAt(lines, m)) && Increasing(ms)
    requires Nearest(ms, i, k)
    ensures ms[k] in ms && (PastNearest(lines, ms, i) <==> SectionEnd(lines, ms[k]) <= i)
  {
    hide HeadingAt, SectionEnd;
    assert ms[k] in ms;
    forall j: nat | Nearest(ms, i, j)
      ensures j == k
    {
      OneNearest(ms, i, j, k);
    }
  }

  lemma PiecesAt(lines: seq<Line>, ms: seq<nat>, k: nat, prevEnd: nat)
    requires k <= |ms| && prevEnd <= |lines| && forall m | m in ms :: HeadingAt(lines, m)
    ensures k == |ms| ==> Pieces(lines, ms, k, prevEnd) == lines[prevEnd..]
    ensures k < |ms| ==> ms[k] in ms && ms[k] <= |lines|
    ensures k < |ms| ==>
              Pieces(lines, ms, k, prevEnd) == Slice(lines, prevEnd, ms[k]) + Pieces(lines, ms, k + 1, SectionEnd(lines, ms[k]))
  {
    assert k < |ms| ==> ms[k] in ms;
  }

  lemma SliceIs(lines: seq<Line>, a: nat, b: nat)
    requires a <= |lines| && b <= |lines|
    ensures Slice(lines, a, b) == if a <= b then lines[a..b] else []
  {
  }

  /** The pieces the code collects from a match on are the surviving lines. */
  lemma {:induction false} PiecesSurvive(lines: seq<Line>, ms: seq<nat>, k: nat)
    requires (forall m | m in ms :: HeadingAt(lines, m)) && Increasing(ms) && 1 <= k <= |ms|
    ensures ms[k - 1] in ms && ms[k - 1] <= |lines|
    ensures Pieces(lines, ms, k, SectionEnd(lines, ms[k - 1])) == Survivors(lines, ms, ms[k - 1])
    decreases |ms| - k
  {
    hide HeadingAt, SectionEnd, PastNearest, Survivors, Pieces, Slice;
    assert ms[k - 1] in ms;
    EndIsAfter(lines, ms[k - 1]);
    PiecesAt(lines, ms, k, SectionEnd(lines, ms[k - 1]));
    var m, e := ms[k - 1], SectionEnd(lines, ms[k - 1]);
    if k < |ms| {
      assert ms[k] in ms;
      EndIsAfter(lines, ms[k]);
    }
    var next := if k < |ms| then ms[k] else |lines|;
    forall i: nat | m <= i < next
      ensures PastNearest(lines, ms, i) <==> e <= i
    {
      NearestDecides(lines, ms, k - 1, i);
    }
    var cut := if e <= next then e else next;
    SurvivorsOver(lines, ms, m, cut, false);
    SurvivorsOver(lines, ms, cut, next, true);
    if k < |ms| {
      SliceIs(lines, e, next);
      PiecesSurvive(lines, ms, k + 1);
    } else {
      NobodyLeft(lines, ms);
      assert lines[e..] == lines[e..|lines|];
    }
  }

  lemma NobodyLeft(lines: seq<Line>, ms: seq<nat>)
    requires forall m | m in ms :: HeadingAt(lines, m)
    ensures Survivors(lines, ms, |lines|) == []
  {
  }

  lemma EndIsAfter(lines: seq<Line>, i: nat)
    requires HeadingAt(lines, i)
    ensures i < SectionEnd(lines, i) <= |lines|
  {
  }

  /** Exactly which lines survive a landing, and where: everything before the first match, the
      section, and then each line past the span of the nearest match at or before it, in order
      and up to trailing blanks. */
  lemma OthersSurvive(body: seq<Line>, section: seq<Line>)
    requires !AllBlank(body) && Targets(body, section) != []
    ensures var ms := Targets(body, section);
            && ms[0] <= |body| && Survivors(body, ms, 0) == body[..ms[0]] + Survivors(body, ms, ms[0])
            && Upsert(body, section) == RStrip(body[..ms[0]] + Landed(section) + Survivors(body, ms, ms[0]))
  {
    hide StateAt, RStrip, SectionEnd, Survivors, Pieces, MatchesUpTo;
    var ms := Targets(body, section);
    TargetsIncrease(body, section);
    assert ms[0] in ms && HeadingAt(body, ms[0]);
    EndIsAfter(body, ms[0]);
    forall i: nat | i < ms[0]
      ensures PastNearest(body, ms, i)
    {
      BeforeAllMatches(body, ms, i);
    }
    SurvivorsOver(body, ms, 0, ms[0], true);
    assert body[0..ms[0]] == body[..ms[0]];
    PiecesSurvive(body, ms, 1);
  }

  lemma BeforeAllMatches(lines: seq<Line>, ms: seq<nat>, i: nat)
    requires (forall m | m in ms :: HeadingAt(lines, m)) && Increasing(ms) && ms != [] && i < ms[0]
    ensures PastNearest(lines, ms, i)
  {
    hide HeadingAt;
    assert forall j | 0 <= j < |ms| :: ms[0] <= ms[j];
  }

  lemma TargetsIncrease(body: seq<Line>, section: seq<Line>)
    ensures Increasing(Targets(body, section))
  {
  }

  lemma {:induction false} SpansApart(lines: seq<Line>, ms: seq<nat>, j: nat, k: nat)
    requires (forall m | m in ms :: HeadingAt(lines, m)) && Increasing(ms) && UnNested(lines, ms) && j < k < |ms|
    ensures ms[j] in ms && SectionEnd(lines, ms[j]) <= ms[k]
    decreases k
  {
    hide StateAt;
    assert ms[j] in ms && ms[k - 1] in ms && ms[k] in ms;
    if j < k - 1 {
      SpansApart(lines, ms, j, k - 1);
      assert SectionEnd(lines, ms[k - 1]) <= ms[k];
    }
  }

  /** With un-nested matches the survivors are the lines outside every replaced span. */
  lemma UnNestedSurvivors(lines: seq<Line>, ms: seq<nat>, i: nat)
    requires (forall m | m in ms :: HeadingAt(lines, m)) && Increasing(ms) && UnNested(lines, ms)
    ensures PastNearest(lines, ms, i) <==> Untouched(lines, ms, i)
  {
    hide HeadingAt, SectionEnd, UnNested;
    if PastNearest(lines, ms, i) {
      forall m | m in ms
        ensures i < m || SectionEnd(lines, m) <= i
      {
        var j :| 0 <= j < |ms| && ms[j] == m;
        if m <= i {
          var k := NearestMatch(ms, j, i);
          NearestDecides(lines, ms, k, i);
          if j < k {
            SpansApart(lines, ms, j, k);
          }
        }
      }
    } else {
      var k: nat :| Nearest(ms, i, k) && (assert ms[k] in ms; SectionEnd(lines, ms[k])) > i;
      assert ms[k] in ms;
    }
  }

  lemma NearestMatch(ms: seq<nat>, j: nat, i: nat) returns (k: nat)
    requires j < |ms| && ms[j] <= i
    ensures j <= k && Nearest(ms, i, k)
    decreases |ms| - j
  {
    k := j;
    while k + 1 < |ms| && ms[k + 1] <= i
      invariant j <= k < |ms| && ms[k] <= i
      decreases |ms| - k
    {
      k := k + 1;
    }
  }

  // ----- A nested match -----

  lemma {:induction false} NoFences(st: FenceState, lines: seq<Line>)
    requires forall i | 0 <= i < |lines| :: !lines[i].Fence?
    ensures Run(st, lines) == st
    decreases lines
  {
    if lines != [] {
      NoFences(st, lines[1..]);
    }
  }

  const NestedBody := [Heading(1, "diagnosis"), Heading(2, "diagnosis"), Heading(2, "notes"), Text("old")]

  lemma NestedHeadings()
    ensures forall i: nat :: HeadingAt(NestedBody, i) <==> i < 3
  {
    hide StateAt;
    forall i: nat | i < 4
      ensures StateAt(NestedBody, i) == Outside
    {
      PlainState(NestedBody, i);
    }
  }

  lemma NestedMatches()
    ensures MatchesUpTo(NestedBody, "diagnosis", 4) == [0, 1]
  {
    hide HeadingAt, MatchesUpTo;
    NestedHeadings();
    NoLinesNoMatches(NestedBody, "diagnosis");
    MatchesStep(NestedBody, "diagnosis", 0);
    MatchesStep(NestedBody, "diagnosis", 1);
    MatchesStep(NestedBody, "diagnosis", 2);
    MatchesStep(NestedBody, "diagnosis", 3);
  }

  lemma NestedSpans()
    ensures HeadingAt(NestedBody, 0) && HeadingAt(NestedBody, 1)
    ensures SectionEnd(NestedBody, 0) == 4 && SectionEnd(NestedBody, 1) == 2
  {
    hide HeadingAt;
    NestedHeadings();
  }

  lemma NestedPieces()
    ensures (forall m | m in [0, 1] :: HeadingAt(NestedBody, m)) && Pieces(NestedBody, [0, 1], 1, 4) == NestedBody[2..]
  {
    hide HeadingAt, SectionEnd;
    NestedSpans();
    assert [0, 1][1] == 1;
    assert Pieces(NestedBody, [0, 1], 2, 2) == NestedBody[2..];
  }

  /** A match inside another's span ends the replacement early: the lines after the inner match
      come back, although the outer span reaches to the end of the body. */
  lemma NestedMatchBringsLinesBack()
    ensures HeadingAt(NestedBody, 0) && SectionEnd(NestedBody, 0) == |NestedBody|
    ensures Upsert(NestedBody, [Heading(2, "diagnosis")]) == [Heading(2, "diagnosis"), Heading(2, "notes"), Text("old")]
  {
    hide HeadingAt, SectionEnd, MatchesUpTo, RStrip, Pieces;
    var section := [Heading(2, "diagnosis")];
    NestedSpans();
    NestedMatches();
    NestedPieces();
    StripFixed(section);
    assert LeadingText(section) == Some("diagnosis");
    assert Targets(NestedBody, section) == [0, 1];
    assert !NestedBody[0].Blank?;
    var out := [Heading(2, "diagnosis"), Heading(2, "notes"), Text("old")];
    assert NestedBody[..0] + section + NestedBody[2..] == out;
    StripFixed(out);
  }

  lemma PlainState(lines: seq<Line>, i: nat)
    requires i <= |lines| && forall k | 0 <= k < |lines| :: !lines[k].Fence?
    ensures StateAt(lines, i) == Outside
  {
    NoFences(Outside, lines[..i]);
  }
}
