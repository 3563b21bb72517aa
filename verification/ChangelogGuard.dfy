/**
 * The forward-port guard for the changelog: restore main's unreleased section, drop the
 * sections a release roll created, refuse anything it cannot classify, and check the
 * rewritten text against the merge before letting it through.
 */
module ChangelogGuard {
  import opened Common
  import opened TextLines
  import opened ChangelogText

  const Unreleased := "Unreleased"

  /** Sections by key, a later one replacing an earlier one. */
  function ByKey(sections: seq<Section>): map<string, Section> {
    if sections == [] then map[]
    else
      var last := sections[|sections| - 1];
      ByKey(sections[..|sections| - 1])[last.key := last]
  }

  lemma {:induction false} ByKeyMembers(sections: seq<Section>, k: string)
    ensures k in ByKey(sections) <==> exists s | s in sections :: s.key == k
    ensures k in ByKey(sections) ==> ByKey(sections)[k] in sections && ByKey(sections)[k].key == k
    decreases sections
  {
    if sections != [] {
      var rest, last := sections[..|sections| - 1], sections[|sections| - 1];
      ByKeyMembers(rest, k);
      assert sections == rest + [last];
    }
  }

  /** Position `i` holds the last section of a key. */
  ghost predicate LastOfKey(sections: seq<Section>, k: string, i: nat) {
    i < |sections| && sections[i].key == k && forall j | i < j < |sections| :: sections[j].key != k
  }

  lemma {:induction false} ByKeyIsLast(sections: seq<Section>, k: string)
    ensures k in ByKey(sections) ==> exists i: nat :: LastOfKey(sections, k, i) && ByKey(sections)[k] == sections[i]
    decreases sections
  {
    if sections != [] && k in ByKey(sections) {
      var n := |sections| - 1;
      var rest := sections[..n];
      if sections[n].key == k {
        assert LastOfKey(sections, k, n);
      } else {
        ByKeyIsLast(rest, k);
        var i: nat :| LastOfKey(rest, k, i) && ByKey(rest)[k] == rest[i];
        assert LastOfKey(sections, k, i);
      }
    }
  }

  // ---------------------------------------------------------------- what is kept

  predicate Carried(s: Section, keys: set<string>) { s.key != Unreleased && s.key in keys }

  /** A section the guard knows what to do with. */
  predicate Classifiable(s: Section, keys: set<string>, g: Grammar) {
    s.key == Unreleased || s.key in keys || g.isVersion(s.key)
  }

  function Kept(sections: seq<Section>, keys: set<string>): seq<Section> {
    if sections == [] then []
    else
      var last := sections[|sections| - 1];
      Kept(sections[..|sections| - 1], keys) + if Carried(last, keys) then [last] else []
  }

  /** How many sections are kept before the first unreleased one, if there is one. */
  function UnreleasedAt(sections: seq<Section>, keys: set<string>): Option<nat> {
    if sections == [] then None
    else
      var before := sections[..|sections| - 1];
      var at := UnreleasedAt(before, keys);
      if at.None? && sections[|sections| - 1].key == Unreleased then Some(|Kept(before, keys)|) else at
  }

  lemma {:induction false} UnreleasedAtBound(sections: seq<Section>, keys: set<string>)
    ensures UnreleasedAt(sections, keys).Some? ==> UnreleasedAt(sections, keys).value <= |Kept(sections, keys)|
    decreases sections
  {
    if sections != [] { UnreleasedAtBound(sections[..|sections| - 1], keys); }
  }

  function InsertAt(kept: seq<Section>, at: nat, s: Section): seq<Section>
    requires at <= |kept|
  {
    kept[..at] + [s] + kept[at..]
  }

  /** The sections of the rewritten file. */
  function Restored(sections: seq<Section>, main: map<string, Section>): seq<Section>
    requires Unreleased in main
  {
    UnreleasedAtBound(sections, main.Keys);
    var at := UnreleasedAt(sections, main.Keys);
    InsertAt(Kept(sections, main.Keys), if at.Some? then at.value else 0, main[Unreleased])
  }

  // ----- Where the restored section goes -----

  /** The positions of the carried sections, in file order. */
  ghost predicate CarriedAt(sections: seq<Section>, keys: set<string>, ps: seq<nat>) {
    && Rising(sections, ps)
    && (forall p: nat :: p in ps <==> p < |sections| && sections[p].key != Unreleased && sections[p].key in keys)
  }

  ghost predicate FirstUnreleased(sections: seq<Section>, q: nat) {
    && q < |sections| && sections[q].key == Unreleased
    && forall j | 0 <= j < q :: sections[j].key != Unreleased
  }

  /** The first `at` of the positions lie before the first unreleased section, the others after it. */
  ghost predicate SplitsAt(sections: seq<Section>, ps: seq<nat>, at: nat) {
    && at <= |ps|
    && exists q: nat :: FirstUnreleased(sections, q) &&
         (forall k | 0 <= k < at :: ps[k] < q) && (forall k | at <= k < |ps| :: ps[k] > q)
  }

  /**
   * The rewritten sections, from the two files alone: the carried sections in file order,
   * with main's unreleased section where the merge first had one, or at the top.
   */
  ghost predicate RestoredAs(out: seq<Section>, sections: seq<Section>, keys: set<string>, u: Section, ps: seq<nat>, at: nat) {
    && CarriedAt(sections, keys, ps) && at <= |ps|
    && out == Pick(sections, ps)[..at] + [u] + Pick(sections, ps)[at..]
    && if exists s | s in sections :: s.key == Unreleased then SplitsAt(sections, ps, at) else at == 0
  }

  lemma CarryOne(sections: seq<Section>, s: Section, keys: set<string>, ps: seq<nat>)
    requires CarriedAt(sections, keys, ps)
    ensures var more := if Carried(s, keys) then ps + [|sections|] else ps;
      CarriedAt(sections + [s], keys, more) &&
      Pick(sections + [s], more) == Pick(sections, ps) + if Carried(s, keys) then [s] else []
  {
    var all := sections + [s];
    var more := if Carried(s, keys) then ps + [|sections|] else ps;
    assert all[|sections|] == s && forall p: nat | p < |sections| :: all[p] == sections[p];
    forall p: nat
      ensures p in more <==> p < |all| && all[p].key != Unreleased && all[p].key in keys
    {
    }
  }

  lemma SplitsLater(sections: seq<Section>, s: Section, ps: seq<nat>, more: seq<nat>, at: nat)
    requires SplitsAt(sections, ps, at) && (more == ps || more == ps + [|sections|])
    ensures SplitsAt(sections + [s], more, at)
  {
    var q: nat :| FirstUnreleased(sections, q) &&
      (forall k | 0 <= k < at :: ps[k] < q) && (forall k | at <= k < |ps| :: ps[k] > q);
    assert FirstUnreleased(sections + [s], q);
  }

  lemma {:induction false} KeptPlaces(sections: seq<Section>, keys: set<string>) returns (ps: seq<nat>)
    ensures CarriedAt(sections, keys, ps) && Kept(sections, keys) == Pick(sections, ps)
    ensures UnreleasedAt(sections, keys).None? <==> forall s | s in sections :: s.key != Unreleased
    ensures UnreleasedAt(sections, keys).Some? ==> SplitsAt(sections, ps, UnreleasedAt(sections, keys).value)
    decreases sections
  {
    hide CarriedAt, SplitsAt;
    if sections == [] {
      ps := [];
      assert CarriedAt(sections, keys, ps) by { NothingCarried(keys); }
    } else {
      var n := |sections| - 1;
      var rest, last := sections[..n], sections[n];
      var was := KeptPlaces(rest, keys);
      assert sections == rest + [last];
      CarryOne(rest, last, keys, was);
      ps := if Carried(last, keys) then was + [n] else was;
      var at := UnreleasedAt(rest, keys);
      if at.Some? {
        SplitsLater(rest, last, was, ps, at.value);
      } else if last.key == Unreleased {
        SplitsHere(rest, last, keys, was);
      }
    }
  }

  lemma NothingCarried(keys: set<string>)
    ensures CarriedAt([], keys, [])
  {
  }

  lemma SplitsHere(sections: seq<Section>, s: Section, keys: set<string>, ps: seq<nat>)
    requires CarriedAt(sections, keys, ps) && s.key == Unreleased && forall x | x in sections :: x.key != Unreleased
    ensures SplitsAt(sections + [s], ps, |ps|)
  {
    assert FirstUnreleased(sections + [s], |sections|);
  }

  lemma RestoredFollowsRule(sections: seq<Section>, main: map<string, Section>) returns (ps: seq<nat>, at: nat)
    requires Unreleased in main
    ensures RestoredAs(Restored(sections, main), sections, main.Keys, main[Unreleased], ps, at)
  {
    hide CarriedAt, Kept, UnreleasedAt;
    ps := KeptPlaces(sections, main.Keys);
    UnreleasedAtBound(sections, main.Keys);
    assert Within(sections, ps) by { CarriedWithin(sections, main.Keys, ps); }
    var placed := UnreleasedAt(sections, main.Keys);
    at := if placed.Some? then placed.value else 0;
    assert |Kept(sections, main.Keys)| == |ps|;
  }

  lemma CarriedWithin(sections: seq<Section>, keys: set<string>, ps: seq<nat>)
    requires CarriedAt(sections, keys, ps)
    ensures Within(sections, ps)
  {
  }

  lemma {:induction false} KeptMembers(sections: seq<Section>, keys: set<string>)
    ensures forall s :: s in Kept(sections, keys) <==> s in sections && Carried(s, keys)
    decreases sections
  {
    if sections != [] {
      var rest, last := sections[..|sections| - 1], sections[|sections| - 1];
      KeptMembers(rest, keys);
      assert sections == rest + [last];
    }
  }

  lemma InsertMembers(kept: seq<Section>, at: nat, s: Section)
    requires at <= |kept|
    ensures forall x :: x in InsertAt(kept, at, s) <==> x == s || x in kept
    ensures |InsertAt(kept, at, s)| == |kept| + 1
  {
    assert kept == kept[..at] + kept[at..];
  }

  // ---------------------------------------------------------------- the self-check

  /** Section equality in the source's sense. */
  predicate Same(a: Section, b: Section) { a.heading == b.heading && a.body == b.body }

  predicate HoldsSame(m: map<string, Section>, k: string, s: Section) { k in m && Same(m[k], s) }

  function Keys(sections: seq<Section>): set<string> { set s | s in sections :: s.key }

  predicate SelfCheck(main: map<string, Section>, merged: Parsed, result: Parsed)
    requires Unreleased in main
  {
    var found := ByKey(result.sections);
    && result.preamble == merged.preamble
    && (forall s | s in merged.sections && Carried(s, main.Keys) :: HoldsSame(found, s.key, s))
    && HoldsSame(found, Unreleased, main[Unreleased])
    && found.Keys <= Keys(merged.sections) + {Unreleased}
  }

  /** Sections of the merge that share a carried key are the same section. */
  ghost predicate Consistent(merged: Parsed, keys: set<string>) {
    forall s, t | s in merged.sections && t in merged.sections && Carried(s, keys) && s.key == t.key :: s == t
  }

  /** What a reader of the rewritten file relies on. */
  ghost predicate Rewritten(main: map<string, Section>, merged: Parsed, p: Parsed)
    requires Unreleased in main
  {
    p == Parsed(merged.preamble, Restored(merged.sections, main)) && main[Unreleased].key == Unreleased
  }

  lemma RestoredMembers(sections: seq<Section>, main: map<string, Section>)
    requires Unreleased in main
    ensures forall s :: s in Restored(sections, main) <==>
      s == main[Unreleased] || (s in sections && Carried(s, main.Keys))
    ensures Restored(sections, main) != []
  {
    hide Kept, UnreleasedAt;
    UnreleasedAtBound(sections, main.Keys);
    KeptMembers(sections, main.Keys);
    var at := UnreleasedAt(sections, main.Keys);
    InsertMembers(Kept(sections, main.Keys), if at.Some? then at.value else 0, main[Unreleased]);
  }

  /** When the text reads back whole, the self-check turns on repeated keys alone. */
  lemma CheckOfWhole(main: map<string, Section>, merged: Parsed, p: Parsed, g: Grammar)
    requires Unreleased in main && Rewritten(main, merged, p) && Good(merged, g)
    ensures SelfCheck(main, merged, p) <==> Consistent(merged, main.Keys)
  {
    hide ByKey, Restored;
    RestoredMembers(merged.sections, main);
    var found := ByKey(p.sections);
    forall k ensures k in found <==> exists s | s in p.sections :: s.key == k
             ensures k in found ==> found[k] in p.sections && found[k].key == k {
      ByKeyMembers(p.sections, k);
    }
    assert main[Unreleased] in p.sections;
    assert found[Unreleased] == main[Unreleased];
    forall s | s in merged.sections && Carried(s, main.Keys)
      ensures s.key in found && found[s.key] in merged.sections && Carried(found[s.key], main.Keys)
      ensures Same(found[s.key], s) <==> found[s.key] == s
    {
      assert s in p.sections;
    }
  }

  // ---------------------------------------------------------------- a lost trailing blank

  function DropLast(lines: seq<string>): seq<string>
    requires lines != []
  {
    lines[..|lines| - 1]
  }

  function Trimmed(p: Parsed): Parsed
    requires p.sections != [] && p.sections[|p.sections| - 1].body != []
  {
    var n := |p.sections| - 1;
    p.(sections := p.sections[..n] + [p.sections[n].(body := DropLast(p.sections[n].body))])
  }

  lemma TrimRenders(p: Parsed, g: Grammar)
    requires Good(p, g) && p.sections != [] && g.key("").None?
    requires Rendered(p)[|Rendered(p)| - 1] == ""
    ensures p.sections[|p.sections| - 1].body != []
    ensures Good(Trimmed(p), g) && Rendered(Trimmed(p)) == DropLast(Rendered(p))
  {
    var n := |p.sections| - 1;
    var last := p.sections[n];
    assert GoodSection(last, g);
    assert Rendered(p) == p.preamble + LinesOf(p.sections[..n]) + [last.heading] + last.body;
    assert last.body != [];
    var q := Trimmed(p);
    assert q.sections[..n] == p.sections[..n];
    TrimmedIsGood(p, g);
  }

  lemma TrimmedIsGood(p: Parsed, g: Grammar)
    requires Good(p, g) && p.sections != [] && p.sections[|p.sections| - 1].body != []
    ensures Good(Trimmed(p), g)
  {
    var n := |p.sections| - 1;
    assert GoodSection(p.sections[n], g);
    assert GoodSection(Trimmed(p).sections[n], g);
  }

  /** A trimmed last section is never what the check compares it with. */
  lemma CheckOfTrimmed(main: map<string, Section>, merged: Parsed, p: Parsed)
    requires Unreleased in main && Rewritten(main, merged, p)
    requires p.sections != [] && p.sections[|p.sections| - 1].body != []
    ensures !SelfCheck(main, merged, Trimmed(p))
  {
    hide Restored;
    RestoredMembers(merged.sections, main);
    var n := |p.sections| - 1;
    var last, short := p.sections[n], Trimmed(p).sections[n];
    assert last in p.sections;
    assert |short.body| < |last.body|;
    assert ByKey(Trimmed(p).sections)[last.key] == short;
    assert !Same(short, last);
  }

  // ---------------------------------------------------------------- the whole guard

  datatype Refusal = NoUnreleased | Unclassified(position: nat) | CheckFailed

  datatype Outcome = Accepted(text: string) | Refused(why: Refusal)

  function RewrittenText(main: map<string, Section>, merged: Parsed, mergedText: string): string
    requires Unreleased in main
  {
    Join(Rendered(Parsed(merged.preamble, Restored(merged.sections, main))), mergedText)
  }

  method ProtectChangelog(mainText: string, mergedText: string, g: Grammar) returns (r: Outcome)
    ensures r == Protect(mainText, mergedText, g)
  {
    hide Kept, UnreleasedAt, ByKey, SelfCheck;
    var mainParsed := ParseChangelog(mainText, g);
    var merged := ParseChangelog(mergedText, g);
    var main := ByKey(mainParsed.sections);
    if Unreleased !in main {
      return Refused(NoUnreleased);
    }
    var sections := merged.sections;
    var kept, at := [], None;
    NothingKept(main.Keys);
    for i := 0 to |sections|
      invariant kept == Kept(sections[..i], main.Keys) && at == UnreleasedAt(sections[..i], main.Keys)
      invariant FirstUnclassified(sections, 0, main.Keys, g) == FirstUnclassified(sections, i, main.Keys, g)
    {
      var section := sections[i];
      KeepStep(sections, i, main.Keys);
      if section.key == Unreleased {
        if at.None? {
          at := Some(|kept|);
        }
        continue;
      }
      if section.key in main {
        kept := kept + [section];
      } else if !g.isVersion(section.key) {
        return Refused(Unclassified(i));
      }
    }
    assert sections[..|sections|] == sections;
    UnreleasedAtBound(sections, main.Keys);
    kept := InsertAt(kept, if at.Some? then at.value else 0, main[Unreleased]);
    var text := Join(Rendered(Parsed(merged.preamble, kept)), mergedText);
    var result := ParseChangelog(text, g);
    if !SelfCheck(main, merged, result) {
      return Refused(CheckFailed);
    }
    return Accepted(text);
  }

  function FirstUnclassified(sections: seq<Section>, i: nat, keys: set<string>, g: Grammar): Option<nat>
    decreases |sections| - i
  {
    if i >= |sections| then None
    else if !Classifiable(sections[i], keys, g) then Some(i)
    else FirstUnclassified(sections, i + 1, keys, g)
  }

  lemma NothingKept(keys: set<string>)
    ensures Kept([], keys) == [] && UnreleasedAt([], keys) == None
  {
  }

  lemma KeepStep(sections: seq<Section>, i: nat, keys: set<string>)
    requires i < |sections|
    ensures Kept(sections[..i + 1], keys) ==
            Kept(sections[..i], keys) + if Carried(sections[i], keys) then [sections[i]] else []
    ensures UnreleasedAt(sections[..i + 1], keys) ==
            if UnreleasedAt(sections[..i], keys).None? && sections[i].key == Unreleased
            then Some(|Kept(sections[..i], keys)|) else UnreleasedAt(sections[..i], keys)
  {
    assert sections[..i + 1][..i] == sections[..i];
  }

  function Protect(mainText: string, mergedText: string, g: Grammar): Outcome {
    var main := ByKey(Parse(SplitLines(mainText), g).sections);
    var merged := Parse(SplitLines(mergedText), g);
    if Unreleased !in main then Refused(NoUnreleased)
    else
      var stuck := FirstUnclassified(merged.sections, 0, main.Keys, g);
      if stuck.Some? then Refused(Unclassified(stuck.value))
      else
        var text := RewrittenText(main, merged, mergedText);
        if SelfCheck(main, merged, Parse(SplitLines(text), g)) then Accepted(text) else Refused(CheckFailed)
  }

  // ---------------------------------------------------------------- what the guard guarantees

  ghost predicate WholeSection(s: Section) { OneLine(s.heading) && forall l | l in s.body :: OneLine(l) }

  lemma {:induction false} WholeLines(sections: seq<Section>)
    ensures (forall l | l in LinesOf(sections) :: OneLine(l)) <==> forall s | s in sections :: WholeSection(s)
    decreases sections
  {
    hide OneLine;
    if sections != [] {
      var rest, last := sections[..|sections| - 1], sections[|sections| - 1];
      WholeLines(rest);
      assert sections == rest + [last];
      assert forall l :: l in LinesOf(sections) <==> l in LinesOf(rest) || l == last.heading || l in last.body;
      assert (forall s | s in sections :: WholeSection(s)) <==>
             (forall s | s in rest :: WholeSection(s)) && WholeSection(last);
    }
  }

  /** A parsed text: good sections of whole lines. */
  lemma ParsedIsSound(text: string, g: Grammar)
    ensures var p := Parse(SplitLines(text), g);
      && Good(p, g) && (forall l | l in p.preamble :: OneLine(l)) && forall s | s in p.sections :: WholeSection(s)
  {
    hide Parse, WholeSection, Good, OneLine;
    var p := Parse(SplitLines(text), g);
    LinesAreWhole(text);
    ParseRenders(SplitLines(text), g);
    assert forall l | l in LinesOf(p.sections) :: l in Rendered(p);
    WholeLines(p.sections);
  }

  /** The rewritten sections are again good sections of whole lines, ending in a real line or a blank. */
  lemma RewrittenIsSound(mainText: string, mergedText: string, g: Grammar)
    requires Unreleased in ByKey(Parse(SplitLines(mainText), g).sections)
    ensures var main := ByKey(Parse(SplitLines(mainText), g).sections);
      var merged := Parse(SplitLines(mergedText), g);
      var p := Parsed(merged.preamble, Restored(merged.sections, main));
      && Rewritten(main, merged, p) && Good(merged, g) && Good(p, g) && p.sections != []
      && |Rendered(p)| >= 1 && forall l | l in Rendered(p) :: OneLine(l)
  {
    hide Parse, WholeSection, GoodSection, Restored, OneLine, ByKey;
    var mainSections := Parse(SplitLines(mainText), g).sections;
    var main := ByKey(mainSections);
    var merged := Parse(SplitLines(mergedText), g);
    ByKeyMembers(mainSections, Unreleased);
    ParsedIsSound(mainText, g);
    ParsedIsSound(mergedText, g);
    RestoredMembers(merged.sections, main);
    var sections := Restored(merged.sections, main);
    assert forall s | s in sections :: WholeSection(s) && GoodSection(s, g);
    WholeLines(sections);
    assert |LinesOf(sections)| >= 1;
  }

  /** The rewritten text parses to the rewritten sections, unless it ended in a blank line. */
  lemma ReadBack(p: Parsed, template: string, g: Grammar)
    requires Good(p, g) && p.sections != [] && g.key("").None? && forall l | l in Rendered(p) :: OneLine(l)
    requires |Rendered(p)| >= 1
    ensures var lines := Rendered(p);
      var result := Parse(SplitLines(Join(lines, template)), g);
      if lines[|lines| - 1] != "" then result == p && (EndsLine(Join(lines, template)) <==> EndsLine(template))
      else p.sections[|p.sections| - 1].body != [] && result == Trimmed(p)
  {
    hide Parse, Good, Join, OneLine, SplitLines;
    var lines := Rendered(p);
    if lines[|lines| - 1] != "" {
      SplitJoin(lines, template);
      RenderParses(p, g);
    } else {
      TrimRenders(p, g);
      HasTwoLines(p);
      SplitJoin(lines, template);
      RenderParses(Trimmed(p), g);
    }
  }

  lemma HasTwoLines(p: Parsed)
    requires p.sections != [] && p.sections[|p.sections| - 1].body != []
    ensures |Rendered(p)| > 1
  {
  }

  /**
   * Exactly when the guard lets a port through: main has an unreleased section, every
   * merged section is classifiable, the rewritten text does not end in a blank line, and
   * sections sharing a carried key are equal. The text then reads back as the merge with
   * the roll taken out.
   */
  lemma AcceptedIff(mainText: string, mergedText: string, g: Grammar)
    requires g.key("").None?
    ensures var main := ByKey(Parse(SplitLines(mainText), g).sections);
      var merged := Parse(SplitLines(mergedText), g);
      Protect(mainText, mergedText, g).Accepted? <==>
        && Unreleased in main
        && (forall s | s in merged.sections :: Classifiable(s, main.Keys, g))
        && Consistent(merged, main.Keys)
        && var lines := Rendered(Parsed(merged.preamble, Restored(merged.sections, main)));
           lines != [] && lines[|lines| - 1] != ""
    ensures var main := ByKey(Parse(SplitLines(mainText), g).sections);
      var merged := Parse(SplitLines(mergedText), g);
      var r := Protect(mainText, mergedText, g);
      r.Accepted? ==>
        && Parse(SplitLines(r.text), g) == Parsed(merged.preamble, Restored(merged.sections, main))
        && (EndsLine(r.text) <==> EndsLine(mergedText))
  {
    hide Parse, SplitLines, ByKey, Restored, SelfCheck, Consistent, Rendered, Join, Classifiable, FirstUnclassified;
    var main := ByKey(Parse(SplitLines(mainText), g).sections);
    var merged := Parse(SplitLines(mergedText), g);
    NoneUnclassified(merged.sections, 0, main.Keys, g);
    if Unreleased in main {
      var p := Parsed(merged.preamble, Restored(merged.sections, main));
      RewrittenIsSound(mainText, mergedText, g);
      ReadBack(p, mergedText, g);
      if Rendered(p)[|Rendered(p)| - 1] != "" {
        CheckOfWhole(main, merged, p, g);
      } else {
        CheckOfTrimmed(main, merged, p);
      }
    }
  }

  lemma {:induction false} NoneUnclassified(sections: seq<Section>, i: nat, keys: set<string>, g: Grammar)
    requires i <= |sections|
    ensures FirstUnclassified(sections, i, keys, g).None? <==>
            forall s | s in sections[i..] :: Classifiable(s, keys, g)
    decreases |sections| - i
  {
    hide Classifiable;
    if i < |sections| {
      NoneUnclassified(sections, i + 1, keys, g);
      assert sections[i..] == [sections[i]] + sections[i + 1..];
    }
  }

  /** A section neither unreleased, nor one of main's, nor keyed by a version. */
  ghost predicate Stuck(s: Section, mainSections: seq<Section>, g: Grammar) {
    s.key != Unreleased && !g.isVersion(s.key) && forall m | m in mainSections :: m.key != s.key
  }

  /**
   * Which refusal comes when: a main without an unreleased section first, then the first
   * section that cannot be classified, and a failed self-check only when there is neither.
   */
  lemma RefusalIs(mainText: string, mergedText: string, g: Grammar)
    ensures var main := Parse(SplitLines(mainText), g).sections;
      var merged := Parse(SplitLines(mergedText), g).sections;
      var r := Protect(mainText, mergedText, g);
      && (r == Refused(NoUnreleased) <==> forall s | s in main :: s.key != Unreleased)
      && (forall i: nat :: r == Refused(Unclassified(i)) <==>
            && (exists s | s in main :: s.key == Unreleased)
            && 0 <= i < |merged| && Stuck(merged[i], main, g) && forall j | 0 <= j < i :: !Stuck(merged[j], main, g))
      && (r == Refused(CheckFailed) ==> forall s | s in merged :: !Stuck(s, main, g))
  {
    hide Parse, SplitLines, ByKey, RewrittenText, SelfCheck, FirstUnclassified, Classifiable;
    var main := Parse(SplitLines(mainText), g).sections;
    var merged := Parse(SplitLines(mergedText), g).sections;
    var keys := ByKey(main).Keys;
    ByKeyMembers(main, Unreleased);
    if Unreleased in keys {
      forall s ensures Stuck(s, main, g) <==> !Classifiable(s, keys, g) {
        ByKeyMembers(main, s.key);
        ClassifiableIs(s, keys, g);
      }
      UnclassifiedIsFirst(merged, 0, keys, g);
      NoneUnclassified(merged, 0, keys, g);
      assert merged[0..] == merged;
    }
  }

  lemma ClassifiableIs(s: Section, keys: set<string>, g: Grammar)
    requires Unreleased in keys
    ensures Classifiable(s, keys, g) <==> s.key in keys || g.isVersion(s.key)
  {
  }

  lemma {:induction false} UnclassifiedIsFirst(sections: seq<Section>, i: nat, keys: set<string>, g: Grammar)
    requires i <= |sections|
    ensures forall k :: FirstUnclassified(sections, i, keys, g) == Some(k) <==>
      && i <= k < |sections| && !Classifiable(sections[k], keys, g)
      && forall j | i <= j < k :: Classifiable(sections[j], keys, g)
    decreases |sections| - i
  {
    hide Classifiable;
    if i < |sections| && Classifiable(sections[i], keys, g) {
      UnclassifiedIsFirst(sections, i + 1, keys, g);
    }
  }

  // ---------------------------------------------------------------- idempotence

  lemma {:induction false} KeptConcat(a: seq<Section>, b: seq<Section>, keys: set<string>)
    ensures Kept(a + b, keys) == Kept(a, keys) + Kept(b, keys)
    ensures UnreleasedAt(a, keys).Some? ==> UnreleasedAt(a + b, keys) == UnreleasedAt(a, keys)
    decreases b
  {
    if b == [] {
      assert a + b == a;
    } else {
      var rest := b[..|b| - 1];
      KeptConcat(a, rest, keys);
      assert (a + b)[..|a + b| - 1] == a + rest;
    }
  }

  lemma {:induction false} KeptAll(a: seq<Section>, keys: set<string>)
    requires forall s | s in a :: Carried(s, keys)
    ensures Kept(a, keys) == a && UnreleasedAt(a, keys) == None
    decreases a
  {
    if a != [] {
      var rest, last := a[..|a| - 1], a[|a| - 1];
      assert a == rest + [last] && last in a;
      KeptAll(rest, keys);
      CarryLast(rest, last, keys);
    }
  }

  lemma CarryLast(a: seq<Section>, s: Section, keys: set<string>)
    requires Carried(s, keys)
    ensures Kept(a + [s], keys) == Kept(a, keys) + [s] && UnreleasedAt(a + [s], keys) == UnreleasedAt(a, keys)
  {
    assert (a + [s])[..|a|] == a;
  }

  /** Restoring a restored list changes nothing. */
  lemma RestoreTwice(sections: seq<Section>, main: map<string, Section>)
    requires Unreleased in main && main[Unreleased].key == Unreleased
    ensures Restored(Restored(sections, main), main) == Restored(sections, main)
  {
    var keys := main.Keys;
    var kept, at := Kept(sections, keys), UnreleasedAt(sections, keys);
    UnreleasedAtBound(sections, keys);
    KeptMembers(sections, keys);
    RestoreAround(kept, if at.Some? then at.value else 0, main);
  }

  lemma RestoreAround(kept: seq<Section>, at: nat, main: map<string, Section>)
    requires Unreleased in main && main[Unreleased].key == Unreleased
    requires at <= |kept| && forall s | s in kept :: Carried(s, main.Keys)
    ensures Restored(InsertAt(kept, at, main[Unreleased]), main) == InsertAt(kept, at, main[Unreleased])
  {
    hide Carried, Kept, UnreleasedAt;
    var u, keys := main[Unreleased], main.Keys;
    var a, b := kept[..at], kept[at..];
    KeptAll(a, keys);
    KeptAll(b, keys);
    KeepOne(a, u, keys);
    KeptConcat(a + [u], b, keys);
    assert kept == a + b;
    var whole := InsertAt(kept, at, u);
    assert whole == a + [u] + b;
    assert Kept(whole, keys) == kept && UnreleasedAt(whole, keys) == Some(at);
  }

  lemma KeepOne(a: seq<Section>, u: Section, keys: set<string>)
    requires u.key == Unreleased && UnreleasedAt(a, keys).None? && Kept(a, keys) == a
    ensures Kept(a + [u], keys) == a && UnreleasedAt(a + [u], keys) == Some(|a|)
  {
    assert (a + [u])[..|a|] == a;
  }

  /** Porting a guarded changelog once more changes nothing and is accepted again. */
  lemma ProtectIsIdempotent(mainText: string, mergedText: string, g: Grammar)
    requires g.key("").None? && Protect(mainText, mergedText, g).Accepted?
    ensures var text := Protect(mainText, mergedText, g).text;
      Protect(mainText, text, g) == Accepted(text)
  {
    hide Parse, SplitLines, ByKey, Restored, SelfCheck, Rendered, Classifiable, FirstUnclassified, Joined, EndsLine;
    var main := ByKey(Parse(SplitLines(mainText), g).sections);
    var merged := Parse(SplitLines(mergedText), g);
    var text := Protect(mainText, mergedText, g).text;
    AcceptedIff(mainText, mergedText, g);
    AcceptedIff(mainText, text, g);
    RewrittenIsSound(mainText, mergedText, g);
    RestoreTwice(merged.sections, main);
    RestoredClassifiable(merged.sections, main, g);
    RestoredConsistent(merged, main);
  }

  lemma RestoredClassifiable(sections: seq<Section>, main: map<string, Section>, g: Grammar)
    requires Unreleased in main && main[Unreleased].key == Unreleased
    ensures forall s | s in Restored(sections, main) :: Classifiable(s, main.Keys, g)
  {
    hide Restored;
    RestoredMembers(sections, main);
  }

  lemma RestoredConsistent(merged: Parsed, main: map<string, Section>)
    requires Unreleased in main && main[Unreleased].key == Unreleased && Consistent(merged, main.Keys)
    ensures Consistent(Parsed(merged.preamble, Restored(merged.sections, main)), main.Keys)
  {
    hide Restored;
    RestoredMembers(merged.sections, main);
  }

  // ---------------------------------------------------------------- rewrites the guard rejects itself

  const UnreleasedHeading := "## Unreleased"
  const OtherHeading := "## A"

  /** How the patterns read the headings of the two examples. */
  ghost predicate ReadsExamples(g: Grammar) {
    && g.key(UnreleasedHeading) == Some(Unreleased) && g.key(OtherHeading) == Some("A")
    && g.key("").None? && g.key("x").None? && g.key("y").None?
  }

  /** A text with these sections and nothing above them. */
  function TextOf(sections: seq<Section>): string { Joined(LinesOf(sections)) + "\n" }

  lemma TextParses(sections: seq<Section>, g: Grammar)
    requires sections != [] && forall s | s in sections :: GoodSection(s, g) && WholeSection(s)
    ensures Parse(SplitLines(TextOf(sections)), g) == Parsed([], sections)
  {
    hide SplitLines, Parse, Joined, GoodSection, OneLine, WholeSection;
    WholeLines(sections);
    SplitTerminated(LinesOf(sections));
    RenderParses(Parsed([], sections), g);
    assert Rendered(Parsed([], sections)) == LinesOf(sections);
  }

  /** Main and merge are the same text, whose unreleased section ends in a blank line: the guard
      has nothing to change, and refuses its own rewrite. */
  lemma TrailingBlankIsRefused(g: Grammar)
    requires ReadsExamples(g)
    ensures var text := TextOf([Section(UnreleasedHeading, Unreleased, [""])]);
      Protect(text, text, g) == Refused(CheckFailed)
  {
    hide SplitLines, Parse, Joined, SelfCheck, Join;
    var u := Section(UnreleasedHeading, Unreleased, [""]);
    var text := TextOf([u]);
    assert GoodSection(u, g) && WholeSection(u);
    TextParses([u], g);
    SingleRestored(u);
    NoneUnclassified([u], 0, ByKey([u]).Keys, g);
    assert [u][0..] == [u];
    assert LinesOf([u]) == [UnreleasedHeading, ""];
    AcceptedIff(text, text, g);
  }

  lemma SingleRestored(u: Section)
    requires u.key == Unreleased
    ensures ByKey([u]) == map[Unreleased := u] && Restored([u], ByKey([u])) == [u]
    ensures LinesOf([u]) == [u.heading] + u.body
  {
    assert [u][..0] == [];
    var main := ByKey([u]);
    NothingKept(main.Keys);
    KeepOne([], u, main.Keys);
    assert [] + [u] == [u];
    assert InsertAt([], 0, u) == [u];
  }

  /** A merge that repeats a carried key with another body is refused as well. */
  lemma TwinSectionsAreRefused(g: Grammar)
    requires ReadsExamples(g)
    ensures var u, a := Section(UnreleasedHeading, Unreleased, []), Section(OtherHeading, "A", ["x"]);
      Protect(TextOf([u, a]), TextOf([u, a, a.(body := ["y"])]), g) == Refused(CheckFailed)
  {
    hide SplitLines, Parse, Joined, SelfCheck, Join, Restored, LinesOf, Rendered;
    var u, a := Section(UnreleasedHeading, Unreleased, []), Section(OtherHeading, "A", ["x"]);
    var twin := a.(body := ["y"]);
    assert GoodSection(u, g) && WholeSection(u) && GoodSection(a, g) && WholeSection(a);
    assert GoodSection(twin, g) && WholeSection(twin);
    TextParses([u, a], g);
    TextParses([u, a, twin], g);
    PairByKey(u, a);
    var keys := ByKey([u, a]).Keys;
    NoneUnclassified([u, a, twin], 0, keys, g);
    assert [u, a, twin][0..] == [u, a, twin];
    assert a in [u, a, twin] && twin in [u, a, twin] && Carried(a, keys) && a.body[0] != twin.body[0];
    AcceptedIff(TextOf([u, a]), TextOf([u, a, twin]), g);
  }

  lemma PairByKey(u: Section, a: Section)
    requires u.key != a.key
    ensures ByKey([u, a]) == map[u.key := u, a.key := a]
  {
    assert [u, a][..1] == [u] && [u][..0] == [];
    assert ByKey([u]) == map[u.key := u];
  }
}
