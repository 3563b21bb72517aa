/** Changelog text: joining lines after a template, and grouping them under section headings. */
module ChangelogText {
  import opened Common
  import opened TextLines

  // ---------------------------------------------------------------- joining

  predicate EndsLine(text: string) { text != "" && text[|text| - 1] == '\n' }

  /** Join, ending the text with a break when the template ends with one. */
  function Join(lines: seq<string>, template: string): string {
    var text := Joined(lines);
    if EndsLine(template) && !EndsLine(text) then text + "\n" else text
  }

  lemma {:induction false} JoinedEnds(lines: seq<string>)
    requires lines != [] && forall l | l in lines :: OneLine(l)
    ensures EndsLine(Joined(lines)) <==> |lines| > 1 && lines[|lines| - 1] == ""
    decreases lines
  {
    var rest := lines[1..];
    assert lines[0] in lines;
    if rest != [] {
      assert forall l | l in rest :: l in lines;
      JoinedEnds(rest);
      var text := Joined(lines);
      assert text == lines[0] + "\n" + Joined(rest);
      if Joined(rest) == "" {
        assert |rest| > 1 ==> |Joined(rest)| > 0;
        assert rest == [""];
      } else {
        assert text[|text| - 1] == Joined(rest)[|Joined(rest)| - 1];
      }
    }
  }

  /** Reading a joined text back: exact, except that a final blank line is lost. */
  lemma SplitJoin(lines: seq<string>, template: string)
    requires |lines| > 1 || (|lines| == 1 && lines[0] != "")
    requires forall l | l in lines :: OneLine(l)
    ensures SplitLines(Join(lines, template)) == Surviving(lines)
    ensures lines[|lines| - 1] != "" ==> (EndsLine(Join(lines, template)) <==> EndsLine(template))
  {
    hide SplitLines, Joined, OneLine;
    SplitJoined(lines);
    SplitTerminated(lines);
    JoinedEnds(lines);
  }

  // ---------------------------------------------------------------- sections

  /** The two patterns: the key of a heading line, and which keys look like versions. */
  datatype Grammar = Grammar(key: string -> Option<string>, isVersion: string -> bool)

  datatype Section = Section(heading: string, key: string, body: seq<string>)

  datatype Parsed = Parsed(preamble: seq<string>, sections: seq<Section>)

  /** One line of the parsing loop. */
  function AddLine(p: Parsed, line: string, g: Grammar): Parsed {
    var key := g.key(line);
    var n := |p.sections|;
    if key.Some? then p.(sections := p.sections + [Section(line, key.value, [])])
    else if n > 0 then
      var last := p.sections[n - 1];
      p.(sections := p.sections[..n - 1] + [last.(body := last.body + [line])])
    else p.(preamble := p.preamble + [line])
  }

  function Parse(lines: seq<string>, g: Grammar): Parsed {
    if lines == [] then Parsed([], []) else AddLine(Parse(lines[..|lines| - 1], g), lines[|lines| - 1], g)
  }

  function LinesOf(sections: seq<Section>): seq<string> {
    if sections == [] then []
    else
      var last := sections[|sections| - 1];
      LinesOf(sections[..|sections| - 1]) + [last.heading] + last.body
  }

  function Rendered(p: Parsed): seq<string> { p.preamble + LinesOf(p.sections) }

  ghost predicate GoodSection(s: Section, g: Grammar) {
    g.key(s.heading) == Some(s.key) && forall l | l in s.body :: g.key(l).None?
  }

  /** Headings are headings and nothing else is. */
  ghost predicate Good(p: Parsed, g: Grammar) {
    (forall l | l in p.preamble :: g.key(l).None?) && forall s | s in p.sections :: GoodSection(s, g)
  }

  method ParseChangelog(text: string, g: Grammar) returns (p: Parsed)
    ensures p == Parse(SplitLines(text), g)
  {
    hide AddLine;
    var lines := SplitLines(text);
    p := Parsed([], []);
    for i := 0 to |lines|
      invariant p == Parse(lines[..i], g)
    {
      ghost var was := p;
      var line := lines[i];
      var key, n := g.key(line), |p.sections|;
      if key.Some? {
        p := p.(sections := p.sections + [Section(line, key.value, [])]);
      } else if n > 0 {
        var last := p.sections[n - 1];
        p := p.(sections := p.sections[..n - 1] + [last.(body := last.body + [line])]);
      } else {
        p := p.(preamble := p.preamble + [line]);
      }
      AddLineIs(was, line, g, p);
      assert lines[..i + 1][..i] == lines[..i];
    }
    assert lines[..|lines|] == lines;
  }

  lemma AddLineIs(p: Parsed, line: string, g: Grammar, q: Parsed)
    requires q == var n := |p.sections|;
      if g.key(line).Some? then p.(sections := p.sections + [Section(line, g.key(line).value, [])])
      else if n > 0 then
        p.(sections := p.sections[..n - 1] + [p.sections[n - 1].(body := p.sections[n - 1].body + [line])])
      else p.(preamble := p.preamble + [line])
    ensures q == AddLine(p, line, g)
  {
  }

  lemma AddLineAdds(p: Parsed, line: string, g: Grammar)
    requires Good(p, g)
    ensures Good(AddLine(p, line, g), g) && Rendered(AddLine(p, line, g)) == Rendered(p) + [line]
  {
    var q := AddLine(p, line, g);
    var n := |p.sections|;
    if g.key(line).Some? {
      assert q.sections[..n] == p.sections;
    } else if n > 0 {
      assert q.sections[..n - 1] == p.sections[..n - 1];
      assert p.sections[n - 1] in p.sections;
    }
  }

  /** Parsing loses no line and sorts every line where it belongs. */
  lemma {:induction false} ParseRenders(lines: seq<string>, g: Grammar)
    ensures Good(Parse(lines, g), g) && Rendered(Parse(lines, g)) == lines
    decreases lines
  {
    hide Good, AddLine, Rendered;
    if lines == [] {
      NothingParsed(g);
    } else {
      var before := lines[..|lines| - 1];
      ParseRenders(before, g);
      AddLineAdds(Parse(before, g), lines[|lines| - 1], g);
      assert lines == before + [lines[|lines| - 1]];
    }
  }

  lemma NothingParsed(g: Grammar)
    ensures Good(Parsed([], []), g) && Rendered(Parsed([], [])) == []
  {
  }

  function WithBody(p: Parsed, more: seq<string>): Parsed {
    var n := |p.sections|;
    if n > 0 then p.(sections := p.sections[..n - 1] + [p.sections[n - 1].(body := p.sections[n - 1].body + more)])
    else p.(preamble := p.preamble + more)
  }

  lemma {:induction false} ParsePlain(lines: seq<string>, plain: seq<string>, g: Grammar)
    requires forall l | l in plain :: g.key(l).None?
    ensures Parse(lines + plain, g) == WithBody(Parse(lines, g), plain)
    decreases plain
  {
    var p := Parse(lines, g);
    if plain == [] {
      assert lines + plain == lines;
      if |p.sections| > 0 {
        assert p.sections == p.sections[..|p.sections| - 1] + [p.sections[|p.sections| - 1]];
        assert p.sections[|p.sections| - 1].body + [] == p.sections[|p.sections| - 1].body;
      }
    } else {
      var k := |plain| - 1;
      ParsePlain(lines, plain[..k], g);
      assert (lines + plain)[..|lines + plain| - 1] == lines + plain[..k];
      assert plain[k] in plain;
      assert plain == plain[..k] + [plain[k]];
      PlainLine(p, plain[..k], plain[k], g);
    }
  }

  lemma PlainLine(p: Parsed, more: seq<string>, line: string, g: Grammar)
    requires g.key(line).None?
    ensures AddLine(WithBody(p, more), line, g) == WithBody(p, more + [line])
  {
    var n := |p.sections|;
    var q := WithBody(p, more);
    if n > 0 {
      assert q.sections[..n - 1] == p.sections[..n - 1];
      assert p.sections[n - 1].body + more + [line] == p.sections[n - 1].body + (more + [line]);
    } else {
      assert p.preamble + more + [line] == p.preamble + (more + [line]);
    }
  }

  lemma ParseSection(lines: seq<string>, s: Section, g: Grammar)
    requires GoodSection(s, g)
    ensures var p := Parse(lines, g);
      Parse(lines + [s.heading] + s.body, g) == p.(sections := p.sections + [s])
  {
    var p := Parse(lines, g);
    var begun := p.(sections := p.sections + [Section(s.heading, s.key, [])]);
    assert (lines + [s.heading])[..|lines|] == lines;
    assert Parse(lines + [s.heading], g) == begun;
    ParsePlain(lines + [s.heading], s.body, g);
    assert begun.sections[..|p.sections|] == p.sections;
    assert [] + s.body == s.body;
  }

  /** Rendering is undone by parsing. */
  lemma {:induction false} RenderParses(p: Parsed, g: Grammar)
    requires Good(p, g)
    ensures Parse(Rendered(p), g) == p
    decreases |p.sections|
  {
    hide Parse, GoodSection;
    var n := |p.sections|;
    if n == 0 {
      ParsePlain([], p.preamble, g);
      ParseNothing(g);
      assert Rendered(p) == [] + p.preamble;
    } else {
      var before := Parsed(p.preamble, p.sections[..n - 1]);
      var last := p.sections[n - 1];
      RenderParses(before, g);
      ParseSection(Rendered(before), last, g);
      assert Rendered(p) == Rendered(before) + [last.heading] + last.body;
      assert p.sections == before.sections + [last];
    }
  }

  lemma ParseNothing(g: Grammar)
    ensures Parse([], g) == Parsed([], [])
  {
  }
}
