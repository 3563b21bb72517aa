/** Text as lines: splitting at line breaks, joining with them, and what joining loses. */
module TextLines {

  predicate OneLine(s: string) { forall i | 0 <= i < |s| :: s[i] != '\n' }

  /** Length of the text before its first line break. */
  function LineEnd(text: string): (n: nat)
    ensures n <= |text| && OneLine(text[..n]) && (n < |text| ==> text[n] == '\n')
  {
    if text == "" || text[0] == '\n' then 0 else 1 + LineEnd(text[1..])
  }

  function SplitLines(text: string): seq<string> {
    if text == "" then []
    else
      var n := LineEnd(text);
      [text[..n]] + if n < |text| then SplitLines(text[n + 1..]) else []
  }

  /** The lines with a break between each two. */
  function Joined(lines: seq<string>): string {
    if lines == [] then "" else if |lines| == 1 then lines[0] else lines[0] + "\n" + Joined(lines[1..])
  }

  lemma LineEndOf(line: string, rest: string)
    requires OneLine(line)
    ensures LineEnd(line + "\n" + rest) == |line| && LineEnd(line) == |line|
  {
    var text := line + "\n" + rest;
    assert text[|line|] == '\n' && forall k | 0 <= k < |line| :: text[k] == line[k];
    assert forall n | |line| < n <= |text| :: text[..n][|line|] == '\n';
  }

  lemma SplitFirst(line: string, rest: string)
    requires OneLine(line)
    ensures SplitLines(line + "\n" + rest) == [line] + SplitLines(rest)
    ensures SplitLines(line) == if line == "" then [] else [line]
  {
    LineEndOf(line, rest);
    var text := line + "\n" + rest;
    assert text[..|line|] == line && text[|line| + 1..] == rest;
    assert line[..|line|] == line;
  }

  lemma {:induction false} LinesAreWhole(text: string)
    ensures forall l | l in SplitLines(text) :: OneLine(l)
    decreases |text|
  {
    if text != "" && LineEnd(text) < |text| {
      LinesAreWhole(text[LineEnd(text) + 1..]);
    }
  }

  /** A trailing blank line does not survive being joined; everything else does. */
  function Surviving(lines: seq<string>): seq<string> {
    if lines != [] && lines[|lines| - 1] == "" then lines[..|lines| - 1] else lines
  }

  lemma {:induction false} SplitTerminated(lines: seq<string>)
    requires lines != [] && forall l | l in lines :: OneLine(l)
    ensures SplitLines(Joined(lines) + "\n") == lines
    decreases lines
  {
    hide SplitLines, LineEnd, OneLine;
    var head, rest := lines[0], lines[1..];
    assert head in lines && forall l | l in rest :: l in lines;
    if rest == [] {
      SplitFirst(head, "");
      SplitNothing();
      assert Joined(lines) + "\n" == head + "\n" + "";
    } else {
      SplitTerminated(rest);
      SplitFirst(head, Joined(rest) + "\n");
      assert Joined(lines) + "\n" == head + "\n" + (Joined(rest) + "\n");
    }
  }

  lemma SplitNothing()
    ensures SplitLines("") == []
  {
  }

  lemma {:induction false} SplitJoined(lines: seq<string>)
    requires lines != [] && forall l | l in lines :: OneLine(l)
    ensures SplitLines(Joined(lines)) == Surviving(lines)
    decreases lines
  {
    hide SplitLines, LineEnd, OneLine;
    var head, rest := lines[0], lines[1..];
    assert head in lines && forall l | l in rest :: l in lines;
    SplitFirst(head, Joined(rest));
    if rest != [] {
      SplitJoined(rest);
      assert Surviving(lines) == [head] + Surviving(rest);
    }
  }
}
