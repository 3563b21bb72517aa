/** The baseline block of a rendered diagnosis and its parser (`render_artifact_markdown` and
    `parse_baseline_metadata` in `diagnose_types.py`), character by character. */
module BaselineMetadata {
  import opened Common
  import opened TextLines

  // ----- Characters -----

  predicate Space(c: char) { c == ' ' || c == '\t' || c == '\n' || c == '\r' }

  predicate Hex(c: char) { '0' <= c <= '9' || 'a' <= c <= 'f' || 'A' <= c <= 'F' }

  function Lower(c: char): char {
    if 'A' <= c <= 'Z' then (c as int + 32) as char else c
  }

  const DASH := "\U{2014}"
  const BASELINE := "**Baseline:**"
  const CAPTURED := "captured at"
  const HEADER := "**Inspected files:**"

  // ----- The regular expressions, as scanners that return what is left -----

  predicate StartsWith(s: string, lit: string) { lit <= s }

  predicate StartsWithIgnoringCase(s: string, lit: string) {
    |lit| <= |s| && forall i | 0 <= i < |lit| :: Lower(s[i]) == Lower(lit[i])
  }

  /** `\\s*`. */
  function SkipSpaces(s: string): string {
    if s != "" && Space(s[0]) then SkipSpaces(s[1..]) else s
  }

  /** Length of the longest run without a backtick. */
  function RunLength(s: string): (n: nat)
    ensures n <= |s| && (n < |s| ==> s[n] == '`') && forall i | 0 <= i < n :: s[i] != '`'
  {
    if s == "" || s[0] == '`' then 0 else 1 + RunLength(s[1..])
  }

  /** A backtick, one or more other characters, a backtick: the characters and the rest. */
  function Quoted(s: string): Option<(string, string)> {
    if s == "" || s[0] != '`' then None
    else
      var n := RunLength(s[1..]);
      if n == 0 || n + 1 >= |s| then None else Some((s[1..n + 1], s[n + 2..]))
  }

  /** `_BASELINE_LINE_RE` at the start of `s`: the two quoted fields. */
  function MatchBaseline(s: string): Option<(string, string)> {
    if !StartsWithIgnoringCase(s, BASELINE) then None
    else
      var sha := Quoted(SkipSpaces(s[|BASELINE|..]));
      if sha.None? then None
      else
        var ts := MatchCaptured(SkipSpaces(sha.value.1));
        if ts.None? then None else Some((sha.value.0, ts.value))
  }

  function MatchCaptured(s: string): Option<string> {
    if !StartsWithIgnoringCase(s, CAPTURED) then None
    else
      var ts := Quoted(SkipSpaces(s[|CAPTURED|..]));
      if ts.None? then None else Some(ts.value.0)
  }

  /** `re.search`: the first position that matches. */
  function SearchBaseline(s: string): Option<(string, string)> {
    if MatchBaseline(s).Some? then MatchBaseline(s)
    else if s == "" then None
    else SearchBaseline(s[1..])
  }

  /** The text after the first inspected-files header. */
  function AfterHeader(s: string): Option<string> {
    if StartsWithIgnoringCase(s, HEADER) then Some(s[|HEADER|..])
    else if s == "" then None
    else AfterHeader(s[1..])
  }

  function HexRun(s: string): (n: nat)
    ensures n <= |s| && (n < |s| ==> !Hex(s[n])) && forall i | 0 <= i < n :: Hex(s[i])
  {
    if s == "" || !Hex(s[0]) then 0 else 1 + HexRun(s[1..])
  }

  /** The digest alternatives and the closing backtick. */
  function Digest(s: string): Option<(string, string)> {
    var n := HexRun(s);
    if n < |s| && s[n] == '`' then Some((s[..n], s[n + 1..]))
    else if StartsWith(s, "unknown`") then Some(("unknown", s[8..]))
    else None
  }

  datatype InspectedFile = InspectedFile(path: string, digest: string)

  /** `_INSPECTED_BULLET_RE` on one line: the path and the digest as written. */
  function MatchBullet(line: string): Option<(string, string)> {
    var s := SkipSpaces(line);
    if !StartsWith(s, "-") then None
    else
      var path := Quoted(SkipSpaces(s[1..]));
      if path.None? then None
      else
        var digest := MatchDigest(SkipSpaces(path.value.1));
        if digest.None? then None else Some((path.value.0, digest.value))
  }

  /** The dash, the quoted digest and the end of the line. */
  function MatchDigest(s: string): Option<string> {
    if !StartsWith(s, DASH) && !StartsWith(s, "--") then None
    else
      var t := SkipSpaces(s[if StartsWith(s, DASH) then 1 else 2..]);
      if !StartsWith(t, "`sha256:") then None
      else
        var digest := Digest(t[8..]);
        if digest.None? || SkipSpaces(digest.value.1) != "" then None else Some(digest.value.0)
  }

  // ----- Lines -----

  function StripRight(s: string): string {
    if s != "" && Space(s[|s| - 1]) then StripRight(s[..|s| - 1]) else s
  }

  function Strip(s: string): string { StripRight(SkipSpaces(s)) }

  // ----- The parser -----

  /** The inspected-files block: bullets up to the first blank or other line after one. */
  function Files(lines: seq<string>, found: seq<InspectedFile>): seq<InspectedFile>
    decreases lines
  {
    if lines == [] then found
    else
      var stripped, bullet := Strip(lines[0]), MatchBullet(lines[0]);
      if stripped == "" then (if found != [] then found else Files(lines[1..], found))
      else if StartsWith(stripped, "##") then found
      else if bullet.Some? then Files(lines[1..], found + [FileOf(bullet.value)])
      else if found != [] then found
      else Files(lines[1..], found)
  }

  function FileOf(bullet: (string, string)): InspectedFile {
    var digest := Strip(bullet.1);
    InspectedFile(Strip(bullet.0), if IsUnknown(digest) then "" else digest)
  }

  predicate IsUnknown(digest: string) { |digest| == 7 && StartsWithIgnoringCase(digest, "unknown") }

  datatype Metadata = Metadata(sha: string, capturedAt: string, files: seq<InspectedFile>)

  function Parsed(text: string): Option<Metadata> {
    var m := SearchBaseline(text);
    if m.None? then None
    else
      var tail := AfterHeader(text);
      Some(Metadata(Strip(m.value.0), Strip(m.value.1), if tail.None? then [] else Files(SplitLines(tail.value), [])))
  }

  /** `parse_baseline_metadata`. */
  method ParseBaselineMetadata(text: string) returns (r: Option<Metadata>)
    ensures r == Parsed(text)
  {
    hide SearchBaseline, AfterHeader, SplitLines, MatchBullet, Strip, FileOf, StartsWith;
    var m := SearchBaseline(text);
    if m.None? {
      return None;
    }
    var files: seq<InspectedFile> := [];
    var tail := AfterHeader(text);
    if tail.Some? {
      var lines := SplitLines(tail.value);
      var i := 0;
      while i < |lines|
        invariant 0 <= i <= |lines|
        invariant Files(lines[i..], files) == Files(lines, [])
      {
        assert lines[i..][0] == lines[i] && lines[i..][1..] == lines[i + 1..];
        var stripped := Strip(lines[i]);
        if stripped == "" {
          if files != [] {
            break;
          }
        } else if StartsWith(stripped, "##") {
          break;
        } else {
          var bullet := MatchBullet(lines[i]);
          if bullet.Some? {
            files := files + [FileOf(bullet.value)];
          } else if files != [] {
            break;
          }
        }
        i := i + 1;
      }
    }
    r := Some(Metadata(Strip(m.value.0), Strip(m.value.1), files));
  }

  // ----- The renderer -----

  function BaselineLine(sha: string, capturedAt: string): string {
    "**Baseline:** `" + sha + "` captured at `" + capturedAt + "`"
  }

  function Bullet(f: InspectedFile): string {
    "- `" + f.path + "` " + DASH + " `sha256:" + (if f.digest == "" then "unknown" else f.digest) + "`"
  }

  function Bullets(files: seq<InspectedFile>): seq<string> {
    seq(|files|, i requires 0 <= i < |files| => Bullet(files[i]))
  }

  /** The lines of a rendered diagnosis: what comes before the baseline, the baseline line, the
      inspected files, and what comes after. An empty `capturedAt` is written `unknown`. */
  function Rendered(head: seq<string>, m: Metadata, rest: seq<string>): seq<string> {
    head + ["", BaselineLine(m.sha, if m.capturedAt == "" then "unknown" else m.capturedAt)]
    + (["", HEADER, ""] + Bullets(m.files)) + rest
  }

  /** The baseline part of `render_artifact_markdown`. */
  method RenderBaseline(head: seq<string>, m: Metadata) returns (lines: seq<string>)
    ensures lines == head + (if m.sha == "" then []
                             else ["", BaselineLine(m.sha, if m.capturedAt == "" then "unknown" else m.capturedAt)])
                     + (if m.files == [] then [] else ["", HEADER, ""] + Bullets(m.files))
    ensures m.sha != "" && m.files != [] ==> lines == Rendered(head, m, [])
  {
    lines := head;
    if m.sha != "" {
      var ts := if m.capturedAt == "" then "unknown" else m.capturedAt;
      lines := lines + [""];
      lines := lines + [BaselineLine(m.sha, ts)];
    }
    if m.files != [] {
      ghost var before := lines;
      lines := lines + ["", HEADER, ""];
      for i := 0 to |m.files|
        invariant lines == before + (["", HEADER, ""] + Bullets(m.files[..i]))
      {
        assert Bullets(m.files[..i + 1]) == Bullets(m.files[..i]) + [Bullet(m.files[i])];
        lines := lines + [Bullet(m.files[i])];
      }
      assert m.files[..|m.files|] == m.files;
    }
  }

  // ----- What can be written and read back -----

  predicate Free(s: string, c: char) { forall i | 0 <= i < |s| :: s[i] != c }

  /** Non-empty, trimmed, on one line and without backticks. */
  predicate Field(s: string) {
    s != "" && !Space(s[0]) && !Space(s[|s| - 1]) && Free(s, '`') && Free(s, '\n')
  }

  predicate HexDigest(s: string) { forall i | 0 <= i < |s| :: Hex(s[i]) }

  /** The metadata of a diagnosis: field-shaped values, hex or empty digests, at least one file. */
  predicate Writable(m: Metadata) {
    && Field(m.sha) && Field(m.capturedAt)
    && m.files != [] && forall f | f in m.files :: Field(f.path) && HexDigest(f.digest)
  }

  lemma FieldIsTrimmed(s: string)
    requires Field(s)
    ensures Strip(s) == s
  {
  }

  lemma {:induction false} RunStops(x: string, rest: string)
    requires Free(x, '`')
    ensures RunLength(x + "`" + rest) == |x|
  {
    var s := x + "`" + rest;
    assert s[|x|] == '`';
    assert forall i | 0 <= i < |x| :: s[i] == x[i];
  }

  lemma QuotedReads(x: string, rest: string)
    requires x != "" && Free(x, '`')
    ensures Quoted("`" + x + "`" + rest) == Some((x, rest))
  {
    var s := "`" + x + "`" + rest;
    assert s[1..] == x + "`" + rest;
    RunStops(x, rest);
    assert s[1..|x| + 1] == x && s[|x| + 2..] == rest;
  }

  lemma SpaceThen(c: char, rest: string)
    requires !Space(c)
    ensures SkipSpaces([' ', c] + rest) == [c] + rest && SkipSpaces([c] + rest) == [c] + rest
  {
    assert ([' ', c] + rest)[1..] == [c] + rest;
  }

  lemma CapturedReads(ts: string, rest: string)
    requires ts != "" && Free(ts, '`')
    ensures MatchCaptured("captured at `" + ts + "`" + rest) == Some(ts)
  {
    hide Quoted, SkipSpaces, Free;
    var t := "captured at `" + ts + "`" + rest;
    assert StartsWithIgnoringCase(t, CAPTURED);
    assert t[|CAPTURED|..] == [' ', '`'] + (ts + "`" + rest);
    SpaceThen('`', ts + "`" + rest);
    assert ['`'] + (ts + "`" + rest) == "`" + ts + "`" + rest;
    QuotedReads(ts, rest);
  }

  lemma BaselineShape(sha: string, ts: string, rest: string, t: string)
    requires t == "captured at `" + ts + "`" + rest
    ensures BaselineLine(sha, ts) + rest == BASELINE + ([' ', '`'] + (sha + "`" + (" " + t)))
    ensures t == ['c'] + t[1..]
  {
  }

  lemma BaselineReads(sha: string, ts: string, rest: string)
    requires sha != "" && Free(sha, '`') && ts != "" && Free(ts, '`')
    ensures MatchBaseline(BaselineLine(sha, ts) + rest) == Some((sha, ts))
  {
    hide Quoted, SkipSpaces, Free, MatchCaptured, BaselineLine;
    var s, t := BaselineLine(sha, ts) + rest, "captured at `" + ts + "`" + rest;
    BaselineShape(sha, ts, rest, t);
    var u := [' ', '`'] + (sha + "`" + (" " + t));
    assert StartsWithIgnoringCase(s, BASELINE) && s[|BASELINE|..] == u;
    SpaceThen('`', sha + "`" + (" " + t));
    assert ['`'] + (sha + "`" + (" " + t)) == "`" + sha + "`" + (" " + t);
    QuotedReads(sha, " " + t);
    assert " " + t == [' ', 'c'] + t[1..];
    SpaceThen('c', t[1..]);
    CapturedReads(ts, rest);
  }

  lemma {:induction false} SearchSkips(prefix: string, s: string)
    requires Free(prefix, '*')
    ensures SearchBaseline(prefix + s) == SearchBaseline(s)
    decreases prefix
  {
    if prefix == "" {
      assert prefix + s == s;
    } else {
      assert (prefix + s)[0] == prefix[0] != '*';
      assert !StartsWithIgnoringCase(prefix + s, BASELINE) by { StarFirst(prefix + s); }
      assert (prefix + s)[1..] == prefix[1..] + s;
      SearchSkips(prefix[1..], s);
    }
  }

  lemma StarFirst(s: string)
    requires s != "" && s[0] != '*'
    ensures !StartsWithIgnoringCase(s, BASELINE) && !StartsWithIgnoringCase(s, HEADER)
  {
    assert BASELINE[0] == '*' && HEADER[0] == '*';
    assert Lower(s[0]) != '*';
  }

  lemma {:induction false} HeaderSkips(prefix: string, s: string)
    requires forall i | 0 <= i < |prefix| :: !StartsWithIgnoringCase((prefix + s)[i..], HEADER)
    ensures AfterHeader(prefix + s) == AfterHeader(s)
    decreases prefix
  {
    if prefix == "" {
      assert prefix + s == s;
    } else {
      assert (prefix + s)[0..] == prefix + s;
      assert (prefix + s)[1..] == prefix[1..] + s;
      forall i | 0 <= i < |prefix[1..]|
        ensures !StartsWithIgnoringCase((prefix[1..] + s)[i..], HEADER)
      {
        assert (prefix[1..] + s)[i..] == (prefix + s)[i + 1..];
      }
      HeaderSkips(prefix[1..], s);
    }
  }

  lemma HeaderSkipsPlain(prefix: string, s: string)
    requires Free(prefix, '*')
    ensures AfterHeader(prefix + s) == AfterHeader(s)
  {
    forall i | 0 <= i < |prefix|
      ensures !StartsWithIgnoringCase((prefix + s)[i..], HEADER)
    {
      assert (prefix + s)[i..][0] == prefix[i];
      StarFirst((prefix + s)[i..]);
    }
    HeaderSkips(prefix, s);
  }

  lemma HeaderSkipsBaseline(s: string)
    ensures AfterHeader("**Baseline:** " + s) == AfterHeader(s)
  {
    var lit := "**Baseline:** ";
    forall i | 0 <= i < |lit|
      ensures !StartsWithIgnoringCase((lit + s)[i..], HEADER)
    {
      var t := (lit + s)[i..];
      assert t[0] == lit[i];
      assert HEADER[1] == '*' && HEADER[2] == 'I' && Lower('I') == 'i';
      if lit[i] == '*' {
        assert i == 0 || i == 1 || i == 11 || i == 12;
        if i == 0 {
          assert t[2] == 'B';
        } else if i == 1 {
          assert t[1] == 'B';
        } else if i == 11 {
          assert t[2] == ' ';
        } else {
          assert t[1] == ' ';
        }
      } else {
        StarFirst(t);
      }
    }
    HeaderSkips(lit, s);
  }

  lemma HeaderFound(s: string)
    ensures AfterHeader(HEADER + s) == Some(s)
  {
    assert StartsWithIgnoringCase(HEADER + s, HEADER);
    assert (HEADER + s)[|HEADER|..] == s;
  }

  // ----- Bullets -----

  lemma {:induction false} HexStops(d: string, rest: string)
    requires HexDigest(d)
    ensures HexRun(d + "`" + rest) == |d|
  {
    var s := d + "`" + rest;
    assert s[|d|] == '`';
    assert forall i | 0 <= i < |d| :: s[i] == d[i];
  }

  lemma DigestReads(d: string)
    requires HexDigest(d)
    ensures Digest((if d == "" then "unknown" else d) + "`") ==
            Some((if d == "" then "unknown" else d, ""))
  {
    if d == "" {
      assert "unknown" + "`" == "unknown`" && "unknown`"[8..] == "";
      assert HexRun("unknown`") == 0;
    } else {
      HexStops(d, "");
      assert d + "`" + "" == d + "`";
      assert (d + "`")[..|d|] == d && (d + "`")[|d| + 1..] == "";
    }
  }

  lemma DashReads(d: string)
    requires HexDigest(d)
    ensures MatchDigest(DASH + " `sha256:" + (if d == "" then "unknown" else d) + "`") ==
            Some(if d == "" then "unknown" else d)
  {
    hide Digest, SkipSpaces, HexDigest;
    var written := (if d == "" then "unknown" else d) + "`";
    var s := DASH + " `sha256:" + (if d == "" then "unknown" else d) + "`";
    assert s == DASH + (" `sha256:" + written);
    assert StartsWith(s, DASH);
    assert s[1..] == [' ', '`'] + ("sha256:" + written);
    SpaceThen('`', "sha256:" + written);
    var t := ['`'] + ("sha256:" + written);
    assert t == "`sha256:" + written;
    assert StartsWith(t, "`sha256:") && t[8..] == written;
    DigestReads(d);
    NoSpaces();
  }

  lemma NoSpaces()
    ensures SkipSpaces("") == ""
  {
  }

  /** A bullet, cut after its dash and after its quoted path. */
  lemma BulletShape(f: InspectedFile, u: string)
    requires u == DASH + " `sha256:" + (if f.digest == "" then "unknown" else f.digest) + "`"
    ensures Bullet(f) == ['-'] + ([' ', '`'] + (f.path + "`" + (" " + u)))
    ensures u == [DASH[0]] + u[1..]
  {
  }

  lemma BulletStrips(f: InspectedFile)
    ensures Strip(Bullet(f)) == Bullet(f) && Bullet(f) != "" && Bullet(f)[0] == '-'
  {
    hide StripRight, SkipSpaces;
    var s := Bullet(f);
    assert s[0] == '-' && s[|s| - 1] == '`';
    StripKeeps(s);
  }

  lemma BulletReads(f: InspectedFile)
    requires Field(f.path) && HexDigest(f.digest)
    ensures MatchBullet(Bullet(f)) == Some((f.path, if f.digest == "" then "unknown" else f.digest))
  {
    hide Digest, SkipSpaces, HexDigest, Quoted, MatchDigest, Bullet;
    var s, u := Bullet(f), DASH + " `sha256:" + (if f.digest == "" then "unknown" else f.digest) + "`";
    BulletShape(f, u);
    var v := [' ', '`'] + (f.path + "`" + (" " + u));
    SpaceThen('-', v);
    assert StartsWith(s, "-") && s[1..] == v;
    SpaceThen('`', f.path + "`" + (" " + u));
    assert ['`'] + (f.path + "`" + (" " + u)) == "`" + f.path + "`" + (" " + u);
    QuotedReads(f.path, " " + u);
    assert " " + u == [' ', DASH[0]] + u[1..];
    SpaceThen(DASH[0], u[1..]);
    DashReads(f.digest);
  }

  lemma FileReads(f: InspectedFile)
    requires Field(f.path) && HexDigest(f.digest)
    ensures FileOf((f.path, if f.digest == "" then "unknown" else f.digest)) == f
  {
    hide StripRight, SkipSpaces;
    FieldIsTrimmed(f.path);
    var d := if f.digest == "" then "unknown" else f.digest;
    assert !Space(d[0]) && !Space(d[|d| - 1]);
    StripKeeps(d);
    if f.digest != "" && |f.digest| == 7 {
      assert Hex(d[0]) && Lower(d[0]) != 'u';
    }
  }

  lemma StripKeeps(s: string)
    requires s != "" && !Space(s[0]) && !Space(s[|s| - 1])
    ensures Strip(s) == s
  {
  }

  lemma {:induction false} FilesRead(files: seq<InspectedFile>, rest: seq<string>, found: seq<InspectedFile>)
    requires forall f | f in files :: Field(f.path) && HexDigest(f.digest)
    requires found + files != [] && (rest == [] || rest[0] == "")
    ensures Files(Bullets(files) + rest, found) == found + files
    decreases files
  {
    hide MatchBullet, Strip, FileOf, Bullet, Field, HexDigest;
    var lines := Bullets(files) + rest;
    if files == [] {
      assert lines == rest;
      EmptyLine();
    } else {
      var f := files[0];
      assert f in files && lines[0] == Bullet(f);
      assert lines[1..] == Bullets(files[1..]) + rest;
      BulletReads(f);
      BulletStrips(f);
      FileReads(f);
      FilesRead(files[1..], rest, found + [f]);
      assert found + [f] + files[1..] == found + files;
      assert !StartsWith(lines[0], "##");
    }
  }

  lemma EmptyLine()
    ensures Strip("") == ""
  {
  }

  // ----- Lines and text -----

  lemma JoinCons(line: string, lines: seq<string>)
    requires lines != []
    ensures Joined([line] + lines) == line + "\n" + Joined(lines)
  {
    assert ([line] + lines)[1..] == lines;
  }

  lemma {:induction false} JoinConcat(a: seq<string>, b: seq<string>)
    requires a != [] && b != []
    ensures Joined(a + b) == Joined(a) + "\n" + Joined(b)
    decreases a
  {
    if |a| == 1 {
      JoinCons(a[0], b);
      assert a == [a[0]];
    } else {
      assert a == [a[0]] + a[1..] && a + b == [a[0]] + (a[1..] + b);
      JoinConcat(a[1..], b);
      JoinCons(a[0], a[1..]);
      JoinCons(a[0], a[1..] + b);
      assert a[0] + "\n" + (Joined(a[1..]) + "\n" + Joined(b)) == (a[0] + "\n" + Joined(a[1..])) + "\n" + Joined(b);
    }
  }

  ghost predicate OneLineEach(lines: seq<string>) { forall l | l in lines :: OneLine(l) }

  lemma {:induction false} LastBlankIsIdle(lines: seq<string>, found: seq<InspectedFile>)
    ensures Files(lines + [""], found) == Files(lines, found)
    decreases lines
  {
    hide MatchBullet, Strip, FileOf;
    EmptyLine();
    if lines == [] {
      assert lines + [""] == [""] && [""][1..] == [];
    } else {
      var longer := lines + [""];
      assert longer[0] == lines[0] && longer[1..] == lines[1..] + [""];
      LastBlankIsIdle(lines[1..], found);
      var bullet := MatchBullet(lines[0]);
      if bullet.Some? {
        LastBlankIsIdle(lines[1..], found + [FileOf(bullet.value)]);
      }
    }
  }

  lemma FilesOfJoined(lines: seq<string>, found: seq<InspectedFile>)
    requires OneLineEach(lines)
    ensures Files(SplitLines(Joined(lines)), found) == Files(lines, found)
  {
    hide Files, SplitLines;
    if lines == [] {
      SplitNothing();
    } else {
      SplitJoined(lines);
    }
    if lines != [] && lines[|lines| - 1] == "" {
      var shorter := lines[..|lines| - 1];
      assert lines == shorter + [""];
      LastBlankIsIdle(shorter, found);
    }
  }

  lemma BulletIsOneLine(f: InspectedFile)
    requires Field(f.path) && HexDigest(f.digest)
    ensures OneLine(Bullet(f))
  {
    var d := if f.digest == "" then "unknown" else f.digest;
    assert Free(d, '\n');
    assert Free("- `", '\n') && Free("` ", '\n') && Free(DASH, '\n') && Free(" `sha256:", '\n') && Free("`", '\n');
  }

  /** The rendered text, cut where the parser's searches stop. */
  lemma RenderedText(head: seq<string>, m: Metadata, rest: seq<string>)
    requires m.capturedAt != ""
    ensures Joined(Rendered(head, m, rest)) ==
            (Joined(head + [""]) + "\n") + (BaselineLine(m.sha, m.capturedAt) +
            ("\n" + "\n" + (HEADER + Joined(["", ""] + Bullets(m.files) + rest))))
  {
    hide Joined, BaselineLine, Bullets;
    var tail := [""] + Bullets(m.files) + rest;
    var line := BaselineLine(m.sha, m.capturedAt);
    assert Rendered(head, m, rest) == (head + [""]) + ([line] + ([""] + ([HEADER] + tail)));
    JoinConcat(head + [""], [line] + ([""] + ([HEADER] + tail)));
    JoinCons(line, [""] + ([HEADER] + tail));
    JoinCons("", [HEADER] + tail);
    JoinCons(HEADER, tail);
    JoinCons("", tail);
    assert ["", ""] + Bullets(m.files) + rest == [""] + tail;
    assert HEADER + "\n" + Joined(tail) == HEADER + ("" + "\n" + Joined(tail));
  }

  lemma {:induction false} JoinFree(lines: seq<string>, c: char)
    requires c != '\n' && forall l | l in lines :: Free(l, c)
    ensures Free(Joined(lines), c)
    decreases lines
  {
    if |lines| > 1 {
      JoinFree(lines[1..], c);
      assert lines[0] in lines;
    } else if |lines| == 1 {
      assert lines[0] in lines;
    }
  }

  lemma HeadIsPlain(head: seq<string>)
    requires forall l | l in head :: Free(l, '*')
    ensures Free(Joined(head + [""]), '*') && Free(Joined(head + [""]) + "\n", '*')
  {
    hide Joined;
    JoinFree(head + [""], '*');
  }

  lemma BaselineFound(front: string, m: Metadata, rest: string)
    requires Free(front, '*') && Field(m.sha) && Field(m.capturedAt)
    ensures SearchBaseline(front + (BaselineLine(m.sha, m.capturedAt) + rest)) == Some((m.sha, m.capturedAt))
  {
    hide BaselineLine, MatchBaseline;
    SearchSkips(front, BaselineLine(m.sha, m.capturedAt) + rest);
    BaselineReads(m.sha, m.capturedAt, rest);
  }

  // ----- A header inside the fields -----

  lemma HeaderNeedsNoBreak(a: string, b: string)
    ensures StartsWithIgnoringCase(a + "\n" + b, HEADER) <==> StartsWithIgnoringCase(a, HEADER)
  {
    var s := a + "\n" + b;
    assert forall i | 0 <= i < |a| :: s[i] == a[i];
    assert s[|a|] == '\n';
    assert forall i | 0 <= i < |HEADER| :: HEADER[i] != '\n' && Lower(HEADER[i]) != '\n';
  }

  /** The search never matches across a line break. */
  lemma {:induction false} HeaderByLine(a: string, b: string)
    ensures AfterHeader(a + "\n" + b) ==
            if AfterHeader(a).Some? then Some(AfterHeader(a).value + "\n" + b) else AfterHeader(b)
    decreases a
  {
    var s := a + "\n" + b;
    HeaderNeedsNoBreak(a, b);
    if StartsWithIgnoringCase(a, HEADER) {
      assert s[|HEADER|..] == a[|HEADER|..] + "\n" + b;
    } else if a == "" {
      assert s[1..] == b;
    } else {
      assert s[1..] == a[1..] + "\n" + b;
      HeaderByLine(a[1..], b);
    }
  }

  lemma {:induction false} PlainHasNoHeader(s: string)
    requires Free(s, '*')
    ensures AfterHeader(s).None?
    decreases s
  {
    if s == "" {
      assert |HEADER| > 0;
    } else {
      StarFirst(s);
      PlainHasNoHeader(s[1..]);
    }
  }

  function Ticks(s: string): nat {
    if s == "" then 0 else Ticks(s[1..]) + if s[0] == '`' then 1 else 0
  }

  lemma {:induction false} TicksConcat(a: string, b: string)
    ensures Ticks(a + b) == Ticks(a) + Ticks(b)
    decreases a
  {
    if a == "" {
      assert a + b == b;
    } else {
      assert (a + b)[1..] == a[1..] + b;
      TicksConcat(a[1..], b);
    }
  }

  lemma TicksFrom(s: string, n: nat)
    requires n <= |s|
    ensures Ticks(s[n..]) + Ticks(s[..n]) == Ticks(s)
  {
    TicksConcat(s[..n], s[n..]);
    assert s == s[..n] + s[n..];
  }

  lemma {:induction false} TicksAt(s: string, n: nat)
    requires n < |s| && s[n] == '`'
    ensures Ticks(s) >= 1 + Ticks(s[n + 1..])
  {
    TicksFrom(s, n);
    assert s[n..][1..] == s[n + 1..];
  }

  lemma {:induction false} TicksPastSpaces(s: string)
    ensures Ticks(SkipSpaces(s)) <= Ticks(s)
    decreases s
  {
    if s != "" && Space(s[0]) {
      TicksPastSpaces(s[1..]);
    }
  }

  lemma QuotedTicks(s: string)
    ensures Quoted(s).Some? ==> Ticks(s) >= 2 + Ticks(Quoted(s).value.1)
  {
    if Quoted(s).Some? {
      var n := RunLength(s[1..]);
      TicksAt(s, 0);
      TicksAt(s[1..], n);
      assert s[1..][n + 1..] == s[n + 2..];
    }
  }

  lemma DigestTicks(s: string)
    ensures Digest(s).Some? ==> Ticks(s) >= 1
  {
    if Digest(s).Some? {
      var n := HexRun(s);
      if n < |s| && s[n] == '`' {
        TicksAt(s, n);
      } else {
        assert s[7] == "unknown`"[7];
        TicksAt(s, 7);
      }
    }
  }

  lemma MatchDigestTicks(s: string)
    ensures MatchDigest(s).Some? ==> Ticks(s) >= 2
  {
    if MatchDigest(s).Some? {
      var k := if StartsWith(s, DASH) then 1 else 2;
      var t := SkipSpaces(s[k..]);
      assert t[0] == "`sha256:"[0];
      TicksAt(t, 0);
      TicksFrom(t[1..], 7);
      assert t[1..][7..] == t[8..];
      DigestTicks(t[8..]);
      TicksPastSpaces(s[k..]);
      TicksFrom(s, k);
    }
  }

  /** A bullet line quotes twice, so it has four backticks. */
  lemma BulletTicks(line: string)
    ensures MatchBullet(line).Some? ==> Ticks(line) >= 4
  {
    hide Ticks, SkipSpaces, Quoted, MatchDigest;
    if MatchBullet(line).Some? {
      var s := SkipSpaces(line);
      var q := SkipSpaces(s[1..]);
      var r := Quoted(q).value.1;
      MatchDigestTicks(SkipSpaces(r));
      TicksPastSpaces(r);
      QuotedTicks(q);
      TicksPastSpaces(s[1..]);
      TicksFrom(s, 1);
      TicksPastSpaces(line);
    }
  }

  predicate EndsWithTick(s: string) { s != "" && s[|s| - 1] == '`' }

  /** What follows a header is a later part of the text. */
  lemma {:induction false} AfterHeaderIsSuffix(s: string)
    ensures AfterHeader(s).Some? ==>
      && Ticks(AfterHeader(s).value) <= Ticks(s) && (OneLine(s) ==> OneLine(AfterHeader(s).value))
      && (s != "" && s[|s| - 1] == '`' ==> EndsWithTick(AfterHeader(s).value))
    decreases s
  {
    if StartsWithIgnoringCase(s, HEADER) {
      TicksFrom(s, |HEADER|);
      assert HEADER[|HEADER| - 1] == '*' && Lower('`') != '*';
    } else if s != "" {
      AfterHeaderIsSuffix(s[1..]);
    }
  }

  lemma {:induction false} NoTicks(s: string)
    requires Free(s, '`')
    ensures Ticks(s) == 0
    decreases s
  {
    if s != "" {
      NoTicks(s[1..]);
    }
  }

  /** Whatever follows a header inside the baseline line, it is no blank and no bullet. */
  lemma InsideFields(sha: string, ts: string)
    requires Field(sha) && Field(ts)
    ensures var t := AfterHeader(BaselineLine(sha, ts));
            t.Some? ==> OneLine(t.value) && Strip(t.value) != "" && MatchBullet(t.value).None?
  {
    hide AfterHeader, MatchBullet, Ticks;
    var mid := "` captured at `";
    var inner := sha + (mid + (ts + "`"));
    assert BaselineLine(sha, ts) == "**Baseline:** " + ("`" + inner);
    HeaderSkipsBaseline("`" + inner);
    assert Free("`", '*');
    HeaderSkipsPlain("`", inner);
    FieldTicks(sha, ts);
    assert OneLine(inner) by { assert Free(mid, '\n') && Free("`", '\n'); }
    AfterHeaderIsSuffix(inner);
    if AfterHeader(inner).Some? {
      BulletTicks(AfterHeader(inner).value);
      EndsSolid(AfterHeader(inner).value);
    }
  }

  lemma FieldTicks(sha: string, ts: string)
    requires Free(sha, '`') && Free(ts, '`')
    ensures Ticks(sha + ("` captured at `" + (ts + "`"))) == 3
  {
    var mid := " captured at ";
    hide Ticks;
    TicksConcat(sha, "` captured at `" + (ts + "`"));
    TicksConcat("` captured at `", ts + "`");
    TicksConcat(ts, "`");
    assert "` captured at `" == "`" + (mid + "`");
    TicksConcat("`", mid + "`");
    TicksConcat(mid, "`");
    NoTicks(sha);
    NoTicks(ts);
    NoTicks(mid);
    OneTick();
  }

  lemma OneTick()
    ensures Ticks("`") == 1
  {
    assert "`"[1..] == "";
  }

  lemma {:induction false} EndsSolid(s: string)
    requires s != "" && s[|s| - 1] == '`'
    ensures Strip(s) != ""
    decreases s
  {
    if Space(s[0]) {
      EndsSolid(s[1..]);
      assert Strip(s) == Strip(s[1..]);
    }
  }

  // ----- The round trip -----

  /** The commit or the timestamp carries the inspected-files header with `##` right after it. */
  predicate Hijacked(m: Metadata) {
    var t := AfterHeader(BaselineLine(m.sha, m.capturedAt));
    t.Some? && StartsWith(Strip(t.value), "##")
  }

  /** Where the parser starts to look for bullets. */
  lemma HeaderReached(front: string, m: Metadata, rest: string)
    requires Free(front, '*')
    ensures var line := BaselineLine(m.sha, m.capturedAt);
            var t := AfterHeader(line);
            AfterHeader((front + "\n") + (line + ("\n" + "\n" + (HEADER + rest)))) ==
            if t.Some? then Some(t.value + "\n" + ("\n" + (HEADER + rest))) else Some(rest)
  {
    hide AfterHeader, BaselineLine;
    var line := BaselineLine(m.sha, m.capturedAt);
    var after := "\n" + (HEADER + rest);
    PlainHasNoHeader(front);
    HeaderByLine(front, line + "\n" + after);
    assert (front + "\n") + (line + ("\n" + "\n" + (HEADER + rest))) == front + "\n" + (line + "\n" + after);
    HeaderByLine(line, after);
    HeaderByLine("", HEADER + rest);
    assert Free("", '*');
    PlainHasNoHeader("");
    assert "" + "\n" + (HEADER + rest) == after;
    HeaderFound(rest);
  }

  lemma TailLines(m: Metadata, rest: seq<string>)
    requires Writable(m) && OneLineEach(rest)
    ensures OneLineEach(["", ""] + Bullets(m.files) + rest) && OneLine(HEADER)
  {
    hide Bullet, Field, HexDigest, OneLine;
    var lines := ["", ""] + Bullets(m.files) + rest;
    NoBreakInNothing();
    forall l | l in lines
      ensures OneLine(l)
    {
      if l in Bullets(m.files) {
        var i :| 0 <= i < |m.files| && Bullets(m.files)[i] == l;
        assert m.files[i] in m.files;
        BulletIsOneLine(m.files[i]);
      }
    }
    HeaderIsPlainLine();
  }

  lemma HeaderIsPlainLine()
    ensures OneLine(HEADER) && Strip(HEADER) == HEADER && !StartsWith(HEADER, "##") && MatchBullet(HEADER).None?
  {
    assert HEADER[0] == '*' && HEADER[|HEADER| - 1] == '*';
    StripKeeps(HEADER);
    assert SkipSpaces(HEADER) == HEADER;
  }

  /** Before the first bullet, a blank line or one that is neither heading nor bullet is skipped. */
  lemma SkipIdle(line: string, lines: seq<string>)
    ensures Strip(line) == "" || (!StartsWith(Strip(line), "##") && MatchBullet(line).None?) ==>
            Files([line] + lines, []) == Files(lines, [])
    ensures Strip(line) != "" && StartsWith(Strip(line), "##") ==> Files([line] + lines, []) == []
  {
    hide MatchBullet, Strip, StartsWith, FileOf;
    assert ([line] + lines)[1..] == lines;
  }

  /** From the header on, the block gives the whole list. */
  lemma FilesOfTail(m: Metadata, rest: seq<string>)
    requires Writable(m) && OneLineEach(rest) && (rest == [] || rest[0] == "")
    ensures Files(["", ""] + Bullets(m.files) + rest, []) == m.files
    ensures Files(SplitLines(Joined(["", ""] + Bullets(m.files) + rest)), []) == m.files
  {
    hide Files, SplitLines, Joined, MatchBullet, Strip, Bullets, Field, HexDigest, OneLine, StartsWith;
    var body := Bullets(m.files) + rest;
    TailLines(m, rest);
    FilesOfJoined(["", ""] + Bullets(m.files) + rest, []);
    EmptyLine();
    SkipIdle("", body);
    SkipIdle("", [""] + body);
    assert ["", ""] + Bullets(m.files) + rest == [""] + ([""] + body);
    FilesRead(m.files, rest, []);
  }

  /** From a header inside the fields on, it still does, unless a heading follows at once. */
  lemma FilesOfLongTail(m: Metadata, t: string, rest: seq<string>)
    requires Writable(m) && OneLineEach(rest) && (rest == [] || rest[0] == "")
    requires OneLine(t) && Strip(t) != "" && MatchBullet(t).None?
    ensures var tail := t + "\n" + ("\n" + (HEADER + Joined(["", ""] + Bullets(m.files) + rest)));
            Files(SplitLines(tail), []) == if StartsWith(Strip(t), "##") then [] else m.files
  {
    hide Files, SplitLines, Joined, MatchBullet, Strip, Bullets, OneLine, Writable, StartsWith;
    var block := ["", ""] + Bullets(m.files) + rest;
    var after := [HEADER] + block[1..];
    var lines := [t] + ([""] + after);
    TailLines(m, rest);
    NoBreakInNothing();
    HeaderIsPlainLine();
    EmptyLine();
    assert block == [""] + block[1..];
    JoinCons("", block[1..]);
    JoinCons(HEADER, block[1..]);
    JoinCons("", after);
    JoinCons(t, [""] + after);
    assert HEADER + Joined(block) == Joined(after) by {
      assert HEADER + ("" + "\n" + Joined(block[1..])) == HEADER + "\n" + Joined(block[1..]);
    }
    assert "" + "\n" + Joined(after) == "\n" + Joined(after);
    assert OneLineEach(lines) by { assert forall l | l in block[1..] :: l in block; }
    FilesOfJoined(lines, []);
    FilesOfTail(m, rest);
    SkipIdle("", block[1..]);
    SkipIdle(HEADER, block[1..]);
    SkipIdle("", after);
    SkipIdle(t, [""] + after);
  }

  /** Round trip: a rendered diagnosis parses back to the commit, the timestamp and the whole
      inspected-file list, an unhashed file included, exactly when no field is hijacked. */
  lemma RoundTripIff(head: seq<string>, m: Metadata, rest: seq<string>)
    requires Writable(m) && (forall l | l in head :: Free(l, '*'))
    requires OneLineEach(rest) && (rest == [] || rest[0] == "")
    ensures Parsed(Joined(Rendered(head, m, rest))) == Some(m) <==> !Hijacked(m)
  {
    hide Joined, SearchBaseline, AfterHeader, Files, SplitLines, Strip, Free, HexDigest, StartsWith, BaselineLine;
    RenderedText(head, m, rest);
    var front, lines := Joined(head + [""]), ["", ""] + Bullets(m.files) + rest;
    HeadIsPlain(head);
    BaselineFound(front + "\n", m, "\n" + "\n" + (HEADER + Joined(lines)));
    HeaderReached(front, m, Joined(lines));
    FieldIsTrimmed(m.sha);
    FieldIsTrimmed(m.capturedAt);
    FilesOfTail(m, rest);
    InsideFields(m.sha, m.capturedAt);
    var t := AfterHeader(BaselineLine(m.sha, m.capturedAt));
    if t.Some? {
      FilesOfLongTail(m, t.value, rest);
    }
  }

  /** A commit id and a timestamp have no asterisk, so theirs always comes back. */
  lemma RoundTrip(head: seq<string>, m: Metadata, rest: seq<string>)
    requires Writable(m) && Free(m.sha, '*') && Free(m.capturedAt, '*') && (forall l | l in head :: Free(l, '*'))
    requires OneLineEach(rest) && (rest == [] || rest[0] == "")
    ensures Parsed(Joined(Rendered(head, m, rest))) == Some(m)
  {
    hide Joined, Parsed, Rendered, AfterHeader;
    RoundTripIff(head, m, rest);
    var fields := "`" + m.sha + "` captured at `" + m.capturedAt + "`";
    assert BaselineLine(m.sha, m.capturedAt) == "**Baseline:** " + fields;
    HeaderSkipsBaseline(fields);
    assert Free("`", '*') && Free("` captured at `", '*');
    PlainHasNoHeader(fields);
  }

  /** A timestamp that hides the list: the parser takes its header for the block's. */
  lemma HijackedTimestamp(sha: string)
    requires Field(sha) && Free(sha, '*')
    ensures Hijacked(Metadata(sha, HEADER + "##", [InspectedFile("a", "")]))
    ensures Writable(Metadata(sha, HEADER + "##", [InspectedFile("a", "")]))
  {
    hide AfterHeader, Strip;
    var ts := HEADER + "##";
    var before := "`" + sha + "` captured at `";
    assert BaselineLine(sha, ts) == "**Baseline:** " + (before + (HEADER + "##`"));
    HeaderSkipsBaseline(before + (HEADER + "##`"));
    assert Free("`", '*') && Free("` captured at `", '*');
    HeaderSkipsPlain(before, HEADER + "##`");
    HeaderFound("##`");
    StripKeeps("##`");
    assert ts[0] == '*' && ts[|ts| - 1] == '#';
  }

  lemma NoBreakInNothing()
    ensures OneLine("")
  {
  }
}
