/** What the baseline parser accepts, read off its regular expressions: a text is matched when it
    can be cut into the pieces the expression lists. The scanners find exactly those cuts. */
module BaselineGrammar {
  import opened Common
  import opened TextLines
  import opened BaselineMetadata

  // ----- Pieces -----

  /** The first `n` characters are whitespace. */
  ghost predicate Spaces(s: string, n: nat) { n <= |s| && forall i | 0 <= i < n :: Space(s[i]) }

  /** A quoted piece at the start of `s`. */
  ghost predicate QuoteAt(s: string, x: string, rest: string) {
    x != "" && (forall i | 0 <= i < |x| :: x[i] != '`') && s == "`" + x + "`" + rest
  }

  predicate SameLetter(a: char, b: char) {
    || a == b
    || ('A' <= a <= 'Z' && b as int == a as int + 32)
    || ('A' <= b <= 'Z' && a as int == b as int + 32)
  }

  /** The literal starts `s`, in any mix of cases. */
  ghost predicate LiteralAt(s: string, lit: string) {
    |lit| <= |s| && forall i | 0 <= i < |lit| :: SameLetter(s[i], lit[i])
  }

  lemma LiteralIs(s: string, lit: string)
    ensures StartsWithIgnoringCase(s, lit) <==> LiteralAt(s, lit)
  {
  }

  lemma {:induction false} SkipsSpaces(s: string) returns (n: nat)
    ensures Spaces(s, n) && SkipSpaces(s) == s[n..] && (n < |s| ==> !Space(s[n]))
    decreases s
  {
    if s != "" && Space(s[0]) {
      var m := SkipsSpaces(s[1..]);
      n := m + 1;
      assert s[1..][m..] == s[n..];
      forall i | 0 <= i < n ensures Space(s[i]) { if i > 0 { assert s[i] == s[1..][i - 1]; } }
    } else {
      n := 0;
    }
  }

  /** Skipping whitespace before anything else lands where any cut must fall. */
  lemma CutIsForced(s: string, n: nat)
    requires Spaces(s, n) && n < |s| && !Space(s[n])
    ensures SkipSpaces(s) == s[n..]
  {
    var m := SkipsSpaces(s);
    assert m == n;
  }

  lemma QuoteIs(s: string, x: string, rest: string)
    ensures Quoted(s) == Some((x, rest)) <==> QuoteAt(s, x, rest)
  {
    if QuoteAt(s, x, rest) {
      QuotedReads(x, rest);
    }
    if Quoted(s) == Some((x, rest)) {
      var n := RunLength(s[1..]);
      assert s[n + 1] == '`' && forall i | 0 <= i < n :: s[1..][i] == x[i];
      assert s == ['`'] + s[1..n + 1] + [s[n + 1]] + s[n + 2..];
    }
  }

  /** Whitespace, then a quoted piece. */
  ghost predicate SpacedQuote(s: string, x: string, rest: string) {
    exists n: nat :: Spaces(s, n) && QuoteAt(s[n..], x, rest)
  }

  lemma SpacedQuoteIs(s: string, x: string, rest: string)
    ensures Quoted(SkipSpaces(s)) == Some((x, rest)) <==> SpacedQuote(s, x, rest)
  {
    hide Quoted;
    var m := SkipsSpaces(s);
    QuoteIs(s[m..], x, rest);
    if n: nat :| Spaces(s, n) && QuoteAt(s[n..], x, rest) {
      assert s[n] == s[n..][0] == '`';
      CutIsForced(s, n);
    }
  }

  // ----- The baseline line -----

  /** `captured at`, whitespace, the quoted time. */
  ghost predicate CapturedAt(s: string, ts: string) {
    LiteralAt(s, "captured at") && exists rest :: SpacedQuote(s[11..], ts, rest)
  }

  /** Whitespace, then the captured part. */
  ghost predicate SpacedCaptured(s: string, ts: string) {
    exists n: nat :: Spaces(s, n) && CapturedAt(s[n..], ts)
  }

  /** `**Baseline:**`, whitespace, the quoted commit, whitespace, the captured part. */
  ghost predicate BaselineAt(s: string, sha: string, ts: string) {
    LiteralAt(s, "**Baseline:**") && exists rest :: SpacedQuote(s[13..], sha, rest) && SpacedCaptured(rest, ts)
  }

  lemma CapturedIs(s: string, ts: string)
    ensures MatchCaptured(s) == Some(ts) <==> CapturedAt(s, ts)
  {
    hide Quoted, SkipSpaces, SpacedQuote, LiteralAt, StartsWithIgnoringCase;
    LiteralIs(s, CAPTURED);
    LiteralFits(s, CAPTURED);
    if LiteralAt(s, CAPTURED) {
      var q := Quoted(SkipSpaces(s[11..]));
      if q.Some? { SpacedQuoteIs(s[11..], q.value.0, q.value.1); }
      if rest :| SpacedQuote(s[11..], ts, rest) { SpacedQuoteIs(s[11..], ts, rest); }
    }
  }

  lemma LiteralFits(s: string, lit: string)
    ensures LiteralAt(s, lit) ==> |lit| <= |s|
  {
  }

  lemma SpacedCapturedIs(s: string, ts: string)
    ensures MatchCaptured(SkipSpaces(s)) == Some(ts) <==> SpacedCaptured(s, ts)
  {
    hide MatchCaptured, CapturedAt;
    var m := SkipsSpaces(s);
    CapturedIs(s[m..], ts);
    if n: nat :| Spaces(s, n) && CapturedAt(s[n..], ts) {
      CapturedStarts(s[n..], ts);
      assert s[n] == s[n..][0];
      CutIsForced(s, n);
    }
  }

  lemma CapturedStarts(s: string, ts: string)
    requires CapturedAt(s, ts)
    ensures s != "" && !Space(s[0])
  {
    assert SameLetter(s[0], "captured at"[0]);
  }

  lemma BaselineIs(s: string, sha: string, ts: string)
    ensures MatchBaseline(s) == Some((sha, ts)) <==> BaselineAt(s, sha, ts)
  {
    hide Quoted, SkipSpaces, SpacedQuote, LiteralAt, StartsWithIgnoringCase, SpacedCaptured, MatchCaptured;
    LiteralIs(s, BASELINE);
    LiteralFits(s, BASELINE);
    if LiteralAt(s, BASELINE) {
      var q := Quoted(SkipSpaces(s[13..]));
      if q.Some? {
        SpacedQuoteIs(s[13..], q.value.0, q.value.1);
        SpacedCapturedIs(q.value.1, ts);
      }
      if rest :| SpacedQuote(s[13..], sha, rest) && SpacedCaptured(rest, ts) {
        SpacedQuoteIs(s[13..], sha, rest);
        SpacedCapturedIs(rest, ts);
      }
    }
  }

  /** The first place of a text where a baseline line starts. */
  ghost predicate FirstBaseline(s: string, i: nat, sha: string, ts: string) {
    && i <= |s| && BaselineAt(s[i..], sha, ts)
    && forall j, x, y | 0 <= j < i :: !BaselineAt(s[j..], x, y)
  }

  lemma {:induction false} SearchIs(s: string, sha: string, ts: string)
    ensures SearchBaseline(s) == Some((sha, ts)) <==> exists i: nat :: FirstBaseline(s, i, sha, ts)
    decreases s
  {
    hide BaselineAt, MatchBaseline;
    BaselineIs(s, sha, ts);
    assert s[0..] == s;
    if MatchBaseline(s).Some? {
      var q := MatchBaseline(s).value;
      BaselineIs(s, q.0, q.1);
      if q == (sha, ts) { assert FirstBaseline(s, 0, sha, ts); }
      if i: nat :| FirstBaseline(s, i, sha, ts) { assert i == 0; }
    } else {
      forall x, y ensures !BaselineAt(s[0..], x, y) { BaselineIs(s, x, y); }
      if s != "" {
        SearchIs(s[1..], sha, ts);
        if i: nat :| FirstBaseline(s[1..], i, sha, ts) { FirstMoves(s, i, sha, ts); }
        if i: nat :| FirstBaseline(s, i, sha, ts) { FirstMovesBack(s, i, sha, ts); }
      }
    }
  }

  lemma FirstMoves(s: string, i: nat, sha: string, ts: string)
    requires s != "" && FirstBaseline(s[1..], i, sha, ts) && forall x, y :: !BaselineAt(s[0..], x, y)
    ensures FirstBaseline(s, i + 1, sha, ts)
  {
    hide BaselineAt;
    assert s[1..][i..] == s[i + 1..];
    forall j, x, y | 0 <= j < i + 1 ensures !BaselineAt(s[j..], x, y) {
      if j > 0 { assert s[j..] == s[1..][j - 1..]; }
    }
  }

  lemma FirstMovesBack(s: string, i: nat, sha: string, ts: string)
    requires s != "" && FirstBaseline(s, i, sha, ts) && forall x, y :: !BaselineAt(s[0..], x, y)
    ensures i > 0 && FirstBaseline(s[1..], i - 1, sha, ts)
  {
    hide BaselineAt;
    assert i > 0;
    assert s[1..][i - 1..] == s[i..];
    forall j, x, y | 0 <= j < i - 1 ensures !BaselineAt(s[1..][j..], x, y) {
      assert s[1..][j..] == s[j + 1..];
    }
  }

  /** The first inspected-files header, in any mix of cases. */
  ghost predicate FirstHeader(s: string, i: nat) {
    i + |HEADER| <= |s| && LiteralAt(s[i..], HEADER) && forall j | 0 <= j < i :: !LiteralAt(s[j..], HEADER)
  }

  lemma {:induction false} HeaderIs(s: string, tail: string)
    ensures AfterHeader(s) == Some(tail) <==> exists i: nat :: FirstHeader(s, i) && tail == s[i + |HEADER|..]
    decreases s
  {
    hide LiteralAt, StartsWithIgnoringCase;
    LiteralIs(s, HEADER);
    LiteralFits(s, HEADER);
    assert s[0..] == s;
    if LiteralAt(s, HEADER) {
      assert FirstHeader(s, 0);
      if i: nat :| FirstHeader(s, i) && tail == s[i + |HEADER|..] { assert i == 0; }
    } else if s != "" {
      var rest := s[1..];
      HeaderIs(rest, tail);
      if i: nat :| FirstHeader(rest, i) && tail == rest[i + |HEADER|..] { HeaderMoves(s, i); }
      if i: nat :| FirstHeader(s, i) && tail == s[i + |HEADER|..] { HeaderMovesBack(s, i); }
    }
  }

  lemma HeaderMoves(s: string, i: nat)
    requires s != "" && FirstHeader(s[1..], i) && !LiteralAt(s, HEADER)
    ensures FirstHeader(s, i + 1) && s[1..][i + |HEADER|..] == s[i + 1 + |HEADER|..]
  {
    hide LiteralAt;
    assert s[0..] == s && s[1..][i..] == s[i + 1..];
    forall j | 0 <= j < i + 1 ensures !LiteralAt(s[j..], HEADER) {
      if j > 0 { assert s[j..] == s[1..][j - 1..]; }
    }
  }

  lemma HeaderMovesBack(s: string, i: nat)
    requires s != "" && FirstHeader(s, i) && !LiteralAt(s, HEADER)
    ensures i > 0 && FirstHeader(s[1..], i - 1) && s[1..][i - 1 + |HEADER|..] == s[i + |HEADER|..]
  {
    hide LiteralAt;
    assert s[0..] == s && i > 0;
    assert s[1..][i - 1..] == s[i..];
    forall j | 0 <= j < i - 1 ensures !LiteralAt(s[1..][j..], HEADER) {
      assert s[1..][j..] == s[j + 1..];
    }
  }

  // ----- Bullets -----

  ghost predicate IsDigest(d: string) { d == "unknown" || forall i | 0 <= i < |d| :: Hex(d[i]) }

  /** A quoted `sha256:` digest, and nothing but whitespace after it. */
  ghost predicate DigestAt(s: string, d: string) {
    IsDigest(d) && exists rest :: s == "`sha256:" + d + "`" + rest && Spaces(rest, |rest|)
  }

  /** An em dash or two hyphens, whitespace, the digest. */
  ghost predicate DashedDigest(s: string, d: string) {
    exists k: nat, n: nat ::
      && k <= |s| && (s[..k] == DASH || s[..k] == "--") && Spaces(s[k..], n) && DigestAt(s[k..][n..], d)
  }

  ghost predicate SpacedDigest(s: string, d: string) { exists n: nat :: Spaces(s, n) && DashedDigest(s[n..], d) }

  /** Whitespace, a hyphen, whitespace, the quoted path, whitespace, dash and digest. */
  ghost predicate BulletAt(line: string, n: nat, path: string, rest: string, d: string) {
    && Spaces(line, n) && n < |line| && line[n] == '-'
    && SpacedQuote(line[n + 1..], path, rest) && SpacedDigest(rest, d)
  }

  ghost predicate BulletLine(line: string, path: string, d: string) {
    exists n: nat, rest :: BulletAt(line, n, path, rest, d)
  }

  /** What the scanner finds behind the dash: the digest, if the line ends after it. */
  function DigestTail(t: string): Option<string> {
    if !StartsWith(t, "`sha256:") then None
    else
      var digest := Digest(t[8..]);
      if digest.None? || SkipSpaces(digest.value.1) != "" then None else Some(digest.value.0)
  }

  lemma DigestCuts(s: string)
    ensures Digest(s).Some? ==> IsDigest(Digest(s).value.0) && s == Digest(s).value.0 + "`" + Digest(s).value.1
  {
    var n := HexRun(s);
    if n < |s| && s[n] == '`' {
      assert s == s[..n] + [s[n]] + s[n + 1..];
    } else if StartsWith(s, "unknown`") {
      assert s == s[..8] + s[8..];
    }
  }

  lemma DigestIs(t: string, d: string)
    ensures DigestTail(t) == Some(d) <==> DigestAt(t, d)
  {
    hide SkipSpaces, Digest, IsDigest;
    if DigestTail(t) == Some(d) {
      var rest := Digest(t[8..]).value.1;
      DigestCuts(t[8..]);
      assert t == t[..8] + t[8..];
      assert t == "`sha256:" + d + "`" + rest;
      var n := SkipsSpaces(rest);
      assert Spaces(rest, |rest|);
    }
    if DigestAt(t, d) {
      var rest :| t == "`sha256:" + d + "`" + rest && Spaces(rest, |rest|);
      assert t[8..] == d + "`" + rest && t[..8] == "`sha256:";
      DigestScans(d, rest);
      var n := SkipsSpaces(rest);
    }
  }

  lemma DigestScans(d: string, rest: string)
    requires IsDigest(d)
    ensures Digest(d + "`" + rest) == Some((d, rest))
  {
    var s := d + "`" + rest;
    assert s[|d|] == '`' && forall i | 0 <= i < |d| :: s[i] == d[i];
    if d == "unknown" {
      assert s[0] == 'u' && HexRun(s) == 0;
      assert s[..8] == "unknown`" && s[8..] == rest;
    } else {
      assert HexRun(s) == |d|;
      assert s[..|d|] == d && s[|d| + 1..] == rest;
    }
  }

  lemma DashedIs(s: string, d: string)
    ensures MatchDigest(s) == Some(d) <==> DashedDigest(s, d)
  {
    hide SkipSpaces, Digest, DigestAt;
    if StartsWith(s, DASH) || StartsWith(s, "--") {
      var k := if StartsWith(s, DASH) then 1 else 2;
      assert s[..k] == DASH || s[..k] == "--";
      var n := SkipsSpaces(s[k..]);
      DigestIs(s[k..][n..], d);
      assert MatchDigest(s) == DigestTail(s[k..][n..]);
    }
    if k: nat, n: nat :| k <= |s| && (s[..k] == DASH || s[..k] == "--") && Spaces(s[k..], n) && DigestAt(s[k..][n..], d) {
      DashIsOne(s, k);
      DigestStarts(s[k..][n..], d);
      assert s[k..][n] == s[k..][n..][0];
      CutIsForced(s[k..], n);
    }
  }

  lemma DashIsOne(s: string, k: nat)
    requires k <= |s| && (s[..k] == DASH || s[..k] == "--")
    ensures StartsWith(s, DASH) || StartsWith(s, "--")
    ensures k == if StartsWith(s, DASH) then 1 else 2
  {
    assert s[..k][0] == s[0];
  }

  lemma DigestStarts(s: string, d: string)
    requires DigestAt(s, d)
    ensures s != "" && s[0] == '`' && !Space(s[0])
  {
  }

  lemma SpacedDigestIs(s: string, d: string)
    ensures MatchDigest(SkipSpaces(s)) == Some(d) <==> SpacedDigest(s, d)
  {
    hide MatchDigest, DashedDigest;
    var m := SkipsSpaces(s);
    DashedIs(s[m..], d);
    if n: nat :| Spaces(s, n) && DashedDigest(s[n..], d) {
      DashedStarts(s[n..], d);
      assert s[n] == s[n..][0];
      CutIsForced(s, n);
    }
  }

  lemma DashedStarts(s: string, d: string)
    requires DashedDigest(s, d)
    ensures s != "" && !Space(s[0])
  {
    var k: nat :| k <= |s| && (s[..k] == DASH || s[..k] == "--");
    assert s[..k][0] == s[0];
  }

  lemma BulletMatches(line: string, n: nat, path: string, rest: string, d: string)
    requires BulletAt(line, n, path, rest, d)
    ensures MatchBullet(line) == Some((path, d))
  {
    hide SkipSpaces, Quoted, MatchDigest, SpacedQuote, SpacedDigest;
    CutIsForced(line, n);
    assert line[n..][1..] == line[n + 1..] && line[n..][0] == '-';
    SpacedQuoteIs(line[n + 1..], path, rest);
    SpacedDigestIs(rest, d);
  }

  lemma BulletCuts(line: string) returns (n: nat, rest: string)
    requires MatchBullet(line).Some?
    ensures BulletAt(line, n, MatchBullet(line).value.0, rest, MatchBullet(line).value.1)
  {
    hide SkipSpaces, Quoted, MatchDigest, SpacedQuote, SpacedDigest;
    n := SkipsSpaces(line);
    var s := line[n..];
    assert s[0] == line[n] && s[1..] == line[n + 1..];
    var q := Quoted(SkipSpaces(s[1..])).value;
    rest := q.1;
    SpacedQuoteIs(s[1..], q.0, rest);
    SpacedDigestIs(rest, MatchBullet(line).value.1);
  }

  lemma BulletIs(line: string, path: string, d: string)
    ensures MatchBullet(line) == Some((path, d)) <==> BulletLine(line, path, d)
  {
    hide MatchBullet, BulletAt;
    if MatchBullet(line) == Some((path, d)) {
      var n, rest := BulletCuts(line);
    }
    if n: nat, rest :| BulletAt(line, n, path, rest, d) { BulletMatches(line, n, path, rest, d); }
  }

  // ----- The list of files -----

  /** The text without whitespace at either end. */
  ghost predicate TrimmedTo(s: string, t: string) {
    exists a: nat, b: nat :: TrimAt(s, t, a, b)
  }

  ghost predicate TrimAt(s: string, t: string, a: nat, b: nat) {
    && a <= b <= |s| && t == s[a..b]
    && (forall i | 0 <= i < a :: Space(s[i])) && (forall i | b <= i < |s| :: Space(s[i]))
    && (a < b ==> !Space(s[a]) && !Space(s[b - 1]))
  }

  lemma {:induction false} StripsRight(s: string) returns (n: nat)
    ensures n <= |s| && StripRight(s) == s[..n] && (n > 0 ==> !Space(s[n - 1]))
    ensures forall i | n <= i < |s| :: Space(s[i])
    decreases s
  {
    n := |s|;
    if s != "" && Space(s[|s| - 1]) {
      n := StripsRight(s[..|s| - 1]);
      assert s[..|s| - 1][..n] == s[..n];
    }
  }

  lemma StripIs(s: string)
    ensures TrimmedTo(s, Strip(s))
  {
    hide SkipSpaces, StripRight;
    var a := SkipsSpaces(s);
    var n := StripsRight(s[a..]);
    assert s[a..][..n] == s[a..a + n];
    forall i | a + n <= i < |s| ensures Space(s[i]) { assert s[i] == s[a..][i - a]; }
    assert n > 0 ==> s[a + n - 1] == s[a..][n - 1];
    assert TrimAt(s, Strip(s), a, a + n);
  }

  /** A line of the block: a bullet. A line that ends the search: a heading. */
  ghost predicate IsBullet(line: string) { exists path, d :: BulletLine(line, path, d) }

  ghost predicate IsHeading(line: string) { exists t :: TrimmedTo(line, t) && "##" <= t }

  /** A file read from a bullet: both fields trimmed, `unknown` in any case read as no digest. */
  ghost predicate ReadsFile(line: string, f: InspectedFile) {
    exists path, d ::
      && BulletLine(line, path, d) && TrimmedTo(path, f.path)
      && exists t :: TrimmedTo(d, t) && f.digest == if |t| == 7 && LiteralAt(t, "unknown") then "" else t
  }

  /** The block is the first run of bullets, unless a heading comes first: lines `a` to `b`. */
  ghost predicate BlockAt(lines: seq<string>, a: nat, b: nat) {
    && a <= b <= |lines|
    && (forall i | 0 <= i < a :: !IsBullet(lines[i]) && !IsHeading(lines[i]))
    && (forall i | a <= i < b :: IsBullet(lines[i]))
    && (if a == b then a == |lines| || IsHeading(lines[a]) else b == |lines| || !IsBullet(lines[b]))
  }

  ghost predicate ReadsBlock(lines: seq<string>, files: seq<InspectedFile>) {
    exists a: nat, b: nat ::
      && BlockAt(lines, a, b) && |files| == b - a
      && forall i | 0 <= i < |files| :: ReadsFile(lines[a + i], files[i])
  }

  lemma IsBulletIs(line: string)
    ensures MatchBullet(line).Some? <==> IsBullet(line)
  {
    hide MatchBullet, BulletLine;
    if MatchBullet(line).Some? {
      var q := MatchBullet(line).value;
      BulletIs(line, q.0, q.1);
    }
    if path, d :| BulletLine(line, path, d) { BulletIs(line, path, d); }
  }

  lemma IsHeadingIs(line: string)
    ensures "##" <= Strip(line) <==> IsHeading(line)
  {
    StripIs(line);
    if t :| TrimmedTo(line, t) && "##" <= t { TrimIsUnique(line, t, Strip(line)); }
  }

  lemma TrimIsUnique(s: string, t: string, u: string)
    requires TrimmedTo(s, t) && TrimmedTo(s, u)
    ensures t == u
  {
    hide TrimAt;
    var a: nat, b: nat :| TrimAt(s, t, a, b);
    var c: nat, d: nat :| TrimAt(s, u, c, d);
    OneTrim(s, t, a, b, u, c, d);
  }

  lemma OneTrim(s: string, t: string, a: nat, b: nat, u: string, c: nat, d: nat)
    requires TrimAt(s, t, a, b) && TrimAt(s, u, c, d)
    ensures t == u
  {
    if a < b {
      assert c <= a && b <= d;
      assert a == c && b == d;
    } else {
      assert c >= d;
    }
  }

  /** A bullet is neither blank nor a heading. */
  lemma BulletStands(line: string)
    requires MatchBullet(line).Some?
    ensures Strip(line) != "" && !("##" <= Strip(line))
  {
    hide SkipSpaces, StripRight, Quoted, MatchDigest;
    var s := SkipSpaces(line);
    assert s[0] == '-';
    var n := StripsRight(s);
    assert n > 0;
    assert Strip(line)[0] == '-';
  }

  lemma FileIs(line: string)
    requires MatchBullet(line).Some?
    ensures ReadsFile(line, FileOf(MatchBullet(line).value))
  {
    hide MatchBullet, BulletLine, Strip, TrimmedTo, LiteralAt, StartsWithIgnoringCase;
    var q := MatchBullet(line).value;
    BulletIs(line, q.0, q.1);
    StripIs(q.0);
    StripIs(q.1);
    LiteralIs(Strip(q.1), "unknown");
  }

  /** Once a bullet has been read, the run goes on to the first line that is none. */
  lemma {:induction false} RunOfBullets(lines: seq<string>, found: seq<InspectedFile>) returns (b: nat)
    requires found != []
    ensures b <= |lines| && (forall i | 0 <= i < b :: IsBullet(lines[i])) && (b < |lines| ==> !IsBullet(lines[b]))
    ensures found <= Files(lines, found) && |Files(lines, found)| == |found| + b
    ensures forall i | 0 <= i < b :: ReadsFile(lines[i], Files(lines, found)[|found| + i])
    decreases lines
  {
    hide MatchBullet, Strip, IsBullet, ReadsFile, FileOf;
    b := 0;
    if lines != [] {
      IsBulletIs(lines[0]);
      if MatchBullet(lines[0]).Some? {
        BulletStands(lines[0]);
        FileIs(lines[0]);
        var f, rest := FileOf(MatchBullet(lines[0]).value), lines[1..];
        var n := RunOfBullets(rest, found + [f]);
        b := n + 1;
        var all := Files(lines, found);
        assert all == Files(rest, found + [f]) && all[|found|] == f;
        forall i | 0 <= i < b ensures IsBullet(lines[i]) && ReadsFile(lines[i], all[|found| + i]) {
          if i > 0 { assert lines[i] == rest[i - 1] && all[|found| + i] == all[|found + [f]| + (i - 1)]; }
        }
      }
    }
  }

  /** The parser reads exactly the block of the lines after the header. */
  lemma {:induction false} FilesAre(lines: seq<string>)
    ensures ReadsBlock(lines, Files(lines, []))
    decreases lines
  {
    hide MatchBullet, Strip, IsBullet, IsHeading, ReadsFile, FileOf;
    if lines == [] {
      assert BlockAt(lines, 0, 0);
    } else {
      IsBulletIs(lines[0]);
      IsHeadingIs(lines[0]);
      var rest, files := lines[1..], Files(lines, []);
      if MatchBullet(lines[0]).Some? {
        BulletStands(lines[0]);
        FileIs(lines[0]);
        var f := FileOf(MatchBullet(lines[0]).value);
        assert [] + [f] == [f];
        var n := RunOfBullets(rest, [f]);
        BlockStarts(lines, n);
        forall i | 0 <= i < n + 1 ensures ReadsFile(lines[0 + i], files[i]) {
          if i > 0 { assert lines[i] == rest[i - 1] && files[i] == files[|[f]| + (i - 1)]; }
        }
      } else if IsHeading(lines[0]) {
        assert BlockAt(lines, 0, 0);
      } else {
        FilesAre(rest);
        BlockMoves(lines, files);
      }
    }
  }

  lemma BlockStarts(lines: seq<string>, n: nat)
    requires lines != [] && IsBullet(lines[0]) && n <= |lines[1..]|
    requires (forall i | 0 <= i < n :: IsBullet(lines[1..][i])) && (n < |lines[1..]| ==> !IsBullet(lines[1..][n]))
    ensures BlockAt(lines, 0, n + 1)
  {
    hide IsBullet, IsHeading;
    forall i | 0 <= i < n + 1 ensures IsBullet(lines[i]) { if i > 0 { assert lines[i] == lines[1..][i - 1]; } }
  }

  lemma BlockMoves(lines: seq<string>, files: seq<InspectedFile>)
    requires lines != [] && !IsBullet(lines[0]) && !IsHeading(lines[0]) && ReadsBlock(lines[1..], files)
    ensures ReadsBlock(lines, files)
  {
    hide IsBullet, IsHeading, ReadsFile;
    var rest := lines[1..];
    var a: nat, b: nat :| BlockAt(rest, a, b) && |files| == b - a
      && forall i | 0 <= i < |files| :: ReadsFile(rest[a + i], files[i]);
    assert forall i | 0 <= i < |rest| :: lines[i + 1] == rest[i];
    forall i | 0 <= i < a + 1 ensures !IsBullet(lines[i]) && !IsHeading(lines[i]) {
      if i > 0 { assert lines[i] == rest[i - 1]; }
    }
    forall i | a + 1 <= i < b + 1 ensures IsBullet(lines[i]) { assert lines[i] == rest[i - 1]; }
    assert BlockAt(lines, a + 1, b + 1);
    forall i | 0 <= i < |files| ensures ReadsFile(lines[a + 1 + i], files[i]) { assert lines[a + 1 + i] == rest[a + i]; }
  }

  // ----- The whole parser -----

  ghost predicate HasBaseline(text: string) { exists i: nat, sha, ts :: FirstBaseline(text, i, sha, ts) }

  /** What the parser must return: the first baseline line's two fields, trimmed, and the block
      behind the first header, wherever it stands; no files without a header. */
  ghost predicate ParsesTo(text: string, m: Metadata) {
    && (exists i: nat, sha, ts ::
          FirstBaseline(text, i, sha, ts) && TrimmedTo(sha, m.sha) && TrimmedTo(ts, m.capturedAt))
    && FilesBehindHeader(text, m.files)
  }

  ghost predicate FilesBehindHeader(text: string, files: seq<InspectedFile>) {
    if exists i: nat :: FirstHeader(text, i)
    then exists i: nat :: FirstHeader(text, i) && ReadsBlock(SplitLines(text[i + |HEADER|..]), files)
    else files == []
  }

  lemma HeaderDecides(text: string)
    ensures var tail := AfterHeader(text);
      FilesBehindHeader(text, if tail.None? then [] else Files(SplitLines(tail.value), []))
  {
    hide AfterHeader, ReadsBlock, Files, SplitLines, LiteralAt;
    var tail := AfterHeader(text);
    if tail.Some? {
      HeaderIs(text, tail.value);
      FilesAre(SplitLines(tail.value));
    } else {
      forall i: nat ensures !FirstHeader(text, i) {
        if FirstHeader(text, i) { HeaderIs(text, text[i + |HEADER|..]); }
      }
    }
  }

  lemma ParserFollowsGrammar(text: string)
    ensures Parsed(text).Some? <==> HasBaseline(text)
    ensures Parsed(text).Some? ==> ParsesTo(text, Parsed(text).value)
  {
    hide SearchBaseline, AfterHeader, FirstBaseline, FilesBehindHeader, Files, Strip, TrimmedTo, SplitLines;
    if SearchBaseline(text).Some? {
      var q := SearchBaseline(text).value;
      SearchIs(text, q.0, q.1);
      var i: nat :| FirstBaseline(text, i, q.0, q.1);
      StripIs(q.0);
      StripIs(q.1);
      HeaderDecides(text);
    }
    if i: nat, sha, ts :| FirstBaseline(text, i, sha, ts) { SearchIs(text, sha, ts); }
  }
}
