/** The matcher grammar of `src/matchers.ts` for the default comment
    fragments: `/` `*` `!` opens a comment, `*` `/` closes it, and an
    optional `*` decorates body lines. Each regular expression is written out
    as the recogniser that the backtracking matcher amounts to, with the
    captures it reports.

    None of these functions takes the parse options: the expand and end
    patterns never depend on them, and the two comment patterns are those
    built from the default fragments. */
module Matchers {
  import opened Common

  const ExpandKeyword: string := "InGenR:expand"
  const EndKeyword: string := "InGenR:end"
  const CommentOpener: string := "/*!"
  const CommentCloser: string := "*/"

  // ---------------------------------------------------------------------
  // The lazy comment body shared by `commentStartRegex` and
  // `blockBodyLineRegex`: `(?<lineBody>.*?)(\*?\s*$|(?<commentEnd>\*\/))\s*$`.
  // ---------------------------------------------------------------------

  /** The default right bound `\*?\s*$`: an optional star, then only
      whitespace up to the end of the line. */
  predicate RightBound(t: string)
  {
    AllSpace(t) || (t != [] && t[0] == '*' && AllSpace(t[1..]))
  }

  /** The comment end `\*\/` followed by only whitespace. */
  predicate ClosesComment(t: string)
  {
    StartsWith(t, CommentCloser) && AllSpace(t[2..])
  }

  /** The lazy `.*?` from position `m` of `rest`: the body grows one
      character at a time until the right bound (tried first) or the comment
      end matches the remainder; `.` never crosses a line terminator. The
      result is where the body ends and whether it ended at the comment end. */
  function LazyBody(rest: string, m: nat): (r: Option<(nat, bool)>)
    requires m <= |rest|
    ensures r.Some? ==> m <= r.value.0 <= |rest|
    decreases |rest| - m
  {
    if RightBound(rest[m..]) then Some((m, false))
    else if ClosesComment(rest[m..]) then Some((m, true))
    else if m == |rest| || IsLineTerminator(rest[m]) then None
    else LazyBody(rest, m + 1)
  }

  /** The closed form of the lazy body, read off the rest of the line without
      its trailing whitespace: it stops before a final comment end, else
      before a final `*`, else at the trailing whitespace. */
  function BodyEnd(rest: string): (nat, bool)
  {
    TrimmedBodyEnd(TrimEnd(rest))
  }

  /** `BodyEnd` on the rest already stripped of trailing whitespace. */
  function TrimmedBodyEnd(t: string): (r: (nat, bool))
    ensures r.0 <= |t|
  {
    if EndsWith(t, CommentCloser) then (|t| - 2, true)
    else if EndsWith(t, "*") then (|t| - 1, false)
    else (|t|, false)
  }

  /** What `TrimEnd` promises about `t` as a trimmed form of `rest`. */
  predicate TrimmedOf(t: string, rest: string)
  {
    |t| <= |rest| && t == rest[..|t|] && AllSpace(rest[|t|..]) && (t != [] ==> !IsSpace(t[|t| - 1]))
  }

  /** No tail matches before the closed-form end of the body. */
  lemma NoTailBeforeBodyEnd(rest: string, t: string, j: nat)
    requires TrimmedOf(t, rest)
    requires j < TrimmedBodyEnd(t).0
    ensures !RightBound(rest[j..]) && !ClosesComment(rest[j..])
  {
    NoRightBoundBefore(rest, t, j);
    NoCloserBefore(rest, t, j);
  }

  /** Before the end of the body, the last non-space character of the line
      is still ahead, and it is not a lone final star. */
  lemma NoRightBoundBefore(rest: string, t: string, j: nat)
    requires TrimmedOf(t, rest)
    requires j < TrimmedBodyEnd(t).0
    ensures !RightBound(rest[j..])
  {
    var last := |t| - 1;
    var x := rest[j..];
    assert x[last - j] == t[last];
    if last == j {
      assert t[last..] == [t[last]];
      assert x[0] != '*';
    } else {
      assert x[1..][last - j - 1] == t[last];
    }
  }

  /** Before the end of the body, no comment end is followed by whitespace
      only. */
  lemma NoCloserBefore(rest: string, t: string, j: nat)
    requires TrimmedOf(t, rest)
    requires j < TrimmedBodyEnd(t).0
    ensures !ClosesComment(rest[j..])
  {
    var last := |t| - 1;
    var x := rest[j..];
    if last >= j + 2 {
      assert x[2..][last - j - 2] == t[last];
      assert !AllSpace(x[2..]);
    } else if last == j + 1 {
      assert !EndsWith(t, CommentCloser);
      assert x[..2] == t[|t| - 2..];
    } else {
      assert |x| < 2 || x[1] == rest[|t|..][0];
    }
  }

  /** At the closed-form end, the tail the closed form names does match. */
  lemma TailAtBodyEnd(rest: string, t: string)
    requires TrimmedOf(t, rest)
    ensures TrimmedBodyEnd(t).1 ==>
      ClosesComment(rest[TrimmedBodyEnd(t).0..]) && !RightBound(rest[TrimmedBodyEnd(t).0..])
    ensures !TrimmedBodyEnd(t).1 ==> RightBound(rest[TrimmedBodyEnd(t).0..])
  {
    var tail := rest[|t|..];
    if EndsWith(t, CommentCloser) {
      var r := rest[|t| - 2..];
      assert r == CommentCloser + tail;
      assert r[2..] == tail;
      assert r[1..][0] == '/';
    } else if EndsWith(t, "*") {
      var k := |t|;
      assert t[k - 1..][0] == '*';
      assert rest[..k][k - 1] == rest[k - 1];
      StarThenTail(rest, k);
    }
  }

  /** A suffix that starts with a star is the star followed by what comes
      after it. */
  lemma StarThenTail(rest: string, k: nat)
    requires 1 <= k <= |rest| && rest[k - 1] == '*'
    ensures rest[k - 1..] == "*" + rest[k..]
  {
  }

  lemma {:induction false} LazyBodyFrom(rest: string, t: string, from: nat)
    requires TrimmedOf(t, rest)
    requires from <= TrimmedBodyEnd(t).0
    ensures var (e, closes) := TrimmedBodyEnd(t);
      LazyBody(rest, from) == if NoLineTerminator(rest[from..e]) then Some((e, closes)) else None
    decreases TrimmedBodyEnd(t).0 - from
  {
    var e := TrimmedBodyEnd(t).0;
    if from == e {
      TailAtBodyEnd(rest, t);
    } else {
      NoTailBeforeBodyEnd(rest, t, from);
      assert rest[from..e][0] == rest[from];
      if !IsLineTerminator(rest[from]) {
        LazyBodyFrom(rest, t, from + 1);
        assert rest[from..e] == [rest[from]] + rest[from + 1..e];
      }
    }
  }

  /** The lazy search agrees with its closed form: the body ends where the
      closed form says, unless a line terminator lies before that point, in
      which case the pattern does not match at all. */
  lemma LazyBodyClosedForm(rest: string)
    ensures var (e, closes) := BodyEnd(rest);
      e <= |rest|
      && LazyBody(rest, 0) == if NoLineTerminator(rest[..e]) then Some((e, closes)) else None
  {
    var t := TrimEnd(rest);
    TrimEndSpec(rest);
    LazyBodyFrom(rest, t, 0);
  }

  /** When the lazy body matches, it ends in one of the two tails and holds no
      line terminator. */
  lemma LazyBodySound(rest: string)
    ensures LazyBody(rest, 0).Some? ==>
      var (e, closes) := LazyBody(rest, 0).value;
      e <= |rest| && NoLineTerminator(rest[..e])
      && (closes ==> ClosesComment(rest[e..]))
      && (!closes ==> RightBound(rest[e..]))
  {
    var t := TrimEnd(rest);
    TrimEndSpec(rest);
    LazyBodyClosedForm(rest);
    TailAtBodyEnd(rest, t);
  }

  // ---------------------------------------------------------------------
  // commentStartRegex:
  //   ^(?<leadingSpace>\s*)\/\*!(?<lineBody>.*?)(\*?\s*$|(?<commentEnd>\*\/))\s*$
  // ---------------------------------------------------------------------

  datatype CommentStartMatch = CommentStartMatch(leadingSpace: string, lineBody: string, commentEnd: Option<string>)

  /** `commentStartRegex` with the default fragments. The leading `\s*` must
      take all leading whitespace, since the opener starts with `/`. */
  function CommentStart(line: string): Option<CommentStartMatch>
  {
    var lead := SpacePrefixLen(line);
    if !StartsWith(line[lead..], CommentOpener) then None
    else
      var rest := line[lead + 3..];
      match LazyBody(rest, 0)
      case None => None
      case Some((m, closes)) =>
        Some(CommentStartMatch(line[..lead], rest[..m], if closes then Some(CommentCloser) else None))
  }

  /** A match is anchored at both ends: leading whitespace, the opener, the
      body, then the right bound or the comment end followed by whitespace
      only; `commentEnd` is captured exactly when the comment end is what
      matched. */
  lemma CommentStartSound(line: string)
    ensures CommentStart(line).Some? ==>
      var m := CommentStart(line).value;
      var k := |m.leadingSpace| + 3 + |m.lineBody|;
      k <= |line| && line[..k] == m.leadingSpace + CommentOpener + m.lineBody
      && AllSpace(m.leadingSpace) && NoLineTerminator(m.lineBody)
      && (m.commentEnd == Some(CommentCloser) ==> ClosesComment(line[k..]))
      && (m.commentEnd == None ==> RightBound(line[k..]))
  {
    var lead := SpacePrefixLen(line);
    if StartsWith(line[lead..], CommentOpener) {
      var rest := line[lead + 3..];
      if LazyBody(rest, 0).Some? {
        var e := LazyBody(rest, 0).value.0;
        var closes := LazyBody(rest, 0).value.1;
        var m := CommentStart(line).value;
        assert m == CommentStartMatch(line[..lead], rest[..e], if closes then Some(CommentCloser) else None);
        CommentStartPieces(line, lead, rest, e, closes);
        assert |m.leadingSpace| + 3 + |m.lineBody| == lead + 3 + e;
        assert m.commentEnd == Some(CommentCloser) <==> closes;
      }
    }
  }

  lemma CommentStartPieces(line: string, lead: nat, rest: string, e: nat, closes: bool)
    requires lead == SpacePrefixLen(line) && StartsWith(line[lead..], CommentOpener)
    requires rest == line[lead + 3..] && LazyBody(rest, 0) == Some((e, closes))
    ensures lead + 3 + e <= |line|
    ensures line[..lead + 3 + e] == line[..lead] + CommentOpener + rest[..e]
    ensures AllSpace(line[..lead]) && NoLineTerminator(rest[..e])
    ensures closes ==> ClosesComment(line[lead + 3 + e..])
    ensures !closes ==> RightBound(line[lead + 3 + e..])
  {
    SpacePrefixLenMaximal(line);
    LazyBodySound(rest);
    assert line[lead..][..3] == CommentOpener;
    assert line[..lead + 3 + e] == line[..lead] + line[lead..][..3] + rest[..e];
    assert line[lead + 3 + e..] == rest[e..];
  }

  /** Whitespace followed by a non-space text: the prefix measured is the
      whitespace, and the text follows it. */
  lemma SpacedPrefix(lead: string, text: string)
    requires AllSpace(lead) && text != [] && !IsSpace(text[0])
    ensures SpacePrefixLen(lead + text) == |lead|
    ensures (lead + text)[|lead|..] == text
  {
    SpacePrefixOfSpaced(lead, text);
  }

  /** Trailing whitespace only: nothing is left after trimming. */
  lemma {:induction false} TrimEndAllSpace(s: string)
    requires AllSpace(s)
    ensures TrimEnd(s) == []
    decreases |s|
  {
    if s != [] {
      TrimEndAllSpace(s[..|s| - 1]);
    }
  }

  /** A body that neither ends in whitespace, nor in a star, nor in the
      comment end, so that no right bound can claim part of it. */
  predicate EndsPlainly(body: string)
  {
    body != [] ==> !IsSpace(body[|body| - 1]) && body[|body| - 1] != '*' && !EndsWith(body, CommentCloser)
  }

  /** The lazy body found where the closed form says it ends. */
  lemma LazyBodyOf(rest: string, e: nat, closes: bool)
    requires BodyEnd(rest) == (e, closes) && e <= |rest| && NoLineTerminator(rest[..e])
    ensures LazyBody(rest, 0) == Some((e, closes))
  {
    LazyBodyClosedForm(rest);
  }

  /** After whitespace and the opener, the match is the lazy body of the rest. */
  lemma CommentStartAfter(lead: string, rest: string)
    requires AllSpace(lead)
    ensures var lb := LazyBody(rest, 0);
      CommentStart(lead + CommentOpener + rest) == if lb.None? then None
        else Some(CommentStartMatch(lead, rest[..lb.value.0], if lb.value.1 then Some(CommentCloser) else None))
  {
    var line := lead + CommentOpener + rest;
    assert line == lead + (CommentOpener + rest);
    SpacedPrefix(lead, CommentOpener + rest);
    assert line[|lead| + 3..] == rest;
    assert line[..|lead|] == lead;
  }

  /** The closed-form end of a body followed by the comment end and
      whitespace. */
  lemma ClosedBodyEnd(body: string, trail: string)
    requires AllSpace(trail)
    ensures BodyEnd(body + CommentCloser + trail) == (|body|, true)
  {
    TrimEndAppendSpace(body + CommentCloser, trail);
    assert (body + CommentCloser)[|body|..] == CommentCloser;
  }

  /** The closed-form end of a body followed by a star and whitespace. */
  lemma StarredBodyEnd(body: string, trail: string)
    requires AllSpace(trail)
    ensures BodyEnd(body + "*" + trail) == (|body|, false)
  {
    var t := body + "*";
    TrimEndAppendSpace(t, trail);
    assert t[|t| - 1..] == "*";
    assert !EndsWith(t, CommentCloser) by {
      if |t| >= 2 {
        assert t[|t| - 2..][1] == '*';
      }
    }
  }

  /** A line closed on itself: the opener, `body`, the comment end and
      trailing whitespace report `body` and the comment end. */
  lemma CommentStartClosed(lead: string, body: string, trail: string)
    requires AllSpace(lead) && AllSpace(trail) && NoLineTerminator(body)
    ensures CommentStart(lead + CommentOpener + body + CommentCloser + trail)
      == Some(CommentStartMatch(lead, body, Some(CommentCloser)))
  {
    var rest := body + CommentCloser + trail;
    assert lead + CommentOpener + body + CommentCloser + trail == lead + CommentOpener + rest;
    CommentStartAfter(lead, rest);
    ClosedBodyEnd(body, trail);
    assert rest[..|body|] == body;
    LazyBodyOf(rest, |body|, true);
  }

  /** A line left open with a final star: the opener, `body`, a star and
      trailing whitespace report `body` and no comment end, whatever the
      body holds short of a line terminator. */
  lemma CommentStartStarred(lead: string, body: string, trail: string)
    requires AllSpace(lead) && AllSpace(trail) && NoLineTerminator(body)
    ensures CommentStart(lead + CommentOpener + body + "*" + trail)
      == Some(CommentStartMatch(lead, body, None))
  {
    var rest := body + "*" + trail;
    assert lead + CommentOpener + body + "*" + trail == lead + CommentOpener + rest;
    CommentStartAfter(lead, rest);
    StarredBodyEnd(body, trail);
    assert rest[..|body|] == body;
    LazyBodyOf(rest, |body|, false);
  }

  /** The closed-form end of a plainly ending body followed by whitespace. */
  lemma PlainBodyEnd(body: string, trail: string)
    requires AllSpace(trail) && EndsPlainly(body)
    ensures BodyEnd(body + trail) == (|body|, false)
  {
    if body == [] {
      assert body + trail == trail;
      TrimEndAllSpace(trail);
    } else {
      TrimEndAppendSpace(body, trail);
      assert body[|body| - 1..] == [body[|body| - 1]];
    }
  }

  /** A line left open without a star: the body is everything up to the
      trailing whitespace, provided it ends plainly. */
  lemma CommentStartOpen(lead: string, body: string, trail: string)
    requires AllSpace(lead) && AllSpace(trail) && NoLineTerminator(body)
    requires EndsPlainly(body)
    ensures CommentStart(lead + CommentOpener + body + trail)
      == Some(CommentStartMatch(lead, body, None))
  {
    var rest := body + trail;
    assert lead + CommentOpener + body + trail == lead + CommentOpener + rest;
    CommentStartAfter(lead, rest);
    PlainBodyEnd(body, trail);
    assert rest[..|body|] == body;
    LazyBodyOf(rest, |body|, false);
  }

  // ---------------------------------------------------------------------
  // blockBodyLineRegex:
  //   ^\s*((?<preCommentEnd>\*\/)|(^\s*\*?(?<lineBody>.*?)(\*?\s*$|(?<postCommentEnd>\*\/))))\s*$
  // ---------------------------------------------------------------------

  datatype BodyLineMatch =
    | PreCommentEnd
    | BodyLine(lineBody: string, postCommentEnd: Option<string>)

  /** Length of the left bound `^\s*\*?`: all leading whitespace and then one
      star if there is one. */
  function LeftBoundLen(line: string): (n: nat)
    ensures n <= |line|
  {
    var lead := SpacePrefixLen(line);
    if lead < |line| && line[lead] == '*' then lead + 1 else lead
  }

  /** `blockBodyLineRegex` with the default fragments. The first alternative
      is a lone comment end. The second starts with `^`, so it only matches once the
      outer `\s*` has backtracked to the start of the line; its own `\s*\*?`
      then take the left bound greedily. This recogniser tries only that
      greedy left bound. The argument for that choice: a shorter left bound
      starts the body earlier, so the body still has to cross any line
      terminator that the greedy one runs into, and the tails are the same. */
  function BlockBodyLine(line: string): Option<BodyLineMatch>
  {
    var lead := SpacePrefixLen(line);
    if ClosesComment(line[lead..]) then Some(PreCommentEnd)
    else
      var start := LeftBoundLen(line);
      match LazyBody(line[start..], 0)
      case None => None
      case Some((m, closes)) =>
        Some(BodyLine(line[start..][..m], if closes then Some(CommentCloser) else None))
  }

  /** A line matches through `preCommentEnd` exactly when it is the comment
      end with whitespace around it. */
  lemma PreCommentEndIff(line: string)
    ensures BlockBodyLine(line) == Some(PreCommentEnd) <==> Trim(line) == CommentCloser
  {
    var lead := SpacePrefixLen(line);
    if ClosesComment(line[lead..]) {
      CloserTrims(line, lead);
    }
    if Trim(line) == CommentCloser {
      TrimmedCloserCloses(line);
    }
  }

  /** Whitespace, the comment end, whitespace: trims to the comment end. */
  lemma CloserTrims(line: string, lead: nat)
    requires lead == SpacePrefixLen(line) && ClosesComment(line[lead..])
    ensures Trim(line) == CommentCloser
  {
    SpacePrefixLenMaximal(line);
    var before, closer, after := line[..lead], line[lead..lead + 2], line[lead + 2..];
    assert closer == line[lead..][..2] && after == line[lead..][2..];
    SplitThree(line, lead, lead + 2);
    CloserUnspaced();
    TrimSurrounded(before, closer, after);
  }

  /** Conversely, a line that trims to the comment end closes the comment
      after its leading whitespace. */
  lemma TrimmedCloserCloses(line: string)
    requires Trim(line) == CommentCloser
    ensures ClosesComment(line[SpacePrefixLen(line)..])
  {
    TrimSplits(line);
    var l := |line| - |TrimStart(line)|;
    assert line == line[..l] + line[l..];
    SpacePrefixOfSpaced(line[..l], line[l..]);
    assert line[l..][2..] == line[l + 2..];
  }

  /** The body lies between the left bound and the right bound or the
      comment end, and holds no line terminator. */
  lemma BodyLineBetweenBounds(line: string)
    ensures match BlockBodyLine(line)
      case Some(BodyLine(b, post)) =>
        var k := LeftBoundLen(line);
        k + |b| <= |line| && line[k..k + |b|] == b && NoLineTerminator(b)
        && (post == Some(CommentCloser) ==> ClosesComment(line[k + |b|..]))
        && (post == None ==> RightBound(line[k + |b|..]))
      case _ => true
  {
    var start := LeftBoundLen(line);
    var rest := line[start..];
    LazyBodySound(rest);
    if LazyBody(rest, 0).Some? {
      var e := LazyBody(rest, 0).value.0;
      assert line[start + e..] == rest[e..];
    }
  }

  /** On a decorated line that is not a lone comment end, the match is the
      lazy body after the star. */
  lemma BodyLineAfterStar(lead: string, rest: string)
    requires AllSpace(lead) && !ClosesComment("*" + rest)
    ensures var lb := LazyBody(rest, 0);
      BlockBodyLine(lead + "*" + rest) == if lb.None? then None
        else Some(BodyLine(rest[..lb.value.0], if lb.value.1 then Some(CommentCloser) else None))
  {
    var line := lead + "*" + rest;
    assert line == lead + ("*" + rest);
    SpacedPrefix(lead, "*" + rest);
    assert line[|lead|] == '*';
    assert LeftBoundLen(line) == |lead| + 1;
    assert line[|lead| + 1..] == rest;
  }

  /** A decorated line, whitespace, a star, `body` and whitespace, reports
      `body` when the body ends plainly and is not the `/` that would make
      the line a lone comment end. */
  lemma BodyLineStarred(lead: string, body: string, trail: string)
    requires AllSpace(lead) && AllSpace(trail) && NoLineTerminator(body)
    requires EndsPlainly(body)
    requires body != "/"
    ensures BlockBodyLine(lead + "*" + body + trail) == Some(BodyLine(body, None))
  {
    var rest := body + trail;
    assert lead + "*" + body + trail == lead + "*" + rest;
    var r := "*" + rest;
    if body == [] {
      if trail != [] {
        assert r[1] == trail[0];
      }
    } else {
      assert r[1] == body[0];
      if |body| > 1 {
        assert r[2..][|body| - 2] == body[|body| - 1];
      }
    }
    BodyLineAfterStar(lead, rest);
    PlainBodyEnd(body, trail);
    assert rest[..|body|] == body;
    LazyBodyOf(rest, |body|, false);
  }

  /** A decorated line that closes the comment, a star, `body`, the
      comment end and whitespace, reports `body` and the comment end. */
  lemma BodyLineClosed(lead: string, body: string, trail: string)
    requires AllSpace(lead) && AllSpace(trail) && NoLineTerminator(body)
    ensures BlockBodyLine(lead + "*" + body + CommentCloser + trail)
      == Some(BodyLine(body, Some(CommentCloser)))
  {
    var rest := body + CommentCloser + trail;
    assert lead + "*" + body + CommentCloser + trail == lead + "*" + rest;
    var r := "*" + rest;
    if body == [] {
      assert r[1] == '*';
    } else {
      assert r[2..][|body| - 1] == '*';
    }
    BodyLineAfterStar(lead, rest);
    assert BodyEnd(rest) == (|body|, true) by {
      assert rest == (body + CommentCloser) + trail;
      TrimEndAppendSpace(body + CommentCloser, trail);
    }
    assert rest[..|body|] == body;
    LazyBodyOf(rest, |body|, true);
  }

  /** An undecorated line `lead body trail` reports `body`, without its
      surrounding whitespace. */
  lemma BodyLinePlain(lead: string, body: string, trail: string)
    requires AllSpace(lead) && AllSpace(trail) && NoLineTerminator(body)
    requires body != [] && !IsSpace(body[0]) && body[0] != '*'
    requires EndsPlainly(body)
    ensures BlockBodyLine(lead + body + trail) == Some(BodyLine(body, None))
  {
    var line := lead + body + trail;
    var rest := body + trail;
    assert line == lead + rest;
    SpacedPrefix(lead, rest);
    assert LeftBoundLen(line) == |lead|;
    assert line[|lead|..] == rest;
    PlainBodyEnd(body, trail);
    assert rest[..|body|] == body;
    LazyBodyOf(rest, |body|, false);
  }

  // ---------------------------------------------------------------------
  // directiveEndRegex: ^\s*InGenR:end\s*$
  // ---------------------------------------------------------------------

  /** `directiveEndRegex`: the leading `\s*` must take all leading
      whitespace, since the keyword starts with a letter. */
  predicate IsDirectiveEnd(line: string)
  {
    var lead := SpacePrefixLen(line);
    StartsWith(line[lead..], EndKeyword) && AllSpace(line[lead + |EndKeyword|..])
  }

  /** A line is an end directive exactly when it trims to `InGenR:end`. */
  lemma DirectiveEndIff(line: string)
    ensures IsDirectiveEnd(line) <==> Trim(line) == EndKeyword
  {
    var lead := SpacePrefixLen(line);
    SpacePrefixLenMaximal(line);
    if IsDirectiveEnd(line) {
      assert line == line[..lead] + EndKeyword + line[lead + |EndKeyword|..];
      TrimSurrounded(line[..lead], EndKeyword, line[lead + |EndKeyword|..]);
    }
    if Trim(line) == EndKeyword {
      TrimSplits(line);
      var l := |line| - |TrimStart(line)|;
      assert line == line[..l] + line[l..];
      SpacePrefixOfSpaced(line[..l], line[l..]);
    }
  }
  // ---------------------------------------------------------------------
  // expandDirectiveRegex (free-spacing):
  //   ^\s*InGenR:expand
  //   ( \s+ (?<templateName>[^,\s]+)
  //     (?<additionalTemplateNames>(\s*,\s*[^,\s]+)*)
  //     (\s+(?<configFilePath>\S+))? )?\s*$
  // ---------------------------------------------------------------------

  /** The captures of an expand directive; a group that took no part in the
      match is `None`. */
  datatype ExpandMatch = ExpandMatch(
    templateName: Option<string>,
    additionalTemplateNames: Option<string>,
    configFilePath: Option<string>)

  /** A character of the class `[^,\s]` that template names are made of. */
  predicate IsNameChar(c: char)
  {
    c != ',' && !IsSpace(c)
  }

  predicate AllNameChars(s: string)
  {
    forall i :: 0 <= i < |s| ==> IsNameChar(s[i])
  }

  /** A non-empty run of non-space characters: what `\S+` captures. */
  predicate IsToken(s: string)
  {
    s != [] && forall i :: 0 <= i < |s| ==> !IsSpace(s[i])
  }

  /** The character classes of the runs in the expand pattern: `\s`,
      `[^,\s]` and `\S`. */
  datatype CharClass = Space | NameChar | NonSpace

  predicate InClass(c: char, cls: CharClass)
  {
    match cls
    case Space => IsSpace(c)
    case NameChar => IsNameChar(c)
    case NonSpace => !IsSpace(c)
  }

  predicate AllIn(x: string, cls: CharClass)
  {
    forall i :: 0 <= i < |x| ==> InClass(x[i], cls)
  }

  /** Where the greedy run of `cls` characters that starts at `q` ends. */
  function Skip(s: string, q: nat, cls: CharClass): (r: nat)
    requires q <= |s|
    ensures q <= r <= |s|
    decreases |s| - q
  {
    if q < |s| && InClass(s[q], cls) then Skip(s, q + 1, cls) else q
  }

  /** `Skip` passes only characters of the class and stops at one outside it. */
  lemma {:induction false} SkipSpec(s: string, q: nat, cls: CharClass)
    requires q <= |s|
    ensures forall i :: q <= i < Skip(s, q, cls) ==> InClass(s[i], cls)
    ensures Skip(s, q, cls) < |s| ==> !InClass(s[Skip(s, q, cls)], cls)
    decreases |s| - q
  {
    if q < |s| && InClass(s[q], cls) {
      SkipSpec(s, q + 1, cls);
    }
  }

  /** A run of the class that cannot be extended is the one `Skip` finds. */
  lemma {:induction false} SkipRun(s: string, q: nat, r: nat, cls: CharClass)
    requires q <= r <= |s|
    requires forall i :: q <= i < r ==> InClass(s[i], cls)
    requires r == |s| || !InClass(s[r], cls)
    ensures Skip(s, q, cls) == r
    decreases r - q
  {
    if q < r {
      SkipRun(s, q + 1, r, cls);
    }
  }

  /** The whitespace `Skip` measures from the start is the leading whitespace
      that `trim` removes. */
  lemma {:induction false} SkipSpacePrefix(s: string, q: nat)
    requires q <= |s|
    ensures Skip(s, q, Space) == q + SpacePrefixLen(s[q..])
    decreases |s| - q
  {
    if q < |s| && IsSpace(s[q]) {
      assert s[q..][1..] == s[q + 1..];
      SkipSpacePrefix(s, q + 1);
    }
  }

  /** One iteration of `(\s*,\s*[^,\s]+)` from position `q` of `s`: where it
      ends, if it matches. Neither `\s*` can give characters back to help,
      and a shorter name would leave a name character that nothing after the
      star accepts, so each run is taken greedily. */
  function NextName(s: string, q: nat): (r: Option<nat>)
    requires q <= |s|
    ensures r.Some? ==> q < r.value <= |s|
  {
    var a := Skip(s, q, Space);
    if a < |s| && s[a] == ',' then
      var b := Skip(s, a + 1, Space);
      var e := Skip(s, b, NameChar);
      if e > b then Some(e) else None
    else None
  }

  /** The greedy star: the end positions of its successive iterations. */
  function NameListEnds(s: string, q: nat): (ends: seq<nat>)
    requires q <= |s|
    ensures forall i :: 0 <= i < |ends| ==> q < ends[i] <= |s|
    decreases |s| - q
  {
    match NextName(s, q)
    case None => []
    case Some(e) => [e] + NameListEnds(s, e)
  }

  /** What follows the name list, `(\s+(\S+))?\s*$`, from position `q`: a
      config token after whitespace and then only whitespace, or else only
      whitespace. The outer `None` is a failure to match. */
  function ConfigAt(s: string, q: nat): Option<Option<string>>
    requires q <= |s|
  {
    var w := Skip(s, q, Space);
    var x := Skip(s, w, NonSpace);
    if w > q && x > w && Skip(s, x, Space) == |s| then Some(Some(s[w..x]))
    else if w == |s| then Some(None)
    else None
  }

  /** Backtracking over the star: iteration counts are tried from the most
      down to none (`ends` lists the iteration ends after `q0`), and the
      first whose remainder the tail accepts wins. The result is the end of
      the name list and the config capture. */
  function ChooseNameListEnd(s: string, q0: nat, ends: seq<nat>): (r: Option<(nat, Option<string>)>)
    requires q0 <= |s|
    requires forall i :: 0 <= i < |ends| ==> q0 < ends[i] <= |s|
    ensures r.Some? ==> q0 <= r.value.0 <= |s| && ConfigAt(s, r.value.0) == Some(r.value.1)
  {
    if ends == [] then
      match ConfigAt(s, q0)
      case None => None
      case Some(cfg) => Some((q0, cfg))
    else
      var q := ends[|ends| - 1];
      match ConfigAt(s, q)
      case Some(cfg) => Some((q, cfg))
      case None => ChooseNameListEnd(s, q0, ends[..|ends| - 1])
  }

  /** `expandDirectiveRegex`. The leading `\s*` takes all leading whitespace
      (the keyword starts with a letter), so the keyword must follow it. */
  function ExpandDirective(line: string): Option<ExpandMatch>
  {
    var lead := Skip(line, 0, Space);
    var r0 := lead + |ExpandKeyword|;
    if r0 <= |line| && line[lead..r0] == ExpandKeyword then ExpandAfterKeyword(line, r0) else None
  }

  /** The rest of the pattern from `r0`, just after the keyword. The optional
      group's `\s+` and template name are greedy runs (a shorter run would
      leave a character that the next part refuses); if the group cannot
      complete the match, the line must end in whitespace only. */
  function ExpandAfterKeyword(line: string, r0: nat): Option<ExpandMatch>
    requires r0 <= |line|
  {
    var b := Skip(line, r0, Space);
    var e := Skip(line, b, NameChar);
    var viaGroup := if b > r0 && e > b then ChooseNameListEnd(line, e, NameListEnds(line, e)) else None;
    if viaGroup.Some? then
      Some(ExpandMatch(Some(line[b..e]), Some(line[e..viaGroup.value.0]), viaGroup.value.1))
    else if b == |line| then Some(ExpandMatch(None, None, None))
    else None
  }

  /** A configuration capture is a single whitespace-free token. */
  lemma ConfigAtToken(s: string, q: nat)
    requires q <= |s|
    ensures ConfigAt(s, q).Some? && ConfigAt(s, q).value.Some? ==> IsToken(ConfigAt(s, q).value.value)
  {
    var w := Skip(s, q, Space);
    var x := Skip(s, w, NonSpace);
    SkipSpec(s, w, NonSpace);
    forall i | 0 <= i < x - w ensures !IsSpace(s[w..x][i]) {
      assert s[w..x][i] == s[w + i];
    }
  }

  /** What the part after the keyword promises: the template name and the
      list are captured together; without them the rest is whitespace and
      nothing is captured; a template name is a non-empty run of name
      characters and a config path a single token. */
  lemma AfterKeywordSound(line: string, r0: nat)
    requires r0 <= |line|
    ensures var r := ExpandAfterKeyword(line, r0);
      r.Some? ==>
        (r.value.templateName.None? <==> r.value.additionalTemplateNames.None?)
        && (r.value.templateName.None? ==> r.value.configFilePath.None? && AllSpace(line[r0..]))
        && (r.value.templateName.Some? ==>
              r.value.templateName.value != [] && AllNameChars(r.value.templateName.value))
        && (r.value.configFilePath.Some? ==> IsToken(r.value.configFilePath.value))
  {
    var b := Skip(line, r0, Space);
    var e := Skip(line, b, NameChar);
    SkipSpec(line, b, NameChar);
    forall i | 0 <= i < e - b ensures IsNameChar(line[b..e][i]) {
      assert line[b..e][i] == line[b + i];
    }
    if b > r0 && e > b {
      var v := ChooseNameListEnd(line, e, NameListEnds(line, e));
      if v.Some? {
        ConfigAtToken(line, v.value.0);
      }
    }
    if b == |line| {
      SkipSpec(line, r0, Space);
      forall i | 0 <= i < |line| - r0 ensures IsSpace(line[r0..][i]) {
        assert line[r0..][i] == line[r0 + i];
      }
    }
  }

  /** The keyword with whitespace around it trims to the keyword. */
  lemma KeywordTrims(line: string, lead: nat, r0: nat)
    requires lead + |ExpandKeyword| == r0 <= |line|
    requires Skip(line, 0, Space) == lead && line[lead..r0] == ExpandKeyword && AllSpace(line[r0..])
    ensures Trim(line) == ExpandKeyword
  {
    var before, word, after := line[..lead], line[lead..r0], line[r0..];
    assert AllSpace(before) by {
      SkipSpec(line, 0, Space);
      forall i | 0 <= i < lead ensures IsSpace(before[i]) {
        assert before[i] == line[i];
      }
    }
    KeywordUnspaced();
    SplitThree(line, lead, r0);
    TrimSurrounded(before, word, after);
  }

  lemma SplitThree(s: string, a: nat, b: nat)
    requires a <= b <= |s|
    ensures s == s[..a] + s[a..b] + s[b..]
  {
  }

  /** The comment end neither starts nor ends with whitespace. */
  lemma CloserUnspaced()
    ensures CommentCloser != [] && !IsSpace(CommentCloser[0]) && !IsSpace(CommentCloser[|CommentCloser| - 1])
  {
  }

  /** The keyword neither starts nor ends with whitespace. */
  lemma KeywordUnspaced()
    ensures ExpandKeyword != [] && !IsSpace(ExpandKeyword[0]) && !IsSpace(ExpandKeyword[|ExpandKeyword| - 1])
  {
  }

  /** What a match promises: the line is `InGenR:expand` after its leading
      whitespace; without a template name nothing else is captured and the
      line trims to the keyword; a template name is a non-empty run of name
      characters, and a config path a single token. */
  lemma ExpandDirectiveSound(line: string)
    ensures var r := ExpandDirective(line);
      r.Some? ==>
        StartsWith(TrimStart(line), ExpandKeyword)
        && (r.value.templateName.None? <==> r.value.additionalTemplateNames.None?)
        && (r.value.templateName.None? ==> r.value.configFilePath.None? && Trim(line) == ExpandKeyword)
        && (r.value.templateName.Some? ==>
              r.value.templateName.value != [] && AllNameChars(r.value.templateName.value))
        && (r.value.configFilePath.Some? ==> IsToken(r.value.configFilePath.value))
  {
    var lead := Skip(line, 0, Space);
    var r0 := lead + |ExpandKeyword|;
    SkipSpacePrefix(line, 0);
    assert line[0..] == line;
    if r0 <= |line| && line[lead..r0] == ExpandKeyword {
      assert TrimStart(line)[..|ExpandKeyword|] == line[lead..r0];
      AfterKeywordSound(line, r0);
      if AllSpace(line[r0..]) {
        KeywordTrims(line, lead, r0);
      }
    }
  }

  /** `s` holds `x` at position `q`. */
  predicate HoldsAt(s: string, q: nat, x: string)
  {
    q + |x| <= |s| && forall i :: 0 <= i < |x| ==> s[q + i] == x[i]
  }

  /** A string held at `q` splits into its two parts held side by side. */
  lemma HoldsSplit(s: string, q: nat, u: string, v: string)
    requires HoldsAt(s, q, u + v)
    ensures HoldsAt(s, q, u) && HoldsAt(s, q + |u|, v)
  {
    forall i | 0 <= i < |u| ensures s[q + i] == u[i] {
      assert (u + v)[i] == u[i];
    }
    forall i | 0 <= i < |v| ensures s[q + |u| + i] == v[i] {
      assert (u + v)[|u| + i] == v[i];
    }
  }

  /** A held string is the slice at its position. */
  lemma HeldSlice(s: string, q: nat, x: string)
    requires HoldsAt(s, q, x)
    ensures s[q..q + |x|] == x
  {
    forall i | 0 <= i < |x| ensures s[q..q + |x|][i] == x[i] {
      assert s[q..q + |x|][i] == s[q + i];
    }
  }

  /** A run of the class held at `q` and not followed by more of it is the
      run `Skip` finds there. */
  lemma SkipHeld(s: string, q: nat, x: string, cls: CharClass)
    requires HoldsAt(s, q, x) && AllIn(x, cls)
    requires q + |x| == |s| || !InClass(s[q + |x|], cls)
    ensures Skip(s, q, cls) == q + |x|
  {
    forall i | q <= i < q + |x| ensures InClass(s[i], cls) {
      assert s[q + (i - q)] == x[i - q];
    }
    SkipRun(s, q, q + |x|, cls);
  }

  /** All-whitespace text is a run of the whitespace class. */
  lemma SpaceIsClass(x: string)
    requires AllSpace(x)
    ensures AllIn(x, Space)
  {
  }

  /** One written item of a name list: whitespace, a comma, whitespace and a
      name. */
  datatype NameItem = NameItem(before: string, after: string, name: string)

  predicate ValidItem(it: NameItem)
  {
    AllSpace(it.before) && AllSpace(it.after) && it.name != [] && AllNameChars(it.name)
  }

  function ItemText(it: NameItem): string
  {
    it.before + "," + it.after + it.name
  }

  function ListText(items: seq<NameItem>): string
  {
    if items == [] then "" else ItemText(items[0]) + ListText(items[1..])
  }

  /** What a line may carry after its name list: whitespace, or whitespace, a
      config token and whitespace. */
  function TailText(gap: string, config: Option<string>, trail: string): string
  {
    if config.None? then trail else gap + config.value + trail
  }

  /** A tail that the grammar reads back as `config`: a config token is
      separated by whitespace and, not starting with a comma, cannot be
      taken for one more list item. */
  predicate ValidTail(gap: string, config: Option<string>, trail: string)
  {
    AllSpace(trail)
    && (config.Some? ==> gap != [] && AllSpace(gap) && IsToken(config.value) && config.value[0] != ',')
  }

  /** A written list, when it is not empty, starts with whitespace or a
      comma, so it cannot extend the name before it. */
  lemma ListTextStart(items: seq<NameItem>)
    requires forall i :: 0 <= i < |items| ==> ValidItem(items[i])
    ensures items != [] ==> ListText(items) != [] && !IsNameChar(ListText(items)[0])
  {
    if items != [] {
      var it := items[0];
      assert ValidItem(it);
      var x := ItemText(it);
      assert ListText(items)[0] == x[0];
      if it.before != [] {
        assert x[0] == it.before[0];
      } else {
        assert x[0] == ',';
      }
    }
  }

  /** The name a written item ends with stops where the item does. */
  predicate NameEndsAt(s: string, e: nat)
    requires e <= |s|
  {
    e == |s| || !IsNameChar(s[e])
  }

  /** The star does not go on past `e`: no comma follows the whitespace. */
  predicate ListStopsAt(s: string, e: nat)
    requires e <= |s|
  {
    Skip(s, e, Space) == |s| || s[Skip(s, e, Space)] != ','
  }

  /** One item of the star, read from where it starts. */
  lemma NextItem(s: string, q: nat, it: NameItem)
    requires HoldsAt(s, q, ItemText(it)) && ValidItem(it)
    requires NameEndsAt(s, q + |ItemText(it)|)
    ensures NextName(s, q) == Some(q + |ItemText(it)|)
  {
    var a := q + |it.before|;
    var b := a + 1 + |it.after|;
    HoldsSplit(s, q, it.before + "," + it.after, it.name);
    HoldsSplit(s, q, it.before + ",", it.after);
    HoldsSplit(s, q, it.before, ",");
    assert s[a + 0] == ","[0];
    SpaceIsClass(it.before);
    SkipHeld(s, q, it.before, Space);
    assert s[b + 0] == it.name[0];
    SpaceIsClass(it.after);
    SkipHeld(s, a + 1, it.after, Space);
    SkipHeld(s, b, it.name, NameChar);
  }

  /** `ends` (iteration ends after `q`) finishes at `f`: the last end, or `q`
      itself when the star iterates zero times. */
  predicate EndsAt(ends: seq<nat>, q: nat, f: nat)
  {
    if ends == [] then f == q else ends[|ends| - 1] == f
  }

  /** One more iteration in front keeps where the star finishes. */
  lemma EndsAfterFirst(s: string, q: nat, e: nat, f: nat)
    requires q <= |s| && NextName(s, q) == Some(e)
    requires EndsAt(NameListEnds(s, e), e, f)
    ensures NameListEnds(s, q) != [] && EndsAt(NameListEnds(s, q), q, f)
  {
    assert NameListEnds(s, q) == [e] + NameListEnds(s, e);
  }

  /** The name before a written list ends where the list starts. */
  lemma NameEndsBeforeList(s: string, p: nat, items: seq<NameItem>)
    requires forall i :: 0 <= i < |items| ==> ValidItem(items[i])
    requires HoldsAt(s, p, ListText(items)) && NameEndsAt(s, p + |ListText(items)|)
    ensures NameEndsAt(s, p)
  {
    ListTextStart(items);
    if items != [] {
      assert s[p + 0] == ListText(items)[0];
    }
  }

  /** The greedy star reads a written list item by item and stops at its
      end. */
  lemma {:induction false} ListEnds(s: string, q: nat, f: nat, items: seq<NameItem>)
    requires forall i :: 0 <= i < |items| ==> ValidItem(items[i])
    requires f == q + |ListText(items)| && HoldsAt(s, q, ListText(items))
    requires NameEndsAt(s, f) && ListStopsAt(s, f)
    ensures EndsAt(NameListEnds(s, q), q, f)
    decreases |items|
  {
    if items != [] {
      var x := ItemText(items[0]);
      var tail := items[1..];
      var rest := ListText(tail);
      var m := q + |x|;
      assert ListText(items) == x + rest;
      HoldsSplit(s, q, x, rest);
      assert m + |rest| == f;
      NameEndsBeforeList(s, m, tail);
      NextItem(s, q, items[0]);
      assert forall i :: 0 <= i < |tail| ==> ValidItem(tail[i]);
      ListEnds(s, m, f, tail);
      EndsAfterFirst(s, q, m, f);
    }
  }

  /** The tail after a written list stops the star and feeds the config
      group. */
  lemma TailStops(s: string, e: nat, gap: string, config: Option<string>, trail: string)
    requires ValidTail(gap, config, trail)
    requires HoldsAt(s, e, TailText(gap, config, trail)) && e + |TailText(gap, config, trail)| == |s|
    ensures NameEndsAt(s, e) && ListStopsAt(s, e) && ConfigAt(s, e) == Some(config)
  {
    SpaceIsClass(trail);
    if config.None? {
      SkipHeld(s, e, trail, Space);
      if trail != [] {
        assert s[e + 0] == trail[0];
      }
    } else {
      var c := config.value;
      HoldsSplit(s, e, gap + c, trail);
      HoldsSplit(s, e, gap, c);
      var w := e + |gap|;
      var x := w + |c|;
      assert s[e + 0] == gap[0];
      assert s[w + 0] == c[0];
      SpaceIsClass(gap);
      SkipHeld(s, e, gap, Space);
      if trail != [] {
        assert s[x + 0] == trail[0];
      }
      SkipHeld(s, w, c, NonSpace);
      SkipHeld(s, x, trail, Space);
      HeldSlice(s, w, c);
    }
  }

  /** A keyword held after leading whitespace is where the pattern's leading
      `\s*` stops; the rest of the pattern starts at `r0`, after the keyword. */
  lemma KeywordAt(line: string, lead: string, r0: nat)
    requires r0 == |lead| + |ExpandKeyword|
    requires AllSpace(lead) && HoldsAt(line, 0, lead) && HoldsAt(line, |lead|, ExpandKeyword)
    ensures r0 <= |line| && ExpandDirective(line) == ExpandAfterKeyword(line, r0)
  {
    SpaceIsClass(lead);
    assert line[|lead| + 0] == ExpandKeyword[0];
    SkipHeld(line, 0, lead, Space);
    HeldSlice(line, |lead|, ExpandKeyword);
  }

  /** A bare keyword with nothing but whitespace around it matches with no
      captures. */
  lemma BareExpand(lead: string, trail: string)
    requires AllSpace(lead) && AllSpace(trail)
    ensures ExpandDirective(lead + ExpandKeyword + trail) == Some(ExpandMatch(None, None, None))
  {
    var l1 := lead + ExpandKeyword;
    var line := l1 + trail;
    assert HoldsAt(line, 0, line);
    HoldsSplit(line, 0, l1, trail);
    HoldsSplit(line, 0, lead, ExpandKeyword);
    KeywordAt(line, lead, |l1|);
    SpaceIsClass(trail);
    SkipHeld(line, |l1|, trail, Space);
  }

  /** The layout of a written directive: each part held where it is written,
      the keyword at `|lead|`, the gap at `r0`, the name at `b`, the list at
      `e` and the tail at `q`. */
  lemma DirectiveLayout(line: string, lead: string, gap: string, name: string, list: string, t: string,
                        r0: nat, b: nat, e: nat, q: nat)
    requires line == lead + ExpandKeyword + gap + name + list + t
    requires r0 == |lead| + |ExpandKeyword| && b == r0 + |gap| && e == b + |name| && q == e + |list|
    ensures HoldsAt(line, 0, lead) && HoldsAt(line, |lead|, ExpandKeyword) && HoldsAt(line, r0, gap)
    ensures HoldsAt(line, b, name) && HoldsAt(line, e, list) && HoldsAt(line, q, t) && |line| == q + |t|
  {
    var l1 := lead + ExpandKeyword;
    var l2 := l1 + gap;
    var l3 := l2 + name;
    var l4 := l3 + list;
    assert |l1| == r0 && |l2| == b && |l3| == e && |l4| == q;
    assert line == l4 + t;
    assert l4 == l3 + list && l3 == l2 + name && l2 == l1 + gap;
    assert HoldsAt(line, 0, line);
    HoldsSplit(line, 0, l4, t);
    HoldsSplit(line, 0, l3, list);
    HoldsSplit(line, 0, l2, name);
    HoldsSplit(line, 0, l1, gap);
    HoldsSplit(line, 0, lead, ExpandKeyword);
  }

  /** Backtracking keeps the last iteration end when the tail accepts it. */
  lemma ChooseLast(s: string, q0: nat, ends: seq<nat>, q: nat, config: Option<string>)
    requires q0 <= |s|
    requires forall i :: 0 <= i < |ends| ==> q0 < ends[i] <= |s|
    requires q <= |s| && ConfigAt(s, q) == Some(config) && EndsAt(ends, q0, q)
    ensures ChooseNameListEnd(s, q0, ends) == Some((q, config))
  {
  }

  /** A written list and tail after position `e`: the star stops at `q`, the
      list's end, and the tail yields the config. */
  lemma ListAndTail(line: string, e: nat, q: nat, items: seq<NameItem>,
                    gap2: string, config: Option<string>, trail: string)
    requires forall i :: 0 <= i < |items| ==> ValidItem(items[i])
    requires ValidTail(gap2, config, trail)
    requires q == e + |ListText(items)| && |line| == q + |TailText(gap2, config, trail)|
    requires HoldsAt(line, e, ListText(items)) && HoldsAt(line, q, TailText(gap2, config, trail))
    ensures NameEndsAt(line, e) && line[e..q] == ListText(items)
    ensures ChooseNameListEnd(line, e, NameListEnds(line, e)) == Some((q, config))
  {
    TailStops(line, q, gap2, config, trail);
    NameEndsBeforeList(line, e, items);
    ListEnds(line, e, q, items);
    ChooseLast(line, e, NameListEnds(line, e), q, config);
    HeldSlice(line, e, ListText(items));
  }

  /** The whitespace after the keyword, from `r0`, and the template name,
      from `b` to `e`. */
  lemma NameAt(line: string, r0: nat, b: nat, e: nat, gap: string, name: string)
    requires b == r0 + |gap| && e == b + |name| && e <= |line|
    requires gap != [] && AllSpace(gap) && name != [] && AllNameChars(name)
    requires HoldsAt(line, r0, gap) && HoldsAt(line, b, name) && NameEndsAt(line, e)
    ensures Skip(line, r0, Space) == b && Skip(line, b, NameChar) == e && line[b..e] == name
  {
    SpaceIsClass(gap);
    assert line[b + 0] == name[0];
    SkipHeld(line, r0, gap, Space);
    SkipHeld(line, b, name, NameChar);
    HeldSlice(line, b, name);
  }

  /** The rest of the pattern once its runs have been located: whitespace up
      to `b`, the template name up to `e`, the list up to `q`. */
  lemma AfterKeywordAt(line: string, r0: nat, b: nat, e: nat, q: nat,
                       name: string, list: string, config: Option<string>)
    requires r0 < b < e <= q <= |line|
    requires Skip(line, r0, Space) == b && Skip(line, b, NameChar) == e
    requires line[b..e] == name && line[e..q] == list
    requires ChooseNameListEnd(line, e, NameListEnds(line, e)) == Some((q, config))
    ensures ExpandAfterKeyword(line, r0) == Some(ExpandMatch(Some(name), Some(list), config))
  {
  }

  /** The whole pattern over a line laid out as a written directive. */
  lemma ReadDirective(line: string, lead: string, gap: string, name: string, items: seq<NameItem>,
                      gap2: string, config: Option<string>, trail: string, r0: nat, b: nat, e: nat, q: nat)
    requires AllSpace(lead) && gap != [] && AllSpace(gap)
    requires name != [] && AllNameChars(name)
    requires forall i :: 0 <= i < |items| ==> ValidItem(items[i])
    requires ValidTail(gap2, config, trail)
    requires r0 == |lead| + |ExpandKeyword| && b == r0 + |gap| && e == b + |name| && q == e + |ListText(items)|
    requires HoldsAt(line, 0, lead) && HoldsAt(line, |lead|, ExpandKeyword) && HoldsAt(line, r0, gap)
    requires HoldsAt(line, b, name) && HoldsAt(line, e, ListText(items))
    requires HoldsAt(line, q, TailText(gap2, config, trail)) && |line| == q + |TailText(gap2, config, trail)|
    ensures ExpandDirective(line) == Some(ExpandMatch(Some(name), Some(ListText(items)), config))
  {
    ListAndTail(line, e, q, items, gap2, config, trail);
    NameAt(line, r0, b, e, gap, name);
    KeywordAt(line, lead, r0);
    AfterKeywordAt(line, r0, b, e, q, name, ListText(items), config);
  }

  /** Round trip: a directive written from a template name, a list of further
      names with optional whitespace around their commas, and an optional
      config token (not starting with a comma) is read back into exactly
      those parts. */
  lemma ExpandRoundTrip(lead: string, gap: string, name: string, items: seq<NameItem>,
                        gap2: string, config: Option<string>, trail: string)
    requires AllSpace(lead) && gap != [] && AllSpace(gap)
    requires name != [] && AllNameChars(name)
    requires forall i :: 0 <= i < |items| ==> ValidItem(items[i])
    requires ValidTail(gap2, config, trail)
    ensures ExpandDirective(lead + ExpandKeyword + gap + name + ListText(items) + TailText(gap2, config, trail))
      == Some(ExpandMatch(Some(name), Some(ListText(items)), config))
  {
    var list := ListText(items);
    var t := TailText(gap2, config, trail);
    var line := lead + ExpandKeyword + gap + name + list + t;
    var r0 := |lead| + |ExpandKeyword|;
    var b := r0 + |gap|;
    var e := b + |name|;
    var q := e + |list|;
    DirectiveLayout(line, lead, gap, name, list, t, r0, b, e, q);
    ReadDirective(line, lead, gap, name, items, gap2, config, trail, r0, b, e, q);
  }
}

module MatchersExamples {
  import opened Common
  import opened Matchers

  /** Backtracking over the name list: a trailing comma leaves the last
      iteration unfinished, so the star gives back its iteration and the
      config group takes the rest, commas included. */
  lemma ExpandTrailingComma()
    ensures ExpandDirective("InGenR:expand a ,b,")
      == Some(ExpandMatch(Some("a"), Some(""), Some(",b,")))
  {
    var line := "InGenR:expand a ,b,";
    assert Skip(line, 0, Space) == 0;
    assert line[0..13] == ExpandKeyword;
    assert Skip(line, 14, Space) == 14;
    assert Skip(line, 13, Space) == 14;
    assert Skip(line, 15, NameChar) == 15;
    assert Skip(line, 14, NameChar) == 15;
    // the star's one complete iteration, " ,b", ends at 18
    assert Skip(line, 16, Space) == 16;
    assert Skip(line, 15, Space) == 16;
    assert Skip(line, 17, Space) == 17;
    assert Skip(line, 18, NameChar) == 18;
    assert Skip(line, 17, NameChar) == 18;
    assert NextName(line, 15) == Some(18);
    // a comma with no name after it starts no further iteration
    assert Skip(line, 18, Space) == 18;
    assert Skip(line, 19, Space) == 19;
    assert Skip(line, 19, NameChar) == 19;
    assert NextName(line, 18) == None;
    assert NameListEnds(line, 15) == [18];
    // after one iteration the tail refuses the trailing comma
    assert Skip(line, 18, NonSpace) == 19;
    assert ConfigAt(line, 18) == None;
    // with none, the config group takes the rest
    assert Skip(line, 16, NonSpace) == 19;
    assert line[16..19] == ",b,";
    assert ConfigAt(line, 15) == Some(Some(",b,"));
    assert ChooseNameListEnd(line, 15, [18]) == Some((15, Some(",b,")));
    assert line[14..15] == "a" && line[15..15] == "";
  }
}
