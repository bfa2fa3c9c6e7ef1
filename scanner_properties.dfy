/** What the directive scanner promises, stated over `Step` (one call of
    `parseLine`) and `Run` (the line loop of `parse`). */
module ScannerProperties {
  import opened Common
  import opened Warnings
  import opened CommentParser

  // ---------------------------------------------------------------------
  // One line

  /** From INIT a candidate is opened only for a start match that carries a
      template name and spans the whole trimmed line; a named match with
      extra content is discarded with the interpolated warning. */
  lemma OpensOnlyOnWholeLine(p: Patterns, load: Loader, lineIndex: nat, line: string)
    ensures var s := Step(p, load, None, lineIndex, line);
      var m := p.blockStart(line);
      (s.candidate.Some? <==> m.Some? && m.value.templateName != "" && |Trim(m.value.text)| == |Trim(line)|)
      && (s.candidate.Some? ==> s.candidate == Some(Opened(m.value, lineIndex)))
      && |s.emitted| == 1
      && (m.Some? && m.value.templateName != "" && s.candidate.None? ==>
            s.emitted[0].warnings != [] && s.emitted[0].warnings[0] == WarnInterpolated(Some(m.value.index)))
  {
  }

  /** The generated region starts on the next line when the start line
      closes its own comment. */
  lemma SelfClosingStart(p: Patterns, load: Loader, lineIndex: nat, line: string)
    requires var m := p.blockStart(line);
      m.Some? && m.value.templateName != "" && |Trim(m.value.text)| == |Trim(line)| && m.value.closesOnSameLine
    ensures var s := Step(p, load, None, lineIndex, line);
      s.candidate.Some? && s.candidate.value.blockStartLineIndex == Some(lineIndex + 1)
      && s.candidate.value.argsLines == [] && StateOf(s.candidate) == InGeneratedBlock
  {
  }

  /** In IN_ARGS_BLOCK, a line carrying the comment end starts the generated
      region on the next line and adds nothing to the argument lines; a body
      line is appended; any other line is dropped with a warning. */
  lemma ArgsLine(p: Patterns, load: Loader, cand: Candidate, lineIndex: nat, line: string)
    requires cand.blockStartLineIndex.None? && cand.blockEndLineIndex.None?
    ensures var s := Step(p, load, Some(cand), lineIndex, line);
      s.candidate.Some? && |s.emitted| == 1 && s.emitted[0].Line? && s.emitted[0].data == line
      && (p.hasCommentEnd(line) ==>
            s.candidate.value == cand.(blockStartLineIndex := Some(lineIndex + 1)))
      && (!p.hasCommentEnd(line) && p.argsBodyLine(line).Some? ==>
            s.candidate.value == cand.(argsLines := cand.argsLines + [p.argsBodyLine(line).value]))
      && (!p.hasCommentEnd(line) && p.argsBodyLine(line).None? ==>
            s.candidate.value == cand && s.emitted[0].warnings != []
            && s.emitted[0].warnings[0] == WarnInvalidArgBody())
  {
  }

  /** In IN_GENERATED_BLOCK every line that is not an end line is captured
      and emits nothing. */
  lemma GeneratedLineCaptured(p: Patterns, load: Loader, cand: Candidate, lineIndex: nat, line: string)
    requires cand.blockStartLineIndex.Some? && cand.blockEndLineIndex.None?
    requires p.blockEnd(line).None?
    ensures Step(p, load, Some(cand), lineIndex, line)
      == StepResult(Some(cand.(contentLines := cand.contentLines + [line])), [])
  {
  }

  /** A whole-line end match whose arguments load finishes the directive: one
      `PARSED_BLOCK` ending at this line and carrying the captured lines,
      then the end line itself, processed, in state INIT. */
  lemma EndLineFinishes(p: Patterns, load: Loader, cand: Candidate, lineIndex: nat, line: string)
    requires cand.blockStartLineIndex.Some? && cand.blockEndLineIndex.None?
    requires p.blockEnd(line).Some? && |Trim(p.blockEnd(line).value.text)| == |Trim(line)|
    requires ParseArgs(load, cand.argsLines).Ok?
    ensures var s := Step(p, load, Some(cand), lineIndex, line);
      var args := ParseArgs(load, cand.argsLines).value;
      s.candidate == None && |s.emitted| == 2
      && s.emitted[0] == ParsedBlock(Directive(cand.templateName, args.templateArgs, args.directiveArgs,
           cand.blockStartLineIndex.value, lineIndex, cand.contentLines), InGeneratedBlock)
      && s.emitted[1] == Line(lineIndex, line, Init, true, [])
  {
  }

  /** An end line with extra content, or one whose arguments fail to load,
      leaves the candidate open and emits nothing. */
  lemma EndLineRejected(p: Patterns, load: Loader, cand: Candidate, lineIndex: nat, line: string)
    requires cand.blockStartLineIndex.Some? && cand.blockEndLineIndex.None?
    requires p.blockEnd(line).Some?
    requires |Trim(p.blockEnd(line).value.text)| != |Trim(line)| || ParseArgs(load, cand.argsLines).Err?
    ensures Step(p, load, Some(cand), lineIndex, line) == StepResult(Some(cand), [])
  {
  }

  // ---------------------------------------------------------------------
  // Unprocessed directives

  /** `checkUnprocessedDirectives` pushes at most one warning, exactly when
      /InGenR:\S+/ occurs in the line, pointing at its leftmost occurrence. */
  lemma UnprocessedWarningIff(line: string)
    ensures var ws := UnprocessedDirectiveWarnings(line);
      |ws| <= 1
      && (ws != [] <==> exists p :: MentionAt(line, p))
      && (ws != [] ==>
            ws[0].index.Some? && MentionAt(line, ws[0].index.value)
            && (forall q :: 0 <= q < ws[0].index.value ==> !MentionAt(line, q))
            && StartsWith(ws[0].message, UnprocessedHead + MentionPrefix)
            && ws[0].error == None)
  {
    FindMentionLeftmost(line, 0);
    var ws := UnprocessedDirectiveWarnings(line);
    match FindMention(line, 0)
    case None =>
    case Some(p) =>
      var k := |MentionPrefix| + NonSpaceRunLen(line[p + |MentionPrefix|..]);
      var matched := line[p..p + k];
      assert matched[..|MentionPrefix|] == MentionPrefix;
      var msg := UnprocessedHead + matched + UnprocessedTail;
      assert msg[..|UnprocessedHead + MentionPrefix|] == UnprocessedHead + MentionPrefix;
  }

  /** The warnings of a `LINE` item: the ones its handler pushed, followed,
      when the state did not change, by the unprocessed-directive warning if
      the line mentions a directive. */
  lemma LineItemWarnings(lineIndex: nat, line: string, before: ParserState, after: ParserState,
                         ws: seq<WarningEntry>)
    ensures var it := LineItem(lineIndex, line, before, after, ws);
      |ws| <= |it.warnings| <= |ws| + 1 && it.warnings[..|ws|] == ws
      && (|it.warnings| == |ws| + 1 <==> before == after && exists p :: MentionAt(line, p))
      && (|it.warnings| == |ws| + 1 ==>
            it.warnings[|ws|].index.Some? && MentionAt(line, it.warnings[|ws|].index.value))
  {
    UnprocessedWarningIff(line);
    var it := LineItem(lineIndex, line, before, after, ws);
    if before == after {
      assert it.warnings == ws + UnprocessedDirectiveWarnings(line);
      assert it.warnings[..|ws|] == ws;
    } else {
      assert it.warnings[..|ws|] == ws;
    }
  }

  // ---------------------------------------------------------------------
  // Argument bodies

  /** `parseArgs` cuts at the first `---` line: the lines before it form the
      directive-args body, the lines after it the template-args body. */
  lemma SplitAtFirstSeparator(directive: seq<string>, sep: string, template: seq<string>)
    requires forall i :: 0 <= i < |directive| ==> !IsSeparator(directive[i])
    requires IsSeparator(sep)
    ensures SplitArgs(directive + [sep] + template)
      == ArgsBodies(Some(Join(directive, "\n")), Join(template, "\n"))
  {
    var all := directive + [sep] + template;
    FindSeparatorFirst(all);
    assert all[|directive|] == sep;
    var r := FindSeparator(all);
    assert r.Some?;
    assert forall i :: 0 <= i < |directive| ==> all[i] == directive[i];
    assert r.value == |directive|;
    assert all[..|directive|] == directive;
    assert all[|directive| + 1..] == template;
  }

  /** Without a `---` line every argument line belongs to the template-args
      body and there is no directive-args body. */
  lemma SplitWithoutSeparator(lines: seq<string>)
    requires forall i :: 0 <= i < |lines| ==> !IsSeparator(lines[i])
    ensures SplitArgs(lines) == ArgsBodies(None, Join(lines, "\n"))
  {
    FindSeparatorFirst(lines);
  }

  /** Without a `---` line the directive arguments are null, and the
      template arguments are what the whole body loads to (null when there
      are no argument lines, or only one empty line). */
  lemma ParseArgsWithoutSeparator(load: Loader, lines: seq<string>)
    requires forall i :: 0 <= i < |lines| ==> !IsSeparator(lines[i])
    ensures var r := ParseArgs(load, lines);
      var t := ParseArgsBody(load, Some(Join(lines, "\n")));
      (r.Ok? <==> t.Ok?)
      && (r.Ok? ==> r.value == ParsedArgs(t.value, Null))
      && (r.Err? ==> r.error == t.error)
  {
    SplitWithoutSeparator(lines);
  }

  /** With a `---` line both bodies must load; the template body is loaded
      first, so its failure is the one reported. */
  lemma ParseArgsWithSeparator(load: Loader, directive: seq<string>, sep: string, template: seq<string>)
    requires forall i :: 0 <= i < |directive| ==> !IsSeparator(directive[i])
    requires IsSeparator(sep)
    ensures var r := ParseArgs(load, directive + [sep] + template);
      var t := ParseArgsBody(load, Some(Join(template, "\n")));
      var d := ParseArgsBody(load, Some(Join(directive, "\n")));
      (r.Ok? <==> t.Ok? && d.Ok?)
      && (r.Ok? ==> r.value == ParsedArgs(t.value, d.value))
      && (t.Err? ==> r == Err(t.error))
      && (t.Ok? && d.Err? ==> r == Err(d.error))
  {
    SplitAtFirstSeparator(directive, sep, template);
  }

  /** A directive without argument lines has null template and directive
      arguments, whatever the loader does. */
  lemma ParseArgsOfNothing(load: Loader)
    ensures ParseArgs(load, []) == Ok(ParsedArgs(Null, Null))
  {
  }

  // ---------------------------------------------------------------------
  // A whole input

  /** The line an item belongs to: its own line, or for a block the end line
      that finished it. */
  function Position(it: Item): nat
  {
    match it
    case Line(lineIndex, _, _, _, _) => lineIndex
    case ParsedBlock(block, _) => block.blockEndLineIndex
  }

  /** One step emits at most two items, all for its own line, and at most
      one `LINE`, which comes last and carries the line verbatim. */
  lemma StepEmits(p: Patterns, load: Loader, c: Option<Candidate>, lineIndex: nat, line: string)
    requires WellFormed(c)
    ensures var e := Step(p, load, c, lineIndex, line).emitted;
      |e| <= 2
      && (forall k :: 0 <= k < |e| ==> Position(e[k]) == lineIndex)
      && (forall k :: 0 <= k < |e| && e[k].Line? ==> e[k].data == line && k == |e| - 1)
  {
  }

  /** `Run` over one more line is one more `Step`. */
  lemma RunSnoc(p: Patterns, load: Loader, c: Option<Candidate>, lines: seq<string>, line: string)
    requires WellFormed(c)
    ensures var prev := Run(p, load, c, lines);
      var s := Step(p, load, prev.candidate, |lines|, line);
      Run(p, load, c, lines + [line]) == StepResult(s.candidate, prev.emitted + s.emitted)
  {
    assert (lines + [line])[..|lines|] == lines;
  }

  /** Every emitted item belongs to an input line, and `LINE` items carry
      their line verbatim. */
  lemma {:induction false} RunLinesVerbatim(p: Patterns, load: Loader, c: Option<Candidate>, lines: seq<string>)
    requires WellFormed(c)
    ensures var e := Run(p, load, c, lines).emitted;
      (forall k :: 0 <= k < |e| ==> Position(e[k]) < |lines|)
      && (forall k :: 0 <= k < |e| && e[k].Line? ==> e[k].data == lines[Position(e[k])])
    decreases |lines|
  {
    if lines != [] {
      var last := |lines| - 1;
      var init := lines[..last];
      assert lines == init + [lines[last]];
      RunLinesVerbatim(p, load, c, init);
      RunSnoc(p, load, c, init, lines[last]);
      var prev := Run(p, load, c, init);
      StepEmits(p, load, prev.candidate, last, lines[last]);
      var s := Step(p, load, prev.candidate, last, lines[last]);
      var e := prev.emitted + s.emitted;
      forall k | 0 <= k < |e|
        ensures Position(e[k]) < |lines|
        ensures e[k].Line? ==> e[k].data == lines[Position(e[k])]
      {
        if k < |prev.emitted| {
          assert e[k] == prev.emitted[k];
          assert init[Position(e[k])] == lines[Position(e[k])];
        } else {
          assert e[k] == s.emitted[k - |prev.emitted|];
        }
      }
    }
  }

  /** Items come in line order, and no line is emitted twice as a `LINE`. */
  lemma {:induction false} RunInOrder(p: Patterns, load: Loader, c: Option<Candidate>, lines: seq<string>)
    requires WellFormed(c)
    ensures var e := Run(p, load, c, lines).emitted;
      (forall j, k :: 0 <= j < k < |e| ==> Position(e[j]) <= Position(e[k]))
      && (forall j, k :: 0 <= j < k < |e| && e[j].Line? && e[k].Line? ==> Position(e[j]) < Position(e[k]))
    decreases |lines|
  {
    if lines != [] {
      var last := |lines| - 1;
      var init := lines[..last];
      assert lines == init + [lines[last]];
      RunInOrder(p, load, c, init);
      RunLinesVerbatim(p, load, c, init);
      RunSnoc(p, load, c, init, lines[last]);
      var prev := Run(p, load, c, init);
      StepEmits(p, load, prev.candidate, last, lines[last]);
      var s := Step(p, load, prev.candidate, last, lines[last]);
      var e := prev.emitted + s.emitted;
      forall j, k | 0 <= j < k < |e|
        ensures Position(e[j]) <= Position(e[k])
        ensures e[j].Line? && e[k].Line? ==> Position(e[j]) < Position(e[k])
      {
        if k < |prev.emitted| {
          assert e[j] == prev.emitted[j] && e[k] == prev.emitted[k];
        } else if j < |prev.emitted| {
          assert e[j] == prev.emitted[j] && e[k] == s.emitted[k - |prev.emitted|];
        } else {
          assert e[j] == s.emitted[j - |prev.emitted|] && e[k] == s.emitted[k - |prev.emitted|];
        }
      }
    }
  }

  /** The items for `lines`, numbered from `first`, when each is seen in
      `state` and leaves it unchanged: one unprocessed `LINE` per line. */
  function UnprocessedLines(first: nat, lines: seq<string>, state: ParserState): (items: seq<Item>)
    ensures |items| == |lines|
  {
    if lines == [] then []
    else
      var last := |lines| - 1;
      UnprocessedLines(first, lines[..last], state) + [LineItem(first + last, lines[last], state, state, [])]
  }

  /** Each of `UnprocessedLines` is its own line, verbatim and unprocessed. */
  lemma {:induction false} UnprocessedLinesAt(first: nat, lines: seq<string>, state: ParserState, i: nat)
    requires i < |lines|
    ensures UnprocessedLines(first, lines, state)[i] == LineItem(first + i, lines[i], state, state, [])
    ensures !UnprocessedLines(first, lines, state)[i].didProcess
    decreases |lines|
  {
    var last := |lines| - 1;
    var prefix := UnprocessedLines(first, lines[..last], state);
    var item := LineItem(first + last, lines[last], state, state, []);
    assert UnprocessedLines(first, lines, state) == prefix + [item];
    if i < last {
      UnprocessedLinesAt(first, lines[..last], state, i);
      assert lines[..last][i] == lines[i];
      assert (prefix + [item])[i] == prefix[i];
    } else {
      assert (prefix + [item])[i] == item;
    }
  }

  /** Text without any directive start passes through: one unprocessed
      `LINE` per input line, in order, and the scanner stays in INIT. */
  lemma {:induction false} RunPassthrough(p: Patterns, load: Loader, lines: seq<string>)
    requires forall i :: 0 <= i < |lines| ==> p.blockStart(lines[i]).None?
    ensures Run(p, load, None, lines) == StepResult(None, UnprocessedLines(0, lines, Init))
    decreases |lines|
  {
    if lines != [] {
      var last := |lines| - 1;
      var init := lines[..last];
      assert lines == init + [lines[last]];
      RunPassthrough(p, load, init);
      RunSnoc(p, load, None, init, lines[last]);
    }
  }

  /** Inside a generated region every line before the end line is captured,
      in order, and none of them is emitted. */
  lemma {:induction false} RunCapturesGenerated(p: Patterns, load: Loader, c: Option<Candidate>,
                                                 lines: seq<string>, content: seq<string>)
    requires WellFormed(c)
    requires var r := Run(p, load, c, lines);
      r.candidate.Some? && r.candidate.value.blockStartLineIndex.Some?
    requires forall i :: 0 <= i < |content| ==> p.blockEnd(content[i]).None?
    ensures var r := Run(p, load, c, lines);
      var cand := r.candidate.value;
      Run(p, load, c, lines + content)
        == StepResult(Some(cand.(contentLines := cand.contentLines + content)), r.emitted)
    decreases |content|
  {
    var r := Run(p, load, c, lines);
    var cand := r.candidate.value;
    if content == [] {
      assert lines + content == lines;
      assert cand.contentLines + content == cand.contentLines;
    } else {
      var last := |content| - 1;
      var before := content[..last];
      RunCapturesGenerated(p, load, c, lines, before);
      assert lines + content == (lines + before) + [content[last]];
      RunSnoc(p, load, c, lines + before, content[last]);
      var mid := cand.(contentLines := cand.contentLines + before);
      GeneratedLineCaptured(p, load, mid, |lines + before|, content[last]);
      assert cand.contentLines + before + [content[last]] == cand.contentLines + content;
    }
  }
}
