/** The directive scanner of `src/CommentParser.ts`: a single-candidate state
    machine fed one line at a time, which emits an ordered stream of `Line`
    and `ParsedBlock` items.

    The four patterns the scanner compiles from its options and the YAML
    loader are foreign code; they enter as function-valued parameters
    (`Patterns`, `Loader`) that return optional match records and fallible
    results. `Step` is the specification of one call of `parseLine`;
    `Parser` is the object that the source mutates, proved against it. */
module CommentParser {
  import opened Common
  import opened Warnings

  /** The value a YAML document loads to. */
  datatype ArgValue =
    | Null
    | Scalar(text: string)
    | Sequence(items: seq<ArgValue>)
    | Mapping(keys: seq<string>, values: seq<ArgValue>)

  /** `yaml.safeLoad`: a document either loads or throws (the message). */
  type Loader = string -> Result<ArgValue, string>

  datatype ParserState = Init | InArgsBlock | InGeneratedBlock

  /** The directive being captured: its template name, the argument lines
      seen so far, the previously generated lines seen so far, and the
      optional bounds of the generated region. */
  datatype Candidate = Candidate(
    templateName: string,
    argsLines: seq<string>,
    contentLines: seq<string>,
    blockStartLineIndex: Option<nat>,
    blockEndLineIndex: Option<nat>)

  /** A match of the block-start pattern: where it starts in the line, the
      matched text, the captured template name, and whether the comment
      closes on the same line. */
  datatype StartMatch = StartMatch(index: nat, text: string, templateName: string, closesOnSameLine: bool)

  /** A match of the block-end pattern: where it starts and the matched text. */
  datatype EndMatch = EndMatch(index: nat, text: string)

  /** The four patterns the scanner compiles from its options: block start,
      block end, argument body line (yielding the captured body), and the
      comment-end probe. */
  datatype Patterns = Patterns(
    blockStart: string -> Option<StartMatch>,
    blockEnd: string -> Option<EndMatch>,
    argsBodyLine: string -> Option<string>,
    hasCommentEnd: string -> bool)

  /** A finished directive, as carried by a `PARSED_BLOCK` item. */
  datatype Directive = Directive(
    templateName: string,
    templateArgs: ArgValue,
    directiveArgs: ArgValue,
    blockStartLineIndex: nat,
    blockEndLineIndex: nat,
    currentContent: seq<string>)

  /** The items the scanner emits. */
  datatype Item =
    | Line(lineIndex: nat, data: string, parserState: ParserState, didProcess: bool, warnings: seq<WarningEntry>)
    | ParsedBlock(block: Directive, parserState: ParserState)

  const InvalidStateMessage: string := "Invalid state encountered"
  const EndOfFileMessage: string := "Unexpected End of File while parsing"
  const ArgsFailureMessage: string := "Failed to parse template arguments. This directive will be discarded."
  const MentionPrefix: string := "InGenR:"
  const SeparatorLine: string := "---"
  const UnprocessedHead: string := "Potentially unprocessed InGenR directive: "
  const UnprocessedTail: string := ".\nIf you expected this directive to be processed please recheck the syntax"

  /** The `parserState` getter: the state is derived from the candidate and
      never stored; a candidate carrying both bounds is a defect. */
  function ParserStateOf(c: Option<Candidate>): (r: Result<ParserState, string>)
    ensures r == Ok(Init) <==> c.None?
    ensures r == Ok(InArgsBlock) <==> c.Some? && c.value.blockStartLineIndex.None?
    ensures r == Ok(InGeneratedBlock)
      <==> c.Some? && c.value.blockStartLineIndex.Some? && c.value.blockEndLineIndex.None?
    ensures r == Err(InvalidStateMessage)
      <==> c.Some? && c.value.blockStartLineIndex.Some? && c.value.blockEndLineIndex.Some?
  {
    match c
    case None => Ok(Init)
    case Some(cand) =>
      if cand.blockStartLineIndex.Some? then
        if cand.blockEndLineIndex.Some? then Err(InvalidStateMessage) else Ok(InGeneratedBlock)
      else Ok(InArgsBlock)
  }

  /** No candidate ever carries an end index: the scanner never sets one. */
  predicate WellFormed(c: Option<Candidate>)
  {
    c.Some? ==> c.value.blockEndLineIndex.None?
  }

  function StateOf(c: Option<Candidate>): ParserState
    requires WellFormed(c)
  {
    ParserStateOf(c).value
  }

  // ---------------------------------------------------------------------
  // Unprocessed-directive detection: the fixed pattern /InGenR:\S+/

  /** `InGenR:` starts at `p` and a non-space character follows it. */
  predicate MentionAt(line: string, p: nat)
  {
    p + |MentionPrefix| < |line| && line[p..p + |MentionPrefix|] == MentionPrefix
    && !IsSpace(line[p + |MentionPrefix|])
  }

  /** The leftmost position at or after `from` where /InGenR:\S+/ matches. */
  function FindMention(line: string, from: nat): (r: Option<nat>)
    decreases |line| - from
    ensures r.Some? ==> from <= r.value && MentionAt(line, r.value)
  {
    if from + |MentionPrefix| >= |line| then None
    else if MentionAt(line, from) then Some(from)
    else FindMention(line, from + 1)
  }

  /** `FindMention` finds the leftmost match, and fails only when there is
      none at or after `from`. */
  lemma {:induction false} FindMentionLeftmost(line: string, from: nat)
    decreases |line| - from
    ensures var r := FindMention(line, from);
      (r.Some? ==> forall p :: from <= p < r.value ==> !MentionAt(line, p))
      && (r.None? ==> forall p :: from <= p ==> !MentionAt(line, p))
  {
    if from + |MentionPrefix| < |line| && !MentionAt(line, from) {
      FindMentionLeftmost(line, from + 1);
    }
  }

  /** `checkUnprocessedDirectives`: the warnings it pushes for a line. */
  function UnprocessedDirectiveWarnings(line: string): (ws: seq<WarningEntry>)
  {
    match FindMention(line, 0)
    case None => []
    case Some(p) =>
      var matched := line[p..p + |MentionPrefix| + NonSpaceRunLen(line[p + |MentionPrefix|..])];
      [WarningEntry(Some(p),
        UnprocessedHead + matched + UnprocessedTail,
        None)]
  }

  /** The `LINE` item of `emitLine`: the line was processed exactly when the
      state changed across it; an unprocessed line also gets the
      unprocessed-directive check. */
  function LineItem(lineIndex: nat, line: string, before: ParserState, after: ParserState,
                    warnings: seq<WarningEntry>): (it: Item)
    ensures it.Line? && it.lineIndex == lineIndex && it.data == line && it.parserState == after
    ensures it.didProcess <==> before != after
  {
    var unprocessed := before == after;
    Line(lineIndex, line, after, !unprocessed,
      if unprocessed then warnings + UnprocessedDirectiveWarnings(line) else warnings)
  }

  // ---------------------------------------------------------------------
  // Argument bodies (`parseArgs`, `parseArgsBody`)

  datatype ArgsBodies = ArgsBodies(directiveArgsBody: Option<string>, templateArgsBody: string)

  datatype ParsedArgs = ParsedArgs(templateArgs: ArgValue, directiveArgs: ArgValue)

  predicate IsSeparator(line: string)
  {
    Trim(line) == SeparatorLine
  }

  /** `findIndex(line => line.trim() === "---")`. */
  function FindSeparator(lines: seq<string>): (r: Option<nat>)
    ensures r.Some? ==> r.value < |lines|
  {
    if lines == [] then None
    else if IsSeparator(lines[0]) then Some(0)
    else match FindSeparator(lines[1..])
      case None => None
      case Some(i) => Some(i + 1)
  }

  /** `FindSeparator` finds the first separator line, and only fails when
      there is none. */
  lemma {:induction false} FindSeparatorFirst(lines: seq<string>)
    ensures var r := FindSeparator(lines);
      (r.Some? ==> IsSeparator(lines[r.value]) && forall j :: 0 <= j < r.value ==> !IsSeparator(lines[j]))
      && (r.None? ==> forall j :: 0 <= j < |lines| ==> !IsSeparator(lines[j]))
  {
    if lines != [] && !IsSeparator(lines[0]) {
      FindSeparatorFirst(lines[1..]);
      var r := FindSeparator(lines);
      if r.Some? {
        forall j | 0 <= j < r.value
          ensures !IsSeparator(lines[j])
        {
          if j > 0 {
            assert lines[j] == lines[1..][j - 1];
          }
        }
      } else {
        forall j | 0 <= j < |lines|
          ensures !IsSeparator(lines[j])
        {
          if j > 0 {
            assert lines[j] == lines[1..][j - 1];
          }
        }
      }
    }
  }

  /** The two bodies that `parseArgs` cuts from the argument lines. */
  function SplitArgs(argsLines: seq<string>): ArgsBodies
  {
    match FindSeparator(argsLines)
    case Some(i) => ArgsBodies(Some(Join(argsLines[..i], "\n")), Join(argsLines[i + 1..], "\n"))
    case None => ArgsBodies(None, Join(argsLines, "\n"))
  }

  /** `parseArgsBody`: an absent or empty body is null, never an error;
      any other body is handed to the loader. */
  function ParseArgsBody(load: Loader, body: Option<string>): (r: Result<ArgValue, string>)
    ensures body.None? || body == Some("") ==> r == Ok(Null)
    ensures body.Some? && body.value != "" ==> r == load(body.value)
  {
    if body.None? || body.value == "" then Ok(Null) else load(body.value)
  }

  /** `parseArgs`: the template body is loaded first, then the directive body;
      the first failure is the outcome. */
  function ParseArgs(load: Loader, argsLines: seq<string>): Result<ParsedArgs, string>
  {
    var bodies := SplitArgs(argsLines);
    match ParseArgsBody(load, Some(bodies.templateArgsBody))
    case Err(e) => Err(e)
    case Ok(t) =>
      match ParseArgsBody(load, bodies.directiveArgsBody)
      case Err(e) => Err(e)
      case Ok(d) => Ok(ParsedArgs(t, d))
  }

  // ---------------------------------------------------------------------
  // One line, and a whole input

  /** The candidate after a line, and the items emitted for it. */
  datatype StepResult = StepResult(candidate: Option<Candidate>, emitted: seq<Item>)

  /** The candidate `checkBlockStart` opens for a matched start line. */
  function Opened(m: StartMatch, lineIndex: nat): Candidate
  {
    Candidate(m.templateName, [], [], if m.closesOnSameLine then Some(lineIndex + 1) else None, None)
  }

  /** `parseLine` in state INIT: `checkBlockStart`, then `emitLine`. */
  function StepFromInit(p: Patterns, lineIndex: nat, line: string): (s: StepResult)
    ensures WellFormed(s.candidate)
  {
    var m := p.blockStart(line);
    if m.None? || m.value.templateName == "" then
      StepResult(None, [LineItem(lineIndex, line, Init, Init, [])])
    else if |Trim(m.value.text)| != |Trim(line)| then
      StepResult(None, [LineItem(lineIndex, line, Init, Init, [WarnInterpolated(Some(m.value.index))])])
    else
      var started := Opened(m.value, lineIndex);
      StepResult(Some(started), [LineItem(lineIndex, line, Init, StateOf(Some(started)), [])])
  }

  /** `parseLine` in state IN_ARGS_BLOCK: `accumulateArgs`, then `emitLine`. */
  function StepInArgs(p: Patterns, cand: Candidate, lineIndex: nat, line: string): (s: StepResult)
    requires cand.blockStartLineIndex.None? && cand.blockEndLineIndex.None?
    ensures WellFormed(s.candidate)
  {
    var body := p.argsBodyLine(line);
    if p.hasCommentEnd(line) then
      StepResult(Some(Candidate(cand.templateName, cand.argsLines, cand.contentLines, Some(lineIndex + 1), None)),
        [LineItem(lineIndex, line, InArgsBlock, InGeneratedBlock, [])])
    else if body.Some? then
      StepResult(Some(Candidate(cand.templateName, cand.argsLines + [body.value], cand.contentLines, None, None)),
        [LineItem(lineIndex, line, InArgsBlock, InArgsBlock, [])])
    else
      StepResult(Some(cand), [LineItem(lineIndex, line, InArgsBlock, InArgsBlock, [WarnInvalidArgBody()])])
  }

  /** `parseLine` in state IN_GENERATED_BLOCK: `checkGeneratedEnd`, then
      `emitLine` only if the directive was finished. */
  function StepInGenerated(p: Patterns, load: Loader, cand: Candidate, lineIndex: nat, line: string): (s: StepResult)
    requires cand.blockStartLineIndex.Some? && cand.blockEndLineIndex.None?
    ensures WellFormed(s.candidate)
  {
    match p.blockEnd(line)
    case None =>
      StepResult(Some(cand.(contentLines := cand.contentLines + [line])), [])
    case Some(em) =>
      if |Trim(em.text)| != |Trim(line)| then StepResult(Some(cand), [])
      else
        match ParseArgs(load, cand.argsLines)
        case Err(_) => StepResult(Some(cand), [])
        case Ok(args) =>
          StepResult(None, [
            ParsedBlock(Directive(cand.templateName, args.templateArgs, args.directiveArgs,
              cand.blockStartLineIndex.value, lineIndex, cand.contentLines), InGeneratedBlock),
            LineItem(lineIndex, line, InGeneratedBlock, Init, [])])
  }

  /** Specification of `parseLine(lineIndex, line)` from candidate `c`. */
  function Step(p: Patterns, load: Loader, c: Option<Candidate>, lineIndex: nat, line: string): (s: StepResult)
    requires WellFormed(c)
    ensures WellFormed(s.candidate)
  {
    match c
    case None => StepFromInit(p, lineIndex, line)
    case Some(cand) =>
      if cand.blockStartLineIndex.None? then StepInArgs(p, cand, lineIndex, line)
      else StepInGenerated(p, load, cand, lineIndex, line)
  }

  /** `parseLine` over every line of `lines` in order, numbered from 0, from
      candidate `c`: the final candidate and every item emitted, in order. */
  function Run(p: Patterns, load: Loader, c: Option<Candidate>, lines: seq<string>): (r: StepResult)
    requires WellFormed(c)
    ensures WellFormed(r.candidate)
    decreases |lines|
  {
    if lines == [] then StepResult(c, [])
    else
      var last := |lines| - 1;
      var prev := Run(p, load, c, lines[..last]);
      var s := Step(p, load, prev.candidate, last, lines[last]);
      StepResult(s.candidate, prev.emitted + s.emitted)
  }

  /** `Run` over the first `n + 1` lines is `Run` over the first `n`, then
      one `Step`. */
  lemma RunPrefix(p: Patterns, load: Loader, c: Option<Candidate>, lines: seq<string>, n: nat)
    requires WellFormed(c) && n < |lines|
    ensures var prev := Run(p, load, c, lines[..n]);
      var s := Step(p, load, prev.candidate, n, lines[n]);
      Run(p, load, c, lines[..n + 1]) == StepResult(s.candidate, prev.emitted + s.emitted)
  {
    assert lines[..n + 1][..n] == lines[..n];
  }

  lemma AppendAssoc<T>(a: seq<T>, b: seq<T>, c: seq<T>)
    ensures a + (b + c) == (a + b) + c
  {
  }

  /** The end-of-input check of `parse`: it fails unless the state is INIT. */
  function EndOfInput(c: Option<Candidate>): (r: Result<(), string>)
    ensures r == Ok(()) <==> c.None?
    ensures WellFormed(c) && c.Some? ==> r == Err(EndOfFileMessage)
  {
    match ParserStateOf(c)
    case Ok(Init) => Ok(())
    case Ok(_) => Err(EndOfFileMessage)
    case Err(e) => Err(e)
  }

  // ---------------------------------------------------------------------
  // The parser object

  class Parser {
    const patterns: Patterns
    const load: Loader
    /** The directive being captured, if any. */
    var currentCandidate: Option<Candidate>
    /** Every item emitted so far, in order. */
    var items: seq<Item>

    ghost predicate Valid()
      reads this
    {
      WellFormed(currentCandidate)
    }

    constructor (patterns: Patterns, load: Loader)
      ensures this.patterns == patterns && this.load == load
      ensures currentCandidate == None && items == []
      ensures Valid()
    {
      this.patterns := patterns;
      this.load := load;
      currentCandidate := None;
      items := [];
    }

    /** `checkBlockStart`: open a candidate for a start line that carries a
        template name and nothing else. `warnings` is what it pushes onto
        the line's (initially empty) warning list. */
    method CheckBlockStart(lineIndex: nat, line: string) returns (warnings: seq<WarningEntry>)
      requires currentCandidate == None
      modifies this`currentCandidate
      ensures var m := patterns.blockStart(line);
        if m.None? || m.value.templateName == "" then
          currentCandidate == None && warnings == []
        else if |Trim(m.value.text)| != |Trim(line)| then
          currentCandidate == None && warnings == [WarnInterpolated(Some(m.value.index))]
        else
          currentCandidate == Some(Opened(m.value, lineIndex)) && warnings == []
      ensures var s := StepFromInit(patterns, lineIndex, line);
        currentCandidate == s.candidate
        && s.emitted == [LineItem(lineIndex, line, Init, StateOf(currentCandidate), warnings)]
    {
      warnings := [];
      var m := patterns.blockStart(line);
      if m.None? || m.value.templateName == "" {
        return;
      }
      if |Trim(m.value.text)| != |Trim(line)| {
        warnings := warnings + [WarnInterpolated(Some(m.value.index))];
        return;
      }
      currentCandidate := Some(Candidate(m.value.templateName, [], [], None, None));
      if m.value.closesOnSameLine {
        currentCandidate := Some(currentCandidate.value.(blockStartLineIndex := Some(lineIndex + 1)));
      }
    }

    /** `accumulateArgs`: a line carrying the comment end closes the argument
        body (and is not kept); a body line is kept; anything else is
        dropped with a warning. */
    method AccumulateArgs(lineIndex: nat, line: string) returns (warnings: seq<WarningEntry>)
      requires currentCandidate.Some? && currentCandidate.value.blockStartLineIndex.None?
      requires currentCandidate.value.blockEndLineIndex.None?
      modifies this`currentCandidate
      ensures var cand := old(currentCandidate.value);
        if patterns.hasCommentEnd(line) then
          currentCandidate == Some(cand.(blockStartLineIndex := Some(lineIndex + 1))) && warnings == []
        else if patterns.argsBodyLine(line).Some? then
          currentCandidate == Some(cand.(argsLines := cand.argsLines + [patterns.argsBodyLine(line).value]))
          && warnings == []
        else
          currentCandidate == old(currentCandidate) && warnings == [WarnInvalidArgBody()]
      ensures var s := StepInArgs(patterns, old(currentCandidate.value), lineIndex, line);
        currentCandidate == s.candidate
        && s.emitted == [LineItem(lineIndex, line, InArgsBlock, StateOf(currentCandidate), warnings)]
    {
      warnings := [];
      var m := patterns.argsBodyLine(line);
      if patterns.hasCommentEnd(line) {
        currentCandidate := Some(currentCandidate.value.(blockStartLineIndex := Some(lineIndex + 1)));
        return;
      }
      if m.Some? {
        currentCandidate := Some(currentCandidate.value.(argsLines := currentCandidate.value.argsLines + [m.value]));
        return;
      }
      warnings := warnings + [WarnInvalidArgBody()];
    }

    /** `checkGeneratedEnd`: capture a previously generated line, or finish
        the directive on a valid end line. */
    method CheckGeneratedEnd(lineIndex: nat, line: string) returns (warnings: seq<WarningEntry>)
      requires currentCandidate.Some? && currentCandidate.value.blockStartLineIndex.Some?
      requires currentCandidate.value.blockEndLineIndex.None?
      modifies this`currentCandidate, this`items
      ensures var cand := old(currentCandidate.value);
        match patterns.blockEnd(line)
        case None =>
          currentCandidate == Some(cand.(contentLines := cand.contentLines + [line]))
          && items == old(items) && warnings == []
        case Some(em) =>
          if |Trim(em.text)| != |Trim(line)| then
            currentCandidate == old(currentCandidate) && items == old(items)
            && warnings == [WarnInterpolated(Some(em.index))]
          else
            match ParseArgs(load, cand.argsLines)
            case Err(_) =>
              currentCandidate == old(currentCandidate) && items == old(items)
              && warnings == [WarningEntry(None, ArgsFailureMessage, None)]
            case Ok(args) =>
              currentCandidate == None && warnings == []
              && items == old(items) + [ParsedBlock(Directive(cand.templateName, args.templateArgs,
                args.directiveArgs, cand.blockStartLineIndex.value, lineIndex, cand.contentLines), InGeneratedBlock)]
      ensures var s := StepInGenerated(patterns, load, old(currentCandidate.value), lineIndex, line);
        currentCandidate == s.candidate
        && if currentCandidate == None then
             |s.emitted| == 2 && items == old(items) + [s.emitted[0]]
             && s.emitted[1] == LineItem(lineIndex, line, InGeneratedBlock, Init, warnings)
           else
             items == old(items) && s.emitted == []
    {
      warnings := [];
      var m := patterns.blockEnd(line);
      if m.None? {
        currentCandidate := Some(currentCandidate.value.(contentLines := currentCandidate.value.contentLines + [line]));
        return;
      }
      if |Trim(m.value.text)| != |Trim(line)| {
        warnings := warnings + [WarnInterpolated(Some(m.value.index))];
        return;
      }
      var parsed := ParseArgs(load, currentCandidate.value.argsLines);
      if parsed.Err? {
        warnings := warnings + [WarningEntry(None, ArgsFailureMessage, None)];
        return;
      }
      var cand := currentCandidate.value;
      items := items + [ParsedBlock(Directive(cand.templateName, parsed.value.templateArgs,
        parsed.value.directiveArgs, cand.blockStartLineIndex.value, lineIndex, cand.contentLines),
        StateOf(currentCandidate))];
      currentCandidate := None;
    }

    /** `emitLine`: emit the line with the state it leaves the scanner in. */
    method EmitLine(lineIndex: nat, line: string, prevState: ParserState, warnings: seq<WarningEntry>)
      requires Valid()
      modifies this`items
      ensures items == old(items) + [LineItem(lineIndex, line, prevState, StateOf(currentCandidate), warnings)]
    {
      var state := StateOf(currentCandidate);
      var unprocessed := prevState == state;
      var ws := warnings;
      if unprocessed {
        ws := ws + UnprocessedDirectiveWarnings(line);
      }
      items := items + [Line(lineIndex, line, state, !unprocessed, ws)];
    }

    /** `parseLine`: one line of input. */
    method ParseLine(lineIndex: nat, line: string)
      requires Valid()
      modifies this`currentCandidate, this`items
      ensures Valid()
      ensures currentCandidate == Step(patterns, load, old(currentCandidate), lineIndex, line).candidate
      ensures items == old(items) + Step(patterns, load, old(currentCandidate), lineIndex, line).emitted
    {
      var prevState := StateOf(currentCandidate);
      var warnings: seq<WarningEntry>;
      match prevState
      case Init =>
        warnings := CheckBlockStart(lineIndex, line);
        EmitLine(lineIndex, line, prevState, warnings);
      case InArgsBlock =>
        warnings := AccumulateArgs(lineIndex, line);
        EmitLine(lineIndex, line, prevState, warnings);
      case InGeneratedBlock =>
        warnings := CheckGeneratedEnd(lineIndex, line);
        if StateOf(currentCandidate) == Init {
          EmitLine(lineIndex, line, prevState, warnings);
        }
    }

    /** One turn of the line loop of `parse`: line `n` after the first `n`. */
    method ParseNext(ghost start: Option<Candidate>, ghost before: seq<Item>, lines: seq<string>, n: nat)
      requires Valid() && WellFormed(start) && n < |lines|
      requires var run := Run(patterns, load, start, lines[..n]);
        currentCandidate == run.candidate && items == before + run.emitted
      modifies this`currentCandidate, this`items
      ensures Valid()
      ensures var run := Run(patterns, load, start, lines[..n + 1]);
        currentCandidate == run.candidate && items == before + run.emitted
    {
      ghost var prev := Run(patterns, load, start, lines[..n]);
      ghost var next := Step(patterns, load, prev.candidate, n, lines[n]);
      RunPrefix(patterns, load, start, lines, n);
      AppendAssoc(before, prev.emitted, next.emitted);
      ParseLine(n, lines[n]);
    }

    /** The line loop of `parse`: every line in order, numbered from 0. */
    method ParseLines(lines: seq<string>)
      requires Valid()
      modifies this`currentCandidate, this`items
      ensures Valid()
      ensures var run := Run(patterns, load, old(currentCandidate), lines);
        currentCandidate == run.candidate && items == old(items) + run.emitted
    {
      var lineIndex := 0;
      while lineIndex < |lines|
        invariant 0 <= lineIndex <= |lines|
        invariant Valid()
        invariant var run := Run(patterns, load, old(currentCandidate), lines[..lineIndex]);
          currentCandidate == run.candidate && items == old(items) + run.emitted
      {
        ParseNext(old(currentCandidate), old(items), lines, lineIndex);
        lineIndex := lineIndex + 1;
      }
      assert lines[..lineIndex] == lines;
    }

    /** `parse`: every line, then the end-of-input check. */
    method Parse(lines: seq<string>) returns (r: Result<(), string>)
      requires Valid()
      modifies this`currentCandidate, this`items
      ensures Valid()
      ensures var run := Run(patterns, load, old(currentCandidate), lines);
        currentCandidate == run.candidate && items == old(items) + run.emitted
      ensures r == EndOfInput(currentCandidate)
    {
      ParseLines(lines);
      match ParserStateOf(currentCandidate)
      case Ok(Init) => r := Ok(());
      case Ok(_) => r := Err(EndOfFileMessage);
      case Err(e) => r := Err(e);
    }
  }
}
