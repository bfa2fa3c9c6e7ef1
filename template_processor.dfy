/** The rewriting pass of `src/TemplateProcessor.ts`: every item the scanner
    emits is written back in order, each parsed block replaced by what its
    generator produces, and `didChange` records whether any block differs
    from the content already in the file.

    The write stream is the sequence of chunks written to it. The calls the
    processor's reporter and the locator's reporter receive are kept in one
    log, held by the locator; `BufferWarning` and `ReportWarning` tell them
    apart. The temporary file, the read stream and logging are left out. */
module TemplateProcessor {
  import opened Common
  import opened Warnings
  import opened CommentParser
  import opened GeneratorLocator

  // ---------------------------------------------------------------------
  // Newline normalisation: text.replace(/\r\n/gm, "\n")

  /** Every `\r\n` replaced by `\n`, scanning left to right. */
  function NormaliseNewlines(s: string): (r: string)
    ensures |r| <= |s|
  {
    if |s| >= 2 && s[0] == '\r' && s[1] == '\n' then "\n" + NormaliseNewlines(s[2..])
    else if s == [] then []
    else [s[0]] + NormaliseNewlines(s[1..])
  }

  /** Reference definition: drop every carriage return that a line feed
      follows, keep every other character. */
  function DropCarriageReturns(s: string): string
  {
    if s == [] then []
    else (if s[0] == '\r' && |s| >= 2 && s[1] == '\n' then [] else [s[0]]) + DropCarriageReturns(s[1..])
  }

  /** The replacement removes exactly the carriage returns that precede a
      line feed: matches of `\r\n` cannot overlap. */
  lemma {:induction false} NormaliseDropsCarriageReturns(s: string)
    ensures NormaliseNewlines(s) == DropCarriageReturns(s)
    decreases |s|
  {
    if |s| >= 2 && s[0] == '\r' && s[1] == '\n' {
      NormaliseDropsCarriageReturns(s[2..]);
      assert s[1..][1..] == s[2..];
    } else if s != [] {
      NormaliseDropsCarriageReturns(s[1..]);
    }
  }

  predicate NoCarriageReturn(s: string)
  {
    forall i :: 0 <= i < |s| ==> s[i] != '\r'
  }

  /** Text without carriage returns is left alone. */
  lemma {:induction false} NormaliseFixpoint(s: string)
    requires NoCarriageReturn(s)
    ensures NormaliseNewlines(s) == s
    decreases |s|
  {
    if s != [] {
      assert NoCarriageReturn(s[1..]) by {
        forall i | 0 <= i < |s[1..]| ensures s[1..][i] != '\r' {
          assert s[1..][i] == s[i + 1];
        }
      }
      NormaliseFixpoint(s[1..]);
      assert [s[0]] + s[1..] == s;
    }
  }

  const CrLf: string := "\r\n"
  const Lf: string := "\n"

  lemma NormaliseLeadingCrLf(t: string)
    ensures NormaliseNewlines(CrLf + t) == Lf + NormaliseNewlines(t)
  {
    assert (CrLf + t)[2..] == t;
  }

  /** A character that does not start `\r\n` is copied. */
  lemma NormaliseCons(c: char, t: string)
    requires c != '\r' || t == [] || t[0] != '\n'
    ensures NormaliseNewlines([c] + t) == [c] + NormaliseNewlines(t)
  {
    assert ([c] + t)[1..] == t;
  }

  /** Normalising a concatenation normalises the parts, when the first part
      does not end in a carriage return (no `\r\n` straddles the seam). */
  lemma {:induction false} NormaliseAppend(a: string, b: string)
    requires a == [] || a[|a| - 1] != '\r'
    ensures NormaliseNewlines(a + b) == NormaliseNewlines(a) + NormaliseNewlines(b)
    decreases |a|
  {
    if a == [] {
      assert a + b == b;
    } else if |a| >= 2 && a[0] == '\r' && a[1] == '\n' {
      var u := a[2..];
      calc {
        NormaliseNewlines(a + b);
        { assert a + b == CrLf + (u + b); }
        NormaliseNewlines(CrLf + (u + b));
        { NormaliseLeadingCrLf(u + b); }
        Lf + NormaliseNewlines(u + b);
        { NormaliseAppend(u, b); }
        Lf + (NormaliseNewlines(u) + NormaliseNewlines(b));
        (Lf + NormaliseNewlines(u)) + NormaliseNewlines(b);
        { NormaliseLeadingCrLf(u); assert a == CrLf + u; }
        NormaliseNewlines(a) + NormaliseNewlines(b);
      }
    } else {
      var c, u := a[0], a[1..];
      calc {
        NormaliseNewlines(a + b);
        { assert a + b == [c] + (u + b); }
        NormaliseNewlines([c] + (u + b));
        { NormaliseCons(c, u + b); }
        [c] + NormaliseNewlines(u + b);
        { NormaliseAppend(u, b); }
        [c] + (NormaliseNewlines(u) + NormaliseNewlines(b));
        ([c] + NormaliseNewlines(u)) + NormaliseNewlines(b);
        { NormaliseCons(c, u); assert a == [c] + u; }
        NormaliseNewlines(a) + NormaliseNewlines(b);
      }
    }
  }

  lemma JoinCons(lines: seq<string>, sep: string)
    requires |lines| > 1
    ensures Join(lines, sep) == lines[0] + (sep + Join(lines[1..], sep))
  {
  }

  /** Lines joined with CRLF endings normalise to the same lines joined with
      LF, when no line holds a carriage return. */
  lemma {:induction false} NormaliseCrlfJoin(lines: seq<string>)
    requires forall k :: 0 <= k < |lines| ==> NoCarriageReturn(lines[k])
    ensures NormaliseNewlines(Join(lines, CrLf)) == Join(lines, Lf)
    decreases |lines|
  {
    if |lines| == 1 {
      NormaliseFixpoint(lines[0]);
    } else if |lines| > 1 {
      var head := lines[0];
      var rest := Join(lines[1..], CrLf);
      NormaliseCrlfJoin(lines[1..]);
      NormaliseFixpoint(head);
      JoinCons(lines, CrLf);
      JoinCons(lines, Lf);
      assert head == [] || head[|head| - 1] != '\r';
      NormaliseAppend(head, CrLf + rest);
      NormaliseLeadingCrLf(rest);
    }
  }

  /** The replacement is a single pass, not a fixpoint: a carriage return
      before `\r\n` survives and forms a new `\r\n`. */
  lemma NormaliseSinglePass()
    ensures NormaliseNewlines("\r\r\n") == "\r\n"
    ensures NormaliseNewlines(NormaliseNewlines("\r\r\n")) == "\n"
  {
    assert "\r\r\n"[1..] == "\r\n";
    assert "\r\n"[2..] == "";
  }

  // ---------------------------------------------------------------------
  // One parsed block

  /** A generator renders a parsed block, or throws. */
  type Generator = Directive -> Result<string, JsError>

  /** Calling the undefined value `locate` yields for an unresolved name. */
  const NotAFunction: JsError := JsError(None, Some("generate is not a function"))

  /** The chunk written for a block and whether it counts as a change. */
  datatype Rendered = Rendered(chunk: string, changed: bool)

  /** The comparison of `processParsedBlock`: the generated text, CRLF
      normalised, against the previous content lines joined with `\n`. */
  function RenderBlock(block: Directive, text: string): (r: Rendered)
    ensures r.chunk == NormaliseNewlines(text)
    ensures r.changed <==> NormaliseNewlines(text) != Join(block.currentContent, "\n")
    ensures !r.changed ==> r.chunk == Join(block.currentContent, "\n")
  {
    var generated := NormaliseNewlines(text);
    var previous := Join(block.currentContent, "\n");
    if generated == previous then Rendered(previous, false) else Rendered(generated, true)
  }

  /** The joined previous content carries no final newline, so generated
      text that ends with one after the same lines is always a change. */
  lemma FinalNewlineIsChange(block: Directive, text: string)
    requires NormaliseNewlines(text) == Join(block.currentContent, "\n") + "\n"
    ensures RenderBlock(block, text).changed
    ensures RenderBlock(block, text).chunk == Join(block.currentContent, "\n") + "\n"
  {
  }

  /** The state the processing pass changes: the `didChange` flag, the
      chunks written, and the locator, whose log also receives the
      processor's reporter calls. */
  datatype ProcessorState = ProcessorState(didChange: bool, written: seq<string>, locator: LocatorState<Generator>)

  /** What handling one item returns and the state it leaves. */
  datatype Outcome = Outcome(result: Result<(), JsError>, state: ProcessorState)

  /** `processParsedBlock` from state `s`: locate the generator by the
      block's template name (no file path), run it, and write the rendered
      chunk; a failed lookup or generator is an error and writes nothing. */
  function BlockStep(option: GeneratorsDirOption, host: Host<Generator>, s: ProcessorState, block: Directive): Outcome
  {
    var located := LocateStep(option, s.locator, block.templateName, None, host);
    var s1 := s.(locator := located.state);
    match located.result
    case Err(e) => Outcome(Err(e), s1)
    case Ok(None) => Outcome(Err(NotAFunction), s1)
    case Ok(Some(generate)) =>
      match generate(block)
      case Err(e) => Outcome(Err(e), s1)
      case Ok(text) =>
        var rendered := RenderBlock(block, text);
        Outcome(Ok(()), s1.(didChange := s1.didChange || rendered.changed, written := s1.written + [rendered.chunk]))
  }

  /** `processItem` from state `s`: a line is written back with a newline and
      its warnings, if any, go to the reporter; a parsed block is rendered. */
  function ItemStep(option: GeneratorsDirOption, host: Host<Generator>, s: ProcessorState, item: Item): Outcome
  {
    match item
    case Line(lineIndex, data, _, _, warnings) =>
      var s1 := s.(written := s.written + [data + "\n"]);
      if warnings == [] then Outcome(Ok(()), s1)
      else Outcome(Ok(()), s1.(locator := s1.locator.(reports := s1.locator.reports + [ReportWarning(lineIndex, data, warnings)])))
    case ParsedBlock(block, _) => BlockStep(option, host, s, block)
  }

  /** `processComments`: every item in order, each after the previous one;
      an error does not stop the chain, and the first error is the result. */
  function ProcessItems(option: GeneratorsDirOption, host: Host<Generator>, s: ProcessorState, items: seq<Item>): Outcome
    decreases |items|
  {
    if items == [] then Outcome(Ok(()), s)
    else
      var prev := ProcessItems(option, host, s, items[..|items| - 1]);
      var next := ItemStep(option, host, prev.state, items[|items| - 1]);
      Outcome(if prev.result.Err? then prev.result else next.result, next.state)
  }

  /** Processing `items + more` is processing `items`, then `more` from where
      it left off; an error in `items` stays the result. */
  lemma {:induction false} ProcessItemsAppend(option: GeneratorsDirOption, host: Host<Generator>, s: ProcessorState,
                                              items: seq<Item>, more: seq<Item>)
    ensures var first := ProcessItems(option, host, s, items);
      var second := ProcessItems(option, host, first.state, more);
      var all := ProcessItems(option, host, s, items + more);
      all.state == second.state
      && all.result == (if first.result.Err? then first.result else second.result)
    decreases |more|
  {
    if more == [] {
      assert items + more == items;
    } else {
      var init := more[..|more| - 1];
      ProcessItemsAppend(option, host, s, items, init);
      assert (items + more)[..|items + more| - 1] == items + init;
    }
  }

  /** `didChange` is never reset by processing items. */
  lemma {:induction false} DidChangeSticks(option: GeneratorsDirOption, host: Host<Generator>, s: ProcessorState, items: seq<Item>)
    requires s.didChange
    ensures ProcessItems(option, host, s, items).state.didChange
    decreases |items|
  {
    if items != [] {
      DidChangeSticks(option, host, s, items[..|items| - 1]);
    }
  }

  /** Whether a block, handled in state `s`, renders a change: its generator
      is found and runs, and its output differs from the previous content. */
  predicate BlockChanges(option: GeneratorsDirOption, host: Host<Generator>, s: ProcessorState, block: Directive)
  {
    var located := LocateStep(option, s.locator, block.templateName, None, host);
    located.result.Ok? && located.result.value.Some?
    && var generated := located.result.value.value(block);
       generated.Ok? && RenderBlock(block, generated.value).changed
  }

  /** Item `k` of `items` is a block that renders a change in the state the
      items before it leave. */
  predicate ChangedAt(option: GeneratorsDirOption, host: Host<Generator>, s: ProcessorState, items: seq<Item>, k: nat)
    requires k < |items|
  {
    items[k].ParsedBlock?
    && BlockChanges(option, host, ProcessItems(option, host, s, items[..k]).state, items[k].block)
  }

  /** One item sets `didChange` exactly when it is a block that renders a
      change; otherwise the flag keeps its value. */
  lemma ItemDidChange(option: GeneratorsDirOption, host: Host<Generator>, s: ProcessorState, it: Item)
    ensures ItemStep(option, host, s, it).state.didChange
      == (s.didChange || (it.ParsedBlock? && BlockChanges(option, host, s, it.block)))
  {
  }

  /** After processing `items`, `didChange` is set exactly when it was set
      before or some block rendered a change: a file whose blocks all
      regenerate their previous content leaves the flag as it was. */
  lemma {:induction false} DidChangeIff(option: GeneratorsDirOption, host: Host<Generator>, s: ProcessorState, items: seq<Item>)
    ensures ProcessItems(option, host, s, items).state.didChange
      == (s.didChange || exists k: nat :: k < |items| && ChangedAt(option, host, s, items, k))
    decreases |items|
  {
    if items != [] {
      var last := |items| - 1;
      var init := items[..last];
      DidChangeIff(option, host, s, init);
      var prev := ProcessItems(option, host, s, init);
      ItemDidChange(option, host, prev.state, items[last]);
      assert items[..last] == init;
      forall k: nat | k < last
        ensures ChangedAt(option, host, s, items, k) == ChangedAt(option, host, s, init, k)
      {
        assert items[..k] == init[..k];
        assert items[k] == init[k];
      }
      assert ChangedAt(option, host, s, items, last)
        == (items[last].ParsedBlock? && BlockChanges(option, host, prev.state, items[last].block));
    }
  }

  /** What writing back the lines of `items` produces: each line's data
      followed by a newline, in order. */
  function LineChunks(items: seq<Item>): seq<string>
  {
    if items == [] then []
    else
      var it := items[|items| - 1];
      LineChunks(items[..|items| - 1]) + (if it.Line? then [it.data + "\n"] else [])
  }

  /** The warnings forwarded for the lines of `items`: one call per line
      with a non-empty list, carrying its index and text. */
  function Forwarded(items: seq<Item>): seq<ReporterCall>
  {
    if items == [] then []
    else
      var it := items[|items| - 1];
      Forwarded(items[..|items| - 1])
      + (if it.Line? && it.warnings != [] then [ReportWarning(it.lineIndex, it.data, it.warnings)] else [])
  }

  /** The reporter call a line item causes, if any. */
  function LineReport(it: Item): seq<ReporterCall>
    requires it.Line?
  {
    if it.warnings != [] then [ReportWarning(it.lineIndex, it.data, it.warnings)] else []
  }

  lemma LineItemStep(option: GeneratorsDirOption, host: Host<Generator>, s: ProcessorState, it: Item)
    requires it.Line?
    ensures ItemStep(option, host, s, it)
      == Outcome(Ok(()), s.(written := s.written + [it.data + "\n"],
                            locator := s.locator.(reports := s.locator.reports + LineReport(it))))
  {
  }

  /** Items that are all lines are copied through unchanged: no error, no
      change, nothing located, and only their warnings reported. */
  lemma {:induction false} LinesCopiedThrough(option: GeneratorsDirOption, host: Host<Generator>, s: ProcessorState, items: seq<Item>)
    requires forall k :: 0 <= k < |items| ==> items[k].Line?
    ensures var r := ProcessItems(option, host, s, items);
      r.result == Ok(()) && r.state.didChange == s.didChange
      && r.state.written == s.written + LineChunks(items)
      && r.state.locator == s.locator.(reports := s.locator.reports + Forwarded(items))
    decreases |items|
  {
    if items != [] {
      var init := items[..|items| - 1];
      var it := items[|items| - 1];
      assert forall k :: 0 <= k < |init| ==> init[k] == items[k];
      LinesCopiedThrough(option, host, s, init);
      var prev := ProcessItems(option, host, s, init);
      LineItemStep(option, host, prev.state, it);
      assert Forwarded(items) == Forwarded(init) + LineReport(it);
      assert LineChunks(items) == LineChunks(init) + [it.data + "\n"];
    }
  }

  /** A block whose generator reproduces its previous content exactly leaves
      `didChange` alone and writes that content back. */
  lemma UnchangedBlock(option: GeneratorsDirOption, host: Host<Generator>, s: ProcessorState, block: Directive,
                       generate: Generator)
    requires LocateStep(option, s.locator, block.templateName, None, host).result == Ok(Some(generate))
    requires generate(block).Ok? && NormaliseNewlines(generate(block).value) == Join(block.currentContent, "\n")
    ensures var r := BlockStep(option, host, s, block);
      r.result == Ok(()) && r.state.didChange == s.didChange
      && r.state.written == s.written + [Join(block.currentContent, "\n")]
  {
  }

  /** Processing a single item is one `ItemStep`. */
  lemma ProcessOne(option: GeneratorsDirOption, host: Host<Generator>, s: ProcessorState, it: Item)
    ensures ProcessItems(option, host, s, [it]) == ItemStep(option, host, s, it)
  {
    assert [it][..0] == [];
  }

  lemma ConcatPair(a: string, b: string)
    ensures Concat([a, b]) == a + b
  {
    assert [a, b][1..] == [b];
    assert [b][1..] == [];
    assert Concat([b]) == b + Concat([]);
    assert b + "" == b;
  }

  /** A join ends with its last part. */
  lemma {:induction false} JoinEndsWithLast(parts: seq<string>, sep: string)
    requires parts != []
    ensures EndsWith(Join(parts, sep), parts[|parts| - 1])
    decreases |parts|
  {
    if |parts| > 1 {
      JoinEndsWithLast(parts[1..], sep);
      var rest := Join(parts[1..], sep);
      var last := parts[|parts| - 1];
      assert parts[1..][|parts[1..]| - 1] == last;
      var whole := parts[0] + sep + rest;
      assert whole[|whole| - |last|..] == rest[|rest| - |last|..];
    }
  }

  /** A block written back unchanged carries no final newline, so the end
      line that follows it is written on the same output line as the block's
      last line: the output continues with that last line and then the end
      line directly. */
  lemma UnchangedBlockGluesEndLine(option: GeneratorsDirOption, host: Host<Generator>, s: ProcessorState,
                                   block: Directive, generate: Generator, st: ParserState, idx: nat, endLine: string)
    requires LocateStep(option, s.locator, block.templateName, None, host).result == Ok(Some(generate))
    requires generate(block).Ok? && NormaliseNewlines(generate(block).value) == Join(block.currentContent, "\n")
    requires block.currentContent != []
    ensures var r := ProcessItems(option, host, s, [ParsedBlock(block, st), Line(idx, endLine, Init, true, [])]);
      var content := Join(block.currentContent, "\n");
      r.result == Ok(())
      && r.state.written == s.written + [content, endLine + "\n"]
      && Concat(r.state.written) == Concat(s.written) + content + (endLine + "\n")
      && EndsWith(content, block.currentContent[|block.currentContent| - 1])
  {
    var blockItem, endItem := ParsedBlock(block, st), Line(idx, endLine, Init, true, []);
    var content := Join(block.currentContent, "\n");
    UnchangedBlock(option, host, s, block, generate);
    ProcessOne(option, host, s, blockItem);
    var first := ItemStep(option, host, s, blockItem);
    ProcessOne(option, host, first.state, endItem);
    LineItemStep(option, host, first.state, endItem);
    ProcessItemsAppend(option, host, s, [blockItem], [endItem]);
    assert [blockItem] + [endItem] == [blockItem, endItem];
    ConcatAppend(s.written, [content, endLine + "\n"]);
    ConcatPair(content, endLine + "\n");
    JoinEndsWithLast(block.currentContent, "\n");
  }

  // ---------------------------------------------------------------------
  // The processor object

  class Processor {
    /** The locator, whose log also receives this processor's reporter
        calls. */
    const locator: Locator<Generator>
    /** The foreign functions the locator calls. */
    const host: Host<Generator>
    /** Whether any block's generated content differs from the file's. */
    var didChange: bool
    /** The chunks written to the output stream, in order. */
    var written: seq<string>

    constructor (locator: Locator<Generator>, host: Host<Generator>)
      ensures this.locator == locator && this.host == host
      ensures didChange == false && written == []
    {
      this.locator := locator;
      this.host := host;
      didChange := false;
      written := [];
    }

    function State(): ProcessorState
      reads this, locator
    {
      ProcessorState(didChange, written, locator.State())
    }

    /** `processParsedBlock`. */
    method ProcessParsedBlock(block: Directive) returns (r: Result<(), JsError>)
      modifies this`didChange, this`written, locator`cache, locator`reports, locator`attempts
      ensures BlockStep(locator.generatorsDirOption, host, old(State()), block) == Outcome(r, State())
    {
      var located := locator.Locate(block.templateName, None, host);
      match located {
        case Err(e) =>
          return Err(e);
        case Ok(None) =>
          return Err(NotAFunction);
        case Ok(Some(generate)) =>
          match generate(block) {
            case Err(e) =>
              return Err(e);
            case Ok(text) =>
              var generated := NormaliseNewlines(text);
              var previous := Join(block.currentContent, "\n");
              if generated == previous {
                written := written + [previous];
              } else {
                didChange := true;
                written := written + [generated];
              }
              r := Ok(());
          }
      }
    }

    /** `processItem`. */
    method ProcessItem(item: Item) returns (r: Result<(), JsError>)
      modifies this`didChange, this`written, locator`cache, locator`reports, locator`attempts
      ensures ItemStep(locator.generatorsDirOption, host, old(State()), item) == Outcome(r, State())
    {
      match item {
        case Line(lineIndex, data, _, _, warnings) =>
          written := written + [data + "\n"];
          if warnings != [] {
            locator.reports := locator.reports + [ReportWarning(lineIndex, data, warnings)];
          }
          r := Ok(());
        case ParsedBlock(block, _) =>
          r := ProcessParsedBlock(block);
      }
    }

    /** `processComments`: the promise chain over the items, in order; the
        first error is kept and the remaining items are still processed. */
    method ProcessComments(items: seq<Item>) returns (r: Result<(), JsError>)
      modifies this`didChange, this`written, locator`cache, locator`reports, locator`attempts
      ensures ProcessItems(locator.generatorsDirOption, host, old(State()), items) == Outcome(r, State())
    {
      r := Ok(());
      var i := 0;
      while i < |items|
        invariant 0 <= i <= |items|
        invariant ProcessItems(locator.generatorsDirOption, host, old(State()), items[..i]) == Outcome(r, State())
      {
        assert items[..i + 1][..i] == items[..i];
        var step := ProcessItem(items[i]);
        if r.Ok? {
          r := step;
        }
        i := i + 1;
      }
      assert items[..i] == items;
    }

    /** `process`: reset `didChange` and the output, scan the lines, and
        process the items; an item's error comes first, then the scanner's
        end-of-input error. */
    method Process(patterns: Patterns, load: Loader, lines: seq<string>) returns (r: Result<(), JsError>)
      modifies this`didChange, this`written, locator`cache, locator`reports, locator`attempts
      ensures var run := Run(patterns, load, None, lines);
        var out := ProcessItems(locator.generatorsDirOption, host,
                                ProcessorState(false, [], old(locator.State())), run.emitted);
        State() == out.state
        && r == (if out.result.Err? then out.result
                 else match EndOfInput(run.candidate)
                      case Ok(_) => Ok(())
                      case Err(message) => Err(JsError(None, Some(message))))
    {
      didChange := false;
      written := [];
      ghost var start := State();
      assert start == ProcessorState(false, [], old(locator.State()));
      var parser := new Parser(patterns, load);
      var parsed := parser.Parse(lines);
      ghost var run := Run(patterns, load, None, lines);
      assert parser.items == run.emitted && parsed == EndOfInput(run.candidate);
      assert State() == start;
      var processed := ProcessComments(parser.items);
      if processed.Err? {
        return processed;
      }
      match parsed {
        case Ok(_) => r := Ok(());
        case Err(message) => r := Err(JsError(None, Some(message)));
      }
    }
  }
}
