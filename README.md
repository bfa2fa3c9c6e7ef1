# InGenR directive pipeline, modelled in Dafny

InGenR rewrites source files in place. It finds comment blocks of the form
`/*! InGenR:expand <template> … */ … /*! InGenR:end */`, runs the named
generator over the arguments written in the comment, and replaces the lines
between the two comments with the generated text. This project models the
core of that pipeline and proves properties of the model:

- `comment_parser.dfy` (module `CommentParser`) models the line scanner of
  `src/CommentParser.ts`. It is a single-candidate state machine
  (`INIT → IN_ARGS_BLOCK → IN_GENERATED_BLOCK → INIT`) whose state is derived
  from the one mutable `currentCandidate`. It emits an ordered stream of `LINE`
  and `PARSED_BLOCK` items. `Step` specifies one call of `parseLine` and `Run`
  specifies a whole input. The class `Parser` holds the fields the source
  mutates, and its methods are proved against those functions.
- `scanner_properties.dfy` (module `ScannerProperties`) holds the lemmas about
  the scanner: how each state treats a line, how the argument body is split
  and loaded, and the order and content of the emitted items.
- `matchers.dfy` (module `Matchers`) writes the patterns of `src/matchers.ts`
  out as recognisers with the captures they report:
  - `expandDirectiveRegex`, including its backtracking over the name list;
  - `directiveEndRegex`;
  - `commentStartRegex` and `blockBodyLineRegex`, for the default comment
    fragments.

  `MatchersExamples` holds a concrete backtracking case.
- `warnings.dfy` (module `Warnings`) models the warning record of
  `src/warnings.ts`, its two factories, and the calls a reporter receives.
- `generator_locator.dfy` (module `GeneratorLocator`) models
  `src/GeneratorLocator.ts`:
  - the template-name grammar of `validateName`;
  - the `generatorsDir` option;
  - the candidate list and `require` loop of `locate`;
  - the generator cache, which `bootstrap` fills and `locate` consults.

  `LocateStep` specifies `locate`, and the class `Locator` is proved against it.
- `template_processor.dfy` (module `TemplateProcessor`) models the rewriting
  pass of `src/TemplateProcessor.ts`:
  - every item is written back in order;
  - each parsed block is replaced by its generator's output, with CRLF
    normalised to LF;
  - the `didChange` flag records whether any block differs from the content
    already in the file.

  `ItemStep` and `ProcessItems` are the specification, and the class
  `Processor` is proved against them.
- `common.dfy` (module `Common`) holds shared helpers:
  - `Option` and `Result`;
  - JavaScript's `trim`, `trimStart` and `trimEnd`;
  - `join`.

## How the model represents the source

- **Foreign code becomes parameters.** Three kinds of foreign code enter as
  function-valued parameters:
  - The scanner's four regular expressions (a `Patterns` record that returns
    optional match records) and `yaml.safeLoad` (a `Loader` that returns a
    `Result`).
  - Node's `require`, `path.resolve` and doT's compilation of the generators
    directory (a `Host` record).
  - Generators. A generator returns a `Result`, and its `Err` case stands for
    a thrown exception.
- **The scanner uses its own patterns.** `CommentParser` compiles its own
  patterns in its constructor and does not use `getMatchers`. For that
  reason the scanner model takes its patterns abstractly, and `Matchers` is
  a separate model of `getMatchers`.
- **Two patterns take no options.** `ExpandDirective` and `IsDirectiveEnd`
  take no parse options, because those two patterns never depend on them.
- **Streams and events become sequences.**
  - The input stream becomes a sequence of lines.
  - The emitted items become the field `Parser.items`.
  - The write stream becomes the sequence of written chunks,
    `Processor.written`.
  - Reporters become a log of `ReporterCall`s, kept in `Locator.reports`.
    The locator's `bufferWarning` calls and the processor's `reportWarning`
    calls go into this one log, and `BufferWarning` and `ReportWarning` tell
    them apart. This merging is a modelling choice.
- **Quirks are kept as written:**
  - The previous content is joined with `\n` and has no final newline, so
    generated text that ends with a newline after the same lines counts as a
    change (`FinalNewlineIsChange`).
  - A block's chunk is written with no final newline, and the end line's
    `LINE` is written straight after it. So the block's last line and the end
    line come out on one output line (`UnchangedBlockGluesEndLine`). Whether
    the scanner's end pattern then rejects that line on a later run depends on
    the pattern, which the model keeps abstract.
  - `processParsedBlock` calls `locate` without a file path.
  - An unresolved generator makes the call `generate(block)` throw, which
    `NotAFunction` stands for.
  - A module whose `required.default || required` is falsy (an export of
    `false`, `0` or `""`) loads as `Loaded(None)`. Because the loop has no
    break, it replaces a generator that an earlier candidate loaded, and
    `locate` then buffers "Failed to resolve generator" (`BareNameWins`,
    `ResolveNothingIff`).
  - Through `.catch(reject)`, the items after a failing one are still
    processed, and the first error is the result.
  - In `IN_GENERATED_BLOCK`, an end line with extra content, or one whose
    arguments fail to load, produces no item. Its warnings are never seen.

## Model

| member | source | states |
|---|---|---|
| Warnings.WarnInterpolated | src/warnings.ts:9-16 | the entry's index is the given column unchanged, it has no error, and its message is the fixed text ending in "This directive will be discarded." |
| Warnings.WarnInvalidArgBody | src/warnings.ts:18-22 | the entry has no index and no error, and its message is the fixed text ending in "This line will be discarded." |
| CommentParser.ParserStateOf | src/CommentParser.ts:71-82 | the state is derived from the candidate: INIT iff there is none, IN_ARGS_BLOCK iff it has no start index, IN_GENERATED_BLOCK iff it has a start index and no end index, and the "Invalid state encountered" error iff it has both |
| CommentParser.FindMention | src/CommentParser.ts:127 | a position it returns is at or after the starting point and is where `InGenR:` followed by a non-space character occurs |
| CommentParser.FindMentionLeftmost | src/CommentParser.ts:127-128 | the position found is the leftmost such occurrence, and nothing is found only when there is no occurrence at all |
| CommentParser.LineItem | src/CommentParser.ts:106-124 | the `LINE` item carries the line index, the line verbatim and the new state, and `didProcess` is true iff the state changed across the line |
| CommentParser.FindSeparator | src/CommentParser.ts:205 | the index found is within the argument lines |
| CommentParser.FindSeparatorFirst | src/CommentParser.ts:205 | the index found is the first line whose trim is `---`, and nothing is found only when no line trims to `---` |
| CommentParser.ParseArgsBody | src/CommentParser.ts:222-226 | an absent or empty body is null and never an error; any other body is exactly what the loader makes of it |
| CommentParser.StepFromInit | src/CommentParser.ts:89-91 | from INIT the candidate left behind never carries an end index |
| CommentParser.StepInArgs | src/CommentParser.ts:93-95 | from IN_ARGS_BLOCK the candidate left behind never carries an end index |
| CommentParser.StepInGenerated | src/CommentParser.ts:97-102 | from IN_GENERATED_BLOCK the candidate left behind never carries an end index |
| CommentParser.Step | src/CommentParser.ts:84-104 | `parseLine` from a well-formed candidate leaves a well-formed one (never both bounds, so the "Invalid state" error cannot arise) |
| CommentParser.Run | src/CommentParser.ts:233-237 | scanning a whole input from a well-formed candidate leaves a well-formed one |
| CommentParser.RunPrefix | src/CommentParser.ts:234-237 | scanning the first n + 1 lines is scanning the first n, then `parseLine(n, line n)` |
| CommentParser.EndOfInput | src/CommentParser.ts:239-246 | the end-of-input check succeeds iff there is no candidate, and otherwise fails with "Unexpected End of File while parsing" |
| CommentParser.Parser.constructor | src/CommentParser.ts:49-69 | a new scanner has no candidate and has emitted nothing |
| CommentParser.Parser.CheckBlockStart | src/CommentParser.ts:137-153 | no match or an empty name leaves INIT silently; a match that does not span the trimmed line pushes the interpolated warning at the match column; otherwise it opens a candidate whose start index is the next line iff the comment closes on the same line; this agrees with `StepFromInit` |
| CommentParser.Parser.AccumulateArgs | src/CommentParser.ts:155-166 | a line with the comment end sets the start index to the next line and keeps nothing; a body line appends its capture to the argument lines; any other line pushes the invalid-argument warning; this agrees with `StepInArgs` |
| CommentParser.Parser.CheckGeneratedEnd | src/CommentParser.ts:168-201 | a non-end line is captured; an end line with extra content pushes the interpolated warning; failing arguments push the argument failure warning; otherwise it emits one `PARSED_BLOCK` ending at this line with the captured lines and clears the candidate; this agrees with `StepInGenerated` |
| CommentParser.Parser.EmitLine | src/CommentParser.ts:106-124 | appends exactly one `LINE` item for the line, with the state after it |
| CommentParser.Parser.ParseLine | src/CommentParser.ts:84-104 | the new candidate and the appended items are those `Step` gives for the old candidate |
| CommentParser.Parser.ParseNext | src/CommentParser.ts:234-237 | one turn of the line loop extends the scan of the first n lines to the first n + 1 |
| CommentParser.Parser.ParseLines | src/CommentParser.ts:233-237 | the line loop numbers the lines from 0 and leaves the candidate and items that `Run` gives |
| CommentParser.Parser.Parse | src/CommentParser.ts:228-249 | after every line, the result is the end-of-input check on the final candidate |
| ScannerProperties.OpensOnlyOnWholeLine | src/CommentParser.ts:137-148 | from INIT a candidate is opened iff the start match has a non-empty name and spans the whole trimmed line; a named match with extra content leaves INIT with the interpolated warning at the match column; exactly one item is emitted |
| ScannerProperties.SelfClosingStart | src/CommentParser.ts:149-152 | a start line that closes its own comment opens a candidate in IN_GENERATED_BLOCK whose region starts on the next line, with no argument lines |
| ScannerProperties.ArgsLine | src/CommentParser.ts:155-166 | in IN_ARGS_BLOCK a comment-end line starts the region on the next line and adds no argument line; a body line is appended; any other line is dropped with the invalid-argument warning; the line itself is emitted |
| ScannerProperties.GeneratedLineCaptured | src/CommentParser.ts:168-173 | in IN_GENERATED_BLOCK a non-end line is appended to the captured lines and emits nothing |
| ScannerProperties.EndLineFinishes | src/CommentParser.ts:97-102 | a whole-line end match with loadable arguments emits one `PARSED_BLOCK` whose end index is this line and whose content is the captured lines, then the end line as a processed `LINE` in INIT, and clears the candidate |
| ScannerProperties.EndLineRejected | src/CommentParser.ts:174-187 | an end line with extra content, or with arguments that fail to load, leaves the candidate open and emits nothing |
| ScannerProperties.UnprocessedWarningIff | src/CommentParser.ts:126-135 | at most one warning, present iff the line contains `InGenR:` followed by a non-space character, pointing at the leftmost such occurrence, with the fixed message head and no error |
| ScannerProperties.LineItemWarnings | src/CommentParser.ts:112-123 | a `LINE` item keeps its handler's warnings first and gains one more iff the state did not change and the line mentions a directive, pointing at that mention |
| ScannerProperties.SplitAtFirstSeparator | src/CommentParser.ts:205-210 | the lines before the first `---` line form the directive-args body and the lines after it the template-args body, each joined with `\n` |
| ScannerProperties.SplitWithoutSeparator | src/CommentParser.ts:211-213 | without a `---` line all argument lines form the template-args body and there is no directive-args body |
| ScannerProperties.ParseArgsWithoutSeparator | src/CommentParser.ts:203-226 | without a separator the directive args are null and the template args are what the whole body loads to; a load failure is the outcome |
| ScannerProperties.ParseArgsWithSeparator | src/CommentParser.ts:203-226 | with a separator both bodies must load; the template body is loaded first, so its failure is the one reported |
| ScannerProperties.ParseArgsOfNothing | src/CommentParser.ts:222-223 | no argument lines give null template and directive args, whatever the loader does |
| ScannerProperties.StepEmits | src/CommentParser.ts:84-124 | one line emits at most two items, all for that line, and at most one `LINE`, which comes last and carries the line verbatim |
| ScannerProperties.RunSnoc | src/CommentParser.ts:234-237 | scanning one more line is one more `parseLine` |
| ScannerProperties.RunLinesVerbatim | src/CommentParser.ts:116-123 | every emitted item belongs to an input line, and every `LINE` item carries its line verbatim |
| ScannerProperties.RunInOrder | src/CommentParser.ts:234-237 | items come in line order, and no line is emitted twice as a `LINE` |
| ScannerProperties.UnprocessedLines | src/CommentParser.ts:112-123 | there is one item per line |
| ScannerProperties.UnprocessedLinesAt | src/CommentParser.ts:112-123 | the i-th item is line i, verbatim and unprocessed |
| ScannerProperties.RunPassthrough | src/CommentParser.ts:137-139 | an input without a directive start passes through as one unprocessed `LINE` per line, in order, and the scanner stays in INIT |
| ScannerProperties.RunCapturesGenerated | src/CommentParser.ts:168-173 | inside a generated region every following non-end line is captured in order and none is emitted |
| Matchers.LazyBody | src/matchers.ts:14-15 | the lazy body ends at or after where it started, and within the line |
| Matchers.TrimmedBodyEnd | src/matchers.ts:14-16 | the closed-form end lies within the trimmed text |
| Matchers.LazyBodyClosedForm | src/matchers.ts:14-16 | the lazy search ends where the closed form says (before a final `*/`, else before a final `*`, else at the trailing whitespace) unless a line terminator lies before it, in which case there is no match |
| Matchers.LazyBodySound | src/matchers.ts:14-16 | a matched body holds no line terminator and is followed by the comment end and whitespace, or by the right bound |
| Matchers.CommentStartSound | src/matchers.ts:11-19 | a match is anchored at both ends: leading whitespace, the opener, a body without line terminators, then the comment end and whitespace (captured as `commentEnd`) or else the right bound |
| Matchers.CommentStartClosed | src/matchers.ts:11-19 | a line that closes with `*/` reports its body and captures `commentEnd` |
| Matchers.CommentStartStarred | src/matchers.ts:11-19 | a line that ends with a `*` reports the body before the star and no `commentEnd` |
| Matchers.CommentStartOpen | src/matchers.ts:11-19 | a line left open reports its whole body without trailing whitespace and no `commentEnd` |
| Matchers.LeftBoundLen | src/matchers.ts:37 | the left bound lies within the line |
| Matchers.PreCommentEndIff | src/matchers.ts:36 | a line matches through `preCommentEnd` iff it trims to `*/` |
| Matchers.BodyLineBetweenBounds | src/matchers.ts:34-44 | a body line's capture lies between the left bound and the right bound or `postCommentEnd`, and holds no line terminator |
| Matchers.BodyLineStarred | src/matchers.ts:37-39 | a decorated line `* body` reports the body without its decoration and trailing whitespace |
| Matchers.BodyLineClosed | src/matchers.ts:37-39 | a decorated line `* body */` reports the body and captures `postCommentEnd` |
| Matchers.BodyLinePlain | src/matchers.ts:37-39 | an undecorated line reports its body without the surrounding whitespace |
| Matchers.DirectiveEndIff | src/matchers.ts:33 | a line is an end directive iff it trims to `InGenR:end` |
| Matchers.Skip | src/matchers.ts:23-28 | a greedy run ends at or after its start and within the line |
| Matchers.SkipSpec | src/matchers.ts:23-28 | the run passes only characters of its class and stops at one outside it |
| Matchers.SkipRun | src/matchers.ts:23-28 | a run of the class that cannot be extended is the one the greedy scan finds |
| Matchers.NextName | src/matchers.ts:25 | one iteration of the name list, when it matches, ends after its start |
| Matchers.NameListEnds | src/matchers.ts:25 | each iteration end of the greedy star lies after its start |
| Matchers.ChooseNameListEnd | src/matchers.ts:25-29 | the iteration count that backtracking chooses is one whose remainder the config group and the trailing whitespace accept |
| Matchers.ConfigAtToken | src/matchers.ts:28 | the config capture is one non-empty token without whitespace |
| Matchers.AfterKeywordSound | src/matchers.ts:22-29 | after the keyword the template name and the name list are captured together; without them the rest is whitespace and nothing is captured; a template name is a non-empty run of `[^,\s]`; a config path is one token |
| Matchers.ExpandDirectiveSound | src/matchers.ts:20-32 | a match means that after its leading whitespace the line starts with `InGenR:expand`; without a template name the line trims to the keyword and no config is captured; names and config have the shapes above |
| Matchers.BareExpand | src/matchers.ts:21-29 | a bare `InGenR:expand` with only whitespace around it matches with no captures |
| Matchers.ListEnds | src/matchers.ts:25 | the greedy star reads a written name list item by item and stops at its end |
| Matchers.TailStops | src/matchers.ts:28-29 | a written tail stops the name list and is what the config group reads back |
| Matchers.ExpandRoundTrip | src/matchers.ts:20-32 | a directive written from a template name, further names with optional whitespace around their commas, and an optional config token is read back into exactly those parts |
| MatchersExamples.ExpandTrailingComma | src/matchers.ts:25-29 | with a trailing comma the star gives back its iteration, and the config group takes `,b,` |
| GeneratorLocator.SegmentEnd | src/GeneratorLocator.ts:97 | a run of `[a-zA-Z0-9@_-]` ends at or after its start and within the name |
| GeneratorLocator.SegmentEndSpec | src/GeneratorLocator.ts:97 | the run passes only segment characters and stops at another character |
| GeneratorLocator.GroupsMatchIff | src/GeneratorLocator.ts:97 | the repeated group matches exactly the text made of segment characters and slashes that starts with a segment character, where every slash is followed by a segment character or ends the text |
| GeneratorLocator.ValidNameIff | src/GeneratorLocator.ts:96-106 | a name is valid iff it is non-empty, starts and ends with a segment character, and every slash is followed by a segment character (segments separated by single slashes, no trailing slash) |
| GeneratorLocator.JoinedSegmentsValid | src/GeneratorLocator.ts:97 | non-empty segments of `[a-zA-Z0-9@_-]` joined with single slashes form a valid name |
| GeneratorLocator.JoinedSegmentsForm | src/GeneratorLocator.ts:97 | such a join starts and ends with a segment character and has a segment character after every slash |
| GeneratorLocator.NameExamples | src/GeneratorLocator.ts:97 | `@scope/pkg-name` is valid; `a//b`, `a/`, `/a` and the empty name are not |
| GeneratorLocator.GeneratorsDir | src/GeneratorLocator.ts:90-94 | `false` gives no directory, `true` gives `ingenr-generators`, and a string gives itself |
| GeneratorLocator.Requirables | src/GeneratorLocator.ts:62-66 | the bare name is always the last candidate; with a truthy directory the path resolved inside it comes first and there are two candidates, otherwise one |
| GeneratorLocator.MissingModuleExamples | src/GeneratorLocator.ts:72 | Node's "Cannot find module" message is skipped whatever its case; an error without a message or with an empty one is not |
| GeneratorLocator.AttemptedAll | src/GeneratorLocator.ts:67-77 | when the loop completes, `require` was called on every candidate in order |
| GeneratorLocator.ResolveStopsAt | src/GeneratorLocator.ts:71-74 | an error that is not a missing module ends the loop as its outcome, and no later candidate is tried |
| GeneratorLocator.ResolveNothingIff | src/GeneratorLocator.ts:67-78 | the loop finds nothing iff every candidate lets it go on and either every candidate throws a missing-module error or the last candidate that loads has a falsy value |
| GeneratorLocator.ResolveLastLoaded | src/GeneratorLocator.ts:67-77 | the value of the last candidate that loads is the outcome, even when it is falsy, when those before it let the loop go on and those after it are missing |
| GeneratorLocator.ResolveOkIff | src/GeneratorLocator.ts:67-77 | the loop ends without an error iff every candidate loads or throws a missing-module error |
| GeneratorLocator.ResolveFoundFrom | src/GeneratorLocator.ts:67-77 | a found generator was loaded by some candidate, and every candidate after it was missing |
| GeneratorLocator.BareNameWins | src/GeneratorLocator.ts:63-77 | with a generators directory, the value loaded under the bare name wins over a generator in the directory, because the loop has no break; a falsy value discards that generator |
| GeneratorLocator.LocatorWarning | src/GeneratorLocator.ts:79-83 | the warning is buffered for the file with no line index and no line, and it holds one entry that carries only the message |
| GeneratorLocator.MergedKeeps | src/GeneratorLocator.ts:46-49 | a key that no compiled entry sets keeps its cache entry, or its absence |
| GeneratorLocator.MergedLast | src/GeneratorLocator.ts:46-49 | a key is bound to the generator of its last compiled entry |
| GeneratorLocator.LocateKeepsCache | src/GeneratorLocator.ts:57-88 | `locate` never changes or drops a cached generator, caches only under the requested name and only what it returns, only appends to the reporter and `require` logs, and calls no `require` for an invalid or cached name |
| GeneratorLocator.LocateAgain | src/GeneratorLocator.ts:60-61 | once a name has been resolved, locating it again returns the same generator, changes nothing and calls no `require`, whatever the host |
| GeneratorLocator.LocateNothing | src/GeneratorLocator.ts:67-85 | a name that resolves to nothing (every candidate missing, or the last one that loads falsy) buffers one "Failed to resolve generator" warning, is not cached, and tries every candidate |
| GeneratorLocator.LocateFailsFast | src/GeneratorLocator.ts:71-74 | an error other than a missing module from the first candidate propagates: nothing is cached or reported, and only that candidate was tried |
| GeneratorLocator.Locator.constructor | src/GeneratorLocator.ts:29-32 | a new locator has an empty cache and has made no calls |
| GeneratorLocator.Locator.ValidateName | src/GeneratorLocator.ts:96-106 | the answer is `ValidName`, and an invalid name buffers exactly one "Invalid template name" warning |
| GeneratorLocator.Locator.Bootstrap | src/GeneratorLocator.ts:38-55 | without a directory nothing changes; compiled templates are set in the cache in order; a failure leaves the cache unchanged and propagates unless its code is `ENOENT` |
| GeneratorLocator.Locator.Locate | src/GeneratorLocator.ts:57-88 | the result and the new cache, reporter log and `require` log are those `LocateStep` gives |
| GeneratorLocator.Locator.TryCandidates | src/GeneratorLocator.ts:67-77 | the loop's outcome is `Resolve`, and `require` was called on exactly the `Attempted` candidates, in order |
| TemplateProcessor.NormaliseNewlines | src/TemplateProcessor.ts:99 | normalising never lengthens the text |
| TemplateProcessor.NormaliseDropsCarriageReturns | src/TemplateProcessor.ts:99 | replacing `\r\n` by `\n` drops exactly the carriage returns that a line feed follows and keeps every other character |
| TemplateProcessor.NormaliseFixpoint | src/TemplateProcessor.ts:99 | text without carriage returns is left alone |
| TemplateProcessor.NormaliseAppend | src/TemplateProcessor.ts:99 | normalising a concatenation normalises the parts when no `\r\n` straddles the seam |
| TemplateProcessor.NormaliseCrlfJoin | src/TemplateProcessor.ts:99-103 | lines joined with CRLF normalise to the same lines joined with `\n` |
| TemplateProcessor.NormaliseSinglePass | src/TemplateProcessor.ts:99 | the replacement is one pass: `\r\r\n` becomes `\r\n`, and only a second pass gives `\n` |
| TemplateProcessor.RenderBlock | src/TemplateProcessor.ts:99-112 | the chunk written is the normalised generated text; it counts as a change iff it differs from the previous lines joined with `\n` |
| TemplateProcessor.FinalNewlineIsChange | src/TemplateProcessor.ts:101-106 | generated text that is the previous lines plus a final newline is always a change |
| TemplateProcessor.ProcessItemsAppend | src/TemplateProcessor.ts:75-77 | processing `items + more` is processing `items`, then `more` from where it left off, and an error in `items` stays the result |
| TemplateProcessor.DidChangeSticks | src/TemplateProcessor.ts:106-112 | once set, `didChange` is never reset by processing items |
| TemplateProcessor.ItemDidChange | src/TemplateProcessor.ts:85-112 | one item sets `didChange` exactly when it is a block whose generator is found, runs, and renders a change; otherwise the flag keeps its value |
| TemplateProcessor.DidChangeIff | src/TemplateProcessor.ts:75-112 | after a whole sequence of lines and blocks, `didChange` is set iff it was set before or some block, handled in the state the items before it left, rendered a change; so a file whose blocks all regenerate their previous content leaves the flag as it was |
| TemplateProcessor.LineItemStep | src/TemplateProcessor.ts:87-94 | a `LINE` item writes its data followed by `\n` and forwards its warnings only when there are some |
| TemplateProcessor.LinesCopiedThrough | src/TemplateProcessor.ts:85-95 | items that are all lines are copied through in order with no error and no change, nothing is located, and only their non-empty warning lists are reported, with their index and text |
| TemplateProcessor.UnchangedBlock | src/TemplateProcessor.ts:106-107 | a block whose generator reproduces its previous content leaves `didChange` alone and writes that content back |
| TemplateProcessor.UnchangedBlockGluesEndLine | src/TemplateProcessor.ts:88-111 | for a block written back unchanged followed by its end line, the output receives the joined previous content and then the end line with its newline; the content ends with its last line, so that line and the end line share one output line |
| TemplateProcessor.Processor.constructor | src/TemplateProcessor.ts:46-54 | a new processor has written nothing and has no change |
| TemplateProcessor.Processor.ProcessParsedBlock | src/TemplateProcessor.ts:97-113 | the result and the new state are those `BlockStep` gives: locate, generate, normalise, compare and write |
| TemplateProcessor.Processor.ProcessItem | src/TemplateProcessor.ts:85-95 | the result and the new state are those `ItemStep` gives |
| TemplateProcessor.Processor.ProcessComments | src/TemplateProcessor.ts:73-83 | handling the items one after another gives the state and the first error that `ProcessItems` gives |
| TemplateProcessor.Processor.Process | src/TemplateProcessor.ts:56-71 | `didChange` starts false and the output starts empty; the new state is what processing the scanner's items gives; an item's error comes first, then the scanner's end-of-input error |

## Left out

- Streams and the file system: the readline interface, the read and write streams of `process`, and the temporary file. These are replaced by a sequence of input lines and a sequence of written chunks.
- Event wiring and asynchrony: the `EventEmitter` plumbing, promises and `await`. The scanner runs to completion before its items are processed. This gives the same order that the promise chain of `processComments` imposes, because the order of items never depends on processing them.
- Reporters: the one log of `ReporterCall`s stands for two reporters that the source may keep separate. The command line gives the processor its own `ConsoleReporter` and builds the locator from its own options. With two reporters, the order the log records between a locator call and a processor call has no counterpart. The order within each kind of call is what the source produces. The options the command line gives the locator have no `reporter`, so there `this.reporter.bufferWarning` for an invalid or unresolved name throws a `TypeError`. The model's locator always records the warning instead.
- Logging: `debug` and `fancy-log` calls have no effect on the modelled state.
- Parse options: `ParseOptions` other than the defaults, including user-supplied comment fragments. The scanner's own patterns are abstract, and `Matchers` models the default fragments only.
- `yaml.safeLoad`, Node's `require` and `path.resolve`, and doT's compilation are foreign code, kept as abstract functions. A thrown exception is a `Result` error. `Loaded` carries the value of `required.default || required`, as `None` when that value is falsy; which values are truthy is left to the host.
- Generators: a generator call that throws is a `Result` error. A generator that returns a value other than a string is not modelled.
- The reporter's presentation (`src/ConsoleReporter.ts`), the command line, option merging and the processing of several files at once are not part of this model.
- `TemplateProcessor.Processor.Process`: the `Failed to process file` log line and the cleanup of the temporary file on failure are not modelled.
- `GeneratorLocator.Locator.Bootstrap`: the cached wrapper that passes only `templateArgs` to the compiled template is modelled as the compiled generator itself.
- `CommentParser.Parser.Parse`: a stream error rejecting `parse` is not modelled, because the input is a sequence that cannot fail.
- `CommentParser.ParserStateOf`: the "Invalid state encountered" error is modelled, but the scanner never reaches it (`WellFormed` is preserved by every step).
- Strings are sequences of Unicode characters. JavaScript's UTF-16 code units, and so surrogate pairs, are not modelled. `Common.IsSpace` and `Common.IsLineTerminator` are JavaScript's `\s` class and line terminators.
