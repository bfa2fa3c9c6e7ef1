/** Template-name validation and generator lookup (`src/GeneratorLocator.ts`).

    The locator keeps a cache from template names to generators and buffers
    its warnings with the reporter. Node's `require`, `path.resolve` and the
    doT compiler are foreign code: they enter as the function-valued fields
    of a `Host`, and a generator is an abstract value of type `G`. */
module GeneratorLocator {
  import opened Common
  import opened Warnings

  // ---------------------------------------------------------------------
  // Template names: /^([a-zA-Z0-9@_-]+\/?)+$/ and no trailing slash
  // ---------------------------------------------------------------------

  /** A character of the class `[a-zA-Z0-9@_-]`. */
  predicate IsSegmentChar(c: char)
  {
    ('a' <= c <= 'z') || ('A' <= c <= 'Z') || ('0' <= c <= '9') || c == '@' || c == '_' || c == '-'
  }

  predicate AllSegmentChars(s: string)
  {
    forall i :: 0 <= i < |s| ==> IsSegmentChar(s[i])
  }

  /** Where the run of segment characters that starts at `q` ends. */
  function SegmentEnd(s: string, q: nat): (r: nat)
    requires q <= |s|
    ensures q <= r <= |s|
    decreases |s| - q
  {
    if q < |s| && IsSegmentChar(s[q]) then SegmentEnd(s, q + 1) else q
  }

  /** `SegmentEnd` passes only segment characters and stops at another one. */
  lemma {:induction false} SegmentEndSpec(s: string, q: nat)
    requires q <= |s|
    ensures forall i :: q <= i < SegmentEnd(s, q) ==> IsSegmentChar(s[i])
    ensures SegmentEnd(s, q) < |s| ==> !IsSegmentChar(s[SegmentEnd(s, q)])
    decreases |s| - q
  {
    if q < |s| && IsSegmentChar(s[q]) {
      SegmentEndSpec(s, q + 1);
    }
  }

  /** The group `([a-zA-Z0-9@_-]+\/?)+` anchored at the end, from position
      `q`. The class and `/` are disjoint, so each iteration takes a whole run
      and then the slash if one follows; backtracking could only split a run
      across two iterations, which never changes whether the name matches. */
  predicate GroupsMatch(s: string, q: nat)
    requires q <= |s|
    decreases |s| - q
  {
    var e := SegmentEnd(s, q);
    e > q
    && var f := if e < |s| && s[e] == '/' then e + 1 else e;
       f == |s| || GroupsMatch(s, f)
  }

  /** `validateName` (without its warning): the name matches the pattern and
      its last character is not a slash. */
  predicate ValidName(name: string)
  {
    GroupsMatch(name, 0) && !(name != [] && name[|name| - 1] == '/')
  }

  /** Position `i` holds a segment character, or a slash that ends the text
      or is followed by a segment character. */
  predicate SlashOkAt(s: string, i: nat)
    requires i < |s|
  {
    IsSegmentChar(s[i]) || (s[i] == '/' && (i + 1 == |s| || IsSegmentChar(s[i + 1])))
  }

  /** Position `i` holds a segment character, or a slash followed by one. */
  predicate InnerSlashAt(s: string, i: nat)
    requires i < |s|
  {
    IsSegmentChar(s[i]) || (s[i] == '/' && i + 1 < |s| && IsSegmentChar(s[i + 1]))
  }

  /** From `q` on: segment characters and slashes, starting with a segment
      character, every slash followed by a segment character or by the end. */
  predicate SlashSeparatedFrom(s: string, q: nat)
  {
    q < |s| && IsSegmentChar(s[q]) && forall i: nat :: q <= i < |s| ==> SlashOkAt(s, i)
  }

  /** The pattern accepts exactly the slash-separated text. */
  lemma {:induction false} GroupsMatchIff(s: string, q: nat)
    requires q <= |s|
    ensures GroupsMatch(s, q) <==> SlashSeparatedFrom(s, q)
    decreases |s| - q
  {
    var e := SegmentEnd(s, q);
    SegmentEndSpec(s, q);
    if e > q && e < |s| && s[e] == '/' && e + 1 < |s| {
      GroupsMatchIff(s, e + 1);
      if SlashSeparatedFrom(s, q) {
        assert SlashOkAt(s, e);
        assert SlashSeparatedFrom(s, e + 1);
      }
      if GroupsMatch(s, q) {
        assert GroupsMatch(s, e + 1);
        forall i: nat | q <= i < |s| ensures SlashOkAt(s, i) {
          if i < e {
            assert IsSegmentChar(s[i]);
          } else if i == e {
            assert IsSegmentChar(s[e + 1]);
          }
        }
      }
    } else if e > q && e < |s| && s[e] != '/' {
      assert SegmentEnd(s, e) == e;
      assert !SlashOkAt(s, e);
    } else if e > q {
      if GroupsMatch(s, q) {
        forall i: nat | q <= i < |s| ensures SlashOkAt(s, i) {
          if i < e {
            assert IsSegmentChar(s[i]);
          }
        }
      }
    }
  }

  /** Valid template names are exactly non-empty runs of `[a-zA-Z0-9@_-]`
      separated by single slashes: segment characters and slashes only, a
      segment character first and last, and one after every slash. */
  lemma ValidNameIff(name: string)
    ensures ValidName(name) <==>
      name != [] && IsSegmentChar(name[0]) && IsSegmentChar(name[|name| - 1])
      && forall i: nat :: i < |name| ==> InnerSlashAt(name, i)
  {
    GroupsMatchIff(name, 0);
    if name != [] && SlashSeparatedFrom(name, 0) {
      assert SlashOkAt(name, |name| - 1);
      if IsSegmentChar(name[|name| - 1]) {
        forall i: nat | i < |name| ensures InnerSlashAt(name, i) {
          assert SlashOkAt(name, i);
        }
      }
    }
    if name != [] && IsSegmentChar(name[0]) && IsSegmentChar(name[|name| - 1])
       && forall i: nat :: i < |name| ==> InnerSlashAt(name, i) {
      forall i: nat | i < |name| ensures SlashOkAt(name, i) {
        assert InnerSlashAt(name, i);
      }
    }
  }

  /** Segments joined with single slashes form a valid name, when there is at
      least one and each is a non-empty run of segment characters. */
  lemma {:induction false} JoinedSegmentsValid(segments: seq<string>)
    requires segments != []
    requires forall k :: 0 <= k < |segments| ==> segments[k] != [] && AllSegmentChars(segments[k])
    ensures ValidName(Join(segments, "/"))
  {
    JoinedSegmentsForm(segments);
    ValidNameIff(Join(segments, "/"));
  }

  lemma {:induction false} JoinedSegmentsForm(segments: seq<string>)
    requires segments != []
    requires forall k :: 0 <= k < |segments| ==> segments[k] != [] && AllSegmentChars(segments[k])
    ensures var s := Join(segments, "/");
      s != [] && IsSegmentChar(s[0]) && IsSegmentChar(s[|s| - 1])
      && forall i: nat :: i < |s| ==> InnerSlashAt(s, i)
    decreases |segments|
  {
    var s := Join(segments, "/");
    var head := segments[0];
    assert AllSegmentChars(head);
    if |segments| == 1 {
      assert s == head;
      forall i: nat | i < |s| ensures InnerSlashAt(s, i) {
        assert IsSegmentChar(head[i]);
      }
    } else {
      var rest := Join(segments[1..], "/");
      JoinedSegmentsForm(segments[1..]);
      assert s == head + "/" + rest;
      forall i: nat | i < |s| ensures InnerSlashAt(s, i) {
        if i < |head| {
          assert s[i] == head[i];
        } else if i == |head| {
          assert s[i + 1] == rest[0];
        } else {
          assert InnerSlashAt(rest, i - |head| - 1);
          assert s[i] == rest[i - |head| - 1];
          if i + 1 < |s| {
            assert s[i + 1] == rest[i - |head|];
          }
        }
      }
      assert s[|s| - 1] == rest[|rest| - 1];
    }
  }

  /** Scoped package names are valid; doubled, leading and trailing slashes
      are not. */
  lemma NameExamples()
    ensures ValidName("@scope/pkg-name")
    ensures !ValidName("a//b") && !ValidName("a/") && !ValidName("/a") && !ValidName("")
  {
    JoinedSegmentsValid(["@scope", "pkg-name"]);
    assert Join(["@scope", "pkg-name"], "/") == "@scope/pkg-name";
    ValidNameIff("a//b");
    assert !InnerSlashAt("a//b", 1);
    ValidNameIff("a/");
    ValidNameIff("/a");
  }

  // ---------------------------------------------------------------------
  // Options and candidates
  // ---------------------------------------------------------------------

  /** The `generatorsDir` option: a boolean or a directory. */
  datatype GeneratorsDirOption = Flag(enabled: bool) | Dir(path: string)

  const DefaultGeneratorsDir: string := "ingenr-generators"

  /** The `generatorsDir` getter: `false` is null, `true` the default
      directory, and a directory itself. */
  function GeneratorsDir(option: GeneratorsDirOption): (r: Option<string>)
    ensures r.None? <==> option == Flag(false)
    ensures option == Flag(true) ==> r == Some(DefaultGeneratorsDir)
    ensures option.Dir? ==> r == Some(option.path)
  {
    match option
    case Flag(enabled) => if enabled then Some(DefaultGeneratorsDir) else None
    case Dir(path) => Some(path)
  }

  /** JavaScript truthiness of the directory: null and "" are false. */
  predicate Truthy(dir: Option<string>)
  {
    dir.Some? && dir.value != ""
  }

  /** The specifiers `locate` tries, in order: the name resolved inside the
      generators directory when there is one, then the bare name. */
  function Requirables(dir: Option<string>, name: string, resolvePath: (string, string) -> string): (r: seq<string>)
    ensures r != [] && r[|r| - 1] == name
    ensures Truthy(dir) ==> |r| == 2 && r[0] == resolvePath(dir.value, name)
    ensures !Truthy(dir) ==> |r| == 1
  {
    if Truthy(dir) then [resolvePath(dir.value, name), name] else [name]
  }

  // ---------------------------------------------------------------------
  // require and the candidate loop
  // ---------------------------------------------------------------------

  /** The fields of a thrown error that the code inspects. */
  datatype JsError = JsError(code: Option<string>, message: Option<string>)

  /** What `require(specifier)` does: load a module or throw. `generator` is
      the value of `required.default || required`, and `None` when that value
      is falsy (a module whose export is `false`, `0` or `""`). */
  datatype RequireOutcome<G> = Loaded(generator: Option<G>) | Threw(error: JsError)

  const MissingModuleText: string := "cannot find module"

  /** The case folding of the `i` flag on ASCII letters. */
  function AsciiLower(c: char): char
  {
    if 'A' <= c <= 'Z' then (c as int + 32) as char else c
  }

  predicate MatchesAtIgnoringCase(s: string, i: nat, pattern: string)
  {
    i + |pattern| <= |s| && forall j :: 0 <= j < |pattern| ==> AsciiLower(s[i + j]) == AsciiLower(pattern[j])
  }

  predicate ContainsIgnoringCase(s: string, pattern: string)
  {
    exists i: nat :: i <= |s| && MatchesAtIgnoringCase(s, i, pattern)
  }

  /** An error the loop skips: its message is set, non-empty, and matches
      `/cannot find module/i`. */
  predicate IsMissingModule(e: JsError)
  {
    e.message.Some? && e.message.value != "" && ContainsIgnoringCase(e.message.value, MissingModuleText)
  }

  /** Node's message for a missing module is skipped whatever its case;
      an error without a message is not. */
  lemma MissingModuleExamples()
    ensures IsMissingModule(JsError(Some("MODULE_NOT_FOUND"), Some("Cannot find module 'x'")))
    ensures !IsMissingModule(JsError(Some("MODULE_NOT_FOUND"), None))
    ensures !IsMissingModule(JsError(None, Some("")))
  {
    assert MatchesAtIgnoringCase("Cannot find module 'x'", 0, MissingModuleText);
  }

  predicate Skipped<G>(o: RequireOutcome<G>)
  {
    o.Threw? && IsMissingModule(o.error)
  }

  /** A require that lets the loop go on: it loaded, or its error is skipped. */
  predicate Harmless<G>(o: RequireOutcome<G>)
  {
    o.Loaded? || Skipped(o)
  }

  /** The candidate loop of `locate` over `cands`: a loaded module's value
      replaces any generator found before, even when that value is falsy
      (the loop has no `break`); a skipped error
      changes nothing; any other error ends the loop and propagates. */
  function Resolve<G>(cands: seq<string>, require: string -> RequireOutcome<G>): Result<Option<G>, JsError>
    decreases |cands|
  {
    if cands == [] then Ok(None)
    else
      match Resolve(cands[..|cands| - 1], require)
      case Err(e) => Err(e)
      case Ok(found) =>
        match require(cands[|cands| - 1])
        case Loaded(g) => Ok(g)
        case Threw(e) => if IsMissingModule(e) then Ok(found) else Err(e)
  }

  /** The specifiers `require` receives: candidates up to and including the
      first that throws an error that is not skipped. */
  function Attempted<G>(cands: seq<string>, require: string -> RequireOutcome<G>): (r: seq<string>)
    decreases |cands|
  {
    if cands == [] then []
    else if Resolve(cands[..|cands| - 1], require).Err? then Attempted(cands[..|cands| - 1], require)
    else Attempted(cands[..|cands| - 1], require) + [cands[|cands| - 1]]
  }

  /** When the loop completes, every candidate was tried in order. */
  lemma {:induction false} AttemptedAll<G>(cands: seq<string>, require: string -> RequireOutcome<G>)
    requires Resolve(cands, require).Ok?
    ensures Attempted(cands, require) == cands
    decreases |cands|
  {
    if cands != [] {
      var init := cands[..|cands| - 1];
      AttemptedAll(init, require);
      assert init + [cands[|cands| - 1]] == cands;
    }
  }

  /** An error that is not skipped at candidate `i`, after a loop that was
      fine so far, is the loop's outcome, and no later candidate is tried. */
  lemma {:induction false} ResolveStopsAt<G>(cands: seq<string>, require: string -> RequireOutcome<G>, i: nat, n: nat)
    requires i < n <= |cands|
    requires Resolve(cands[..i], require).Ok?
    requires require(cands[i]).Threw? && !IsMissingModule(require(cands[i]).error)
    ensures Resolve(cands[..n], require) == Err(require(cands[i]).error)
    ensures Attempted(cands[..n], require) == cands[..i + 1]
    decreases n
  {
    var init := cands[..n][..n - 1];
    assert init == cands[..n - 1];
    if n == i + 1 {
      AttemptedAll(cands[..i], require);
      assert cands[..i] + [cands[i]] == cands[..i + 1];
    } else {
      ResolveStopsAt(cands, require, i, n - 1);
    }
  }

  /** Every candidate from index `i` on throws an error that is skipped. */
  predicate SkippedFrom<G>(cands: seq<string>, require: string -> RequireOutcome<G>, i: nat)
  {
    forall k :: i <= k < |cands| ==> Skipped(require(cands[k]))
  }

  /** Every candidate lets the loop go on, and either every candidate is
      skipped or the last one that loads has a falsy value. */
  predicate ResolvesToNothing<G>(cands: seq<string>, require: string -> RequireOutcome<G>)
  {
    (forall k :: 0 <= k < |cands| ==> Harmless(require(cands[k])))
    && (SkippedFrom(cands, require, 0)
        || exists j :: 0 <= j < |cands| && require(cands[j]) == Loaded(None) && SkippedFrom(cands, require, j + 1))
  }

  /** The loop ends without an error exactly when every candidate lets it go on. */
  lemma {:induction false} ResolveOkIff<G>(cands: seq<string>, require: string -> RequireOutcome<G>)
    ensures Resolve(cands, require).Ok? <==> forall k :: 0 <= k < |cands| ==> Harmless(require(cands[k]))
    decreases |cands|
  {
    if cands != [] {
      var init := cands[..|cands| - 1];
      assert forall k :: 0 <= k < |init| ==> init[k] == cands[k];
      ResolveOkIff(init, require);
    }
  }

  /** A skipped last candidate does not change which candidates from `i` on
      are skipped. */
  lemma SkippedFromSnoc<G>(cands: seq<string>, require: string -> RequireOutcome<G>, i: nat)
    requires cands != [] && i < |cands|
    requires Skipped(require(cands[|cands| - 1]))
    ensures SkippedFrom(cands, require, i) == SkippedFrom(cands[..|cands| - 1], require, i)
  {
    var init := cands[..|cands| - 1];
    assert forall k :: 0 <= k < |init| ==> init[k] == cands[k];
  }

  /** A skipped last candidate does not change whether the loop finds nothing. */
  lemma NothingSkippedSnoc<G>(cands: seq<string>, require: string -> RequireOutcome<G>)
    requires cands != [] && Skipped(require(cands[|cands| - 1]))
    ensures ResolvesToNothing(cands, require) == ResolvesToNothing(cands[..|cands| - 1], require)
  {
    var init := cands[..|cands| - 1];
    assert forall k :: 0 <= k < |init| ==> init[k] == cands[k];
    SkippedFromSnoc(cands, require, 0);
    if exists j :: 0 <= j < |cands| && require(cands[j]) == Loaded(None) && SkippedFrom(cands, require, j + 1) {
      var j :| 0 <= j < |cands| && require(cands[j]) == Loaded(None) && SkippedFrom(cands, require, j + 1);
      SkippedFromSnoc(cands, require, j + 1);
      assert init[j] == cands[j];
    }
    if exists j :: 0 <= j < |init| && require(init[j]) == Loaded(None) && SkippedFrom(init, require, j + 1) {
      var j :| 0 <= j < |init| && require(init[j]) == Loaded(None) && SkippedFrom(init, require, j + 1);
      SkippedFromSnoc(cands, require, j + 1);
      assert require(cands[j]) == Loaded(None);
    }
  }

  /** The loop finds nothing exactly when every candidate is missing, or the
      last candidate that loads has a falsy value. */
  lemma {:induction false} ResolveNothingIff<G>(cands: seq<string>, require: string -> RequireOutcome<G>)
    ensures Resolve(cands, require) == Ok(None) <==> ResolvesToNothing(cands, require)
    decreases |cands|
  {
    if cands != [] {
      var last := |cands| - 1;
      var init := cands[..last];
      var x := require(cands[last]);
      ResolveNothingIff(init, require);
      ResolveOkIff(init, require);
      ResolveOkIff(cands, require);
      assert forall k :: 0 <= k < |init| ==> init[k] == cands[k];
      if x == Loaded(None) {
        assert SkippedFrom(cands, require, last + 1);
      } else if x.Loaded? {
        assert !SkippedFrom(cands, require, 0);
        forall j | 0 <= j < |cands| && require(cands[j]) == Loaded(None)
          ensures !SkippedFrom(cands, require, j + 1)
        {
          assert j < last;
        }
      } else if Skipped(x) {
        NothingSkippedSnoc(cands, require);
      }
    }
  }

  /** The last candidate that loads wins, when all before it let the loop go
      on and all after it are skipped; its value wins even when it is falsy. */
  lemma {:induction false} ResolveLastLoaded<G>(cands: seq<string>, require: string -> RequireOutcome<G>, j: nat, g: Option<G>)
    requires j < |cands| && require(cands[j]) == Loaded(g)
    requires forall k :: 0 <= k < j ==> Harmless(require(cands[k]))
    requires forall k :: j < k < |cands| ==> Skipped(require(cands[k]))
    ensures Resolve(cands, require) == Ok(g)
    decreases |cands|
  {
    var init := cands[..|cands| - 1];
    if j < |cands| - 1 {
      forall k | 0 <= k < |init| ensures init[k] == cands[k] { }
      ResolveLastLoaded(init, require, j, g);
    } else {
      ResolveOkIff(init, require);
    }
  }

  /** Conversely, a found generator came from a candidate that loaded it,
      and every candidate after that one was skipped. */
  lemma {:induction false} ResolveFoundFrom<G>(cands: seq<string>, require: string -> RequireOutcome<G>)
    requires Resolve(cands, require).Ok? && Resolve(cands, require).value.Some?
    ensures exists j :: 0 <= j < |cands| && require(cands[j]) == Loaded(Resolve(cands, require).value)
                        && forall k :: j < k < |cands| ==> Skipped(require(cands[k]))
    decreases |cands|
  {
    var last := |cands| - 1;
    var init := cands[..last];
    var g := Resolve(cands, require).value;
    if require(cands[last]).Loaded? {
      assert require(cands[last]) == Loaded(g);
    } else {
      ResolveFoundFrom(init, require);
      var j :| 0 <= j < |init| && require(init[j]) == Loaded(g)
        && forall k :: j < k < |init| ==> Skipped(require(init[k]));
      assert init[j] == cands[j];
      forall k | j < k < |cands| ensures Skipped(require(cands[k])) {
        if k < last {
          assert init[k] == cands[k];
        }
      }
    }
  }

  /** With a generators directory, the value loaded under the bare name wins
      over a generator found in the directory; a falsy one discards it. */
  lemma BareNameWins<G>(dir: Option<string>, name: string, resolvePath: (string, string) -> string,
                        require: string -> RequireOutcome<G>, g: Option<G>)
    requires Truthy(dir) && require(name) == Loaded(g)
    requires Harmless(require(resolvePath(dir.value, name)))
    ensures Resolve(Requirables(dir, name, resolvePath), require) == Ok(g)
  {
    ResolveLastLoaded(Requirables(dir, name, resolvePath), require, 1, g);
  }

  // ---------------------------------------------------------------------
  // The locator
  // ---------------------------------------------------------------------

  /** What doT's compilation of the generators directory does: compile the
      templates into `(key, generator)` entries, or throw. */
  datatype CompileOutcome<G> = Compiled(entries: seq<(string, G)>) | CompileFailed(error: JsError)

  /** The foreign functions the locator calls. */
  datatype Host<G> = Host(
    resolvePath: (string, string) -> string,
    require: string -> RequireOutcome<G>,
    compile: string -> CompileOutcome<G>)

  const InvalidNamePrefix: string := "Invalid template name: "
  const UnresolvedPrefix: string := "Failed to resolve generator: "
  const NoSuchFileCode: string := "ENOENT"

  /** The warning `locate` buffers for `filePath`, with no line. */
  function LocatorWarning(filePath: Option<string>, message: string): (c: ReporterCall)
    ensures c.BufferWarning? && c.filePath == filePath && c.lineIndex.None? && c.line.None?
    ensures c.entries == [WarningEntry(None, message, None)]
  {
    BufferWarning(filePath, None, None, [WarningEntry(None, message, None)])
  }

  /** The cache after setting each entry in order (a later key overwrites). */
  function Merged<G>(cache: map<string, G>, entries: seq<(string, G)>): map<string, G>
    decreases |entries|
  {
    if entries == [] then cache
    else Merged(cache, entries[..|entries| - 1])[entries[|entries| - 1].0 := entries[|entries| - 1].1]
  }

  /** Keys no entry sets keep their cache entry, or their absence. */
  lemma {:induction false} MergedKeeps<G>(cache: map<string, G>, entries: seq<(string, G)>, key: string)
    requires forall j :: 0 <= j < |entries| ==> entries[j].0 != key
    ensures key in Merged(cache, entries) <==> key in cache
    ensures key in cache ==> Merged(cache, entries)[key] == cache[key]
    decreases |entries|
  {
    if entries != [] {
      MergedKeeps(cache, entries[..|entries| - 1], key);
    }
  }

  /** A key is bound to the generator of its last entry. */
  lemma {:induction false} MergedLast<G>(cache: map<string, G>, entries: seq<(string, G)>, j: nat)
    requires j < |entries|
    requires forall k :: j < k < |entries| ==> entries[k].0 != entries[j].0
    ensures entries[j].0 in Merged(cache, entries) && Merged(cache, entries)[entries[j].0] == entries[j].1
    decreases |entries|
  {
    if j < |entries| - 1 {
      MergedLast(cache, entries[..|entries| - 1], j);
    }
  }

  /** The part of the locator that `locate` changes: the cache, the calls
      the reporter received, and the specifiers passed to `require`. */
  datatype LocatorState<G> = LocatorState(cache: map<string, G>, reports: seq<ReporterCall>, attempts: seq<string>)

  /** What a call of `locate` returns, and the state it leaves. */
  datatype Located<G> = Located(result: Result<Option<G>, JsError>, state: LocatorState<G>)

  /** `locate(name, filePath)` from state `s`: an invalid name warns and
      yields nothing; a cached name is answered without `require`; otherwise
      the candidates are tried, a found generator is cached, nothing found
      warns, and an error propagates. */
  function LocateStep<G>(option: GeneratorsDirOption, s: LocatorState<G>, name: string,
                         filePath: Option<string>, host: Host<G>): Located<G>
  {
    if !ValidName(name) then
      Located(Ok(None), s.(reports := s.reports + [LocatorWarning(filePath, InvalidNamePrefix + name)]))
    else if name in s.cache then
      Located(Ok(Some(s.cache[name])), s)
    else
      var cands := Requirables(GeneratorsDir(option), name, host.resolvePath);
      var res := Resolve(cands, host.require);
      var tried := s.(attempts := s.attempts + Attempted(cands, host.require));
      match res
      case Err(e) => Located(res, tried)
      case Ok(None) =>
        Located(res, tried.(reports := tried.reports + [LocatorWarning(filePath, UnresolvedPrefix + name)]))
      case Ok(Some(g)) => Located(res, tried.(cache := tried.cache[name := g]))
  }

  /** `locate` never changes or drops a cached generator, caches only under
      the name asked for and whatever it returns, only appends to the
      reporter's calls and to the `require` log, and calls no `require` for an
      invalid or cached name. */
  lemma LocateKeepsCache<G>(option: GeneratorsDirOption, s: LocatorState<G>, name: string,
                            filePath: Option<string>, host: Host<G>)
    ensures var r := LocateStep(option, s, name, filePath, host);
      (forall k :: k in s.cache ==> k in r.state.cache && r.state.cache[k] == s.cache[k])
      && (r.result.Ok? && r.result.value.Some? ==>
            name in r.state.cache && r.state.cache[name] == r.result.value.value)
      && r.state.cache.Keys <= s.cache.Keys + {name}
      && s.reports <= r.state.reports && s.attempts <= r.state.attempts
      && (!ValidName(name) || name in s.cache ==> r.state.attempts == s.attempts)
  {
  }

  /** Once a name has been resolved, locating it again gives the same
      generator, changes nothing and calls no `require`, whatever the host. */
  lemma LocateAgain<G>(option: GeneratorsDirOption, s: LocatorState<G>, name: string,
                       filePath: Option<string>, host: Host<G>, filePath2: Option<string>, host2: Host<G>)
    requires LocateStep(option, s, name, filePath, host).result.Ok?
    requires LocateStep(option, s, name, filePath, host).result.value.Some?
    ensures var first := LocateStep(option, s, name, filePath, host);
      LocateStep(option, first.state, name, filePath2, host2) == first
  {
  }

  /** A name that resolves to nothing (every candidate missing, or the last
      one that loads falsy) buffers one warning and is not cached, so the
      next call tries the candidates again. */
  lemma LocateNothing<G>(option: GeneratorsDirOption, s: LocatorState<G>, name: string,
                         filePath: Option<string>, host: Host<G>)
    requires ValidName(name) && name !in s.cache
    requires ResolvesToNothing(Requirables(GeneratorsDir(option), name, host.resolvePath), host.require)
    ensures var r := LocateStep(option, s, name, filePath, host);
      r.result == Ok(None) && name !in r.state.cache
      && r.state.reports == s.reports + [LocatorWarning(filePath, UnresolvedPrefix + name)]
      && r.state.attempts == s.attempts + Requirables(GeneratorsDir(option), name, host.resolvePath)
  {
    var cands := Requirables(GeneratorsDir(option), name, host.resolvePath);
    ResolveNothingIff(cands, host.require);
    AttemptedAll(cands, host.require);
  }

  /** An error other than a missing module from the first candidate
      propagates: nothing is cached or reported, and no later candidate is
      tried. */
  lemma LocateFailsFast<G>(option: GeneratorsDirOption, s: LocatorState<G>, name: string,
                           filePath: Option<string>, host: Host<G>)
    requires ValidName(name) && name !in s.cache
    requires var first := Requirables(GeneratorsDir(option), name, host.resolvePath)[0];
      host.require(first).Threw? && !IsMissingModule(host.require(first).error)
    ensures var cands := Requirables(GeneratorsDir(option), name, host.resolvePath);
      var r := LocateStep(option, s, name, filePath, host);
      r.result == Err(host.require(cands[0]).error)
      && r.state == s.(attempts := s.attempts + [cands[0]])
  {
    var cands := Requirables(GeneratorsDir(option), name, host.resolvePath);
    ResolveStopsAt(cands, host.require, 0, |cands|);
    assert cands[..|cands|] == cands;
    assert cands[..1] == [cands[0]];
  }

  class Locator<G> {
    /** The `generatorsDir` option. */
    const generatorsDirOption: GeneratorsDirOption
    /** The `cache` Map from template names to generators. */
    var cache: map<string, G>
    /** The calls the reporter received, in order. */
    var reports: seq<ReporterCall>
    /** The specifiers passed to `require`, in order. */
    var attempts: seq<string>

    constructor (generatorsDirOption: GeneratorsDirOption)
      ensures this.generatorsDirOption == generatorsDirOption
      ensures cache == map[] && reports == [] && attempts == []
    {
      this.generatorsDirOption := generatorsDirOption;
      cache := map[];
      reports := [];
      attempts := [];
    }

    function State(): LocatorState<G>
      reads this
    {
      LocatorState(cache, reports, attempts)
    }

    /** `validateName`: an invalid name buffers one warning. */
    method ValidateName(name: string, filePath: Option<string>) returns (ok: bool)
      modifies this`reports
      ensures ok == ValidName(name)
      ensures reports == old(reports) + (if ok then [] else [LocatorWarning(filePath, InvalidNamePrefix + name)])
    {
      ok := GroupsMatch(name, 0) && !(name != [] && name[|name| - 1] == '/');
      if !ok {
        reports := reports + [LocatorWarning(filePath, InvalidNamePrefix + name)];
      }
    }

    /** `bootstrap`: with a generators directory, cache every template doT
        compiles there; a missing directory (`ENOENT`) is ignored and any
        other error propagates. */
    method Bootstrap(host: Host<G>) returns (r: Result<(), JsError>)
      modifies this`cache
      ensures var dir := GeneratorsDir(generatorsDirOption);
        if !Truthy(dir) then r == Ok(()) && cache == old(cache)
        else match host.compile(dir.value)
          case Compiled(entries) => r == Ok(()) && cache == Merged(old(cache), entries)
          case CompileFailed(e) =>
            cache == old(cache) && r == if e.code == Some(NoSuchFileCode) then Ok(()) else Err(e)
    {
      var dir := GeneratorsDir(generatorsDirOption);
      if !Truthy(dir) {
        return Ok(());
      }
      match host.compile(dir.value) {
        case Compiled(entries) =>
          var i := 0;
          while i < |entries|
            invariant 0 <= i <= |entries|
            invariant cache == Merged(old(cache), entries[..i])
          {
            assert entries[..i + 1][..i] == entries[..i];
            cache := cache[entries[i].0 := entries[i].1];
            i := i + 1;
          }
          assert entries[..i] == entries;
          r := Ok(());
        case CompileFailed(e) =>
          if e.code != Some(NoSuchFileCode) {
            return Err(e);
          }
          r := Ok(());
      }
    }

    /** `locate`: validate the name, answer from the cache, or else try the
        candidates in order and cache what they yield; a failed lookup
        buffers one warning and caches nothing. */
    method Locate(name: string, filePath: Option<string>, host: Host<G>) returns (r: Result<Option<G>, JsError>)
      modifies this`cache, this`reports, this`attempts
      ensures LocateStep(generatorsDirOption, old(State()), name, filePath, host) == Located(r, State())
    {
      var ok := ValidateName(name, filePath);
      if !ok {
        return Ok(None);
      }
      if name in cache {
        return Ok(Some(cache[name]));
      }
      var requirables := Requirables(GeneratorsDir(generatorsDirOption), name, host.resolvePath);
      r := TryCandidates(requirables, host.require);
      if r.Ok? {
        match r.value {
          case None =>
            reports := reports + [LocatorWarning(filePath, UnresolvedPrefix + name)];
          case Some(g) =>
            cache := cache[name := g];
        }
      }
    }

    /** The candidate loop of `locate`: `require` each candidate in order. */
    method TryCandidates(cands: seq<string>, require: string -> RequireOutcome<G>)
      returns (r: Result<Option<G>, JsError>)
      modifies this`attempts
      ensures r == Resolve(cands, require)
      ensures attempts == old(attempts) + Attempted(cands, require)
    {
      var generator: Option<G> := None;
      var i := 0;
      while i < |cands|
        invariant 0 <= i <= |cands|
        invariant Resolve(cands[..i], require) == Ok(generator)
        invariant attempts == old(attempts) + cands[..i]
      {
        attempts := attempts + [cands[i]];
        match require(cands[i]) {
          case Loaded(g) =>
            generator := g;
          case Threw(e) =>
            if !IsMissingModule(e) {
              ResolveStopsAt(cands, require, i, |cands|);
              assert cands[..|cands|] == cands;
              assert cands[..i] + [cands[i]] == cands[..i + 1];
              return Err(e);
            }
        }
        assert cands[..i + 1][..i] == cands[..i];
        i := i + 1;
      }
      assert cands[..i] == cands;
      AttemptedAll(cands, require);
      r := Ok(generator);
    }
  }
}
