/** Option/Result wrappers and the JavaScript string primitives (`\s`, `trim`,
    `join`, `startsWith`) that the directive pipeline relies on. */
module Common {

  datatype Option<T> = None | Some(value: T)

  datatype Result<T, E> = Ok(value: T) | Err(error: E)

  /** A character matched by the JavaScript class `\s` (and stripped by
      `String.prototype.trim`): the ECMAScript WhiteSpace and LineTerminator
      code points. */
  predicate IsSpace(c: char)
  {
    c == ' ' || c == '\t' || c == '\n' || c == '\r' || c == '\U{B}' || c == '\U{C}'
    || c == '\U{A0}' || c == '\U{1680}' || ('\U{2000}' <= c <= '\U{200A}')
    || c == '\U{2028}' || c == '\U{2029}' || c == '\U{202F}' || c == '\U{205F}'
    || c == '\U{3000}' || c == '\U{FEFF}'
  }

  /** A character that the regular-expression `.` refuses to match. */
  predicate IsLineTerminator(c: char)
  {
    c == '\n' || c == '\r' || c == '\U{2028}' || c == '\U{2029}'
  }

  predicate AllSpace(s: string)
  {
    forall i :: 0 <= i < |s| ==> IsSpace(s[i])
  }

  predicate NoLineTerminator(s: string)
  {
    forall i :: 0 <= i < |s| ==> !IsLineTerminator(s[i])
  }

  predicate StartsWith(s: string, prefix: string)
  {
    |prefix| <= |s| && s[..|prefix|] == prefix
  }

  predicate EndsWith(s: string, suffix: string)
  {
    |suffix| <= |s| && s[|s| - |suffix|..] == suffix
  }

  /** Length of the longest whitespace prefix of `s`. */
  function SpacePrefixLen(s: string): (n: nat)
    ensures n <= |s|
  {
    if s != [] && IsSpace(s[0]) then SpacePrefixLen(s[1..]) + 1 else 0
  }

  /** `SpacePrefixLen` measures a whitespace prefix that cannot be extended. */
  lemma {:induction false} SpacePrefixLenMaximal(s: string)
    ensures AllSpace(s[..SpacePrefixLen(s)])
    ensures SpacePrefixLen(s) < |s| ==> !IsSpace(s[SpacePrefixLen(s)])
  {
    if s != [] && IsSpace(s[0]) {
      SpacePrefixLenMaximal(s[1..]);
      assert s[..SpacePrefixLen(s)] == [s[0]] + s[1..][..SpacePrefixLen(s[1..])];
    }
  }

  /** `s` without its leading whitespace. */
  function TrimStart(s: string): (r: string)
    ensures |r| <= |s|
  {
    s[SpacePrefixLen(s)..]
  }

  /** `TrimStart` removes exactly a whitespace prefix, and all of it. */
  lemma TrimStartSpec(s: string)
    ensures var r := TrimStart(s);
      r == s[|s| - |r|..] && AllSpace(s[..|s| - |r|]) && (r != [] ==> !IsSpace(r[0]))
  {
    SpacePrefixLenMaximal(s);
  }

  /** `s` without its trailing whitespace. */
  function TrimEnd(s: string): (r: string)
    ensures |r| <= |s|
  {
    if s != [] && IsSpace(s[|s| - 1]) then TrimEnd(s[..|s| - 1]) else s
  }

  /** `TrimEnd` removes exactly a whitespace suffix, and all of it. */
  lemma {:induction false} TrimEndSpec(s: string)
    ensures var r := TrimEnd(s);
      r == s[..|r|] && AllSpace(s[|r|..]) && (r != [] ==> !IsSpace(r[|r| - 1]))
  {
    if s != [] && IsSpace(s[|s| - 1]) {
      var r := TrimEnd(s[..|s| - 1]);
      TrimEndSpec(s[..|s| - 1]);
      assert s[|r|..] == s[..|s| - 1][|r|..] + [s[|s| - 1]];
    }
  }

  /** Length of the longest run of non-space characters at the front of `s`. */
  function NonSpaceRunLen(s: string): (n: nat)
    ensures n <= |s|
  {
    if s != [] && !IsSpace(s[0]) then 1 + NonSpaceRunLen(s[1..]) else 0
  }

  /** `NonSpaceRunLen` is the greedy `\S+` run: non-space up to a space or
      the end. */
  lemma {:induction false} NonSpaceRunMaximal(s: string)
    ensures NonSpaceRunLen(s) < |s| ==> IsSpace(s[NonSpaceRunLen(s)])
    ensures forall i :: 0 <= i < NonSpaceRunLen(s) ==> !IsSpace(s[i])
  {
    if s != [] && !IsSpace(s[0]) {
      NonSpaceRunMaximal(s[1..]);
      forall i | 0 <= i < NonSpaceRunLen(s)
        ensures !IsSpace(s[i])
      {
        if i > 0 {
          assert s[i] == s[1..][i - 1];
        }
      }
    }
  }

  /** `String.prototype.trim`. */
  function Trim(s: string): string
  {
    TrimEnd(TrimStart(s))
  }

  /** `Array.prototype.join(sep)`: the parts with `sep` between neighbours. */
  function Join(parts: seq<string>, sep: string): string
  {
    if |parts| == 0 then ""
    else if |parts| == 1 then parts[0]
    else parts[0] + sep + Join(parts[1..], sep)
  }

  /** The concatenation of a sequence of strings (what a stream receives). */
  function Concat(chunks: seq<string>): string
  {
    if chunks == [] then "" else chunks[0] + Concat(chunks[1..])
  }

  lemma {:induction false} ConcatAppend(a: seq<string>, b: seq<string>)
    ensures Concat(a + b) == Concat(a) + Concat(b)
  {
    if a == [] {
      assert a + b == b;
    } else {
      assert (a + b)[1..] == a[1..] + b;
      ConcatAppend(a[1..], b);
    }
  }

  /** A string with only surrounding whitespace added trims to its core, when
      the core itself has no surrounding whitespace. */
  lemma TrimSurrounded(a: string, core: string, b: string)
    requires AllSpace(a) && AllSpace(b)
    requires core != [] && !IsSpace(core[0]) && !IsSpace(core[|core| - 1])
    ensures Trim(a + core + b) == core
  {
    var s := a + core + b;
    assert s == a + (core + b);
    SpacePrefixOfSpaced(a, core + b);
    assert s[|a|..] == core + b;
    assert TrimStart(s) == core + b;
    TrimEndAppendSpace(core, b);
  }

  /** The whitespace prefix of `a + c` is exactly `a` when `c` starts with a
      non-space character. */
  lemma {:induction false} SpacePrefixOfSpaced(a: string, c: string)
    requires AllSpace(a)
    requires c != [] && !IsSpace(c[0])
    ensures SpacePrefixLen(a + c) == |a|
  {
    if a != [] {
      assert (a + c)[1..] == a[1..] + c;
      SpacePrefixOfSpaced(a[1..], c);
    }
  }

  lemma {:induction false} TrimEndAppendSpace(core: string, b: string)
    requires core != [] && !IsSpace(core[|core| - 1])
    requires AllSpace(b)
    ensures TrimEnd(core + b) == core
    decreases |b|
  {
    if b == [] {
      assert core + b == core;
    } else {
      var s := core + b;
      assert s[..|s| - 1] == core + b[..|b| - 1];
      TrimEndAppendSpace(core, b[..|b| - 1]);
    }
  }

  /** Conversely, a line that trims to a word without surrounding whitespace
      is that word with whitespace around it. */
  lemma TrimSplits(s: string)
    ensures var lead := |s| - |TrimStart(s)|;
      lead + |Trim(s)| <= |s| && s[lead..lead + |Trim(s)|] == Trim(s)
      && AllSpace(s[..lead]) && AllSpace(s[lead + |Trim(s)|..])
  {
    var t := TrimStart(s);
    var lead := |s| - |t|;
    var r := TrimEnd(t);
    TrimStartSpec(s);
    TrimEndSpec(t);
    assert s[lead..lead + |r|] == t[..|r|];
    assert s[lead + |r|..] == t[|r|..];
  }
}
