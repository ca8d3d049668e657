/**
 * `_sanitize_input`: the clean-up applied to a query before it reaches the
 * Python REPL, the two substitutions
 *     re.sub(r"^(\s|`)*(?i:python)?\s*", "", query)
 *     re.sub(r"(\s|`)*$", "", query)
 * written out as the regular expression engine evaluates them.
 */
module Sanitize {
  import opened CharClasses

  /** ASCII lower-casing, the folding `(?i:...)` applies to the letters of "python". */
  function LowerAscii(c: char): char {
    if 'A' <= c <= 'Z' then (c as int + 32) as char else c
  }

  /** `(?i:python)` matches at `i`. */
  predicate PythonAt(q: string, i: nat) {
    && i + 6 <= |q|
    && LowerAscii(q[i]) == 'p' && LowerAscii(q[i + 1]) == 'y' && LowerAscii(q[i + 2]) == 't'
    && LowerAscii(q[i + 3]) == 'h' && LowerAscii(q[i + 4]) == 'o' && LowerAscii(q[i + 5]) == 'n'
  }

  /**
   * Where the match of the first pattern ends. It is anchored at 0 and every
   * part of it is optional, so the engine takes the greedy choice each time
   * and never backtracks: the longest run of spaces and backticks, then
   * "python" in any case if it follows, then the longest run of spaces.
   */
  function LeadingMatchEnd(q: string): (c: nat)
    ensures c <= |q|
    ensures c < |q| ==> !IsSpace(q[c])
  {
    var a := RunEnd(q, 0, IsSpaceOrBacktick);
    var b := if PythonAt(q, a) then a + 6 else a;
    RunEnd(q, b, IsSpace)
  }

  /**
   * A reading of `^(\s|`)*(?i:python)?\s*` at the start of `q`: the
   * repetition takes `q[..a]`, the optional group `q[a..b]` (nothing, or
   * "python" in any case) and `\s*` takes `q[b..c]`.
   */
  ghost predicate IsLeadingReading(q: string, a: nat, b: nat, c: nat) {
    && a <= b <= c <= |q|
    && (forall k :: 0 <= k < a ==> IsSpaceOrBacktick(q[k]))
    && (b == a || (b == a + 6 && PythonAt(q, a)))
    && (forall k :: b <= k < c ==> IsSpace(q[k]))
  }

  /**
   * The order in which a backtracking engine tries readings: the longer
   * first repetition first, then the group taken before the group skipped,
   * then the longer `\s*`.
   */
  ghost predicate TriedBefore(a: nat, b: nat, c: nat, a': nat, b': nat, c': nat) {
    a' < a || (a' == a && (b' < b || (b' == b && c' <= c)))
  }

  /**
   * `LeadingMatchEnd` is where the reading the engine tries first ends: it is
   * a reading, and every reading comes after it in the engine's order. No part
   * of the pattern can fail, so that first reading is the match.
   */
  lemma LeadingMatchIsFirstReading(q: string)
    ensures var a := RunEnd(q, 0, IsSpaceOrBacktick);
      var b := if PythonAt(q, a) then a + 6 else a;
      && IsLeadingReading(q, a, b, LeadingMatchEnd(q))
      && forall a', b', c' :: IsLeadingReading(q, a', b', c') ==> TriedBefore(a, b, LeadingMatchEnd(q), a', b', c')
  {
    var a := RunEnd(q, 0, IsSpaceOrBacktick);
    var b := if PythonAt(q, a) then a + 6 else a;
    var c := LeadingMatchEnd(q);
    forall a': nat, b': nat, c': nat | IsLeadingReading(q, a', b', c') ensures TriedBefore(a, b, c, a', b', c') {
    }
  }

  /** The first substitution: its one match, at the start, is replaced by nothing. */
  function StripLeading(q: string): string {
    q[LeadingMatchEnd(q)..]
  }

  /**
   * A match of `(\s|`)*$` from `i` to `j`: spaces and backticks only, ending
   * where `$` holds, at the end of the text or just before a newline that
   * ends it.
   */
  ghost predicate IsTrailingMatch(s: string, i: nat, j: nat) {
    && i <= j <= |s|
    && (forall k :: i <= k < j ==> IsSpaceOrBacktick(s[k]))
    && (j == |s| || (j == |s| - 1 && s[j] == '\n'))
  }

  /**
   * The second substitution: the text up to where its trailing run of spaces
   * and backticks begins. All that follows is spaces and backticks, and the
   * last character kept is neither.
   */
  function StripTrailing(s: string): (r: string)
    ensures |r| <= |s| && r == s[..|r|]
    ensures r != [] ==> !IsSpaceOrBacktick(r[|r| - 1])
    ensures forall k :: |r| <= k < |s| ==> IsSpaceOrBacktick(s[k])
  {
    s[..RunStart(s, |s|, IsSpaceOrBacktick)]
  }

  /**
   * `StripTrailing` removes exactly what `re.sub` removes. The scan finds no
   * match starting before the trailing run (a newline ends no run early, as it
   * is itself a space); the match at the run's start is greedy and reaches the
   * end of the text; after it only an empty match at the end remains, and it
   * removes nothing.
   */
  lemma StripTrailingRemovesTheMatch(s: string)
    ensures var i := |StripTrailing(s)|;
      && IsTrailingMatch(s, i, |s|)
      && (forall i', j :: IsTrailingMatch(s, i', j) ==> i <= i')
      && s == StripTrailing(s) + s[i..]
  {
    var i := |StripTrailing(s)|;
    forall i': nat, j: nat | IsTrailingMatch(s, i', j) ensures i <= i' {
      assert j < |s| ==> IsSpace(s[|s| - 1]);
    }
  }

  /**
   * `_sanitize_input`. The result never starts with a space and never ends
   * with a space or a backtick; it is a slice of the query that starts where
   * the leading match ends, and all that follows it in the query is spaces
   * and backticks.
   */
  function SanitizeInput(query: string): (r: string)
    ensures r != [] ==> !IsSpace(r[0]) && !IsSpaceOrBacktick(r[|r| - 1])
  {
    StripTrailing(StripLeading(query))
  }

  /**
   * The result is the slice of the query that starts where the leading match
   * ends, and all that follows it in the query is spaces and backticks.
   */
  lemma SanitizeInputIsSlice(query: string)
    ensures var r := SanitizeInput(query);
      var c := LeadingMatchEnd(query);
      && c + |r| <= |query|
      && r == query[c..c + |r|]
      && forall k :: c + |r| <= k < |query| ==> IsSpaceOrBacktick(query[k])
  {
    var c := LeadingMatchEnd(query);
    var s := query[c..];
    var r := StripTrailing(s);
    assert r == s[..|r|] == query[c..c + |r|];
    assert forall k :: c + |r| <= k < |query| ==> query[k] == s[k - c];
  }

  /** The leading run of spaces and backticks ends where "python" starts. */
  lemma LeadEndsAtPython(lead: string, word: string, rest: string)
    requires forall k :: 0 <= k < |lead| ==> IsSpaceOrBacktick(lead[k])
    requires |word| == 6 && PythonAt(word, 0)
    ensures RunEnd(lead + word + rest, 0, IsSpaceOrBacktick) == |lead|
    ensures PythonAt(lead + word + rest, |lead|)
  {
    var q := lead + word + rest;
    assert forall k :: 0 <= k < |lead| ==> q[k] == lead[k];
    assert forall k :: 0 <= k < 6 ==> q[|lead| + k] == word[k];
    RunEndIsUnique(q, 0, |lead|, IsSpaceOrBacktick);
  }

  /** The first substitution's match ends after "python" and the spaces that follow it. */
  lemma PythonPrefixMatched(lead: string, word: string, rest: string)
    requires forall k :: 0 <= k < |lead| ==> IsSpaceOrBacktick(lead[k])
    requires |word| == 6 && PythonAt(word, 0)
    ensures LeadingMatchEnd(lead + word + rest) == |lead| + 6 + RunEnd(rest, 0, IsSpace)
  {
    LeadEndsAtPython(lead, word, rest);
    RunEndAfterPrefix(lead + word, rest, 0, IsSpace);
  }

  /**
   * A "python" prefix, in any case, after any spaces and backticks is removed,
   * and so are the spaces after it; backticks after it are kept.
   */
  lemma PythonPrefixRemoved(lead: string, word: string, rest: string)
    requires forall k :: 0 <= k < |lead| ==> IsSpaceOrBacktick(lead[k])
    requires |word| == 6 && PythonAt(word, 0)
    ensures SanitizeInput(lead + word + rest) == StripTrailing(rest[RunEnd(rest, 0, IsSpace)..])
  {
    var q := lead + word + rest;
    var c := |lead| + 6 + RunEnd(rest, 0, IsSpace);
    PythonPrefixMatched(lead, word, rest);
    assert StripLeading(q) == q[c..] == rest[RunEnd(rest, 0, IsSpace)..];
  }

  /**
   * Without a "python" after the leading spaces and backticks, only those are
   * removed at the start: the character after them is no space, so the final
   * `\s*` takes nothing.
   */
  lemma NoPythonPrefix(query: string)
    requires !PythonAt(query, RunEnd(query, 0, IsSpaceOrBacktick))
    ensures SanitizeInput(query) == StripTrailing(query[RunEnd(query, 0, IsSpaceOrBacktick)..])
  {
    var a := RunEnd(query, 0, IsSpaceOrBacktick);
    RunEndIsUnique(query, a, a, IsSpace);
  }

  /** A query with nothing to remove at either end comes back unchanged. */
  lemma CleanQueryUnchanged(query: string)
    requires query != []
    requires !IsSpaceOrBacktick(query[0]) && !IsSpaceOrBacktick(query[|query| - 1])
    requires !PythonAt(query, 0)
    ensures SanitizeInput(query) == query
  {
    RunEndIsUnique(query, 0, 0, IsSpaceOrBacktick);
    NoPythonPrefix(query);
    assert RunStart(query, |query|, IsSpaceOrBacktick) == |query|;
  }

  /** Text that ends in neither a space nor a backtick loses nothing at the end. */
  lemma StripTrailingKeepsCleanEnd(t: string)
    requires t != [] ==> !IsSpaceOrBacktick(t[|t| - 1])
    ensures StripTrailing(t) == t
  {
  }

  /** After a single space, text with clean ends is what remains. */
  lemma SingleSpaceDropped(rest: string, tail: string)
    requires rest == " " + tail
    requires tail != [] ==> !IsSpace(tail[0]) && !IsSpaceOrBacktick(tail[|tail| - 1])
    ensures StripTrailing(rest[RunEnd(rest, 0, IsSpace)..]) == tail
  {
    RunEndIsUnique(rest, 0, 1, IsSpace);
    assert rest[1..] == tail;
    StripTrailingKeepsCleanEnd(tail);
  }

  /** "python", a space and text with clean ends sanitise to that text. */
  lemma PythonAndSpaceRemoved(tail: string)
    requires tail != [] ==> !IsSpace(tail[0]) && !IsSpaceOrBacktick(tail[|tail| - 1])
    ensures SanitizeInput("python" + " " + tail) == tail
  {
    var rest := " " + tail;
    assert "python" + " " + tail == "" + "python" + rest;
    PythonPrefixRemoved("", "python", rest);
    SingleSpaceDropped(rest, tail);
  }

  /**
   * One call removes one "python": "python python x" becomes "python x", and
   * only a second call leaves "x".
   */
  lemma SanitizeRemovesOnePython(tail: string)
    requires tail != [] && !IsSpace(tail[0]) && !IsSpaceOrBacktick(tail[|tail| - 1])
    ensures SanitizeInput("python" + " " + ("python" + " " + tail)) == "python" + " " + tail
    ensures SanitizeInput("python" + " " + tail) == tail
  {
    var once := "python" + " " + tail;
    assert once[0] == 'p' && once[|once| - 1] == tail[|tail| - 1];
    PythonAndSpaceRemoved(once);
    PythonAndSpaceRemoved(tail);
  }

  /** Sanitising is not idempotent. */
  lemma SanitizeIsNotIdempotent()
    ensures exists q :: SanitizeInput(SanitizeInput(q)) != SanitizeInput(q)
  {
    var tail := "x";
    var q := "python" + " " + ("python" + " " + tail);
    SanitizeRemovesOnePython(tail);
    assert |"python" + " " + tail| != |tail|;
    assert SanitizeInput(SanitizeInput(q)) != SanitizeInput(q);
  }
}
