/**
 * The character classes used by the regular expressions of the session
 * client, and the maximal-run scans that greedy repetitions of them perform.
 */
module CharClasses {

  /**
   * Python's `\s` in a `str` pattern: the characters for which `str.isspace()`
   * holds (ASCII tab to carriage return, the four ASCII separators 0x1C-0x1F,
   * space, and the Unicode space and line/paragraph separators).
   */
  predicate IsSpace(c: char) {
    || ('\t' <= c <= '\r')
    || ('\U{1C}' <= c <= ' ')
    || c == '\U{85}' || c == '\U{A0}' || c == '\U{1680}'
    || ('\U{2000}' <= c <= '\U{200A}')
    || c == '\U{2028}' || c == '\U{2029}' || c == '\U{202F}' || c == '\U{205F}' || c == '\U{3000}'
  }

  predicate IsAsciiLetter(c: char) {
    ('a' <= c <= 'z') || ('A' <= c <= 'Z')
  }

  predicate IsDigit(c: char) {
    '0' <= c <= '9'
  }

  /** `\w`, restricted to ASCII: letters, digits and the underscore. */
  predicate IsWordChar(c: char) {
    IsAsciiLetter(c) || IsDigit(c) || c == '_'
  }

  /** The class `[\w\+\-]` of a code block's language tag. */
  predicate IsTagChar(c: char) {
    IsWordChar(c) || c == '+' || c == '-'
  }

  /** The alternative `(\s|`)` of the sanitiser. */
  predicate IsSpaceOrBacktick(c: char) {
    IsSpace(c) || c == '`'
  }

  /** A tag character is neither whitespace, nor a backtick, nor a newline. */
  lemma TagCharIsNotSpace(c: char)
    ensures IsTagChar(c) ==> !IsSpace(c) && c != '`' && c != '\n'
  {
  }

  /**
   * Where a greedy repetition of `p` that starts at `i` stops: the end of the
   * maximal run of `p`-characters beginning at `i`.
   */
  function RunEnd(s: string, i: nat, p: char -> bool): (j: nat)
    requires i <= |s|
    ensures i <= j <= |s|
    ensures forall k :: i <= k < j ==> p(s[k])
    ensures j < |s| ==> !p(s[j])
    decreases |s| - i
  {
    if i < |s| && p(s[i]) then RunEnd(s, i + 1, p) else i
  }

  /** The start of the maximal run of `p`-characters that ends just before `j`. */
  function RunStart(s: string, j: nat, p: char -> bool): (i: nat)
    requires j <= |s|
    ensures i <= j
    ensures forall k :: i <= k < j ==> p(s[k])
    ensures 0 < i ==> !p(s[i - 1])
    decreases j
  {
    if 0 < j && p(s[j - 1]) then RunStart(s, j - 1, p) else j
  }

  /** A run is determined by where it starts and the first character that stops it. */
  lemma RunEndIsUnique(s: string, i: nat, j: nat, p: char -> bool)
    requires i <= j <= |s|
    requires forall k :: i <= k < j ==> p(s[k])
    requires j < |s| ==> !p(s[j])
    ensures RunEnd(s, i, p) == j
  {
  }

  /** A run inside the second part of a text is the same run shifted by the first part. */
  lemma RunEndAfterPrefix(s: string, t: string, i: nat, p: char -> bool)
    requires i <= |t|
    ensures RunEnd(s + t, |s| + i, p) == |s| + RunEnd(t, i, p)
  {
    var j := RunEnd(t, i, p);
    assert forall k :: |s| + i <= k < |s| + j ==> (s + t)[k] == t[k - |s|];
    assert |s| + j < |s + t| ==> (s + t)[|s| + j] == t[j];
    RunEndIsUnique(s + t, |s| + i, |s| + j, p);
  }

  /**
   * Python's `str.strip()`: the slice of the text between its leading and its
   * trailing whitespace. It starts where the leading run of whitespace ends,
   * and only whitespace follows it.
   */
  function Strip(t: string): (r: string)
    ensures var a := RunEnd(t, 0, IsSpace); a + |r| <= |t| && r == t[a..a + |r|]
    ensures forall k :: RunEnd(t, 0, IsSpace) + |r| <= k < |t| ==> IsSpace(t[k])
    ensures r != [] ==> !IsSpace(r[0]) && !IsSpace(r[|r| - 1])
    ensures forall k :: 0 <= k < |t| && !IsSpace(t[k]) ==> r != []
  {
    var a := RunEnd(t, 0, IsSpace);
    var u := t[a..];
    var b := RunStart(u, |u|, IsSpace);
    assert u[..b] == t[a..a + b];
    assert forall k :: a + b <= k < |t| ==> t[k] == u[k - a];
    u[..b]
  }

  /** Stripping text that holds no whitespace gives it back unchanged. */
  lemma StripWithoutSpace(t: string)
    requires forall k :: 0 <= k < |t| ==> !IsSpace(t[k])
    ensures Strip(t) == t
  {
    assert RunEnd(t, 0, IsSpace) == 0;
    assert RunStart(t, |t|, IsSpace) == |t|;
  }
}
