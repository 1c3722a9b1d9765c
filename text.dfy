/** Character classes and small string operations shared by the blog's text helpers
    and by the service worker's URL tests. Strings are sequences of Unicode scalar values. */
module Text {

  /** JavaScript's `\s` class (WhiteSpace and LineTerminator code points of ECMAScript);
      `String.prototype.trim` strips exactly the same set. */
  predicate IsSpace(c: char) {
    || c == '\t' || c == '\n' || c == '\U{000B}' || c == '\U{000C}' || c == '\r' || c == ' '
    || c == '\U{00A0}' || c == '\U{1680}' || ('\U{2000}' <= c <= '\U{200A}')
    || c == '\U{2028}' || c == '\U{2029}' || c == '\U{202F}' || c == '\U{205F}'
    || c == '\U{3000}' || c == '\U{FEFF}'
  }

  /** JavaScript's `\w` class without the `u` flag: `[A-Za-z0-9_]`. */
  predicate IsWord(c: char) {
    ('a' <= c <= 'z') || ('A' <= c <= 'Z') || ('0' <= c <= '9') || c == '_'
  }

  /** No white-space character is a word character. */
  lemma SpaceIsNotWord(c: char)
    requires IsSpace(c)
    ensures !IsWord(c)
  {
  }

  predicate IsUpper(c: char) {
    'A' <= c <= 'Z'
  }

  const Alphabet: string := "abcdefghijklmnopqrstuvwxyz"

  /** `toLowerCase` on one character, for the ASCII letters: an upper-case letter becomes
      the lower-case letter at the same place in the alphabet, and every other character
      is kept. */
  function Lower(c: char): (d: char)
    ensures IsUpper(c) ==> d == Alphabet[c as int - 'A' as int]
    ensures !IsUpper(d)
    ensures IsWord(d) <==> IsWord(c)
    ensures IsSpace(d) <==> IsSpace(c)
    ensures d == '-' <==> c == '-'
    ensures !IsUpper(c) ==> d == c
  {
    if IsUpper(c) then (c as int + 32) as char else c
  }

  predicate NoSpace(s: string) {
    forall i :: 0 <= i < |s| ==> !IsSpace(s[i])
  }

  /** Drops the leading white space (the first half of `trim`). */
  function TrimStart(s: string): (r: string)
    ensures |r| <= |s| && r == s[|s| - |r|..]
    ensures forall i :: 0 <= i < |s| - |r| ==> IsSpace(s[i])
    ensures r == [] || !IsSpace(r[0])
  {
    if s != [] && IsSpace(s[0]) then TrimStart(s[1..]) else s
  }

  /** Leading white space in front of a text is dropped together with that text's own. */
  lemma {:induction false} TrimStartSkips(w: string, b: string)
    requires forall i :: 0 <= i < |w| ==> IsSpace(w[i])
    ensures TrimStart(w + b) == TrimStart(b)
    decreases |w|
  {
    if w == [] {
      assert w + b == b;
    } else {
      assert (w + b)[0] == w[0];
      assert (w + b)[1..] == w[1..] + b;
      TrimStartSkips(w[1..], b);
    }
  }

  /** Drops the trailing white space (the second half of `trim`). */
  function TrimEnd(s: string): (r: string)
    ensures |r| <= |s| && r == s[..|r|]
    ensures forall i :: |r| <= i < |s| ==> IsSpace(s[i])
    ensures r == [] || !IsSpace(r[|r| - 1])
  {
    if s != [] && IsSpace(s[|s| - 1]) then TrimEnd(s[..|s| - 1]) else s
  }

  /** `String.prototype.trim`. */
  function Trim(s: string): (r: string)
    ensures r == [] || (!IsSpace(r[0]) && !IsSpace(r[|r| - 1]))
  {
    TrimEnd(TrimStart(s))
  }

  /** Trimming leaves a string without white space at either end as it is. */
  lemma TrimKeeps(s: string)
    requires s == [] || (!IsSpace(s[0]) && !IsSpace(s[|s| - 1]))
    ensures Trim(s) == s
  {
    assert TrimStart(s) == s;
  }

  /** How many leading characters `trim` drops. */
  function TrimOffset(s: string): (k: nat)
    ensures k <= |s|
  {
    |s| - |TrimStart(s)|
  }

  /** `trim` removes white space only: it keeps one slice of its input, and every character
      outside that slice is white space. */
  lemma TrimIsSlice(s: string)
    ensures TrimOffset(s) + |Trim(s)| <= |s|
    ensures Trim(s) == s[TrimOffset(s)..TrimOffset(s) + |Trim(s)|]
    ensures forall i :: 0 <= i < TrimOffset(s) ==> IsSpace(s[i])
    ensures forall i :: TrimOffset(s) + |Trim(s)| <= i < |s| ==> IsSpace(s[i])
  {
    TrimEndOfSuffix(s, TrimOffset(s), TrimStart(s));
  }

  /** Trimming the end of a suffix of `s` keeps a slice of `s`, followed by white space. */
  lemma TrimEndOfSuffix(s: string, lo: nat, t: string)
    requires lo <= |s| && t == s[lo..]
    ensures lo + |TrimEnd(t)| <= |s|
    ensures TrimEnd(t) == s[lo..lo + |TrimEnd(t)|]
    ensures forall i :: lo + |TrimEnd(t)| <= i < |s| ==> IsSpace(s[i])
  {
    var u := TrimEnd(t);
    assert u == t[..|u|];
    forall i | lo + |u| <= i < |s| ensures IsSpace(s[i]) {
      assert s[i] == t[i - lo];
    }
  }

  predicate EndsWith(s: string, suffix: string) {
    |suffix| <= |s| && s[|s| - |suffix|..] == suffix
  }

  predicate StartsWith(s: string, prefix: string) {
    |prefix| <= |s| && s[..|prefix|] == prefix
  }

  /** A copy of `t` starts at position `i` of `s`. */
  predicate OccursAt(s: string, t: string, i: nat) {
    i + |t| <= |s| && s[i..i + |t|] == t
  }

  /** `s.includes(t)`, or an unanchored regular expression with no metacharacters. */
  predicate Contains(s: string, t: string) {
    exists i: nat | i <= |s| :: OccursAt(s, t, i)
  }
}
