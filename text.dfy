/**
 * The two string operations the author filter relies on: lower-casing
 * (`str.lower()`, restricted to ASCII letters) and the substring test that
 * Python's `in` performs on two strings.
 */
module Text {

  predicate IsAsciiUpper(c: char) {
    'A' <= c <= 'Z'
  }

  /** Lower-cases one character: A-Z move to a-z, every other character is kept. */
  function LowerChar(c: char): (r: char)
    ensures !IsAsciiUpper(r)
    ensures !IsAsciiUpper(c) ==> r == c
    ensures IsAsciiUpper(c) ==> 'a' <= r <= 'z' && r as int - 'a' as int == c as int - 'A' as int
  {
    if IsAsciiUpper(c) then (c as int - 'A' as int + 'a' as int) as char else c
  }

  /** `s.lower()`: the same string, position by position lower-cased. */
  function Lower(s: string): (r: string)
    ensures |r| == |s|
    ensures forall i :: 0 <= i < |s| ==> r[i] == LowerChar(s[i])
    ensures forall i :: 0 <= i < |r| ==> !IsAsciiUpper(r[i])
  {
    seq(|s|, i requires 0 <= i < |s| => LowerChar(s[i]))
  }

  /** `f` occurs in `s` starting at position `i`. */
  predicate OccursAt(f: string, s: string, i: int) {
    0 <= i <= |s| - |f| && s[i..i + |f|] == f
  }

  /** The meaning of Python's `f in s` for two strings. */
  ghost predicate IsSubstring(f: string, s: string) {
    exists i :: OccursAt(f, s, i)
  }

  predicate StartsWith(s: string, p: string) {
    |p| <= |s| && s[..|p|] == p
  }

  /** An occurrence in `s` is either at its head or an occurrence in its tail. */
  lemma SubstringStep(f: string, s: string)
    requires s != []
    ensures IsSubstring(f, s) <==> StartsWith(s, f) || IsSubstring(f, s[1..])
  {
    if IsSubstring(f, s) {
      var i :| OccursAt(f, s, i);
      if i > 0 {
        assert s[1..][i - 1..i - 1 + |f|] == s[i..i + |f|];
        assert OccursAt(f, s[1..], i - 1);
      } else {
        assert StartsWith(s, f);
      }
    }
    if StartsWith(s, f) {
      assert OccursAt(f, s, 0);
    }
    if IsSubstring(f, s[1..]) {
      var i :| OccursAt(f, s[1..], i);
      assert s[i + 1..i + 1 + |f|] == s[1..][i..i + |f|];
      assert OccursAt(f, s, i + 1);
    }
  }

  /** The left-to-right scan that decides `f in s`. */
  function Contains(s: string, f: string): (r: bool)
    ensures r <==> IsSubstring(f, s)
    decreases |s|
  {
    if StartsWith(s, f) then
      assert OccursAt(f, s, 0);
      true
    else if s == [] then
      false
    else
      SubstringStep(f, s);
      Contains(s[1..], f)
  }

  /** Every character of a substring appears in the enclosing string. */
  lemma SubstringChars(f: string, s: string, c: char)
    requires IsSubstring(f, s) && c in f
    ensures c in s
  {
    var i :| OccursAt(f, s, i);
    var j :| 0 <= j < |f| && f[j] == c;
    assert s[i + j] == s[i..i + |f|][j];
  }
}
