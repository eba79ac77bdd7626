/** The string operations the file manager relies on: Python's `str.strip()`,
    `str.endswith`, `str.lower()` and the substring test `in`. */
module Text {

  /** The characters `str.isspace()` accepts, which are exactly those
      `str.strip()` with no argument removes. */
  predicate IsSpace(c: char) {
    var k := c as int;
    || 9 <= k <= 13          // \t \n \v \f \r
    || 28 <= k <= 32         // file, group, record, unit separators and ' '
    || k == 0x85 || k == 0xA0 || k == 0x1680
    || 0x2000 <= k <= 0x200A
    || k == 0x2028 || k == 0x2029 || k == 0x202F || k == 0x205F || k == 0x3000
  }

  predicate AllSpace(s: string) {
    forall k :: 0 <= k < |s| ==> IsSpace(s[k])
  }

  /** Neither end of `s` is whitespace. */
  predicate IsStripped(s: string) {
    s == [] || (!IsSpace(s[0]) && !IsSpace(s[|s| - 1]))
  }

  /** `r` sits at offset `i` of `s` and everything around it is whitespace. */
  predicate Padded(s: string, i: int, r: string) {
    && 0 <= i <= |s| - |r|
    && s[i..i + |r|] == r
    && AllSpace(s[..i])
    && AllSpace(s[i + |r|..])
  }

  /** Number of whitespace characters at the start of `s`. */
  function LeadingSpaces(s: string): (n: nat)
    ensures n <= |s|
    ensures AllSpace(s[..n])
    ensures n < |s| ==> !IsSpace(s[n])
  {
    if s == [] || !IsSpace(s[0]) then 0
    else
      var m := LeadingSpaces(s[1..]);
      assert s[..1 + m] == [s[0]] + s[1..][..m];
      1 + m
  }

  /** Number of whitespace characters at the end of `s`. */
  function TrailingSpaces(s: string): (n: nat)
    ensures n <= |s|
    ensures AllSpace(s[|s| - n..])
    ensures n < |s| ==> !IsSpace(s[|s| - n - 1])
  {
    if s == [] || !IsSpace(s[|s| - 1]) then 0
    else
      var t := s[..|s| - 1];
      var m := TrailingSpaces(t);
      assert s[|s| - (1 + m)..] == t[|t| - m..] + [s[|s| - 1]];
      1 + m
  }

  /** Python's `str.strip()`: drop the whitespace at both ends. */
  function Strip(s: string): (r: string)
    ensures IsStripped(r)
    ensures r == [] <==> AllSpace(s)
    ensures exists i :: Padded(s, i, r)
  {
    var i := LeadingSpaces(s);
    var t := s[i..];
    var j := TrailingSpaces(t);
    var r := t[..|t| - j];
    assert s[i..i + |r|] == r;
    assert s[i + |r|..] == t[|t| - j..];
    assert Padded(s, i, r);
    assert r != [] ==> r[0] == s[i] && r[|r| - 1] == t[|t| - j - 1];
    assert AllSpace(s) ==> i == |s|;
    r
  }

  /** The whitespace run at the start of `s` ends at the first non-space. */
  lemma LeadingSpacesExact(s: string, i: int)
    requires 0 <= i < |s| && AllSpace(s[..i]) && !IsSpace(s[i])
    ensures LeadingSpaces(s) == i
  {
  }

  /** The whitespace run at the end of `t` starts after the last non-space. */
  lemma TrailingSpacesExact(t: string, k: int)
    requires 0 <= k < |t| && AllSpace(t[|t| - k..]) && !IsSpace(t[|t| - k - 1])
    ensures TrailingSpaces(t) == k
  {
  }

  /** Stripping removes exactly the surrounding whitespace: any stripped string
      padded with whitespace to give `s` is `Strip(s)`. */
  lemma {:induction false} StripUnique(s: string, i: int, r: string)
    requires IsStripped(r) && Padded(s, i, r)
    ensures Strip(s) == r
  {
    if r == [] {
      assert s == s[..i] + s[i..];
      assert AllSpace(s);
    } else {
      assert s[i] == r[0];
      LeadingSpacesExact(s, i);
      var t := s[i..];
      assert t == r + s[i + |r|..];
      var k := |t| - |r|;
      assert t[|t| - k..] == s[i + |r|..];
      assert t[|t| - 1 - k] == r[|r| - 1];
      TrailingSpacesExact(t, k);
      assert t[..|t| - k] == r;
    }
  }

  /** A string without whitespace at its ends is its own strip. */
  lemma StripStripped(s: string)
    requires IsStripped(s)
    ensures Strip(s) == s
  {
    assert s[0..|s|] == s;
    StripUnique(s, 0, s);
  }

  /** Python's `s.endswith(suffix)`. */
  predicate EndsWith(s: string, suffix: string) {
    |suffix| <= |s| && s[|s| - |suffix|..] == suffix
  }

  /** ASCII case folding, the part of `str.lower()` this model covers. */
  function LowerChar(c: char): char {
    if 'A' <= c <= 'Z' then (c as int + 32) as char else c
  }

  function Lower(s: string): (r: string)
    ensures |r| == |s|
    ensures forall k :: 0 <= k < |r| ==> !('A' <= r[k] <= 'Z')
    ensures forall k :: 0 <= k < |s| && !('A' <= s[k] <= 'Z') ==> r[k] == s[k]
  {
    seq(|s|, k requires 0 <= k < |s| => LowerChar(s[k]))
  }

  predicate OccursAt(hay: string, needle: string, i: int) {
    0 <= i <= |hay| - |needle| && hay[i..i + |needle|] == needle
  }

  /** Python's `needle in hay` on strings. */
  predicate Contains(hay: string, needle: string) {
    exists i | 0 <= i <= |hay| - |needle| :: OccursAt(hay, needle, i)
  }
}
