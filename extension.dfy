/** The extension filter typed by the user (file_operations.py:19-21). */
module Extension {
  import opened Text

  /** Strip the surrounding whitespace and make sure the result starts with a dot. */
  function ParseExtension(input: string): (ext: string)
    ensures |ext| > 0 && ext[0] == '.'
    ensures EndsWith(ext, Strip(input))
    ensures IsStripped(ext)
  {
    var e := Strip(input);
    if |e| > 0 && e[0] == '.' then e else "." + e
  }

  /** The result is the shortest string that starts with a dot and ends with the
      stripped input; with the suffix property this determines it. */
  lemma ParseExtensionShortest(input: string, t: string)
    requires |t| > 0 && t[0] == '.'
    requires EndsWith(t, Strip(input))
    ensures |ParseExtension(input)| <= |t|
  {
    var e := Strip(input);
    assert t[|t| - |e|..] == e;
    assert |t| == |e| ==> t[|t| - |e|..] == t;
  }

  /** Normalising twice is normalising once. */
  lemma ParseExtensionIdempotent(input: string)
    ensures ParseExtension(ParseExtension(input)) == ParseExtension(input)
  {
    StripStripped(ParseExtension(input));
  }

  /** Blank input yields the bare dot, which matches every name ending in ".". */
  lemma ParseExtensionBlank(input: string)
    requires AllSpace(input)
    ensures ParseExtension(input) == "."
  {
  }
}
