/** String helpers shared by the ticket validators (JavaScript `String.prototype.trim`)
    and the router (PHP `trim($uri, '/')`). Both strip, from each end of a string,
    every character of some class; the class is a parameter. */
module Strings {

  /** Removes the longest prefix of `s` made only of characters satisfying `drop`. */
  function DropLeading(s: string, drop: char -> bool): (r: string)
    ensures |r| <= |s| && r == s[|s| - |r|..]
    ensures forall i :: 0 <= i < |s| - |r| ==> drop(s[i])
    ensures r == [] || !drop(r[0])
    decreases |s|
  {
    if s != [] && drop(s[0]) then DropLeading(s[1..], drop) else s
  }

  /** Removes the longest suffix of `s` made only of characters satisfying `drop`. */
  function DropTrailing(s: string, drop: char -> bool): (r: string)
    ensures |r| <= |s| && r == s[..|r|]
    ensures forall i :: |r| <= i < |s| ==> drop(s[i])
    ensures r == [] || !drop(r[|r| - 1])
    decreases |s|
  {
    if s != [] && drop(s[|s| - 1]) then DropTrailing(s[..|s| - 1], drop) else s
  }

  /** `r` is `s` with a droppable prefix of length `lo` and a droppable suffix cut off. */
  ghost predicate CutAt(s: string, lo: int, r: string, drop: char -> bool) {
    && 0 <= lo <= |s| - |r|
    && r == s[lo..lo + |r|]
    && (forall i :: 0 <= i < lo ==> drop(s[i]))
    && (forall i :: lo + |r| <= i < |s| ==> drop(s[i]))
  }

  /** Removes droppable characters from both ends: the result is the infix of `s`
      obtained by cutting off a droppable prefix and a droppable suffix, and it
      neither starts nor ends with a droppable character. */
  function Strip(s: string, drop: char -> bool): (r: string)
    ensures |r| <= |s|
    ensures r == [] || (!drop(r[0]) && !drop(r[|r| - 1]))
    ensures exists lo :: CutAt(s, lo, r, drop)
  {
    var front := DropLeading(s, drop);
    var r := DropTrailing(front, drop);
    var lo := |s| - |front|;
    assert CutAt(s, lo, r, drop);
    r
  }

  /** Stripping is dropping the leading run, then the trailing run. */
  lemma StripIsTrimmedEnds(s: string, drop: char -> bool)
    ensures Strip(s, drop) == DropTrailing(DropLeading(s, drop), drop)
  {
  }

  /** A droppable first character is dropped with the rest of the leading run. */
  lemma DropLeadingCons(c: char, s: string, drop: char -> bool)
    requires drop(c)
    ensures DropLeading([c] + s, drop) == DropLeading(s, drop)
  {
    assert ([c] + s)[1..] == s;
  }

  /** A droppable last character is dropped with the rest of the trailing run. */
  lemma DropTrailingSnoc(s: string, c: char, drop: char -> bool)
    requires drop(c)
    ensures DropTrailing(s + [c], drop) == DropTrailing(s, drop)
  {
    assert (s + [c])[..|s|] == s;
  }

  /** Stripping leaves nothing exactly when every character is droppable. */
  lemma StripEmptyIff(s: string, drop: char -> bool)
    ensures Strip(s, drop) == [] <==> forall i :: 0 <= i < |s| ==> drop(s[i])
  {
    var front := DropLeading(s, drop);
    if front != [] {
      assert !drop(s[|s| - |front|]);
    }
  }

  /** Stripping twice is stripping once. */
  lemma StripIdempotent(s: string, drop: char -> bool)
    ensures Strip(Strip(s, drop), drop) == Strip(s, drop)
  {
    var r := Strip(s, drop);
    if r != [] {
      assert DropLeading(r, drop) == r;
      assert DropTrailing(r, drop) == r;
    }
  }

  /** White space as ECMAScript's `String.prototype.trim` removes it: the
      WhiteSpace characters (tab, vertical tab, form feed, space, no-break space,
      byte order mark and every other Unicode space separator) and the
      LineTerminator characters (line feed, carriage return, line and paragraph
      separators). */
  predicate IsJsWhitespace(c: char) {
    || c == '\t' || c == '\n' || c == '\U{000B}' || c == '\U{000C}' || c == '\r'
    || c == ' ' || c == '\U{00A0}' || c == '\U{1680}'
    || ('\U{2000}' <= c <= '\U{200A}')
    || c == '\U{2028}' || c == '\U{2029}' || c == '\U{202F}' || c == '\U{205F}'
    || c == '\U{3000}' || c == '\U{FEFF}'
  }

  /** JavaScript's `s.trim()`. */
  function JsTrim(s: string): string {
    Strip(s, IsJsWhitespace)
  }

  /** Every character of `s` is white space (vacuously so for the empty string). */
  predicate IsBlank(s: string) {
    forall i :: 0 <= i < |s| ==> IsJsWhitespace(s[i])
  }

  /** `s.trim() === ''` holds exactly for blank strings. */
  lemma JsTrimEmptyIffBlank(s: string)
    ensures JsTrim(s) == "" <==> IsBlank(s)
  {
    StripEmptyIff(s, IsJsWhitespace);
  }
}
