/** Cutting text into lines, and the whitespace tests the loaders use. */
module TextLines {
  /** Cuts text at every boundary character; a text with n boundaries has n + 1 segments. */
  function Split(text: string, boundary: char -> bool): (lines: seq<string>)
    ensures lines != []
  {
    if text == "" then [""]
    else
      var rest := Split(text[1..], boundary);
      if boundary(text[0]) then [""] + rest else [[text[0]] + rest[0]] + rest[1..]
  }

  ghost predicate Unbroken(text: string, boundary: char -> bool) {
    forall k :: 0 <= k < |text| ==> !boundary(text[k])
  }

  /** A boundary character separates what comes before it from what comes after. */
  lemma {:induction false} SplitAt(before: string, c: char, after: string, boundary: char -> bool)
    requires boundary(c)
    ensures Split(before + [c] + after, boundary) == Split(before, boundary) + Split(after, boundary)
  {
    var text := before + [c] + after;
    if before == "" {
      assert text[1..] == after;
    } else {
      assert text[1..] == before[1..] + [c] + after;
      SplitAt(before[1..], c, after, boundary);
    }
  }

  /** A boundary at the end adds one empty segment. */
  lemma SplitEnd(before: string, c: char, boundary: char -> bool)
    requires boundary(c)
    ensures Split(before + [c], boundary) == Split(before, boundary) + [""]
  {
    SplitAt(before, c, "", boundary);
    assert before + [c] + "" == before + [c];
  }

  lemma {:induction false} SplitUnbroken(text: string, boundary: char -> bool)
    requires Unbroken(text, boundary)
    ensures Split(text, boundary) == [text]
  {
    if text != "" {
      SplitUnbroken(text[1..], boundary);
      assert text == [text[0]] + text[1..];
    }
  }

  /** The characters that `strip` removes. */
  predicate IsSpace(c: char) {
    || c == ' ' || '\t' <= c <= '\r' || '\U{1C}' <= c <= '\U{1F}' || c == '\U{85}' || c == '\U{A0}'
    || c == '\U{1680}' || '\U{2000}' <= c <= '\U{200A}' || c == '\U{2028}' || c == '\U{2029}'
    || c == '\U{202F}' || c == '\U{205F}' || c == '\U{3000}'
  }

  /** The characters at which `splitlines` cuts. */
  predicate IsLineBoundary(c: char) {
    '\n' <= c <= '\r' || '\U{1C}' <= c <= '\U{1E}' || c == '\U{85}' || c == '\U{2028}' || c == '\U{2029}'
  }

  /** The characters one by one; every line boundary is among those that `strip` removes. */
  lemma BoundariesAreSpaces(c: char)
    ensures IsLineBoundary(c) <==>
            || c == '\n' || c == '\U{B}' || c == '\U{C}' || c == '\r' || c == '\U{1C}' || c == '\U{1D}'
            || c == '\U{1E}' || c == '\U{85}' || c == '\U{2028}' || c == '\U{2029}'
    ensures IsSpace(c) <==>
            || IsLineBoundary(c) || c == '\t' || c == ' ' || c == '\U{1F}' || c == '\U{A0}' || c == '\U{1680}'
            || c == '\U{2000}' || c == '\U{2001}' || c == '\U{2002}' || c == '\U{2003}' || c == '\U{2004}'
            || c == '\U{2005}' || c == '\U{2006}' || c == '\U{2007}' || c == '\U{2008}' || c == '\U{2009}'
            || c == '\U{200A}' || c == '\U{202F}' || c == '\U{205F}' || c == '\U{3000}'
  {
    assert '\n' as int == 10 && '\r' as int == 13 && '\t' as int == 9;
  }

  function StripLeft(text: string): (r: string)
    ensures |r| <= |text| && r == text[|text| - |r|..]
    ensures r != "" ==> !IsSpace(r[0])
  {
    if text != "" && IsSpace(text[0]) then StripLeft(text[1..]) else text
  }

  function StripRight(text: string): (r: string)
    ensures r <= text
    ensures r != "" ==> !IsSpace(r[|r| - 1])
    ensures text != "" && !IsSpace(text[0]) ==> r != ""
  {
    if text != "" && IsSpace(text[|text| - 1]) then StripRight(text[..|text| - 1]) else text
  }

  function Strip(text: string): string {
    StripRight(StripLeft(text))
  }

  predicate Blank(text: string) {
    Strip(text) == ""
  }

  /** Text without whitespace at either end is left alone. */
  lemma StripNothing(text: string)
    requires text != "" ==> !IsSpace(text[0]) && !IsSpace(text[|text| - 1])
    ensures Strip(text) == text
  {}

  /** Stripping a piece that starts solidly leaves a non-empty piece that starts at the same place. */
  lemma StripPiece(text: string)
    requires text != "" && !IsSpace(text[0])
    ensures Strip(text) <= text && Strip(text) != ""
  {}

  /** Stripping twice is stripping once. */
  lemma StripTwice(text: string)
    ensures Strip(Strip(text)) == Strip(text)
  {
    var left := StripLeft(text);
    var once := StripRight(left);
    if once != "" {
      assert once[0] == left[0];
    }
  }
}
