/** Literal substring search.

    The colouriser compiles each of its keywords into a regular expression
    and asks whether the expression can be found anywhere in a line.  Every
    keyword is a plain upper-case word without metacharacters, so such a
    search is exactly a search for the keyword as a contiguous substring,
    unanchored and not restricted to whole words.  This module gives that
    search, returning the leftmost starting position as a regular-expression
    search would, and relates it to the plain notion of containment. */
module TextSearch {
  import opened Wrappers

  /** `pattern` occurs in `text` starting at position `i`. */
  predicate OccursAt(pattern: string, text: string, i: int) {
    0 <= i && i + |pattern| <= |text| && text[i..i + |pattern|] == pattern
  }

  /** `pattern` is a substring of `text`. */
  ghost predicate Occurs(pattern: string, text: string) {
    exists i :: OccursAt(pattern, text, i)
  }

  /** The leftmost position at which `pattern` occurs in `text`, if any. */
  function Search(pattern: string, text: string): (r: Option<nat>)
    ensures r.Some? ==> OccursAt(pattern, text, r.value)
    ensures r.Some? ==> forall i :: 0 <= i < r.value ==> !OccursAt(pattern, text, i)
    ensures r.None? ==> forall i :: !OccursAt(pattern, text, i)
    decreases |text|
  {
    if |pattern| <= |text| && text[..|pattern|] == pattern then
      Some(0)
    else if |text| == 0 then
      None
    else
      ShiftedOccurrence(pattern, text);
      match Search(pattern, text[1..])
      case None => None
      case Some(k) => Some(k + 1)
  }

  /** An occurrence in `text` past its first character is an occurrence in
      `text[1..]`, one position earlier. */
  lemma ShiftedOccurrence(pattern: string, text: string)
    requires |text| > 0
    ensures forall i :: 1 <= i ==> (OccursAt(pattern, text, i) <==> OccursAt(pattern, text[1..], i - 1))
  {
  }

  /** Whether the search finds anything: the boolean the colouriser tests. */
  function Contains(pattern: string, text: string): (b: bool)
    ensures b <==> Occurs(pattern, text)
  {
    Search(pattern, text).Some?
  }

  /** A pattern holding a character that `text` lacks does not occur in it. */
  lemma MissingCharacter(pattern: string, text: string, c: char)
    requires c in pattern && c !in text
    ensures !Occurs(pattern, text)
  {
  }
}
