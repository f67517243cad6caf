/**
 * search_patterns / searchPatterns: decide whether a response body signals a
 * detection. The pattern is tried as a regular expression; one that does not
 * compile is searched for as a literal substring instead.
 */
module Patterns {
  import opened GoText

  /**
   * The regular-expression engine (Go's regexp, RE2 syntax), left abstract:
   * which patterns compile, and whether a compiled pattern matches somewhere
   * in a text (an unanchored search).
   */
  datatype RegexEngine = RegexEngine(compiles: string -> bool, matchString: (string, string) -> bool)

  /** The detection test; it never fails, whatever the pattern. */
  function SearchPatterns(engine: RegexEngine, text: string, search: string): (found: bool)
    ensures !engine.compiles(search) ==> (found <==> exists i: nat :: OccursAt(text, search, i))
    ensures engine.compiles(search) ==> found == engine.matchString(search, text)
  {
    ContainsIffOccurs(text, search);
    if !engine.compiles(search) then Contains(text, search)
    else engine.matchString(search, text)
  }

  /** A pattern that does not compile is found wherever it occurs literally. */
  lemma LiteralFallbackFinds(engine: RegexEngine, before: string, search: string, after: string)
    requires !engine.compiles(search)
    ensures SearchPatterns(engine, before + search + after, search)
  {
    var text := before + search + after;
    assert text[|before|..|before| + |search|] == search;
    assert OccursAt(text, search, |before|);
  }

  /** `[` does not compile, is looked for literally, and "abc" does not hold it. */
  lemma InvalidPatternExample(engine: RegexEngine)
    requires !engine.compiles("[")
    ensures !SearchPatterns(engine, "abc", "[")
  {
    ContainsChar("abc", '[');
  }
}
