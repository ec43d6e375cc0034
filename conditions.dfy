/** The two eligibility predicates over a tag's source text (the match minus its `<`). */
module Conditions {
  import opened Text

  /** The opt-in marker `isInlineTag` looks for. */
  const InlineMarker := "data-inline"

  /** `/data-inline/.test(tagSource)`: the marker anywhere, with no check of position or value. */
  function IsInlineTag(tagSource: string): (r: bool)
    ensures r <==> exists k: nat :: OccursAt(tagSource, InlineMarker, k)
  {
    Contains(tagSource, InlineMarker)
  }

  /** `rel=`, a quote, `stylesheet`, a quote at index `i`; the two quotes may differ. */
  predicate RelStylesheetAt(s: string, i: nat)
  {
    i + 16 <= |s| && s[i..i + 4] == "rel=" && IsQuote(s[i + 4])
    && s[i + 5..i + 15] == "stylesheet" && IsQuote(s[i + 15])
  }

  function StylesheetFrom(s: string, i: nat): (r: bool)
    requires i <= |s|
    ensures r <==> exists k: nat :: i <= k && RelStylesheetAt(s, k)
    decreases |s| - i
  {
    if i + 16 > |s| then false
    else if RelStylesheetAt(s, i) then true
    else StylesheetFrom(s, i + 1)
  }

  /** `/rel=("|')stylesheet("|')/.test(tagSource)`. */
  function IsStylesheet(tagSource: string): (r: bool)
    ensures r <==> exists k: nat :: RelStylesheetAt(tagSource, k)
  {
    StylesheetFrom(tagSource, 0)
  }

  /** The two quotes are matched independently: `rel="stylesheet'` passes. */
  lemma MixedQuotesPass()
    ensures IsStylesheet("rel=\"stylesheet'")
  {
    var s := "rel=\"stylesheet'";
    assert s[0..4] == "rel=" && s[5..15] == "stylesheet";
    assert RelStylesheetAt(s, 0);
  }

  /** Without quotes the relation is not recognised. */
  lemma UnquotedFails()
    ensures !IsStylesheet("link rel=stylesheet")
  {
  }
}
