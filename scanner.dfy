/**
 * The two patterns `replaceTag` builds (index.js:68-69), written as scanners:
 *   `<TAG([^>]+)>`, searched globally over the content, and
 *   `(ATTR)=(['"])([^'"]+)\2`, searched once inside a tag's attribute text.
 * Each scanner is proved against a predicate that describes one match directly.
 */
module Scanner {
  import opened Wrappers
  import opened Text

  /**
   * `m` is one match of `<tag([^>]+)>`: `<`, the tag name as a plain prefix
   * (no word boundary, so `<linkx …>` is a `link` tag), at least one character
   * other than `>`, and the `>` that closes it.
   */
  predicate IsOpenTag(m: string, tag: string)
  {
    |tag| + 3 <= |m| && m[0] == '<' && m[1..|tag| + 1] == tag && m[|m| - 1] == '>'
    && forall x :: |tag| + 1 <= x < |m| - 1 ==> m[x] != '>'
  }

  /** `IsOpenTag` of a slice, read off the whole string. */
  lemma OpenTagParts(s: string, i: nat, j: nat, tag: string)
    requires i <= j <= |s|
    ensures IsOpenTag(s[i..j], tag) <==>
      i + |tag| + 3 <= j && s[i] == '<' && s[i + 1..i + |tag| + 1] == tag && s[j - 1] == '>'
      && forall x :: i + |tag| + 1 <= x < j - 1 ==> s[x] != '>'
  {
    var m := s[i..j];
    if i + |tag| + 3 <= j {
      SliceOfSlice(s, i, j, 1, |tag| + 1);
      assert forall x :: |tag| + 1 <= x < |m| - 1 ==> m[x] == s[i + x];
    }
  }

  /** A match of `<tag([^>]+)>` spans exactly `s[i..j]`. */
  predicate OpenTagSpan(s: string, i: nat, j: nat, tag: string)
  {
    i <= j <= |s| && IsOpenTag(s[i..j], tag)
  }

  /** The index of the first `>` at or after `i`. */
  function IndexOfClose(s: string, i: nat): (r: Option<nat>)
    requires i <= |s|
    ensures r.Some? ==> i <= r.value < |s| && s[r.value] == '>'
    ensures forall k :: i <= k < |s| && (r.None? || k < r.value) ==> s[k] != '>'
    decreases |s| - i
  {
    if i == |s| then None
    else if s[i] == '>' then Some(i)
    else IndexOfClose(s, i + 1)
  }

  /**
   * The end of the match of `<tag([^>]+)>` that starts at index `i`, if any:
   * `[^>]+` is greedy and must be followed by `>`, so it runs to the first `>`.
   */
  function OpenTagEnd(s: string, i: nat, tag: string): (r: Option<nat>)
    requires i <= |s|
    ensures r.Some? ==> i < r.value <= |s| && IsOpenTag(s[i..r.value], tag)
    ensures forall j: nat {:trigger OpenTagSpan(s, i, j, tag)} :: OpenTagSpan(s, i, j, tag) <==> r == Some(j)
  {
    var k := i + |tag| + 1;
    assert forall j :: i <= j <= |s| ==> (IsOpenTag(s[i..j], tag) <==>
      i + |tag| + 3 <= j && s[i] == '<' && s[i + 1..k] == tag && s[j - 1] == '>'
      && forall x :: k <= x < j - 1 ==> s[x] != '>') by {
      forall j | i <= j <= |s| { OpenTagParts(s, i, j, tag); }
    }
    if k < |s| && s[i] == '<' && s[i + 1..k] == tag && s[k] != '>' then
      match IndexOfClose(s, k + 1)
      case Some(c) => Some(c + 1)
      case None => None
    else
      None
  }

  /**
   * `m` is one match of `attr=(['"])([^'"]+)\2` whose third group is `v`:
   * a non-empty value free of quotes, between two copies of the same quote.
   */
  predicate IsAttrMatch(m: string, attr: string, v: string)
  {
    var k := |attr|;
    |m| == k + |v| + 3 && m[..k] == attr && m[k] == '=' && IsQuote(m[k + 1])
    && m[k + 2..k + 2 + |v|] == v && m[|m| - 1] == m[k + 1]
    && |v| > 0 && forall c :: c in v ==> !IsQuote(c)
  }

  /** The attribute pattern matches `s` at index `p` with value `v`. */
  predicate MatchAt(s: string, attr: string, p: nat, v: string)
  {
    p + |attr| + |v| + 3 <= |s| && IsAttrMatch(s[p..p + |attr| + |v| + 3], attr, v)
  }

  /** `MatchAt` read off the whole string. */
  lemma MatchAtParts(s: string, attr: string, p: nat, v: string)
    requires p + |attr| + |v| + 3 <= |s|
    ensures var k := p + |attr|;
      MatchAt(s, attr, p, v) <==>
        s[p..k] == attr && s[k] == '=' && IsQuote(s[k + 1]) && s[k + 2..k + 2 + |v|] == v
        && s[k + 2 + |v|] == s[k + 1] && |v| > 0 && forall c :: c in v ==> !IsQuote(c)
  {
    var e := p + |attr| + |v| + 3;
    SliceOfSlice(s, p, e, 0, |attr|);
    SliceOfSlice(s, p, e, |attr| + 2, |attr| + 2 + |v|);
  }

  /** The end of the longest run of non-quote characters starting at `i`. */
  function QuoteFreeEnd(s: string, i: nat): (r: nat)
    requires i <= |s|
    ensures i <= r <= |s|
    ensures forall k :: i <= k < r ==> !IsQuote(s[k])
    ensures r < |s| ==> IsQuote(s[r])
    decreases |s| - i
  {
    if i == |s| || IsQuote(s[i]) then i else QuoteFreeEnd(s, i + 1)
  }

  /** A quote-free value that ends at a quote is exactly the longest quote-free run. */
  lemma ValueIsWholeRun(s: string, i: nat, v: string)
    requires i + |v| < |s| && s[i..i + |v|] == v && IsQuote(s[i + |v|])
    requires forall c :: c in v ==> !IsQuote(c)
    ensures QuoteFreeEnd(s, i) == i + |v|
  {
    assert forall x :: i <= x < i + |v| ==> s[x] == v[x - i];
  }

  /** A match at `p` fixes its value: the quote-free run after the opening quote. */
  lemma MatchIsRun(s: string, attr: string, p: nat, v: string)
    requires MatchAt(s, attr, p, v)
    ensures p + |attr| + 2 <= |s| && s[p..p + |attr|] == attr && s[p + |attr|] == '='
    ensures IsQuote(s[p + |attr| + 1])
    ensures v == s[p + |attr| + 2..p + |attr| + 2 + |v|]
    ensures QuoteFreeEnd(s, p + |attr| + 2) == p + |attr| + 2 + |v|
    ensures |v| > 0 && p + |attr| + 2 + |v| < |s| && s[p + |attr| + 2 + |v|] == s[p + |attr| + 1]
  {
    MatchAtParts(s, attr, p, v);
    ValueIsWholeRun(s, p + |attr| + 2, v);
  }

  /** A quote-free run closed by the opening quote is a match. */
  lemma RunIsMatch(s: string, attr: string, p: nat, e: nat)
    requires p + |attr| + 2 < e < |s|
    requires s[p..p + |attr|] == attr && s[p + |attr|] == '=' && IsQuote(s[p + |attr| + 1])
    requires forall x :: p + |attr| + 2 <= x < e ==> !IsQuote(s[x])
    requires s[e] == s[p + |attr| + 1]
    ensures MatchAt(s, attr, p, s[p + |attr| + 2..e])
  {
    var v := s[p + |attr| + 2..e];
    assert forall c :: c in v ==> !IsQuote(c);
    MatchAtParts(s, attr, p, v);
  }

  /**
   * The value the attribute pattern captures when its match starts at `p`.
   * Backtracking cannot help: a shorter value would be followed by a
   * non-quote character, so the value is the whole quote-free run, and the
   * match at `p`, when there is one, is unique.
   */
  function AttrAt(s: string, p: nat, attr: string): (r: Option<string>)
    requires p <= |s|
    ensures forall v :: MatchAt(s, attr, p, v) <==> r == Some(v)
  {
    var k := p + |attr|;
    if k + 2 <= |s| && s[p..k] == attr && s[k] == '=' && IsQuote(s[k + 1]) then
      var e := QuoteFreeEnd(s, k + 2);
      if k + 2 < e < |s| && s[e] == s[k + 1] then
        RunIsMatch(s, attr, p, e);
        assert forall v :: MatchAt(s, attr, p, v) ==> v == s[k + 2..e] by {
          forall v | MatchAt(s, attr, p, v) ensures v == s[k + 2..e] { MatchIsRun(s, attr, p, v); }
        }
        Some(s[k + 2..e])
      else
        assert forall v :: !MatchAt(s, attr, p, v) by {
          forall v | MatchAt(s, attr, p, v) ensures false { MatchIsRun(s, attr, p, v); }
        }
        None
    else
      assert forall v :: !MatchAt(s, attr, p, v) by {
        forall v | MatchAt(s, attr, p, v) ensures false { MatchIsRun(s, attr, p, v); }
      }
      None
  }

  /** Where the attribute pattern matched and the value it captured. */
  datatype AttrHit = AttrHit(pos: nat, value: string)

  /** The leftmost match of the attribute pattern at index `p` or later. */
  function FindAttrFrom(s: string, attr: string, p: nat): (r: Option<AttrHit>)
    requires p <= |s|
    ensures r.Some? ==> p <= r.value.pos <= |s| && MatchAt(s, attr, r.value.pos, r.value.value)
    ensures forall q: nat, v :: p <= q && (r.None? || q < r.value.pos) ==> !MatchAt(s, attr, q, v)
    decreases |s| - p
  {
    match AttrAt(s, p, attr)
    case Some(v) => Some(AttrHit(p, v))
    case None => if p == |s| then None else FindAttrFrom(s, attr, p + 1)
  }

  /**
   * `attrStr.match(attrReg)` (index.js:82): the leftmost match, if any; no
   * match starts before it, and the value it captures is the only one
   * possible at that position.
   */
  function FindAttr(s: string, attr: string): (r: Option<AttrHit>)
    ensures r.Some? ==> r.value.pos <= |s| && MatchAt(s, attr, r.value.pos, r.value.value)
    ensures r.Some? ==> forall v :: MatchAt(s, attr, r.value.pos, v) ==> v == r.value.value
    ensures forall q: nat, v :: (r.None? || q < r.value.pos) ==> !MatchAt(s, attr, q, v)
  {
    var r := FindAttrFrom(s, attr, 0);
    assert r.Some? ==> AttrAt(s, r.value.pos, attr) == Some(r.value.value);
    r
  }
}
