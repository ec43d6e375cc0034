/**
 * `replaceTag` (index.js:66-94): a global replace of `<tag([^>]+)>` over the
 * content, each occurrence rewritten by the condition, the attribute pattern
 * and the tag replacer. The lemmas characterise the result piece by piece:
 * text where no tag starts is copied, an occurrence that does not fire is
 * copied verbatim, one that fires becomes the replacer's text, and scanning
 * resumes after the occurrence, so replacement text is never rescanned.
 */
module Replace {
  import opened Wrappers
  import opened Text
  import opened Scanner

  /** `typeof condition === 'function' ? condition(tagSource) : true` (index.js:72). */
  predicate Eligible(condition: Option<string -> bool>, tagSource: string)
  {
    match condition
    case None => true
    case Some(test) => test(tagSource)
  }

  /** The attribute text of an occurrence: group 1 of `<tag([^>]+)>`. */
  function AttrSpan(m: string, tag: string): string
    requires IsOpenTag(m, tag)
  {
    m[|tag| + 1..|m| - 1]
  }

  /** An occurrence is rewritten: its source minus `<` passes the condition and it holds an attribute match. */
  predicate Fires(m: string, tag: string, attribute: string, condition: Option<string -> bool>)
  {
    IsOpenTag(m, tag) && Eligible(condition, m[1..]) && FindAttr(AttrSpan(m, tag), attribute).Some?
  }

  /** The callback `replacer` (index.js:71-90) for one occurrence `m`. */
  function Occurrence(m: string, tag: string, attribute: string, condition: Option<string -> bool>,
                      tagReplacer: string -> Result<string>): Result<string>
    requires IsOpenTag(m, tag)
  {
    if !Eligible(condition, m[1..]) then Ok(m)
    else match FindAttr(AttrSpan(m, tag), attribute)
      case None => Ok(m)
      case Some(hit) => tagReplacer(hit.value)
  }

  /**
   * The rewritten text of `content[i..]`: the global scan tries each start
   * index in turn, and after an occurrence resumes at its end. An error
   * raised by the replacer aborts the whole replace, the leftmost first.
   */
  function ReplaceFrom(content: string, i: nat, tag: string, attribute: string,
                       condition: Option<string -> bool>, tagReplacer: string -> Result<string>): (r: Result<string>)
    requires i <= |content|
    ensures r.Fail? ==> exists v :: tagReplacer(v) == Fail(r.error)
    decreases |content| - i
  {
    if i == |content| then Ok([])
    else match OpenTagEnd(content, i, tag)
      case Some(j) =>
        Concat(Occurrence(content[i..j], tag, attribute, condition, tagReplacer),
               ReplaceFrom(content, j, tag, attribute, condition, tagReplacer))
      case None =>
        Prepend([content[i]], ReplaceFrom(content, i + 1, tag, attribute, condition, tagReplacer))
  }

  /** `content.replace(tagReg, replacer)`; its only error is one the tag replacer raised. */
  function ReplaceTag(content: string, tag: string, attribute: string,
                      condition: Option<string -> bool>, tagReplacer: string -> Result<string>): (r: Result<string>)
    ensures r.Fail? ==> exists v :: tagReplacer(v) == Fail(r.error)
  {
    ReplaceFrom(content, 0, tag, attribute, condition, tagReplacer)
  }

  /** Copying `s[i]` and then `s[i+1..j]` is copying `s[i..j]`. */
  lemma PrependSplit(s: string, i: nat, j: nat, r: Result<string>)
    requires i < j <= |s|
    ensures Prepend([s[i]], Prepend(s[i + 1..j], r)) == Prepend(s[i..j], r)
  {
    assert [s[i]] + s[i + 1..j] == s[i..j];
    if r.Ok? {
      assert [s[i]] + (s[i + 1..j] + r.value) == s[i..j] + r.value;
    }
  }

  /** Where no match starts, one character is copied and the scan moves on by one. */
  lemma SkipsChar(content: string, i: nat, tag: string, attribute: string,
                  condition: Option<string -> bool>, tagReplacer: string -> Result<string>)
    requires i < |content| && OpenTagEnd(content, i, tag).None?
    ensures ReplaceFrom(content, i, tag, attribute, condition, tagReplacer)
         == Prepend([content[i]], ReplaceFrom(content, i + 1, tag, attribute, condition, tagReplacer))
  {
  }

  /** The scan ends with nothing left to copy. */
  lemma AtEnd(content: string, tag: string, attribute: string,
              condition: Option<string -> bool>, tagReplacer: string -> Result<string>)
    ensures ReplaceFrom(content, |content|, tag, attribute, condition, tagReplacer) == Ok([])
  {
  }

  /** `CopiesText`, with "no match starts at `a`" read off the tag scanner. */
  lemma {:induction false} CopiesScanned(content: string, i: nat, j: nat, tag: string, attribute: string,
                                         condition: Option<string -> bool>, tagReplacer: string -> Result<string>)
    requires i <= j <= |content|
    requires forall a :: i <= a < j ==> OpenTagEnd(content, a, tag).None?
    ensures ReplaceFrom(content, i, tag, attribute, condition, tagReplacer)
         == Prepend(content[i..j], ReplaceFrom(content, j, tag, attribute, condition, tagReplacer))
    decreases j - i
  {
    var r := ReplaceFrom(content, j, tag, attribute, condition, tagReplacer);
    if i == j {
      assert r.Ok? ==> [] + r.value == r.value;
    } else {
      SkipsChar(content, i, tag, attribute, condition, tagReplacer);
      CopiesScanned(content, i + 1, j, tag, attribute, condition, tagReplacer);
      PrependSplit(content, i, j, r);
    }
  }

  /**
   * Text in which no occurrence starts is copied unchanged: if no match of
   * `<tag([^>]+)>` starts in `content[i..j]`, the result is that text
   * followed by the rewrite of `content[j..]`.
   */
  lemma {:induction false} CopiesText(content: string, i: nat, j: nat, tag: string, attribute: string,
                                      condition: Option<string -> bool>, tagReplacer: string -> Result<string>)
    requires i <= j <= |content|
    requires forall a, b :: i <= a < j && a < b <= |content| ==> !IsOpenTag(content[a..b], tag)
    ensures ReplaceFrom(content, i, tag, attribute, condition, tagReplacer)
         == Prepend(content[i..j], ReplaceFrom(content, j, tag, attribute, condition, tagReplacer))
  {
    CopiesScanned(content, i, j, tag, attribute, condition, tagReplacer);
  }

  /**
   * An occurrence that does not fire (the condition rejects its source, or
   * no `attribute=` match is in it) is copied verbatim, and the scan resumes
   * right after it.
   */
  lemma KeepsOccurrence(content: string, i: nat, j: nat, tag: string, attribute: string,
                        condition: Option<string -> bool>, tagReplacer: string -> Result<string>)
    requires i <= j <= |content| && IsOpenTag(content[i..j], tag)
    requires !Fires(content[i..j], tag, attribute, condition)
    ensures ReplaceFrom(content, i, tag, attribute, condition, tagReplacer)
         == Prepend(content[i..j], ReplaceFrom(content, j, tag, attribute, condition, tagReplacer))
  {
    assert OpenTagSpan(content, i, j, tag);
  }

  /**
   * An occurrence that fires becomes `tagReplacer(v)`, `v` being the value of
   * the leftmost attribute match in its attribute text; the scan resumes
   * right after the occurrence, so the replacement is not rescanned.
   */
  lemma RewritesOccurrence(content: string, i: nat, j: nat, tag: string, attribute: string,
                           condition: Option<string -> bool>, tagReplacer: string -> Result<string>)
    requires i <= j <= |content| && IsOpenTag(content[i..j], tag)
    requires Fires(content[i..j], tag, attribute, condition)
    ensures var v := FindAttr(AttrSpan(content[i..j], tag), attribute).value.value;
      ReplaceFrom(content, i, tag, attribute, condition, tagReplacer)
      == Concat(tagReplacer(v), ReplaceFrom(content, j, tag, attribute, condition, tagReplacer))
  {
    assert OpenTagSpan(content, i, j, tag);
  }

  /** The occurrence the tag scanner finds at `a`, if any, does not fire. */
  predicate KeptAt(content: string, a: nat, tag: string, attribute: string, condition: Option<string -> bool>)
    requires a <= |content|
  {
    OpenTagEnd(content, a, tag).Some? ==> !Fires(content[a..OpenTagEnd(content, a, tag).value], tag, attribute, condition)
  }

  /** The content from `i` on comes back unchanged when no occurrence the tag scanner finds fires. */
  lemma {:induction false} UnchangedFrom(content: string, i: nat, tag: string, attribute: string,
                                         condition: Option<string -> bool>, tagReplacer: string -> Result<string>)
    requires i <= |content|
    requires forall a :: i <= a < |content| ==> KeptAt(content, a, tag, attribute, condition)
    ensures ReplaceFrom(content, i, tag, attribute, condition, tagReplacer) == Ok(content[i..])
    decreases |content| - i, 1
  {
    if i == |content| {
      AtEnd(content, tag, attribute, condition, tagReplacer);
      assert content[i..] == [];
    } else if OpenTagEnd(content, i, tag).Some? {
      UnchangedPast(content, i, tag, attribute, condition, tagReplacer);
    } else {
      SkipsChar(content, i, tag, attribute, condition, tagReplacer);
      UnchangedFrom(content, i + 1, tag, attribute, condition, tagReplacer);
      assert [content[i]] + content[i + 1..] == content[i..];
    }
  }

  /** `UnchangedFrom` at an index where an occurrence starts: it is kept, and the rest follows. */
  lemma {:induction false} UnchangedPast(content: string, i: nat, tag: string, attribute: string,
                                         condition: Option<string -> bool>, tagReplacer: string -> Result<string>)
    requires i < |content| && OpenTagEnd(content, i, tag).Some?
    requires forall a :: i <= a < |content| ==> KeptAt(content, a, tag, attribute, condition)
    ensures ReplaceFrom(content, i, tag, attribute, condition, tagReplacer) == Ok(content[i..])
    decreases |content| - i, 0
  {
    var j := OpenTagEnd(content, i, tag).value;
    assert KeptAt(content, i, tag, attribute, condition);
    KeepsOccurrence(content, i, j, tag, attribute, condition, tagReplacer);
    UnchangedFrom(content, j, tag, attribute, condition, tagReplacer);
    assert content[i..j] + content[j..] == content[i..];
  }

  /** When no candidate occurrence fires, the content comes back unchanged and nothing is resolved. */
  lemma {:induction false} UnchangedWithoutFiring(content: string, tag: string, attribute: string,
                                                  condition: Option<string -> bool>, tagReplacer: string -> Result<string>)
    requires forall a, b :: 0 <= a < b <= |content| && IsOpenTag(content[a..b], tag)
               ==> !Fires(content[a..b], tag, attribute, condition)
    ensures ReplaceTag(content, tag, attribute, condition, tagReplacer) == Ok(content)
  {
    forall a | 0 <= a < |content|
      ensures KeptAt(content, a, tag, attribute, condition)
    {
    }
    UnchangedFrom(content, 0, tag, attribute, condition, tagReplacer);
  }
}
