/**
 * Whole pages through the default rules, for any path: which tags change
 * and exactly what they become.
 */
module Scenarios {
  import opened Wrappers
  import opened Text
  import opened Scanner
  import opened Conditions
  import opened Resolver
  import opened Replace
  import opened Rules

  /** A pattern with a character the text lacks does not occur in it. */
  lemma MissingCharAbsent(s: string, p: string, c: char)
    requires c in p && c !in s
    ensures !Contains(s, p)
  {
  }

  /** A rule whose tag name has a character the content lacks finds no occurrence. */
  lemma MissingTagCharUnchanged(rule: Rule, ctx: Context, content: string, c: char)
    requires c in rule.tag && c !in content
    ensures ApplyRule(rule, ctx, content) == Ok(content)
  {
    forall a, b | 0 <= a < b <= |content| && IsOpenTag(content[a..b], rule.tag)
      ensures false
    {
    }
    UnchangedWithoutFiring(content, rule.tag, rule.attribute, rule.condition, rule.replacer(ctx));
  }

  /**
   * A page whose only `<` is its first character, followed by something other
   * than the first letter of a rule's tag name, holds no occurrence of that tag.
   */
  lemma NoOtherTagUnchanged(rule: Rule, ctx: Context, content: string)
    requires |rule.tag| > 0 && |content| > 1 && content[1] != rule.tag[0]
    requires '<' !in content[1..]
    ensures ApplyRule(rule, ctx, content) == Ok(content)
  {
    forall a, b | 0 <= a < b <= |content|
      ensures !IsOpenTag(content[a..b], rule.tag)
    {
      assert content[a..b][0] == content[a];
      if a == 0 && |rule.tag| + 1 <= b {
        assert content[a..b][1..|rule.tag| + 1][0] == content[1];
      } else if a > 0 {
        assert content[1..][a - 1] == content[a];
      }
    }
    UnchangedWithoutFiring(content, rule.tag, rule.attribute, rule.condition, rule.replacer(ctx));
  }

  lemma SliceInContext(a: string, s: string, b: string, i: nat, j: nat)
    requires i <= j <= |s|
    ensures (a + s + b)[|a| + i..|a| + j] == s[i..j]
  {
    var t := a + s + b;
    assert forall k :: 0 <= k < j - i ==> t[|a| + i..|a| + j][k] == s[i..j][k];
  }

  lemma OccursInContext(a: string, s: string, b: string, p: string, k: nat)
    requires OccursAt(s, p, k)
    ensures OccursAt(a + s + b, p, |a| + k)
  {
    SliceInContext(a, s, b, k, k + |p|);
  }

  lemma RelStylesheetInContext(a: string, s: string, b: string, k: nat)
    requires RelStylesheetAt(s, k)
    ensures RelStylesheetAt(a + s + b, |a| + k)
  {
    SliceInContext(a, s, b, k, k + 4);
    SliceInContext(a, s, b, k + 5, k + 15);
  }

  lemma MatchInContext(a: string, s: string, b: string, attr: string, p: nat, v: string)
    requires MatchAt(s, attr, p, v)
    ensures MatchAt(a + s + b, attr, |a| + p, v)
  {
    SliceInContext(a, s, b, p, p + |attr| + |v| + 3);
  }

  /** `attr="v"` is a match of the attribute pattern with value `v`. */
  lemma QuotedMatch(attr: string, v: string)
    requires |v| > 0 && forall c :: c in v ==> !IsQuote(c)
    ensures MatchAt(attr + "=\"" + v + "\"", attr, 0, v)
  {
    var s := attr + "=\"" + v + "\"";
    assert s[..|attr|] == attr;
    assert s[|attr| + 2..|attr| + 2 + |v|] == v;
    MatchAtParts(s, attr, 0, v);
  }

  lemma MatchStartsWithName(s: string, attr: string, q: nat, v: string)
    requires |attr| > 0 && MatchAt(s, attr, q, v)
    ensures s[q] == attr[0]
  {
    MatchAtParts(s, attr, q, v);
    assert s[q..q + |attr|][0] == s[q];
  }

  /** A match preceded by no character that could start the attribute name is the first one. */
  lemma FirstMatch(s: string, attr: string, p: nat, v: string)
    requires |attr| > 0 && MatchAt(s, attr, p, v)
    requires forall q :: 0 <= q < p ==> s[q] != attr[0]
    ensures FindAttr(s, attr) == Some(AttrHit(p, v))
  {
    var r := FindAttr(s, attr);
    assert r.Some?;
    var q := r.value.pos;
    if q < p {
      MatchStartsWithName(s, attr, q, r.value.value);
    }
  }

  /** `<tag` + attrs + `>` is one occurrence whose attribute text is attrs. */
  lemma OpenTagOf(tag: string, attrs: string)
    requires |attrs| > 0 && '>' !in attrs
    ensures IsOpenTag("<" + tag + attrs + ">", tag)
    ensures AttrSpan("<" + tag + attrs + ">", tag) == attrs
    ensures ("<" + tag + attrs + ">")[1..] == tag + attrs + ">"
  {
    var m := "<" + tag + attrs + ">";
    SliceInContext("<", tag, attrs + ">", 0, |tag|);
    assert m == "<" + tag + (attrs + ">");
    assert forall x :: |tag| + 1 <= x < |m| - 1 ==> m[x] == attrs[x - |tag| - 1];
    SliceInContext("<" + tag, attrs, ">", 0, |attrs|);
  }

  /** A path the attribute pattern can capture: non-empty, no quote, no `>`. */
  predicate PlainPath(path: string)
  {
    |path| > 0 && '>' !in path && forall c :: c in path ==> !IsQuote(c)
  }

  /** The attribute text of `<link data-inline href="path" rel="stylesheet">`. */
  function StylesheetLinkAttrs(path: string): string
  {
    " data-inline " + ("href" + "=\"" + path + "\"") + " rel=\"stylesheet\""
  }

  function StylesheetLink(path: string): string
  {
    "<" + "link" + StylesheetLinkAttrs(path) + ">"
  }

  lemma StylesheetAttrsMarked(path: string)
    ensures IsInlineTag(StylesheetLinkAttrs(path)) && IsStylesheet(StylesheetLinkAttrs(path))
  {
    var head := " data-inline ";
    var href := "href" + "=\"" + path + "\"";
    var rel := " rel=\"stylesheet\"";
    assert OccursAt(head, InlineMarker, 1);
    OccursInContext("", head, href + rel, InlineMarker, 1);
    assert "" + head + (href + rel) == StylesheetLinkAttrs(path);
    assert rel[1..5] == "rel=" && rel[6..16] == "stylesheet";
    assert RelStylesheetAt(rel, 1);
    RelStylesheetInContext(head + href, rel, "", 1);
    assert head + href + rel + "" == StylesheetLinkAttrs(path);
  }

  lemma StylesheetAttrsHref(path: string)
    requires PlainPath(path)
    ensures FindAttr(StylesheetLinkAttrs(path), "href") == Some(AttrHit(13, path))
  {
    var attrs := StylesheetLinkAttrs(path);
    var head := " data-inline ";
    QuotedMatch("href", path);
    MatchInContext(head, "href" + "=\"" + path + "\"", " rel=\"stylesheet\"", "href", 0, path);
    assert forall q :: 0 <= q < 13 ==> attrs[q] == head[q];
    FirstMatch(attrs, "href", 13, path);
  }

  lemma StylesheetLinkFires(path: string)
    requires PlainPath(path)
    ensures IsOpenTag(StylesheetLink(path), "link")
    ensures IsInlineTag(StylesheetLink(path)[1..]) && IsStylesheet(StylesheetLink(path)[1..])
    ensures FindAttr(AttrSpan(StylesheetLink(path), "link"), "href") == Some(AttrHit(13, path))
  {
    var attrs := StylesheetLinkAttrs(path);
    assert '>' !in attrs;
    OpenTagOf("link", attrs);
    StylesheetAttrsMarked(path);
    var k :| OccursAt(attrs, InlineMarker, k);
    OccursInContext("link", attrs, ">", InlineMarker, k);
    var j :| RelStylesheetAt(attrs, j);
    RelStylesheetInContext("link", attrs, ">", j);
    StylesheetAttrsHref(path);
  }

  /**
   * The attribute name is matched as a plain substring, so a `data-href`
   * written before `href` is the match whose value is inlined.
   */
  lemma SuffixedNameMatchesFirst(first: string, second: string)
    requires PlainPath(first) && PlainPath(second)
    ensures FindAttr(" data-inline data-" + ("href" + "=\"" + first + "\"") + (" rel=\"stylesheet\" href=\"" + second + "\""), "href")
         == Some(AttrHit(18, first))
  {
    var head := " data-inline data-";
    var rest := " rel=\"stylesheet\" href=\"" + second + "\"";
    var attrs := head + ("href" + "=\"" + first + "\"") + rest;
    QuotedMatch("href", first);
    MatchInContext(head, "href" + "=\"" + first + "\"", rest, "href", 0, first);
    assert |head| == 18;
    assert forall q :: 0 <= q < 18 ==> attrs[q] == head[q];
    FirstMatch(attrs, "href", 18, first);
  }

  /** Running the two default rules is running the link rule, then the script rule. */
  lemma DefaultRulesInOrder(ctx: Context, content: string)
    ensures ApplyRules(DefaultRules(), ctx, content)
         == (var mid :- ApplyRule(LinkRule(), ctx, content); ApplyRule(ScriptRule(), ctx, mid))
  {
    assert DefaultRules()[1..] == [ScriptRule()];
    assert DefaultRules()[1..][1..] == [];
    var mid := ApplyRule(LinkRule(), ctx, content);
    if mid.Ok? {
      var out := ApplyRule(ScriptRule(), ctx, mid.value);
      assert out.Ok? ==> ApplyRules([], ctx, out.value) == out;
    }
  }

  /** A tag that is one whole page: the rule's verdict on it is the page's. */
  lemma WholePage(content: string, tag: string, attribute: string, condition: Option<string -> bool>,
                  tagReplacer: string -> Result<string>)
    requires IsOpenTag(content, tag)
    ensures ReplaceTag(content, tag, attribute, condition, tagReplacer)
         == Occurrence(content, tag, attribute, condition, tagReplacer)
  {
    assert content[0..|content|] == content;
    assert OpenTagSpan(content, 0, |content|, tag);
    assert ReplaceFrom(content, |content|, tag, attribute, condition, tagReplacer) == Ok([]);
    var r := Occurrence(content, tag, attribute, condition, tagReplacer);
    assert r.Ok? ==> r.value + [] == r.value;
  }

  /**
   * A marked stylesheet link whose file resolves becomes exactly
   * `<style>` + data + `</style>`, provided the inlined text does not itself
   * opt in to inlining (the script rule runs on it next).
   */
  lemma StylesheetInlined(path: string, ctx: Context)
    requires PlainPath(path) && Resolvable(ctx, path)
    requires !IsInlineTag("<style>" + ctx[path] + "</style>")
    ensures ApplyRules(DefaultRules(), ctx, StylesheetLink(path)) == Ok("<style>" + ctx[path] + "</style>")
  {
    StylesheetLinkFires(path);
    WholePage(StylesheetLink(path), "link", "href", LinkRule().condition, LinkRule().replacer(ctx));
    MarkerRuleKeepsUnmarked(ScriptRule(), ctx, "<style>" + ctx[path] + "</style>");
    DefaultRulesInOrder(ctx, StylesheetLink(path));
  }

  /** The same link with no record or empty data aborts with the not-found message. */
  lemma MissingStylesheetAborts(path: string, ctx: Context)
    requires PlainPath(path) && !Resolvable(ctx, path)
    ensures ApplyRules(DefaultRules(), ctx, StylesheetLink(path)) == Fail(NotFoundMessage(path))
  {
    StylesheetLinkFires(path);
    WholePage(StylesheetLink(path), "link", "href", LinkRule().condition, LinkRule().replacer(ctx));
    DefaultRulesInOrder(ctx, StylesheetLink(path));
  }

  /** A stylesheet `a.css` holding `body{color:red}`. */
  lemma StylesheetExample(path: string, ctx: Context)
    requires path == "a.css" && ctx == map[path := "body{color:red}"]
    ensures ApplyRules(DefaultRules(), ctx, StylesheetLink(path)) == Ok("<style>" + "body{color:red}" + "</style>")
  {
    ExampleOutputUnmarked();
    assert PlainPath(path);
    assert Resolvable(ctx, path);
    assert "<style>" + ctx[path] + "</style>" == "<style>" + "body{color:red}" + "</style>";
    StylesheetInlined(path, ctx);
  }

  lemma ExampleOutputUnmarked()
    ensures !IsInlineTag("<style>" + "body{color:red}" + "</style>")
  {
    var out := "<style>" + "body{color:red}" + "</style>";
    assert '-' !in out && InlineMarker[4] == '-';
    MissingCharAbsent(out, InlineMarker, '-');
  }

  /** The attribute text of `<script data-inline src="path">`. */
  function ScriptTagAttrs(path: string): string
  {
    " data-inline " + ("src" + "=\"" + path + "\"")
  }

  function ScriptTag(path: string): string
  {
    "<" + "script" + ScriptTagAttrs(path) + ">"
  }

  lemma ScriptAttrsMarked(path: string)
    ensures IsInlineTag(ScriptTagAttrs(path))
  {
    var head := " data-inline ";
    var src := "src" + "=\"" + path + "\"";
    assert OccursAt(head, InlineMarker, 1);
    OccursInContext("", head, src, InlineMarker, 1);
    assert "" + head + src == ScriptTagAttrs(path);
  }

  lemma ScriptAttrsSrc(path: string)
    requires PlainPath(path)
    ensures FindAttr(ScriptTagAttrs(path), "src") == Some(AttrHit(13, path))
  {
    var attrs := ScriptTagAttrs(path);
    var head := " data-inline ";
    var src := "src" + "=\"" + path + "\"";
    QuotedMatch("src", path);
    MatchInContext(head, src, "", "src", 0, path);
    assert head + src + "" == attrs;
    assert forall q :: 0 <= q < 13 ==> attrs[q] == head[q];
    FirstMatch(attrs, "src", 13, path);
  }

  lemma ScriptTagFires(path: string)
    requires PlainPath(path)
    ensures IsOpenTag(ScriptTag(path), "script")
    ensures IsInlineTag(ScriptTag(path)[1..])
    ensures FindAttr(AttrSpan(ScriptTag(path), "script"), "src") == Some(AttrHit(13, path))
  {
    var attrs := ScriptTagAttrs(path);
    assert '>' !in attrs;
    OpenTagOf("script", attrs);
    ScriptAttrsMarked(path);
    var k :| OccursAt(attrs, InlineMarker, k);
    OccursInContext("script", attrs, ">", InlineMarker, k);
    ScriptAttrsSrc(path);
  }

  /** The link rule finds no `<link` in a script tag whose path has no `<`. */
  lemma LinkRuleSkipsScript(path: string, ctx: Context)
    requires '<' !in path
    ensures ApplyRule(LinkRule(), ctx, ScriptTag(path)) == Ok(ScriptTag(path))
  {
    var page := ScriptTag(path);
    assert page[1..] == "script" + ScriptTagAttrs(path) + ">";
    NoOtherTagUnchanged(LinkRule(), ctx, page);
  }

  /**
   * A marked script tag whose file resolves becomes `<script>` + data; the
   * closing tag after it, if any, is left where it was.
   */
  lemma ScriptInlined(path: string, ctx: Context)
    requires PlainPath(path) && '<' !in path && Resolvable(ctx, path)
    ensures ApplyRules(DefaultRules(), ctx, ScriptTag(path)) == Ok("<script>" + ctx[path])
  {
    LinkRuleSkipsScript(path, ctx);
    ScriptTagFires(path);
    WholePage(ScriptTag(path), "script", "src", ScriptRule().condition, ScriptRule().replacer(ctx));
    DefaultRulesInOrder(ctx, ScriptTag(path));
  }

  /** `<link data-inline href="path">`: marked, but not a stylesheet. */
  function UnstyledLink(path: string): string
  {
    "<" + "link" + UnstyledLinkAttrs(path) + ">"
  }

  /** The attribute text of `<link data-inline href="path">`. */
  function UnstyledLinkAttrs(path: string): string
  {
    " data-inline " + ("href" + "=\"" + path + "\"")
  }

  /**
   * The source of `<link data-inline href="path">` holds no `rel=("|')stylesheet("|')`:
   * its only quotes are the two around the path, and `ref=` precedes the first.
   */
  lemma UnstyledNotStylesheet(path: string)
    requires PlainPath(path)
    ensures !IsStylesheet("link" + UnstyledLinkAttrs(path) + ">")
  {
    var head := "link data-inline href=";
    var t := head + "\"" + path + "\">";
    assert "link" + UnstyledLinkAttrs(path) + ">" == t;
    assert |head| == 22 && head[20] == 'f';
    assert forall x :: 0 <= x < 22 ==> !IsQuote(head[x]);
    forall x | 0 <= x < |t|
      ensures IsQuote(t[x]) ==> x == 22 || x == 23 + |path|
    {
      if x < 22 {
        assert t[x] == head[x];
      } else if 22 < x < 23 + |path| {
        assert t[x] == path[x - 23];
      }
    }
    forall k: nat
      ensures !RelStylesheetAt(t, k)
    {
      if k + 16 <= |t| && IsQuote(t[k + 4]) && IsQuote(t[k + 15]) {
        assert k == 18;
        assert t[k..k + 4][2] == head[20];
      }
    }
  }

  lemma UnstyledLinkIneligible(path: string)
    requires PlainPath(path)
    ensures IsOpenTag(UnstyledLink(path), "link")
    ensures !IsInlineStylesheet(UnstyledLink(path)[1..])
  {
    var attrs := UnstyledLinkAttrs(path);
    assert '>' !in attrs;
    OpenTagOf("link", attrs);
    UnstyledNotStylesheet(path);
  }

  lemma LinkRuleKeepsUnstyled(path: string, ctx: Context)
    requires PlainPath(path)
    ensures ApplyRule(LinkRule(), ctx, UnstyledLink(path)) == Ok(UnstyledLink(path))
  {
    UnstyledLinkIneligible(path);
    WholePage(UnstyledLink(path), "link", "href", LinkRule().condition, LinkRule().replacer(ctx));
  }

  /** The script rule finds no `<script` in a link whose path has no `<`. */
  lemma ScriptRuleSkipsLink(path: string, ctx: Context)
    requires '<' !in path
    ensures ApplyRule(ScriptRule(), ctx, UnstyledLink(path)) == Ok(UnstyledLink(path))
  {
    var page := UnstyledLink(path);
    assert page[1..] == "link" + UnstyledLinkAttrs(path) + ">";
    NoOtherTagUnchanged(ScriptRule(), ctx, page);
  }

  /** A marked link that is not a stylesheet is kept as it is, whatever the files. */
  lemma UnstyledLinkKept(path: string, ctx: Context)
    requires PlainPath(path) && '<' !in path
    ensures ApplyRules(DefaultRules(), ctx, UnstyledLink(path)) == Ok(UnstyledLink(path))
  {
    LinkRuleKeepsUnstyled(path, ctx);
    ScriptRuleSkipsLink(path, ctx);
    DefaultRulesInOrder(ctx, UnstyledLink(path));
  }

  /** `<link data-inline href="a.css">` is kept as it is, whatever the files. */
  lemma UnstyledExample(path: string, ctx: Context)
    requires path == "a.css"
    ensures ApplyRules(DefaultRules(), ctx, UnstyledLink(path)) == Ok(UnstyledLink(path))
  {
    assert PlainPath(path);
    UnstyledLinkKept(path, ctx);
  }
}
