/**
 * Replacement rules (index.js:189-212) and their application in list order
 * (index.js:156-165).
 */
module Rules {
  import opened Wrappers
  import opened Text
  import opened Scanner
  import opened Conditions
  import opened Resolver
  import opened Replace

  /**
   * One rule: the tag and attribute names, the condition (`None` when it is
   * not a function, which makes every occurrence eligible), and the replacer
   * factory, which given the build context yields the tag replacer.
   */
  datatype Rule = Rule(tag: string, attribute: string, condition: Option<string -> bool>,
                       replacer: Context -> string -> Result<string>)

  /** `replaceTag(output, item.tag, item.attribute, item.condition, item.replacer(processContext))`. */
  function ApplyRule(rule: Rule, ctx: Context, content: string): Result<string>
  {
    ReplaceTag(content, rule.tag, rule.attribute, rule.condition, rule.replacer(ctx))
  }

  /** The `forEach` fold: each rule rewrites the previous rule's output; the first error aborts. */
  function ApplyRules(rules: seq<Rule>, ctx: Context, content: string): Result<string>
    decreases |rules|
  {
    if rules == [] then Ok(content)
    else
      var output :- ApplyRule(rules[0], ctx, content);
      ApplyRules(rules[1..], ctx, output)
  }

  /** Rules compose in list order: running `a + b` is running `a`, then `b` on its output. */
  lemma {:induction false} ApplyRulesAppend(a: seq<Rule>, b: seq<Rule>, ctx: Context, content: string)
    ensures ApplyRules(a + b, ctx, content)
         == (var mid :- ApplyRules(a, ctx, content); ApplyRules(b, ctx, mid))
    decreases |a|
  {
    if a != [] {
      assert (a + b)[0] == a[0] && (a + b)[1..] == a[1..] + b;
      var first := ApplyRule(a[0], ctx, content);
      if first.Ok? {
        ApplyRulesAppend(a[1..], b, ctx, first.value);
      }
    } else {
      assert a + b == b;
    }
  }

  /** A failed run carries an error that one of its rules' tag replacers raised. */
  lemma {:induction false} FailureComesFromReplacer(rules: seq<Rule>, ctx: Context, content: string)
    requires ApplyRules(rules, ctx, content).Fail?
    ensures exists k, v :: 0 <= k < |rules|
              && rules[k].replacer(ctx)(v) == Fail(ApplyRules(rules, ctx, content).error)
    decreases |rules|
  {
    var first := ApplyRule(rules[0], ctx, content);
    if first.Fail? {
      var v :| rules[0].replacer(ctx)(v) == Fail(first.error);
      assert rules[0].replacer(ctx)(v) == Fail(ApplyRules(rules, ctx, content).error);
    } else {
      FailureComesFromReplacer(rules[1..], ctx, first.value);
      var k, v :| 0 <= k < |rules[1..]|
                 && rules[1..][k].replacer(ctx)(v) == Fail(ApplyRules(rules[1..], ctx, first.value).error);
      assert rules[k + 1].replacer(ctx)(v) == Fail(ApplyRules(rules, ctx, content).error);
    }
  }

  /** The link replacer: the resolved data wrapped in a style element. */
  function InlineStyle(ctx: Context, path: string): (r: Result<string>)
    ensures r.Ok? <==> Resolvable(ctx, path)
    ensures r.Ok? ==> r.value == "<style>" + ctx[path] + "</style>"
    ensures r.Fail? ==> r.error == NotFoundMessage(path)
  {
    var data :- GetFileData(ctx, path);
    Ok("<style>" + data + "</style>")
  }

  /** The script replacer: `<script>` and the resolved data, with no closing tag. */
  function InlineScript(ctx: Context, path: string): (r: Result<string>)
    ensures r.Ok? <==> Resolvable(ctx, path)
    ensures r.Ok? ==> r.value == "<script>" + ctx[path]
    ensures r.Fail? ==> r.error == NotFoundMessage(path)
  {
    var data :- GetFileData(ctx, path);
    Ok("<script>" + data)
  }

  /** The link rule's condition: marked for inlining and a stylesheet. */
  predicate IsInlineStylesheet(tagSource: string)
  {
    IsInlineTag(tagSource) && IsStylesheet(tagSource)
  }

  function LinkRule(): Rule
  {
    Rule("link", "href", Some(IsInlineStylesheet), (ctx: Context) => (path: string) => InlineStyle(ctx, path))
  }

  function ScriptRule(): Rule
  {
    Rule("script", "src", Some(IsInlineTag), (ctx: Context) => (path: string) => InlineScript(ctx, path))
  }

  /** The default rule list, in registration order. */
  function DefaultRules(): seq<Rule>
  {
    [LinkRule(), ScriptRule()]
  }

  /**
   * What the link rule does with one `<link…>` occurrence `m`: it fires only
   * when `m` minus `<` is both marked and a stylesheet and an `href` value is
   * found, and then becomes exactly `<style>` + data + `</style>`, or aborts
   * when the path does not resolve; otherwise `m` is kept.
   */
  lemma LinkRuleOccurrence(ctx: Context, content: string, i: nat, j: nat)
    requires i <= j <= |content| && IsOpenTag(content[i..j], "link")
    ensures var m := content[i..j];
      var rest := ReplaceFrom(content, j, "link", "href", LinkRule().condition, LinkRule().replacer(ctx));
      var hit := FindAttr(AttrSpan(m, "link"), "href");
      ReplaceFrom(content, i, "link", "href", LinkRule().condition, LinkRule().replacer(ctx))
      == if IsInlineTag(m[1..]) && IsStylesheet(m[1..]) && hit.Some? then
           if Resolvable(ctx, hit.value.value)
           then Prepend("<style>" + ctx[hit.value.value] + "</style>", rest)
           else Fail(NotFoundMessage(hit.value.value))
         else Prepend(m, rest)
  {
    var m := content[i..j];
    var rule := LinkRule();
    if Fires(m, rule.tag, rule.attribute, rule.condition) {
      RewritesOccurrence(content, i, j, rule.tag, rule.attribute, rule.condition, rule.replacer(ctx));
    } else {
      KeepsOccurrence(content, i, j, rule.tag, rule.attribute, rule.condition, rule.replacer(ctx));
    }
  }

  /**
   * What the script rule does with one `<script…>` occurrence `m`: it fires
   * on the marker alone when a `src` value is found, and then becomes exactly
   * `<script>` + data (no closing tag is added), or aborts when the path does
   * not resolve; otherwise `m` is kept.
   */
  lemma ScriptRuleOccurrence(ctx: Context, content: string, i: nat, j: nat)
    requires i <= j <= |content| && IsOpenTag(content[i..j], "script")
    ensures var m := content[i..j];
      var rest := ReplaceFrom(content, j, "script", "src", ScriptRule().condition, ScriptRule().replacer(ctx));
      var hit := FindAttr(AttrSpan(m, "script"), "src");
      ReplaceFrom(content, i, "script", "src", ScriptRule().condition, ScriptRule().replacer(ctx))
      == if IsInlineTag(m[1..]) && hit.Some? then
           if Resolvable(ctx, hit.value.value)
           then Prepend("<script>" + ctx[hit.value.value], rest)
           else Fail(NotFoundMessage(hit.value.value))
         else Prepend(m, rest)
  {
    var m := content[i..j];
    var rule := ScriptRule();
    if Fires(m, rule.tag, rule.attribute, rule.condition) {
      RewritesOccurrence(content, i, j, rule.tag, rule.attribute, rule.condition, rule.replacer(ctx));
    } else {
      KeepsOccurrence(content, i, j, rule.tag, rule.attribute, rule.condition, rule.replacer(ctx));
    }
  }

  /** A rule whose condition demands the marker leaves unmarked content alone. */
  lemma MarkerRuleKeepsUnmarked(rule: Rule, ctx: Context, content: string)
    requires rule.condition.Some?
    requires forall s :: rule.condition.value(s) ==> IsInlineTag(s)
    requires !IsInlineTag(content)
    ensures ApplyRule(rule, ctx, content) == Ok(content)
  {
    forall a, b | 0 <= a < b <= |content| && IsOpenTag(content[a..b], rule.tag)
      ensures !Fires(content[a..b], rule.tag, rule.attribute, rule.condition)
    {
      AbsentFromSlices(content, InlineMarker, a + 1, b);
      assert content[a..b][1..] == content[a + 1..b];
    }
    UnchangedWithoutFiring(content, rule.tag, rule.attribute, rule.condition, rule.replacer(ctx));
  }

  /**
   * No rule touches content without the `data-inline` marker: the default
   * rules return it unchanged and resolve nothing.
   */
  lemma UnmarkedContentUnchanged(ctx: Context, content: string)
    requires !IsInlineTag(content)
    ensures ApplyRules(DefaultRules(), ctx, content) == Ok(content)
  {
    MarkerRuleKeepsUnmarked(LinkRule(), ctx, content);
    MarkerRuleKeepsUnmarked(ScriptRule(), ctx, content);
    assert DefaultRules()[1..] == [ScriptRule()];
    assert DefaultRules()[1..][1..] == [];
  }

  /** A failing run of the default rules reports a path that does not resolve. */
  lemma DefaultFailureNamesMissingFile(ctx: Context, content: string)
    requires ApplyRules(DefaultRules(), ctx, content).Fail?
    ensures exists path :: !Resolvable(ctx, path)
              && ApplyRules(DefaultRules(), ctx, content).error == NotFoundMessage(path)
  {
    FailureComesFromReplacer(DefaultRules(), ctx, content);
    var k, v :| 0 <= k < 2 && DefaultRules()[k].replacer(ctx)(v) == Fail(ApplyRules(DefaultRules(), ctx, content).error);
    if k == 0 {
      assert InlineStyle(ctx, v).Fail?;
    } else {
      assert InlineScript(ctx, v).Fail?;
    }
  }
}
