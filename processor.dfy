/**
 * `inline.process` (index.js:152-170): fold the processor's rules over the
 * file's data, commit the result once, then signal completion.
 */
module Processor {
  import opened Wrappers
  import opened Resolver
  import opened Rules
  import opened Objects

  /** The pipeline's file record: its data is read once and replaced wholesale by `setData`. */
  class FileInfo {
    var data: string
    /** How many times `setData` has been called. */
    ghost var writes: nat

    constructor (data: string)
      ensures this.data == data && writes == 0
    {
      this.data := data;
      writes := 0;
    }

    method SetData(text: string)
      modifies this
      ensures data == text && writes == old(writes) + 1
    {
      data := text;
      writes := writes + 1;
    }
  }

  /** The completion callback, reduced to the number of times it was invoked. */
  class Completion {
    ghost var calls: nat

    constructor ()
      ensures calls == 0
    {
      calls := 0;
    }

    method Signal()
      modifies this
      ensures calls == old(calls) + 1
    {
      calls := calls + 1;
    }
  }

  /** What `process` reports when `this.replacements` is not a list and `forEach` throws. */
  const NotAListMessage := "TypeError: " + "this.replacements.forEach is not a function"

  /** What `process` reports when a list item is not a rule, so `item.replacer` is not a function (index.js:163). */
  const NotARuleMessage := "TypeError: " + "item.replacer is not a function"

  /**
   * The rules `forEach` runs over `this.replacements` (index.js:156-165). An
   * empty list runs none, whichever kind of list it is written as; the first
   * string in a string list throws at `item.replacer`; anything but a list
   * throws at `forEach`.
   */
  function Replacements(self: Object): (r: Result<seq<Rule>>)
    ensures r.Ok? <==>
              "replacements" in self && (self["replacements"].RuleList? || self["replacements"] == StrList([]))
    ensures r.Ok? && self["replacements"].RuleList? ==> r.value == self["replacements"].rules
    ensures r.Ok? && self["replacements"].StrList? ==> r.value == []
    ensures r.Fail? && "replacements" in self && self["replacements"].StrList? ==> r.error == NotARuleMessage
    ensures r.Fail? && ("replacements" !in self || !self["replacements"].StrList?) ==> r.error == NotAListMessage
  {
    if "replacements" !in self then Fail(NotAListMessage)
    else match self["replacements"]
      case RuleList(rules) => Ok(rules)
      case StrList(items) => if items == [] then Ok([]) else Fail(NotARuleMessage)
      case _ => Fail(NotAListMessage)
  }

  /** The text `process` commits for `content`, or the error that aborts it. */
  function Run(self: Object, ctx: Context, content: string): Result<string>
  {
    var rules :- Replacements(self);
    ApplyRules(rules, ctx, content)
  }

  /** An empty `replacements` list runs no rule: `process` commits the data as it was read. */
  lemma EmptyListKeepsData(self: Object, ctx: Context, content: string)
    requires "replacements" in self
    requires self["replacements"] == StrList([]) || self["replacements"] == RuleList([])
    ensures Run(self, ctx, content) == Ok(content)
  {
  }

  /**
   * `process` reads each rule's own condition only: the processor's
   * top-level `condition` (index.js:188) does not affect the result.
   */
  lemma {:induction false} TopLevelConditionIgnored(self: Object, v: Value, ctx: Context, content: string)
    ensures Run(self["condition" := v], ctx, content) == Run(self, ctx, content)
  {
    assert Replacements(self["condition" := v]) == Replacements(self);
  }

  /** A processor built without a `replacements` option runs exactly the default rules. */
  lemma DefaultProcessorRunsDefaultRules(options: Option<Object>, ctx: Context, content: string)
    requires !Overrides(options, "replacements")
    ensures Run(ProcessorFor(options), ctx, content) == ApplyRules(DefaultRules(), ctx, content)
  {
    DefaultReplacements(options);
  }

  /**
   * `process(file, processContext, callback)` with `self` as `this`. On
   * success the final text is committed with exactly one `setData`, and the
   * callback then runs exactly once; when a rule aborts, or there is no rule
   * list, or a list item is not a rule, the error is thrown and neither the
   * file nor the callback is touched.
   */
  method Process(self: Object, file: FileInfo, ctx: Context, callback: Completion) returns (thrown: Option<string>)
    modifies file, callback
    ensures var r := Run(self, ctx, old(file.data));
      if r.Ok? then
        thrown == None && file.data == r.value
        && file.writes == old(file.writes) + 1 && callback.calls == old(callback.calls) + 1
      else
        thrown == Some(r.error) && file.data == old(file.data)
        && file.writes == old(file.writes) && callback.calls == old(callback.calls)
  {
    var replacements := Replacements(self);
    if replacements.Fail? {
      return Some(replacements.error);
    }
    var rules := replacements.value;
    var output := file.data;
    for i := 0 to |rules|
      invariant ApplyRules(rules[i..], ctx, output) == Run(self, ctx, old(file.data))
    {
      assert rules[i..][0] == rules[i] && rules[i..][1..] == rules[i + 1..];
      var step := ApplyRule(rules[i], ctx, output);
      if step.Fail? {
        return Some(step.error);
      }
      output := step.value;
    }
    file.SetData(output);
    callback.Signal();
    thrown := None;
  }
}
