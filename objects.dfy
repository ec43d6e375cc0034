/**
 * Plain JavaScript objects as the processor's configuration uses them, the
 * shallow `extend` (index.js:18-31), the `inline` object (index.js:123-170)
 * and the `InlineReplacer` factory (index.js:178-215).
 */
module Objects {
  import opened Wrappers
  import opened Conditions
  import opened Rules

  /** The values the configuration's own keys can hold. */
  datatype Value =
    | Null                            // null or undefined
    | Str(text: string)
    | StrList(items: seq<string>)
    | Predicate(test: string -> bool)
    | RuleList(rules: seq<Rule>)
    | ProcessHook                     // the shared `inline.process` function

  /** An object reduced to its own enumerable keys. */
  type Object = map<string, Value>

  /** Copying one source's own keys onto the target; a null source adds nothing. */
  function Overlay(target: Object, source: Option<Object>): Object
  {
    match source
    case None => target
    case Some(m) => target + m
  }

  /** The target after every source has been copied onto it, left to right. */
  function Merge(target: Object, sources: seq<Option<Object>>): Object
    decreases |sources|
  {
    if sources == [] then target
    else Overlay(Merge(target, sources[..|sources| - 1]), sources[|sources| - 1])
  }

  /** The index of the last non-null source that owns `key`. */
  function LastOwner(sources: seq<Option<Object>>, key: string): (r: Option<nat>)
    ensures r.Some? ==> r.value < |sources| && sources[r.value].Some? && key in sources[r.value].value
    ensures forall i :: 0 <= i < |sources| && (r.None? || r.value < i) && sources[i].Some?
              ==> key !in sources[i].value
    decreases |sources|
  {
    if sources == [] then None
    else
      var last := sources[|sources| - 1];
      if last.Some? && key in last.value then Some(|sources| - 1)
      else LastOwner(sources[..|sources| - 1], key)
  }

  /**
   * Later sources win: a key of the merged object comes from the last
   * non-null source that owns it, and from the target only when no source does.
   */
  lemma {:induction false} MergeLookup(target: Object, sources: seq<Option<Object>>, key: string)
    ensures key in Merge(target, sources) <==> key in target || LastOwner(sources, key).Some?
    ensures LastOwner(sources, key).Some? ==>
              Merge(target, sources)[key] == sources[LastOwner(sources, key).value].value[key]
    ensures LastOwner(sources, key).None? && key in target ==>
              Merge(target, sources)[key] == target[key]
    decreases |sources|
  {
    if sources != [] {
      MergeLookup(target, sources[..|sources| - 1], key);
    }
  }

  /**
   * `extend(target, ...sources)`: each non-null source's own keys are copied
   * onto the target in turn, the target is returned.
   */
  method Extend(target: Object, sources: seq<Option<Object>>) returns (r: Object)
    ensures r == Merge(target, sources)
  {
    r := target;
    for i := 0 to |sources|
      invariant r == Merge(target, sources[..i])
    {
      assert sources[..i + 1][..i] == sources[..i];
      if sources[i].Some? {
        var src := sources[i].value;
        ghost var before := r;
        var keys := src.Keys;
        while keys != {}
          invariant keys <= src.Keys
          invariant r.Keys == before.Keys + (src.Keys - keys)
          invariant forall k :: k in r ==> r[k] == if k in src && k !in keys then src[k] else before[k]
          decreases keys
        {
          var k :| k in keys;
          r := r[k := src[k]];
          keys := keys - {k};
        }
        assert r == before + src;
      }
    }
    assert sources[..|sources|] == sources;
  }

  /** The `inline` object's own keys: `files`, `name` and `process`. */
  function InlineMembers(): Object
  {
    map["files" := StrList(["*.html", "*.htm", "*.phtml", "*.tpl", "*.vm"]),
        "name" := Str("InlineReplacer"),
        "process" := ProcessHook]
  }

  /** The defaults the factory lays over `inline`: `condition` and the two rules. */
  function DefaultOptions(): Object
  {
    map["condition" := Predicate(IsInlineTag), "replacements" := RuleList(DefaultRules())]
  }

  /** `extend({}, inline, defaults, options)`, the object the factory returns. */
  function ProcessorFor(options: Option<Object>): Object
  {
    Merge(map[], [Some(InlineMembers()), Some(DefaultOptions()), options])
  }

  /** Whether `options` is given and owns `key`. */
  predicate Overrides(options: Option<Object>, key: string)
  {
    options.Some? && key in options.value
  }

  /**
   * The override is shallow, by whole top-level key: an option replaces its
   * key's value outright (a `replacements` option replaces the whole rule
   * list), every key it omits keeps its default, and it may add keys.
   */
  lemma ProcessorForFields(options: Option<Object>, key: string)
    ensures key in ProcessorFor(options) <==>
              key in InlineMembers() || key in DefaultOptions() || Overrides(options, key)
    ensures Overrides(options, key) ==> ProcessorFor(options)[key] == options.value[key]
    ensures !Overrides(options, key) && key in DefaultOptions() ==>
              ProcessorFor(options)[key] == DefaultOptions()[key]
    ensures !Overrides(options, key) && key in InlineMembers() ==>
              ProcessorFor(options)[key] == InlineMembers()[key]
  {
    var sources := [Some(InlineMembers()), Some(DefaultOptions()), options];
    MergeLookup(map[], sources, key);
    assert "replacements" !in InlineMembers() && "condition" !in InlineMembers();
  }

  /** Without a `replacements` option the processor carries exactly the two default rules. */
  lemma DefaultReplacements(options: Option<Object>)
    requires !Overrides(options, "replacements")
    ensures "replacements" in ProcessorFor(options)
    ensures ProcessorFor(options)["replacements"] == RuleList([LinkRule(), ScriptRule()])
  {
    ProcessorForFields(options, "replacements");
  }

  /**
   * `new InlineReplacer(options)`: the object `extend` builds from a fresh
   * target, `inline`, the defaults and the options (absent options are null).
   */
  method InlineReplacer(options: Option<Object>) returns (processor: Object)
    ensures processor == ProcessorFor(options)
    ensures "replacements" in processor && "process" in processor && "files" in processor
  {
    processor := Extend(map[], [Some(InlineMembers()), Some(DefaultOptions()), options]);
    ProcessorForFields(options, "replacements");
    ProcessorForFields(options, "process");
    ProcessorForFields(options, "files");
  }
}
