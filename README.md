# edp-build-inline, modelled in Dafny

`edp-build-inline` is a processor for the EDP build tool. It inlines
resources into HTML-like templates. An opening `<link …>` tag whose source
holds `data-inline` and `rel="stylesheet"` becomes `<style>` + data + `</style>`.
An opening `<script …>` tag whose source holds `data-inline` becomes `<script>` + data.
The data is that of the file named by the value of the first `href=` (for a link)
or `src=` (for a script) match in the tag's attribute text. The attribute name is
matched as a plain substring, so in `<link data-inline data-href="b.css" rel="stylesheet" href="a.css">`
the file inlined is `b.css`. The data comes from the build context's file records.
A path that does not resolve aborts the processing of the file.

The model follows `index.js` piece by piece:

| module | models |
|---|---|
| `Wrappers` | `Option` and `Result`. A thrown error is a `Fail(message)` value. |
| `Text` | literal substring search (the unanchored `test` of `isInlineTag`) and the quote class `['"]` |
| `Scanner` | the tag pattern `<tag([^>]+)>` and the attribute pattern `(attr)=(['"])([^'"]+)\2`, written as index-based scanners. Each scanner is proved against a predicate that describes one match directly. |
| `Conditions` | `isInlineTag` and `isStylesheet` |
| `Resolver` | `getFileData`, with the build context as a map from path to data |
| `Replace` | `replaceTag`, i.e. the global `String.prototype.replace` with the per-occurrence callback |
| `Rules` | a rule (tag, attribute, optional condition, replacer), the two default rules, and the fold of a rule list over a text |
| `Objects` | configuration objects as maps from own keys to values, `extend` as a loop method, and the `InlineReplacer` factory |
| `Processor` | `inline.process` as a method over a `FileInfo` class (data committed by `setData`) and a `Completion` class (the callback) |
| `Scenarios` | whole pages run through the default rules, for any path: which tags change and exactly what they become |

A few facts about the model:

- A rule's condition is `Option<string -> bool>`. `None` stands for "not a function", which makes every occurrence eligible.
- A file record whose data is `undefined` is represented with data `""`. The source treats both as falsy.
- The two quotes of `rel=("|')stylesheet("|')` (index.js:114) are matched independently, so `rel="stylesheet'` is accepted (`Conditions.MixedQuotesPass`).

## Model

| member | source | states |
|---|---|---|
| Conditions.IsInlineTag | index.js:103-105 | true exactly when `data-inline` occurs at some index of the tag source; its position and value are not checked |
| Conditions.IsStylesheet | index.js:113-115 | true exactly when `rel=`, a quote, `stylesheet`, a quote occur at some index; each quote may be `"` or `'` independently |
| Conditions.MixedQuotesPass | index.js:114 | the mismatched `rel="stylesheet'` is accepted as a stylesheet |
| Conditions.UnquotedFails | index.js:114 | `rel=stylesheet` without quotes is not recognised as a stylesheet |
| Text.Contains | index.js:104 | true exactly when the pattern occurs at some index of the text |
| Scanner.OpenTagEnd | index.js:69 | for every end index `j`, the scan from `i` returns `j` exactly when `content[i..j]` is a match of `<tag([^>]+)>`: `<`, the tag name as a prefix (no word boundary), a non-empty run free of `>`, then `>` |
| Scanner.AttrAt | index.js:68 | returns `v` exactly when the attribute pattern matches at that index with value `v`: name, `=`, a quote, a non-empty quote-free value, the same quote again |
| Scanner.FindAttr | index.js:82-85 | the hit is a match; its value is the only one possible at its index; no match starts at an earlier index, so this is the leftmost match, as a non-global `match` finds it. The name is matched as a substring, so `data-href="b.css"` before `href="a.css"` yields `b.css` (Scenarios.SuffixedNameMatchesFirst) |
| Replace.Eligible | index.js:72 | an occurrence is eligible when the condition is not a function, or when it accepts the occurrence's source minus `<`; used by KeepsOccurrence and RewritesOccurrence |
| Replace.Occurrence | index.js:71-90 | the callback for one occurrence `m`: `m` kept unless it fires, otherwise `tagReplacer(v)` of the leftmost attribute value; characterised by KeepsOccurrence and RewritesOccurrence |
| Replace.ReplaceFrom | index.js:92 | the global replace from index `i` on, resuming after each occurrence; every error comes from the tag replacer; characterised by CopiesText, KeepsOccurrence, RewritesOccurrence and UnchangedWithoutFiring |
| Replace.ReplaceTag | index.js:66-94 | a failed rewrite carries an error that the tag replacer raised for some value |
| Replace.CopiesText | index.js:92 | text in which no tag match starts is copied unchanged, and the rewrite continues after it |
| Replace.KeepsOccurrence | index.js:71-90 | an occurrence that does not fire is copied verbatim, and the scan resumes right after it. It does not fire when its source minus `<` fails a condition that is a function, or when its attribute text holds no attribute match. |
| Replace.RewritesOccurrence | index.js:82-86 | an occurrence that fires becomes `tagReplacer(v)`, where `v` is the leftmost match's value; the scan resumes after the occurrence, so the replacement is never rescanned |
| Replace.UnchangedWithoutFiring | index.js:66-94 | when no occurrence fires, the content comes back unchanged and the tag replacer is never consulted |
| Resolver.GetFileData | index.js:40-53 | succeeds exactly when the record exists and its data is non-empty, and then returns that data; otherwise fails with `inline file: <path> not found` |
| Resolver.FailureNamesPath | index.js:48 | the failed path can be read back out of the failure message |
| Resolver.GetFileDataAsWritten | index.js:50 | with the receiver the factory binds, a path that does not resolve fails with the TypeError from `this.log` instead |
| Resolver.AsWrittenLosesPath | index.js:185-187 | for every path that does not resolve, the as-written error differs from the intended one and names no path |
| Rules.InlineStyle | index.js:196-200 | succeeds exactly when the path resolves, with `<style>` + data + `</style>`; otherwise fails with the intended not-found message (see Findings) |
| Rules.InlineScript | index.js:206-210 | succeeds exactly when the path resolves, with `<script>` + data and no closing tag; otherwise fails with the intended not-found message (see Findings) |
| Rules.ApplyRule | index.js:158-164 | one rule applied to the text: `replaceTag` with the rule's tag, attribute and condition and the tag replacer its factory builds from the context |
| Rules.ApplyRules | index.js:156-165 | the `forEach` fold: each rule rewrites the previous output, the first error aborts; see ApplyRulesAppend and FailureComesFromReplacer |
| Rules.IsInlineStylesheet | index.js:193-195 | the link rule's condition: marked for inlining and a stylesheet; see LinkRuleOccurrence |
| Rules.LinkRule | index.js:190-201 | tag `link`, attribute `href`, the condition IsInlineStylesheet and the InlineStyle replacer; see LinkRuleOccurrence |
| Rules.ScriptRule | index.js:202-211 | tag `script`, attribute `src`, the condition IsInlineTag and the InlineScript replacer; see ScriptRuleOccurrence |
| Rules.DefaultRules | index.js:189-212 | the link rule, then the script rule; see Scenarios.DefaultRulesInOrder and UnmarkedContentUnchanged |
| Rules.ApplyRulesAppend | index.js:156-165 | running rules `a + b` is running `a`, then running `b` on its output; an error in `a` aborts the run before `b` |
| Rules.FailureComesFromReplacer | index.js:156-165 | a failed run carries an error that the tag replacer of one of its rules raised for some value |
| Rules.LinkRuleOccurrence | index.js:190-201 | a `<link…>` occurrence fires only when its source is both marked and a stylesheet and holds an `href` match. It then becomes exactly `<style>` + data + `</style>`, or aborts when the path does not resolve. Otherwise it is kept. |
| Rules.ScriptRuleOccurrence | index.js:202-211 | a `<script…>` occurrence fires on the marker alone when it holds a `src` match. It then becomes exactly `<script>` + data, or aborts when the path does not resolve. Otherwise it is kept. |
| Rules.MarkerRuleKeepsUnmarked | index.js:72-74 | a rule whose condition implies the marker leaves content without the marker unchanged |
| Rules.UnmarkedContentUnchanged | index.js:189-212 | content without `data-inline` passes through both default rules unchanged, whatever the files |
| Rules.DefaultFailureNamesMissingFile | index.js:44-52 | a failed run of the default rules carries the intended not-found message of a path that does not resolve (see Findings) |
| Objects.Merge | index.js:18-31 | the reference definition of `extend`: the target with each non-null source's keys laid over it, left to right; characterised by MergeLookup, and Extend is proved equal to it |
| Objects.LastOwner | index.js:24-27 | the index of the last non-null source that owns the key; no later source owns it |
| Objects.MergeLookup | index.js:18-31 | later sources win: a merged key holds the last owning source's value; it holds the target's value only when no source owns it; null sources add nothing |
| Objects.Extend | index.js:18-31 | the nested copy loops produce exactly the left-to-right merge of the non-null sources onto the target |
| Objects.InlineMembers | index.js:123-170 | the `inline` object's own keys: the five `files` globs, the `name` `InlineReplacer`, and `process` |
| Objects.DefaultOptions | index.js:187-213 | the defaults literal: the top-level `condition` `isInlineTag` and the two default rules; see DefaultReplacements |
| Objects.ProcessorFor | index.js:187 | `extend({}, inline, defaults, options)` as a value; characterised by ProcessorForFields, and InlineReplacer is proved to return it |
| Objects.ProcessorForFields | index.js:187-213 | an option replaces its key's value outright; every key it omits keeps the default or the `inline` value; the processor has no other keys |
| Objects.DefaultReplacements | index.js:189-212 | without a `replacements` option, the processor holds exactly the link rule, then the script rule |
| Objects.InlineReplacer | index.js:178-215 | the factory returns the merge of `{}`, `inline`, the defaults and the options, which carries `replacements`, `process` and `files` |
| Processor.Replacements | index.js:156-165 | the rules `forEach` runs: the list of rules, or none for an empty list of either kind; a non-empty string list fails with the TypeError of `item.replacer` (index.js:163); anything but a list fails with the TypeError of `forEach` |
| Processor.Run | index.js:154-165 | what `process` commits for the data it read: the rules from Replacements folded over it, or the error that aborts; Process is proved against it, see also EmptyListKeepsData, TopLevelConditionIgnored and DefaultProcessorRunsDefaultRules |
| Processor.EmptyListKeepsData | index.js:154-165 | with an empty `replacements` list, written as either kind of list, `process` commits the data as it was read |
| Processor.TopLevelConditionIgnored | index.js:152-170 | changing the processor's top-level `condition` (index.js:188) does not change what `process` commits |
| Processor.DefaultProcessorRunsDefaultRules | index.js:156-165 | a processor built without a `replacements` option applies exactly the two default rules, in order |
| Processor.Process | index.js:152-170 | on success the rules' output is committed with exactly one `setData` and the callback runs exactly once; when a rule aborts, or there is no rule list, the error is thrown and neither the file nor the callback is touched |
| Processor.FileInfo.SetData | index.js:167 | the file's data becomes the given text, and one more write is counted |
| Processor.Completion.Signal | index.js:169 | one more completion is counted |
| Scenarios.MissingTagCharUnchanged | index.js:69 | a rule whose tag name has a character that the content lacks finds no occurrence and changes nothing |
| Scenarios.WholePage | index.js:92 | on a page that is a single tag, the rewrite is that occurrence's own result |
| Scenarios.SuffixedNameMatchesFirst | index.js:68-82 | in the attribute text of `<link data-inline data-href="p" rel="stylesheet" href="q">`, the leftmost `href` match is the one inside `data-href`, with value `p`, for any paths `p` and `q` free of quotes and `>` |
| Scenarios.DefaultRulesInOrder | index.js:189-212 | the default rules run the link rule, then the script rule on its output |
| Scenarios.StylesheetInlined | index.js:189-201 | `<link data-inline href="p" rel="stylesheet">` becomes exactly `<style>` + data + `</style>`. This holds for any resolvable path `p` free of quotes and `>`, whose data does not itself hold the marker (the script rule reads the output next). |
| Scenarios.MissingStylesheetAborts | index.js:196-199 | the same link with an unresolvable path `p` (free of quotes and `>`) aborts with the intended message `inline file: p not found` (see Findings) |
| Scenarios.StylesheetExample | index.js:189-201 | `a.css` holding `body{color:red}` gives `<style>body{color:red}</style>` |
| Scenarios.ScriptInlined | index.js:202-211 | `<script data-inline src="p">` becomes exactly `<script>` + data. This holds for any resolvable path `p` free of quotes, `>` and `<`: the page's only `<` opens the script tag, so the link rule, which runs first, finds no occurrence. |
| Scenarios.UnstyledLinkKept | index.js:193-195 | `<link data-inline href="p">`, which has no `rel="stylesheet"`, is kept verbatim, whatever the files. This holds for any path free of quotes, `>` and `<`. |
| Scenarios.UnstyledExample | index.js:189-212 | `<link data-inline href="a.css">` is kept verbatim, whatever the files |
| Scenarios.NoOtherTagUnchanged | index.js:69 | on a page whose only `<` is its first character, followed by a letter other than the first of a rule's tag name, the rule finds no occurrence and changes nothing |

## Left out

- Logging: the build tool's logger (`this.log.fatal`, index.js:50) belongs to the build tool. `Resolver.GetFileData` models the intended failure, the error raised at index.js:52. `Resolver.GetFileDataAsWritten` models only the fact that the call to the missing logger throws.
- Rules.InlineStyle, Rules.InlineScript and everything built on them (the default rules, `Rules.DefaultFailureNamesMissingFile`, `Scenarios.MissingStylesheetAborts`, `Processor.Process`) resolve paths with `Resolver.GetFileData`, so an abort carries the intended `inline file: <path> not found` message. As written, the factory's binding (index.js:185) makes every such abort carry the TypeError of `Resolver.GetFileDataAsWritten` instead (see Findings). Only the abort itself, with nothing committed, is the same.
- Build context: `processContext.getFileByPath` becomes a map from path to data. How the build tool resolves and caches paths is not part of this model.
- File records: `FileInfo` is reduced to its data and a count of `setData` calls. Binary (`Buffer`) data is represented as a string.
- Completion callback: it is reduced to a call counter. Its asynchronous use by the build pipeline is not modelled.
- Processor.Process: counts the `setData` and callback calls but does not state that `setData` happens before the callback, which the source's statement order gives.
- Objects.Extend: returns the merged map instead of mutating `target` in place. The only call passes a fresh `{}`, so no other reference can observe the difference.
- Configuration values: they are limited to null, strings, string lists, predicates, rule lists and the shared `process` function. Numbers and nested objects do not occur in the source's configuration and are not represented. A list is either a list of strings or a list of rules; a list mixing rules with other items is not represented. Absent or null `options` are modelled as `None`, which `extend` skips. An `options` value that is neither an object nor null or undefined (a string, a number) is not modelled.
- User-supplied rules: a rule whose `replacer` is not a function, or whose `tag` or `attribute` is missing, raises a TypeError or builds a different pattern. These cases are not modelled. A rule's `condition` that is not a function is modelled, as `None`.
- Regular expressions: the source splices the tag and attribute names unescaped into its two patterns. The model matches the names literally. This agrees for the names the source uses (`link`, `script`, `href`, `src`) but not for names containing regular-expression metacharacters.
- Error text: the wording of the TypeErrors (`MissingLoggerMessage`, `NotAListMessage`, `NotARuleMessage`) depends on the JavaScript engine. The constants stand for them.
- Metadata: the `files` glob list and the processor `name` are carried as constants only. Matching file names against the globs is done by the build tool.
- Demo: the demo build configuration under `demo/` is wiring with no logic, and is not part of this model.

## Findings

| source | as written | input that shows it | evidently intended | confidence | as-written member | corrected member |
|---|---|---|---|---|---|---|
| index.js:185 | `getFileData` is bound to the `this` of `new InlineReplacer(...)`. That object is discarded, because the constructor returns the object `extend` built (index.js:187), and it has no `log`. On the failure path, `this.log.fatal(errMsg)` (index.js:50) therefore throws a TypeError before the intended error is raised. | any page holding `<script data-inline src="missing.js">` whose path has no record in the build context | abort with `inline file: missing.js not found`, the message built at index.js:48 | high for `new InlineReplacer()`; not executed | Resolver.AsWrittenLosesPath | Resolver.FailureNamesPath |
