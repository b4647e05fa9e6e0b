# variable-substitution: file finder, pattern matcher and JSON substitution in Dafny

This project models the two engines of the variable-substitution action:

- **File enumeration and pattern matching** (`src/operations/utility.ts`).
  `find` walks a directory tree with an explicit stack and lists every path
  in pre-order. `match` applies an ordered list of include and exclude glob
  patterns to a candidate list. The path helpers `isRooted`, `ensureRooted`,
  `normalizeSeparators`, `startsWith`, `endsWith` and the `firstWildcardIndex`
  helper of `findfiles` are modelled on the POSIX branch.
- **Recursive JSON substitution** (`src/operations/jsonVariableSubstitutionUtility.ts`).
  `substituteJsonVariable` resolves each key of a JSON document against an
  environment tree. On a terminal hit it overwrites the value with a coercion
  chosen by the old value's `typeof`. On an interior hit it recurses.

Modules:

| file | module | what it holds |
|---|---|---|
| `results.dfy` | `Results` | `Option` and `Result`; `Failure(message)` stands for a thrown `Error` |
| `js_string.dfy` | `JsString` | the JavaScript built-ins used: `trim`, `indexOf`, `split`, and array-index keys |
| `path_util.dfy` | `PathUtil` | the path helpers of `utility.ts` |
| `finder.dfy` | `Finder` | `find` over an immutable filesystem tree, proved against a recursive pre-order |
| `pattern_match.dfy` | `PatternMatch` | `match`, split into a plan of steps and their left-to-right application |
| `json_substitution.dfy` | `JsonSubstitution` | `substituteJsonVariable` and its coercion switch |

External collaborators are parameters of the model, not definitions in it:

- `minimatch.match` is a `Glob`. `minimatch.braceExpand` is an `Expander`.
- `path.normalize`, `path.join` and `fs.lstatSync` of the root are given to `Finder.Find`. The tree below the root is a `Node` value: `Dir`, `File`, `Symlink`, or `Unreadable(message)` for an entry whose `lstat` or `readdir` throws.
- `JSON.parse`, `isNaN`/`Number` and the environment lookup `checkEnvTreePath` are fields of a `Host`. A lookup answers `NotFound`, `Terminal(value)` or `Interior(node)`.

How `match` is modelled. For each pattern, the source trims it and classifies it. It then expands the pattern, trims and roots each sub-pattern, and runs the glob. The glob is a pure function of its arguments. So the model first builds the whole ordered plan (`Steps`) and then folds it over the accumulator (`ApplySteps`). The result is the same as the source's interleaved loop. The throws of `isRooted` and `ensureRooted` cannot happen inside `match`. The sub-pattern is non-empty there and the root is checked first. Dafny checks this as a well-formedness condition of `PatternMatch.Root`.

Three details of the code that are easy to misread:

- A pattern with no `!` is always an include, even when `flipNegate` is set. The flip only inverts the parity test for patterns that carry at least one `!` (`utility.ts:246-248`).
- An `lstat` failure on the root that is not `ENOENT` is re-raised as it is, without wrapping (`utility.ts:90-100`). Only errors inside the walk (`lstat` of an entry, `readdir` of a directory) get the `LIB_OperationFailed` + `find` prefix, and then no partial result is returned (`utility.ts:143-144`). The model has an `Unreadable` entry for these.
- The `case null` label of the coercion switch is dead, because `typeof null` is `'object'`. Null slots take the object branch (`JsonSubstitution.TypeOf`).

## Model

| member | source | states |
|---|---|---|
| JsString.Trim | src/operations/utility.ts:215-216 | the trimmed pattern is an infix of the input with only whitespace cut from both ends; it is empty exactly when the input is all whitespace, so such a pattern is skipped |
| JsString.TrimUnchanged | src/operations/utility.ts:277 | a sub-pattern that neither starts nor ends with whitespace survives the second trim unchanged |
| JsString.IndexOf | src/operations/utility.ts:26-28 | `indexOf` returns -1 exactly when the character is absent, else its first position |
| JsString.Split | src/operations/jsonVariableSubstitutionUtility.ts:13 | a key splits on `.` into at least one segment, none containing `.` |
| JsString.JoinSplit | src/operations/jsonVariableSubstitutionUtility.ts:13 | the segments a key is looked up under rejoin to exactly that key |
| JsString.SplitJoin | src/operations/jsonVariableSubstitutionUtility.ts:13 | splitting a join of dot-free segments gives back those segments |
| JsString.NatToString | src/operations/jsonVariableSubstitutionUtility.ts:12 | an array index key is a non-empty string of decimal digits without a leading zero |
| JsString.NatToStringValue | src/operations/jsonVariableSubstitutionUtility.ts:12 | distinct array indices give distinct keys: the decimal text reads back as the index |
| PathUtil.StartsWith | src/operations/utility.ts:366-368 | the clamped slice comparison holds exactly when `start` is a prefix of `str` |
| PathUtil.EndsWith | src/operations/utility.ts:370-372 | for a non-empty `end` this is the suffix test; an empty `end` matches only an empty `str`, because `slice(-0)` is the whole string |
| PathUtil.NormalizeSeparators | src/operations/utility.ts:374-387 | the result has no `//`, keeps the first character, is empty iff the input is, and leaves a string without `//` unchanged |
| PathUtil.NormalizeIdempotent | src/operations/utility.ts:385-386 | normalizing twice equals normalizing once |
| PathUtil.NormalizeDuplicateSlash | src/operations/utility.ts:385-386 | doubling any separator does not change the normal form, so every run of `/` collapses to one |
| PathUtil.IsRooted | src/operations/utility.ts:352-364 | fails exactly on the empty path; otherwise holds iff the path starts with `/` |
| PathUtil.EnsureRooted | src/operations/utility.ts:324-350 | fails iff `root` or `p` is empty; returns a rooted `p` unchanged; otherwise yields `root` then `p`, with exactly one added `/` iff `root` lacks a trailing one |
| PathUtil.EnsureRootedIsRooted | src/operations/utility.ts:333-349 | the result is rooted whenever the root or the path is rooted |
| PathUtil.EnsureRootedIdempotent | src/operations/utility.ts:324-350 | rooting a result again under the same rooted root changes nothing |
| PathUtil.FirstWildcardIndex | src/operations/utility.ts:25-35 | -1 iff the string has neither `*` nor `?`; otherwise the first position holding either |
| Finder.Preorder | src/operations/utility.ts:106-138 | the traversal starts with the root path, and an entry that is not a directory yields just its own path |
| Finder.Failures | src/operations/utility.ts:120-129 | the error messages of the unreadable entries in traversal order: an unreadable entry contributes its own message, a file or link none |
| Finder.OperationFailed | src/operations/utility.ts:143-144 | the error raised from the walk is the fixed prefix `LIB_OperationFailed` then `find`, followed by the original message unchanged |
| Finder.PreorderLength | src/operations/utility.ts:109-138 | the traversal has exactly one path per tree node, because links and files are never expanded |
| Finder.PushReversed | src/operations/utility.ts:131-133 | the push loop leaves the children on the stack in reverse order, with the first child on top |
| Finder.ChildItems | src/operations/utility.ts:127-130 | one pending item per listed child, in listing order, each holding that child's entry one level deeper than its parent |
| Finder.ChildItemsPreorder | src/operations/utility.ts:127-133 | the traversals of a directory's child items, from any position on, are exactly the directory's own traversal of those children |
| Finder.Walk | src/operations/utility.ts:102-145 | with no unreadable entry the stack loop returns the recursive pre-order, with children in listing order; otherwise it fails with `LIB_OperationFailedfind` and the message of the first unreadable entry in pre-order, discarding the paths found |
| Finder.Find | src/operations/utility.ts:76-146 | an empty path or an `ENOENT` root gives `[]`; another root `lstat` error is raised unwrapped; an unreadable entry below raises the wrapped message of the first one reached; otherwise the result is the pre-order from the normalized root |
| PatternMatch.PatternList | src/operations/utility.ts:202-204 | a single pattern string is treated as a one-element list |
| PatternMatch.DefaultOptions | src/operations/utility.ts:162-176 | the defaults on POSIX: braces not expanded, dot files matched, case-sensitive, no base-name matching, comments and negation honoured, no parity flip |
| PatternMatch.DefaultIgnoresExpander | src/operations/utility.ts:199-258 | under the default options each pattern gives at most one step and the plan does not depend on the brace expander |
| PatternMatch.MatchDefaultIgnoresExpander | src/operations/utility.ts:199-258 | `match` called without options gives the same result whatever the brace expander |
| PatternMatch.Latched | src/operations/utility.ts:222-269 | the options each sub-pattern is matched with: comment, negation and brace handling marked done, the flip cleared, every other field the caller's |
| PatternMatch.LeadingBangs | src/operations/utility.ts:234-240 | counts exactly the maximal run of leading `!` |
| PatternMatch.IsInclude | src/operations/utility.ts:246-248 | no `!` is always include; otherwise include iff the count's evenness differs from `flipNegate` |
| PatternMatch.Classify | src/operations/utility.ts:214-248 | skips blank patterns and, unless `nocomment`, `#` comments; the remaining body is the trimmed pattern minus its leading `!`s (none stripped under `nonegate`, which forces include) |
| PatternMatch.Root | src/operations/utility.ts:283-291 | a pattern is rooted only with a non-empty root, when it is not already rooted and `matchBase` is off or it contains `/`; then the result is the root, one `/` only if the root lacks a trailing one, and the pattern; with the empty root of `findfiles` it is never changed |
| PatternMatch.SubSteps | src/operations/utility.ts:271-291 | at most one step per sub-pattern, none when all are blank; every step keeps the pattern's kind and the latched options |
| PatternMatch.SubStepsOne | src/operations/utility.ts:276-291 | a blank sub-pattern gives no step; any other gives exactly one step for its trimmed and rooted text |
| PatternMatch.SubStepsAppend | src/operations/utility.ts:271-291 | sub-patterns are processed one after another in expansion order, each independently of the others |
| PatternMatch.BlankSubPatternSkipped | src/operations/utility.ts:276-281 | a blank sub-pattern anywhere among the expanded ones adds no step |
| PatternMatch.PatternSteps | src/operations/utility.ts:222-269 | a skipped pattern contributes nothing; every step carries the latched clone of the caller's options; with `nobrace` at most one step results |
| PatternMatch.Steps | src/operations/utility.ts:210-222 | every step of the whole plan uses the latched clone of the caller's original options |
| PatternMatch.StepsAppend | src/operations/utility.ts:210-222 | each pattern's steps depend only on that pattern and the caller's options, so no latch leaks into the next pattern |
| PatternMatch.ApplyStep | src/operations/utility.ts:293-314 | an include adds every matched path; an exclude deletes every matched path, and deleting an absent one does nothing; other paths are untouched |
| PatternMatch.ApplyStepsAppend | src/operations/utility.ts:211-316 | patterns are applied strictly left to right: two runs of steps compose in order |
| PatternMatch.ApplySteps | src/operations/utility.ts:293-314 | a path enters the accumulator only through an include step whose glob matches it, and leaves it only through a matching exclude step |
| PatternMatch.LastMatch | src/operations/utility.ts:293-314 | the position of the last step whose glob matches a path, or none when no step matches it |
| PatternMatch.ApplyStepsLastMatch | src/operations/utility.ts:293-314 | a path ends in the accumulator iff the last step matching it is an include; unmatched paths keep their initial membership |
| PatternMatch.Filter | src/operations/utility.ts:318-319 | the result is a subsequence of the list containing exactly the members in the set, each with the list's own multiplicity |
| PatternMatch.Match | src/operations/utility.ts:194-322 | the result is a subsequence of the candidate list in its order; it contains nothing outside the list and no extra duplicates |
| PatternMatch.MatchMembership | src/operations/utility.ts:293-319 | a candidate is kept iff it is in the list and the last step whose glob matches it is an include |
| PatternMatch.SkippedPatternChangesNothing | src/operations/utility.ts:214-228 | inserting a blank pattern, or a `#` comment while comments are honoured, anywhere in the list leaves the result unchanged |
| PatternMatch.NoBraceIgnoresExpander | src/operations/utility.ts:257-258 | with `nobrace` set the brace expander is never consulted |
| PatternMatch.RootingEquivalence | src/operations/utility.ts:283-291 | a relative pattern under a rooted root matches like the joined absolute pattern with no root |
| PatternMatch.IncludeThenExclude | src/operations/utility.ts:293-314 | for `[q1, "!" + q2]` a candidate survives iff `q1` matches it and `q2` does not (the `*.txt`, `!secret.txt` case) |
| PatternMatch.ExcludeThenInclude | src/operations/utility.ts:293-314 | for `["!" + q, q]` the later include reinstates every candidate `q` matches (the `!*.log`, `*.log` case) |
| JsonSubstitution.TypeOf | src/operations/jsonVariableSubstitutionUtility.ts:19-31 | null, arrays and objects all report `'object'`, so the `case null` label never fires |
| JsonSubstitution.Coerce | src/operations/jsonVariableSubstitutionUtility.ts:19-55 | number slot: numeric text becomes a number, else the raw string; boolean slot: exactly `"true"`/`"false"` become booleans, else the raw string; object or null slot: any parse result, else the raw string; string slot: only an object or array parse result, else the raw string |
| JsonSubstitution.CoerceDependsOnlyOnType | src/operations/jsonVariableSubstitutionUtility.ts:19-40 | the coercion depends only on the old value's `typeof`, never on its content |
| JsonSubstitution.Substitute | src/operations/jsonVariableSubstitutionUtility.ts:10-64 | the document keeps its kind and exactly its keys; `false` means the document is unchanged; a scalar comes back as it was |
| JsonSubstitution.Keys | src/operations/jsonVariableSubstitutionUtility.ts:12 | `for…in` visits an object's member names in member order, one key per array element, and nothing for a scalar |
| JsonSubstitution.ArrayKeys | src/operations/jsonVariableSubstitutionUtility.ts:12-14 | array keys are one segment each and pairwise distinct, so each element is visited once under its own key |
| JsonSubstitution.SubstituteEntry | src/operations/jsonVariableSubstitutionUtility.ts:13-60 | a miss leaves the value and reports no change; a terminal hit stores the coercion and reports a change even if the value is equal |
| JsonSubstitution.DotFreeKey | src/operations/jsonVariableSubstitutionUtility.ts:13-14 | a key without `.` is looked up as the one-segment path holding just that key |
| JsonSubstitution.IndexKeyIsOneSegment | src/operations/jsonVariableSubstitutionUtility.ts:12-14 | an array element is looked up under its index as a single segment |
| JsonSubstitution.ObjectMemberOutcome | src/operations/jsonVariableSubstitutionUtility.ts:12-62 | per member: a miss keeps the value, a terminal hit stores the coercion and sets the flag, an interior hit stores the recursion's result and passes its flag up |
| JsonSubstitution.ArrayElementOutcome | src/operations/jsonVariableSubstitutionUtility.ts:12-62 | the same per-element outcome for arrays, keyed by index |
| JsonSubstitution.EntryChanged | src/operations/jsonVariableSubstitutionUtility.ts:15-60 | one entry reports a change exactly when its key hits a terminal value, or hits an interior node whose recursion reports a change |
| JsonSubstitution.ObjectChanged | src/operations/jsonVariableSubstitutionUtility.ts:11-63 | an object's result is `true` exactly when some member hits a terminal value or an interior node whose recursion reports `true`: the flag is the OR over the members |
| JsonSubstitution.ArrayChanged | src/operations/jsonVariableSubstitutionUtility.ts:11-63 | the same OR for an array, each element looked up under its index |
| JsonSubstitution.NoResolutionNoChange | src/operations/jsonVariableSubstitutionUtility.ts:11-63 | if no key resolves, the result is `false` and the document is unchanged |
| JsonSubstitution.SingleMemberTerminal | src/operations/jsonVariableSubstitutionUtility.ts:15-56 | a one-member object whose key hits a terminal holds the coerced value, and the result is `true` |
| JsonSubstitution.NumberSlotExample | src/operations/jsonVariableSubstitutionUtility.ts:20-22 | `{"port": 80}` with `"8080"` becomes `{"port": 8080}`, for any key without `.` |
| JsonSubstitution.BooleanSlotExample | src/operations/jsonVariableSubstitutionUtility.ts:24-28 | `{"enabled": false}` with `"true"` becomes `{"enabled": true}`, for any key without `.` |
| JsonSubstitution.ObjectSlotExample | src/operations/jsonVariableSubstitutionUtility.ts:30-40 | an object slot stores whatever the replacement text parses to |
| JsonSubstitution.StringSlotFallbackExample | src/operations/jsonVariableSubstitutionUtility.ts:41-53 | a string slot keeps the raw text when it does not parse to an object or array |

## Left out

- Logging (`core.debug`, `console.log`): output only.
- `findfiles` apart from its `firstWildcardIndex` helper. The rest is glue over `process.env.GITHUB_WORKSPACE`, `path.join`, `path.dirname`, `os.type()` and `exist`. `exist` itself wraps `fs.statSync`, which the model does not have.
- The `win32` branches of `match`, `ensureRooted`, `isRooted` and `normalizeSeparators`. The platform is fixed to POSIX, so `path.sep` is `/`, the default `nocase` is false, and no backslash conversion happens.
- Glob semantics (`minimatch.match`) and brace expansion (`braceExpand`). Both are third-party code and are parameters here.
- `path.normalize` and `path.join`. Both are parameters of `Finder.Find`.
- `Finder.Find`: the filesystem is one immutable tree. Whether an entry can be stat'ed or listed is fixed in the tree (`Unreadable`), so a tree that changes during the walk is not modelled. Both the root `lstat` and the walk's own `lstat` of the root see the same entry. The `level` field is carried and incremented per child, but no result depends on it, as in the source.
- `JSON.parse`, and the floating-point semantics of `isNaN` and `Number`. They are the `Host` fields `parseJson`, `isNumericText` and `toNumber`. JSON numbers are `real`.
- The environment-tree builder and `checkEnvTreePath`. The `Host` field `lookup` stands for them.
- JsonSubstitution.Substitute: recursing into a string scalar is modelled as "unchanged, `false`". In JavaScript, `for…in` over a string visits its character indices, and assigning to one does nothing or throws. Numbers, booleans and null have no keys, so for them the model is exact.
- JSON objects are member sequences in `for…in` order. JavaScript's rule that integer-like keys are visited first is not modelled. The order does not affect the result, because each member is processed on its own.
- In-place mutation and aliasing. Substitution returns a new document instead of mutating the caller's object.
- The `(pattern || '')` guards against `null`/`undefined` entries. A Dafny string is never null.
- JavaScript's `__proto__` key quirk: `map["__proto__"] = true` does not create an own property. The model treats every path string alike.
- PatternMatch.Match: a matched candidate named `hasOwnProperty` overwrites that method on the accumulator object, so the `map.hasOwnProperty(item)` call of `utility.ts:319` throws a `TypeError`. The model returns the filtered list instead. The accumulator is a set of strings, with no inherited members.
- Strings are sequences of Unicode scalar values, not UTF-16 code units.
