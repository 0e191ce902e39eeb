# rsql-prisma translator, modelled in Dafny

rsql-prisma turns an RSQL expression tree (the node shapes of `@rsql/ast`)
into a Prisma `where` object. This project models the translator core,
`src/adapter.ts` and `src/utils.ts`, and proves what it does.

- **Comparison nodes** (`selector operator value`) are looked up in an
  operator map. That is the caller's map when options supply one, otherwise
  the default map of eight handlers plus the four verbose aliases `=gt=`,
  `=ge=`, `=lt=`, `=le=`. The handler builds a flat predicate keyed by the
  full selector. A dotted selector `a.b.c` is then rebuilt as nested
  single-key objects (`resolveRelationPath`).
- **`==` and `!=`** classify the value by its `*` wildcards (`isStartsWith`,
  `isEndsWith`, `isLike`) and strip them (`convertWildcards`). Any other value
  goes through `coerceValue`, which guesses a boolean, a number, a date, a
  JSON literal or a raw string.
- **Logic nodes** translate both sides and put `mergeQueries(left, right)`
  under `AND` (for `;` or `and`) or under `OR` (for anything else).
  `mergeQueries` relies on ramda's `mergeDeepRight` and `reduceRight`. Both
  are written out in module `DeepMerge`.
- **Exceptions** become `Result` errors:
  - an unknown node type;
  - an operator missing from the effective map;
  - `JSON.parse` rejecting a bracketed value.

  A failure anywhere fails the whole translation.

Modules:

- `Wrappers`: `Option` and `Result`.
- `JsonValue`: JavaScript values as they occur in a filter, property lookup and truthiness.
- `DeepMerge`: `mergeDeepRight` and `reduceRight`.
- `Utils`: `src/utils.ts`, plus `String.prototype.trim` and the literal grammar `Number(...)` accepts.
- `Adapter`: `src/adapter.ts`.
- `AdapterProperties`: the properties of the whole translator, including the scenarios of the test suite as the code computes them.

The code runs three pieces of foreign code, which the model takes as the
fields of a `Host` parameter:

- `getScalarValue` (not part of this model);
- whether `Date.parse` accepts a text;
- `JSON.parse`.

Numbers and dates are opaque values: `JNum(literal)` and `JDate(text)`.

`mergeQueries` updates a local variable in a `forEach` over `['AND', 'OR']`.
It is modelled twice:

- as a method with that loop (`Adapter.MergeQueriesInOrder`);
- as the function that specifies it (`Adapter.MergeQueries`).

The method's contract proves the two equal.

Where the code and its test suite disagree, and where the code's behaviour
is easy to misread, the model follows the code:

- **Wildcard direction.** A value with only a trailing `*` (`John*`) gives
  `startsWith` and one with only a leading `*` (`*John`) gives `endsWith`.
  The test suite expects the reverse.
- **`!=` on a number-like pattern.** `age!=*18*` gives `contains` of the
  string `"18"`. No coercion happens on the pattern path.
- **The `OR` pass.** `mergeQueries` does not stop at the first combinator
  it finds. The `OR` pass overwrites whatever the `AND` pass decided
  (`AdapterProperties.OrPassOverridesAndPass`).
- **`NOT` on a dotted selector.** `resolveRelationPath` unwraps `NOT` for a
  dotted selector and does not put it back. So `!=` with a wildcarded value
  on `a.b` yields exactly what `==` yields
  (`AdapterProperties.NegatedDottedPatternLosesNot`).
- **`=in=` and `=out=`.** These coerce the whole value with `coerceValue`.
  They do not split it into a list.

## Model

| member | source | states |
|---|---|---|
| Utils.IsLike | src/utils.ts:4 | a `*` at both ends; its relation to the other two classes is stated by Utils.WildcardClassesExclusive |
| Utils.IsStartsWith | src/utils.ts:5 | a trailing `*` only; stated by Utils.WildcardClassesExclusive and AdapterProperties.StrippedWildcards |
| Utils.IsEndsWith | src/utils.ts:6 | a leading `*` only; stated by Utils.WildcardClassesExclusive and AdapterProperties.StrippedWildcards |
| Utils.WildcardClassesExclusive | src/utils.ts:4-6 | the classes like, starts-with and ends-with are pairwise exclusive; a value falls in one of them exactly when it has a `*` at either end |
| Utils.ConvertWildcards | src/utils.ts:8-17 | a value with no `*` at either end comes back unchanged; otherwise the result is the contiguous piece after the leading `*` (if any), at most two characters shorter |
| Utils.ConvertWildcardsRoundTrip | src/utils.ts:8-17 | stripping undoes wrapping a literal as `*x*`, as `*x` (x not ending in `*`) and as `x*` (x not starting with `*`) |
| Utils.Trim | src/utils.ts:21 | `trim` yields the slice after the leading white space; the slice neither starts nor ends with white space, and everything cut off after it is white space |
| Utils.TrimIdempotent | src/utils.ts:21 | trimming twice is trimming once |
| Utils.TrimKeepsFirst | src/utils.ts:21 | a value that does not start with white space keeps its first character when trimmed |
| Utils.BooleanWordIsNotNumeric | src/utils.ts:23-33 | `true`/`false` in any case are neither number literals nor of the date shape |
| Utils.DateShapeIsNotNumeric | src/utils.ts:26-33 | a text of the ISO date shape is neither a number literal nor a boolean word |
| Utils.BracketIsNotScalar | src/utils.ts:21-45 | a trimmed text starting with `[` or `{` is no boolean, number or date |
| Utils.CoerceValue | src/utils.ts:19-48 | `coerceValue`; its behaviour is stated rule by rule by Utils.CoerceBoolean, Utils.CoerceNumber, Utils.CoerceNeverNumber, Utils.CoerceDate, Utils.CoerceJson, Utils.CoerceRawString, Utils.CoerceBracketAfterSpace, and its failure by Adapter.CoerceFailsIff |
| Utils.CoerceBoolean | src/utils.ts:23-24 | a trimmed `true`/`false` in any letter case gives that boolean, and only those give a boolean |
| Utils.CoerceNumber | src/utils.ts:26-30 | a non-empty trimmed number literal without a leading zero gives that number |
| Utils.CoerceNeverNumber | src/utils.ts:26-27 | an empty or all-white-space value, and a value whose trim has two or more characters starting with `0`, never give a number |
| Utils.CoerceDate | src/utils.ts:32-38 | a trimmed value of the ISO shape that `Date.parse` accepts gives a date; a date is only ever produced for the ISO shape, never for a number literal |
| Utils.CoerceJson | src/utils.ts:40-45 | an untrimmed value bracketed by `[]` or `{}` gives what `JSON.parse` returns, or the failure when it throws |
| Utils.CoerceRawString | src/utils.ts:47 | when no rule applies, the untrimmed value comes back as a string; any string result is the untrimmed value |
| Utils.CoerceBracketAfterSpace | src/utils.ts:40-47 | the bracket test sees the untrimmed value: a value bracketed only once trimmed (` [1]`) stays the untrimmed string |
| DeepMerge.MergeDeepRight | src/adapter.ts:243 | the keys are the union of both sides; a left-only key keeps its value; on a shared key the right value wins unless both values are plain objects, in which case the merged value is an object holding the keys of both |
| DeepMerge.MergeDeepRightExtendsRight | src/adapter.ts:243 | every leaf of the right operand survives the merge |
| DeepMerge.MergeDeepRightKeepsLeft | src/adapter.ts:248 | the merge is deep: every leaf of the left operand that the right operand does not reach, or reaches only through plain objects, survives unchanged |
| DeepMerge.MergeDeepRightIdempotent | src/adapter.ts:248 | merging an object with itself changes nothing |
| DeepMerge.MergeDeepRightDisjoint | src/adapter.ts:248 | objects with no key in common merge into their union |
| DeepMerge.ReduceRight | src/adapter.ts:239 | `reduceRight(mergeDeepRight, acc, list)`; stated by DeepMerge.ReduceRightUnfold and DeepMerge.ReduceRightSuffixWins |
| DeepMerge.ReduceRightUnfold | src/adapter.ts:239 | folding from the right merges the first member under the fold of the rest |
| DeepMerge.ReduceRightSuffixWins | src/adapter.ts:239 | the fold extends the fold of each suffix, so every later member and the accumulator override earlier members |
| Adapter.Split | src/adapter.ts:117 | `selector.split('.')` yields at least one part; the rest is stated by Adapter.SplitJoin |
| Adapter.SplitJoin | src/adapter.ts:117 | `split('.')` is undone by `join('.')`, no part contains `.`, and there are two or more parts exactly when the selector contains `.` |
| Adapter.NestRight | src/adapter.ts:122 | the `reduceRight` nesting; stated by Adapter.NestRightIsNest and Adapter.AtNest |
| Adapter.NestRightIsNest | src/adapter.ts:122 | `reduceRight` wrapping one single-key object per segment builds the chain `{ s0: { … { sn: v } } }` from the outermost segment in |
| Adapter.AtNest | src/adapter.ts:121-123 | following the segments through the chain reaches the value |
| Adapter.ResolveRelationPath | src/adapter.ts:113-124 | a selector without `.` leaves the filter unchanged; a dotted selector gives the segment chain of the predicate, which is read from under `NOT` when the filter has a truthy `NOT` |
| Adapter.ResolveDottedSelector | src/adapter.ts:117-123 | a dotted selector's filter has only the first segment as key, and following all segments reaches the handler's predicate |
| Adapter.MergeQueries | src/adapter.ts:226-252 | the merge yields one or two objects (cases in AdapterProperties.MergeQueriesCases) |
| Adapter.MergeQueriesInOrder | src/adapter.ts:226-252 | the `forEach` over `AND`, `OR`, each pass overwriting earlier ones, then the fallback, computes `Adapter.MergeQueries` |
| Adapter.EffectiveOperatorMap | src/adapter.ts:103 | the supplied `operatorMap`, or else the default map; stated by AdapterProperties.SuppliedMapReplacesDefaults and AdapterProperties.SuppliedDefaultMapIsDefault |
| Adapter.GetOperationForNode | src/adapter.ts:102-104 | the handler bound to a token; for the default map of src/adapter.ts:191-217 stated by AdapterProperties.DefaultBindings, for a supplied map by AdapterProperties.SuppliedMapReplacesDefaults |
| Adapter.Equal | src/adapter.ts:133-151 | `handleEqual`; stated branch by branch by AdapterProperties.EqualCases |
| Adapter.NotEqual | src/adapter.ts:160-178 | `handleNotEqual`; stated branch by branch by AdapterProperties.NotEqualCases |
| Adapter.ApplyOperation | src/adapter.ts:191-211 | runs the bound handler; stated by Adapter.ApplyOperationOkIff, AdapterProperties.OrderingComparison, AdapterProperties.InOutComparisons, AdapterProperties.EqualCases and AdapterProperties.NotEqualCases |
| Adapter.HandleComparisonNode | src/adapter.ts:82-93 | `handleComparisonNode`; stated by AdapterProperties.UnknownOperatorFails, AdapterProperties.PlainSelectorKeepsFilter and Adapter.ResolveRelationPath |
| Adapter.ConvertNodeToQuery | src/adapter.ts:40-53 | `convertNodeToQuery`; stated by Adapter.TranslatableIffOk and AdapterProperties.UnknownNodeFailsAll |
| Adapter.HandleLogicalNode | src/adapter.ts:62-72 | `handleLogicalNode`; stated by AdapterProperties.LogicNodeShape and AdapterProperties.ErrorsPropagate |
| Adapter.RsqlExpressionToQuery | src/adapter.ts:270-273 | translation succeeds exactly on the trees where every node is a comparison or a logic node, every operator is bound in the effective map and no coerced value is a bracketed literal `JSON.parse` rejects |
| Adapter.TranslatableIffOk | src/adapter.ts:40-93 | `convertNodeToQuery` succeeds on a node exactly when the node is translatable |
| Adapter.ApplyOperationOkIff | src/adapter.ts:191-211 | a handler of the default map fails exactly when it coerces a bracketed value that `JSON.parse` rejects |
| Adapter.CoerceFailsIff | src/utils.ts:40-45 | `coerceValue` throws exactly for a bracketed value that `JSON.parse` rejects |
| AdapterProperties.EqualCases | src/adapter.ts:133-151 | `==`: trailing-only `*` gives `startsWith` of the value without it, leading-only gives `endsWith`, both give `contains`, each with the `mode`; other values give `equals` of the coerced value or the coercion's failure |
| AdapterProperties.NotEqualCases | src/adapter.ts:160-178 | `!=`: the same three patterns wrapped as `{ NOT: { selector: … } }`; other values give `{ selector: { not: coerced } }` or the coercion's failure |
| AdapterProperties.StrippedWildcards | src/utils.ts:8-17 | for each wildcard class, `convertWildcards` drops exactly the `*` characters that put the value in it |
| AdapterProperties.NotIsUnwrapped | src/adapter.ts:118-120 | on a dotted selector, a filter wrapped in `NOT` and the bare filter resolve alike |
| AdapterProperties.NegatedDottedPatternLosesNot | src/adapter.ts:113-124 | on a dotted selector, `!=` with a wildcarded value equals `==` with it, and the result has no `NOT` key (unless the first segment is `NOT`) |
| AdapterProperties.DefaultBindings | src/adapter.ts:191-217 | without a supplied map, each token of `@rsql/ast` is bound to its handler, and each verbose alias to its symbol's handler |
| AdapterProperties.VerboseAliases | src/adapter.ts:214-217 | `=gt=`, `=ge=`, `=lt=`, `=le=` translate exactly as `>`, `>=`, `<`, `<=` |
| AdapterProperties.OrderingComparisons | src/adapter.ts:194-205 | an ordering operator or alias on a plain selector gives `{ selector: { gt/gte/lt/lte: getScalarValue(value) } }` and never fails |
| AdapterProperties.OrderingComparison | src/adapter.ts:194-205 | on a selector without `.`, any token bound to an ordering handler gives that handler's one-key predicate of the scalar value |
| AdapterProperties.InOutComparisons | src/adapter.ts:206-211 | `=in=`/`=out=` on a selector without `.` give `{ selector: { in/notIn: v } }` with `v` the coerced whole value, or the coercion's failure |
| AdapterProperties.UnknownOperatorFails | src/adapter.ts:86-90 | a token missing from the effective map fails the comparison with the unknown-operator error naming that token |
| AdapterProperties.SuppliedMapReplacesDefaults | src/adapter.ts:102-104 | a supplied map replaces the defaults: a token is looked up in that map alone, and a token it lacks fails even when the default map binds it |
| AdapterProperties.SuppliedDefaultMapIsDefault | src/adapter.ts:102-104 | supplying the default map explicitly translates every tree as supplying none |
| AdapterProperties.UnknownNodeFailsAll | src/adapter.ts:50-51 | a node of unknown type anywhere in the tree fails the whole translation |
| AdapterProperties.ErrorsPropagate | src/adapter.ts:66-67 | a failing side fails the logic node with its own error, the left side's first |
| AdapterProperties.LogicNodeShape | src/adapter.ts:62-72 | a logic node gives exactly `{ AND: merged }` for `;`/`and` and `{ OR: merged }` otherwise, with merged one or two objects, the merge of both sides |
| AdapterProperties.MergeQueriesCases | src/adapter.ts:232-249 | `OR` decides before `AND`; both sides carrying it stay two groups; only left: the right side is folded under the left group and survives; only right: deep merge with right winning; neither: deep merge with left winning |
| AdapterProperties.OrPassOverridesAndPass | src/adapter.ts:232-245 | two sides both carrying `AND`, of which only the right carries `OR`, are merged into one object rather than kept as two groups |
| AdapterProperties.MergeDisjointFilters | src/adapter.ts:246-249 | two filters with disjoint keys and no `AND`/`OR` merge into their union |
| AdapterProperties.MergeIntoSingleGroup | src/adapter.ts:236-240 | a filter with no `AND`/`OR` and no key in common joins the single member of the left side's group |
| AdapterProperties.PairMergesIntoOneGroup | src/adapter.ts:62-72 | two comparisons with disjoint keys form one group of their union |
| AdapterProperties.ChainStep | src/adapter.ts:62-72 | a further comparison on a chain with one group joins that group's member |
| AdapterProperties.ChainJoinsGroup | src/adapter.ts:62-72 | every further node of a left-associated chain joins the one group |
| AdapterProperties.ChainMergesIntoOneGroup | src/adapter.ts:62-72 | a left-associated chain of two or more nodes with pairwise disjoint filter keys (none `AND`/`OR`) gives one group holding the union of all the filters |
| AdapterProperties.ChainGroupKeys | src/adapter.ts:62-72 | the single object of the group such a chain yields holds a key exactly when some filter of the chain has it |
| AdapterProperties.PlainSelectorKeepsFilter | src/adapter.ts:91-92 | on a selector without `.` a comparison yields its handler's filter unchanged |
| AdapterProperties.CoerceWord | src/utils.ts:19-47 | a word of ASCII letters not starting like `true`/`false` and not `Infinity` stays a string |
| AdapterProperties.EqualsScenario | test/adapter.spec.ts:7-11 | `name==John` and its like give `{ name: { equals: "John" } }` |
| AdapterProperties.LeadingWildcardScenario | src/adapter.ts:143-144 | `name==*John` and its like give `{ name: { endsWith: "John", mode: null } }` |
| AdapterProperties.TrailingWildcardScenario | src/adapter.ts:141-142 | `name==John*` and its like give `{ name: { startsWith: "John", mode: null } }` |
| AdapterProperties.NegatedContainsScenario | src/adapter.ts:172-173 | `age!=*18*` and its like give `{ NOT: { age: { contains: "18", mode: null } } }` |
| AdapterProperties.SameFieldScenario | test/adapter.spec.ts:185-189 | `amount>0;amount<20` and its like give `{ AND: [{ amount: { gt: low, lt: high } }] }` |
| AdapterProperties.MergeSiblingFields | src/adapter.ts:246-249 | two predicates on one field, with no `AND`/`OR` on either side, merge into one object holding both |
| AdapterProperties.DottedEqual | src/adapter.ts:121-122 | `==` on `first.second` nests the predicate as `{ first: { second: predicate } }` |
| AdapterProperties.TwoSegmentSelector | src/adapter.ts:117-123 | resolving `a.b` over `{ a.b: v }` gives `{ a: { b: v } }` |
| AdapterProperties.RelationScenario | test/adapter.spec.ts:145-155 | `address.state==Italy;address.city==Naples` and its like give `{ AND: [{ address: { state: { equals: "Italy" }, city: { equals: "Naples" } } }] }` |

## Left out

- `rsqlStringToQuery` (src/adapter.ts:282-289): the model starts from a parsed tree, because the parser `@rsql/parser` and the logger's `debug` call are foreign code.
- `getScalarValue`: it is not part of this model. It is the `scalarValue` field of `Host`, so the model does not check what `age>18` maps `18` to.
- `Date.parse` and `JSON.parse`: both are `Host` fields. The model does not parse dates or JSON text.
- Numbers and dates: values are opaque. `Number(value)` of the untrimmed value is modelled as the number the trimmed literal denotes, because `Number` ignores surrounding white space.
- Number literals: the ECMAScript grammar for `+trimmed` is written out (decimal, `Infinity` and `0x`/`0o`/`0b` forms, signs, exponents). Numeric separators and other engine quirks are not modelled.
- JsonValue.NumeralIsZero: a number literal that only underflows to zero, such as `1e-400`, is taken as non-zero and so as truthy; the translator only tests the truthiness of top-level filter keys, whose values are always objects or arrays.
- `toLocaleLowerCase`: only ASCII letters are lower-cased. A non-ASCII character that lower-cases to an ASCII letter of `true`/`false` under some locale is not modelled.
- User-supplied operator functions: the model chooses to limit a supplied map to the built-in handlers (`Adapter.Operation`), so a caller's own handler functions are not modelled.
- Options: a handler receives only `caseInsensitive`.
- Array values of `=in=`/`=out=`: a parsed `(John,Doe)` arrives as an array, on which `coerceValue` throws a TypeError at `value.trim()`. The model takes every comparison value as a string, so that error path is not modelled.
- Prototype keys: in JavaScript, looking up a token such as `toString` or `constructor` in the map, or reading `filter['NOT']`, also finds inherited properties. The model looks up own keys only, because inherited JavaScript properties are outside the value model.
- `AdapterProperties.ChainMergesIntoOneGroup`: chains whose filters share keys are not covered. A shared key falls under `DeepMerge.MergeDeepRight` and `AdapterProperties.MergeSiblingFields`.
- Test scenarios: the wildcard scenarios of the test suite (test/adapter.spec.ts:66-76, 88-95, 108-115) and `age!=*18*` with a number are stated as the code computes them, which differs from what the test suite expects.
