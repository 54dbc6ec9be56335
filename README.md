# JSON array comparator: query language and comparison engine in Dafny

This project models the two engines of the JSON array comparator and proves
properties about them.

1. **The filter query language** (`lib/query-parser.ts`).
   - `QueryParser.parse` turns a text such as `age >= 30 AND city = 'New York'`
     into a list of conditions. A failure is reported as data: `isValid` is false
     and an error is attached.
   - `QueryExecutor.execute` keeps the items that satisfy the conditions. The
     condition results are folded strictly from left to right.
2. **The comparison engine** (`components/tools/json-array.tsx`).
   - `sortArray` sorts by a dotted key.
   - `getNestedValue` resolves a key with optional chaining.
   - `deepEqual` decides structural equality.
   - `findDifferences` lists path-qualified differences.
   - `findMatchingItem` finds an item's counterpart.
   - `compareArrays` sorts the items into deletions, additions, modifications
     and identical.
   - `getSortKeys` lists the keys offered for sorting.
   - `getDiffItems` lays out the rows of the view.

## How the model is built

JSON values are the datatype `JsonValues.Json`:
- `Null | Bool | Num(int) | Str | Arr(seq<Json>) | Obj(seq<(string, Json)>)`;
- an object keeps its members in enumeration order;
- `Wf` says that no object holds a key twice.

A missing property (JavaScript's `undefined`) is `None` of an `Option<Json>`,
which keeps it distinct from `Null`. `typeof`, truthiness, `===` and `String()`
are written out in `JsonValues`.

Thrown errors become values of `Types.ParseError`, and parsing functions return
a `Result`. `QueryParser.Message` gives the text of each error, and
`QueryParser.MessageDeterminesError` shows that the text tells the errors apart. A difference
is a `Types.Difference` record carrying its path, not a formatted string.

Each loop in the source is a `method` with its loop:
- `FindOperator`, `ParseParts`, `EvaluateItem`, `FindDifferences`,
  `CompareArrays`, `ExtractKeys`, `GetSortKeys` and `GetDiffItems`.

Each of these methods is proved equal to a specification function, and the
properties are proved about that function:
- `ConditionOf`, `Conditions`, `Matches`, `Diff`, `ComparisonOf`,
  `SortKeysOf` and `DiffItemsOf`.

The expression-based parts of the source are functions:
- `parseValue`, `parseSimpleValue`, `evaluateCondition`, `deepEqual`, both
  `getNestedValue`s and `sortArray`.

`Sequences` holds the array methods the source relies on, written once:
- `filter`, `find`, `some`, spreading into `push`, and adding to a `Set`.

The AND/OR split (`lib/query-parser.ts:44-46`) reads the conditions at the
positions 0, 2, 4, … of the pieces and the connectives at the odd positions
between them. `QueryParser.SplitLogical` and `QueryParser.Conditions` do the
same.

The quirks of the source are kept, not fixed:
- The two path resolvers differ (`Paths.PathValue` against
  `QueryExecutor.NestedValue`).
- `[]` against `{}` yields no differences, although the two are not deep-equal.
- A falsy match counts as no match.
- `key in obj` finds an array's own `length`, so an array compared with an
  object that has a `length` member compares that member with the array's
  length.
- Items whose sort key is missing match each other.
- Matching is first-match, and a matched item is not removed from the
  candidates.

## Model

| member | source | states |
|---|---|---|
| Strings.TrimBlank | lib/query-parser.ts:24 | `trim()` yields the empty text exactly when the text is all white space |
| Strings.TrimEnds | lib/query-parser.ts:47 | the trimmed text is no longer than the input and starts and ends with a non-space |
| Strings.TrimUnpadded | lib/query-parser.ts:78-79 | trimming text that starts and ends with a non-space changes nothing |
| Strings.LowerIsSpec | lib/query-parser.ts:123-125 | the letter-by-letter test agrees with `toLowerCase() === w` |
| Strings.OccursAtIsSlice | lib/query-parser.ts:67 | `t` occurs at `i` exactly when the slice of `s` at `i` is `t` |
| Strings.IndexOfIsFirst | lib/query-parser.ts:67 | `indexOf` yields the first position where the text occurs, or -1 when it occurs nowhere |
| Strings.HasSubstringSpec | lib/query-parser.ts:177 | `includes` holds exactly when the text occurs at some position |
| Strings.EnclosesIsPrefixAndSuffix | lib/query-parser.ts:112 | the enclosing test is `startsWith` of the first character and `endsWith` of the last |
| Strings.JoinSplit | lib/query-parser.ts:205 | joining the pieces of `split(sep)` with `sep` gives back the text |
| Strings.SplitJoin | lib/query-parser.ts:102 | splitting a join of separator-free pieces gives back the pieces |
| Strings.SplitAround | lib/query-parser.ts:205 | splitting `a + sep + b` is the split of `a` followed by the split of `b` |
| Strings.SplitWithoutSeparator | lib/query-parser.ts:205 | a text without the separator splits into itself alone |
| Strings.DigitsValueOfNatToString | lib/query-parser.ts:117 | the decimal digits of a natural number read back as that number |
| Strings.ParseIntegerOfIntToString | lib/query-parser.ts:117-119 | the literal of every integer, signed or not, reads back as that integer |
| Strings.CanonicalIndexOfNatToString | components/tools/json-array.tsx:97 | the canonical decimal name of an index denotes that index |
| JsonValues.Field | lib/query-parser.ts:207 | a lookup finds nothing exactly when no member has the key; a value it finds belongs to a member with that key |
| JsonValues.FieldOfMember | lib/query-parser.ts:207 | with distinct keys, looking up a member's key yields that member's value |
| JsonValues.Member | components/tools/json-array.tsx:97 | property access on an object is the member lookup, and what it finds is a part of the value |
| JsonValues.Keys | components/tools/json-array.tsx:116 | `Object.keys` lists the member names in order, one per member |
| JsonValues.OwnKeysAreMembers | components/tools/json-array.tsx:158 | every own key of an array or object names a property of it |
| QueryParser.SpaceRunEnd | lib/query-parser.ts:44 | the greedy `\s+` run stops at the first non-space character or at the end |
| QueryParser.SeparatorAt | lib/query-parser.ts:44 | a separator match at `q` lies after `q` inside the text, and its keyword is `AND` or `OR` in any case |
| QueryParser.SeparatorAtSound | lib/query-parser.ts:44 | a match is a run of white space up to the keyword, the keyword, and the whole run of white space after it (the greedy `\s+`) |
| QueryParser.SeparatorAtComplete | lib/query-parser.ts:44 | wherever white space, `AND` or `OR` in any case, and white space occur at `q`, the pattern matches at `q`, takes that keyword and every space after it |
| QueryParser.SpacesFrom | lib/query-parser.ts:44 | each match contributes one pair of non-empty white-space runs, one pair per connective piece |
| QueryParser.SplitLogicalRoundTrip | lib/query-parser.ts:44 | the split loses nothing: the pieces, with each match's white space put back around its keyword, rebuild the text |
| QueryParser.SplitLogicalFree | lib/query-parser.ts:44 | the split misses no separator: no condition piece holds a match of the pattern |
| QueryParser.SplitLogical | lib/query-parser.ts:44 | the split has an odd number of pieces: conditions with a connective between each two (that it is lossless and misses no separator: `SplitLogicalRoundTrip`, `SplitLogicalFree`) |
| QueryParser.SplitLogicalConnectives | lib/query-parser.ts:44 | every connective piece is `AND` or `OR` in some case |
| QueryParser.SplitLogicalNoSeparator | lib/query-parser.ts:44 | a text without a separator is a single piece, the whole text |
| QueryParser.OperatorTextIsLowerCase | lib/query-parser.ts:4-19 | every operator text is already lower case, so the operator is stored as found |
| QueryParser.LeftmostSpec | lib/query-parser.ts:66-72 | the scan keeps nothing exactly when no operator occurs; otherwise it keeps an operator at the smallest position, the earliest of the list there |
| QueryParser.LeftmostIsLeftmost | lib/query-parser.ts:66-72 | the scan keeps exactly the operator that occurs leftmost, ties going to the operator earlier in the list |
| QueryParser.FindOperator | lib/query-parser.ts:63-72 | the loop over the operators returns the leftmost operator and its position, or nothing and -1 |
| QueryParser.Unquote | lib/query-parser.ts:113 | `slice(1, -1)` drops exactly the first and the last character |
| QueryParser.ParseSimpleValueIsScalar | lib/query-parser.ts:108-129 | a simple value is null, a boolean, a number or a string, never an array or an object |
| QueryParser.ParseListElements | lib/query-parser.ts:101-102 | a list has one element per comma-separated piece, the simple value of that piece trimmed |
| QueryParser.ParseValueShape | lib/query-parser.ts:90-106 | an empty value fails except for `exists` and `not exists`; `in` and `not in` accept exactly a bracketed value and yield an array; the other operators yield a simple value |
| QueryParser.ParseValueErrors | lib/query-parser.ts:91-99 | a value fails only for want of a value or of brackets |
| QueryParser.ConditionOfNoOperator | lib/query-parser.ts:74-76 | a condition fails for want of an operator exactly when no operator occurs in it, in any case |
| QueryParser.ConditionOfParts | lib/query-parser.ts:61-88 | a parsed condition has the leftmost operator, the non-empty trimmed text before it as property, the value parsed from the trimmed text after it, and no connective |
| QueryParser.ConditionAtErrors | lib/query-parser.ts:78-85 | around an operator, an empty trimmed property fails with the property error, and only then; otherwise a value that fails makes the condition fail with the value's error |
| QueryParser.ConditionOfErrors | lib/query-parser.ts:78-85 | once the leftmost operator is found, the condition fails for want of a property exactly when the text before it trims to nothing; otherwise a bad value fails it with the value's error |
| QueryParser.MessageDeterminesError | lib/query-parser.ts:75-98 | the message `parse` reports as its error (`error.message`, line 35) determines the failure: two failures with the same message are the same failure |
| QueryParser.OperatorTextInjective | lib/query-parser.ts:4-19 | no two operators are written alike |
| QueryParser.ParseCondition | lib/query-parser.ts:61-88 | `parseCondition` computes the condition, or the error, that `ConditionOf` specifies |
| QueryParser.ConditionsStep | lib/query-parser.ts:46-56 | one turn of the loop either fails with the piece's error or appends the piece's condition with its connective |
| QueryParser.ParseParts | lib/query-parser.ts:46-56 | the loop over the pieces computes the conditions, stopping at the first failure |
| QueryParser.ParseConditions | lib/query-parser.ts:40-59 | `parseConditions` is the split followed by the loop over the pieces |
| QueryParser.ConditionsLength | lib/query-parser.ts:46-56 | there are as many conditions as condition pieces: one more than the separator matches |
| QueryParser.ConditionsElement | lib/query-parser.ts:47-55 | condition `j` is read from piece `2j` and carries the connective after it, upper-cased; the last carries none |
| QueryParser.ConditionsError | lib/query-parser.ts:28-37 | the conditions fail exactly when some piece fails, and then with the error of the first piece that fails |
| QueryParser.QueryOf | lib/query-parser.ts:23-38 | a query is valid exactly when it carries no error, and an invalid query has no conditions |
| QueryParser.BlankQuery | lib/query-parser.ts:24-26 | blank text is the valid query without conditions |
| QueryParser.ValidQueryHasConditions | lib/query-parser.ts:28-30 | a valid query from non-blank text has at least one condition |
| QueryParser.Parse | lib/query-parser.ts:23-38 | `parse` returns the query `QueryOf` specifies, turning a failure into an invalid query with its error |
| QueryParser.ParseSimpleValueOfLiteral | lib/query-parser.ts:108-129 | the literal text of null, a boolean, an integer or a quoted string parses back to that value |
| QueryParser.ParseSimpleValueOfNumber | lib/query-parser.ts:117-119 | the decimal text of an integer parses as that number |
| QueryParser.ParseSimpleValueOfQuoted | lib/query-parser.ts:112-114 | double-quoted text parses as its inner text, unescaped |
| QueryParser.ParseListOfLiterals | lib/query-parser.ts:96-103 | a bracketed, comma-separated list of literals parses to the array of their values |
| QueryParser.EmptyBracketsAreOneNull | lib/query-parser.ts:101-102 | `[]` as the value of `in` is the one-element list `[null]` |
| QueryExecutor.StepGuard | lib/query-parser.ts:206 | the guard `current && typeof current === 'object' && !Array.isArray(current)` holds exactly for objects |
| QueryExecutor.WalkFromUndefined | lib/query-parser.ts:205-210 | once the walk is undefined it stays undefined |
| QueryExecutor.WalkAppend | lib/query-parser.ts:205-210 | walking two key lists one after the other is walking their concatenation |
| QueryExecutor.WalkStopsAtNonObject | lib/query-parser.ts:204-211 | once an intermediate value is not an object (primitive, null, array or missing), the value is undefined |
| QueryExecutor.NestedValueOfNonObject | lib/query-parser.ts:204-211 | no path leads anywhere from a value that is not an object |
| QueryExecutor.NestedValueOfKey | lib/query-parser.ts:204-211 | a path without dots is the property of that name |
| QueryExecutor.NestedValueDotted | lib/query-parser.ts:205 | `a.b` is the walk over `b`'s segments from the value at `a` |
| QueryExecutor.NegatedOperators | lib/query-parser.ts:164-198 | `!=`, `not exists` and `not in` are the negations of `=`, `exists` and `in` |
| QueryExecutor.InNeedsList | lib/query-parser.ts:195-198 | with a target that is not a list, `in` is false and `not in` is true |
| QueryExecutor.ComparisonsNeedNumbers | lib/query-parser.ts:168-175 | `>`, `<`, `>=` and `<=` hold exactly when both sides are numbers in that order |
| QueryExecutor.TextOperatorsNeedString | lib/query-parser.ts:176-181 | `contains`, `startswith` and `endswith` are false unless the property value is a string |
| QueryExecutor.ContainsSpec | lib/query-parser.ts:176-177 | `contains` holds exactly when the lower-cased target text occurs in the lower-cased string value |
| QueryExecutor.IncludesSpec | lib/query-parser.ts:182-190 | `includes` holds exactly when the value is an array with an element that matches the target |
| QueryExecutor.InSpec | lib/query-parser.ts:195-196 | `in` holds exactly when the target is a list with an element `===` the property value |
| QueryExecutor.ExistsSpec | lib/query-parser.ts:191-192 | `exists` on `head.rest` holds only for an object item whose `head` is a plain object, never an array, primitive or null; then exactly when `rest` leads from there to a value that is not null |
| QueryExecutor.EvaluateItem | lib/query-parser.ts:141-158 | the loop computes the left fold `Matches` specifies, and no conditions give true |
| QueryExecutor.FoldAllAnd | lib/query-parser.ts:144-157 | with only AND connectives the fold is the conjunction of the results |
| QueryExecutor.FoldAllOr | lib/query-parser.ts:144-157 | with only OR connectives the fold is the disjunction of the results |
| QueryExecutor.MatchesAllAndOrAllOr | lib/query-parser.ts:141-158 | a query joined by AND alone holds when every condition holds; one joined by OR alone holds when some condition holds |
| QueryExecutor.NoPrecedence | lib/query-parser.ts:146-155 | `a OR b AND c` means `(a OR b) AND c`: there is no precedence |
| QueryExecutor.ExecuteUnfiltered | lib/query-parser.ts:133-136 | with blank query text, or text that does not parse, `execute` returns the data unchanged |
| QueryExecutor.ExecuteFilters | lib/query-parser.ts:138 | a valid query keeps exactly the items that satisfy it; filtering distributes over concatenation, is idempotent and never adds items |
| QueryExecutor.ExecuteKeepsAll | lib/query-parser.ts:138 | the data comes back whole exactly when every item satisfies the query |
| Paths.OptionalWalkFromUndefined | components/tools/json-array.tsx:97 | `?.` on undefined stays undefined |
| Paths.OptionalWalkAppend | components/tools/json-array.tsx:97 | walking two key lists one after the other is walking their concatenation |
| Paths.PathValueDotted | components/tools/json-array.tsx:97 | `a.b` is the walk over `b`'s segments from the value at `a` |
| Paths.WalksAgree | components/tools/json-array.tsx:97 | wherever the query language's walk finds a value, the optional-chaining walk finds the same value |
| Paths.PathValueExtendsNestedValue | components/tools/json-array.tsx:96-98 | the comparison view's `getNestedValue` agrees with the query language's wherever the latter finds a value |
| Paths.PathValueIndexesArrays | components/tools/json-array.tsx:96-98 | a decimal index selects an array element with optional chaining, but not in the query language |
| Sorting.LexCompareAntisymmetric | components/tools/json-array.tsx:89 | swapping two strings flips the comparison, and only equal strings tie |
| Sorting.LexCompareTransitive | components/tools/json-array.tsx:89 | the string order is transitive |
| Sorting.CompareAntisymmetric | components/tools/json-array.tsx:80-93 | swapping the key values flips the sign of the comparator |
| Sorting.CompareTransitive | components/tools/json-array.tsx:80-93 | the comparator is transitive, so it is a total preorder |
| Sorting.CompareStrictTransitive | components/tools/json-array.tsx:80-93 | a key strictly before a second that is not after a third is strictly before the third |
| Sorting.InsertPermutes | components/tools/json-array.tsx:80 | inserting adds exactly the one item |
| Sorting.InsertSorted | components/tools/json-array.tsx:80-93 | inserting into a sorted sequence keeps it sorted |
| Sorting.InsertionSortSpec | components/tools/json-array.tsx:80-93 | the sort is a permutation in key order |
| Sorting.InsertionSortStable | components/tools/json-array.tsx:80-93 | the sort is stable: items with equal keys keep their input order |
| Sorting.SortArraySpec | components/tools/json-array.tsx:77-94 | `sortArray` returns a permutation of the same length; with `"none"` the order is unchanged, otherwise it is sorted by key |
| Equality.DeepEqualSameKind | components/tools/json-array.tsx:103-109 | deep-equal values are of the same kind; an array is never deep-equal to an object |
| Equality.DeepEqualReflexive | components/tools/json-array.tsx:100-122 | every value is deep-equal to itself |
| Equality.DeepEqualSymmetric | components/tools/json-array.tsx:100-122 | deep equality is symmetric between values whose objects have distinct keys |
| Equality.DeepEqualTransitive | components/tools/json-array.tsx:100-122 | deep equality is transitive |
| Equality.KeySetSize | components/tools/json-array.tsx:116-119 | distinct keys are as many as the members |
| Equality.SameKeys | components/tools/json-array.tsx:119-121 | equally many distinct keys, each found on the other side, make the same key set |
| Equality.KeyOrderIrrelevant | components/tools/json-array.tsx:116-121 | objects with the same members in any order are deep-equal |
| Differences.UniqueSpec | components/tools/json-array.tsx:158 | the key set keeps every key of both sides and only those, each once |
| Differences.AllKeysAreMembers | components/tools/json-array.tsx:158-160 | every key visited is one that `key in obj` finds on one side or the other |
| Differences.ArrayParts | components/tools/json-array.tsx:139-155 | two arrays give a length entry and one entry per index up to the longer length |
| Differences.FindDifferences | components/tools/json-array.tsx:124-173 | the recursive loops compute exactly the differences `Diff` specifies, where a key is present as `key in obj` finds it: an object's members, an array's canonical indexes and its `length` |
| Differences.DiffOfDeepEqual | components/tools/json-array.tsx:124-173 | deep-equal values have no differences |
| Differences.DiffOfTypeChange | components/tools/json-array.tsx:127-130 | when `typeof` differs the result is exactly one type change, without recursion |
| Differences.EmptyArrayAgainstEmptyObject | components/tools/json-array.tsx:139-158 | `[]` and `{}` are not deep-equal, yet they have no differences |
| Differences.DiffUnderPath | components/tools/json-array.tsx:124-173 | every difference is located under the path it was searched from |
| Differences.LengthEntrySpec | components/tools/json-array.tsx:140-142 | two arrays get a length entry exactly when their lengths differ |
| Differences.ArrayDifferences | components/tools/json-array.tsx:144-155 | an item added per index only the second array has, an item removed per index only the first has, and every difference at a shared index |
| Differences.ArrayDifferencesOnly | components/tools/json-array.tsx:139-156 | nothing else is reported between two arrays: each difference is the length change, an item added or removed past the shorter length, or a difference at a shared index |
| Differences.KeyedDifferences | components/tools/json-array.tsx:158-170 | a property added per key only the second side has, a property removed per key only the first has, and every difference under a shared key at `path.key` |
| Differences.KeyedDifferencesOnly | components/tools/json-array.tsx:158-170 | nothing else is reported between two objects, or an array and an object: each difference is an added or removed property of a one-sided key, or a difference under a shared key |
| Differences.ArrayLengthIsAProperty | components/tools/json-array.tsx:163-168 | `key in obj` finds an array's own `length`: `[]` against `{"length": 0}` finds nothing, and `{"length": n}` against `[]` reports the value change from n to 0 |
| Comparison.FindMatchingItemSpec | components/tools/json-array.tsx:175-185 | the match is nothing exactly when no item corresponds; otherwise it is the first item that corresponds: deep-equal for `"none"`, `===` keys otherwise |
| Comparison.MissingKeysMatch | components/tools/json-array.tsx:180-184 | an item without the sort key matches the first candidate without it |
| Comparison.SameKeySameMatch | components/tools/json-array.tsx:180-184 | items with `===` keys find the same match |
| Comparison.PlaceAddsOne | components/tools/json-array.tsx:210-221 | each turn of the first loop puts the item in exactly one bucket |
| Comparison.ClassifyPartition | components/tools/json-array.tsx:207-222 | the deletions, identical items and originals of the modifications together are the first array, as a multiset |
| Comparison.ClassifyMembers | components/tools/json-array.tsx:207-222 | an item is a deletion exactly when its match is falsy and identical exactly when its match is deep-equal; a modification holds its match, is not deep-equal to it and carries their differences |
| Comparison.ClassifyModified | components/tools/json-array.tsx:214-221 | every item whose match is truthy and different is among the modifications |
| Comparison.CompareArrays | components/tools/json-array.tsx:187-233 | the two loops compute the result `ComparisonOf` specifies |
| Comparison.ComparisonSpec | components/tools/json-array.tsx:187-233 | the buckets partition the first array and their lengths sum to its length; the additions are the second array's items without a truthy match (their order and count: `AdditionsSpec`); both counts are the sum of the lengths; the queries pass through |
| Comparison.AdditionsSpec | components/tools/json-array.tsx:225-230 | the additions are the unmatched items of the sorted second array in that order; as a multiset, every unmatched item of the second array as often as it occurs; in the given order under `"none"` |
| Comparison.FilterPermutation | components/tools/json-array.tsx:225-230 | filtering two permutations of a list gives permutations of each other |
| Comparison.NoSortHasNoModifications | components/tools/json-array.tsx:176-213 | with `"none"` a match is deep-equal, so there are no modifications |
| Comparison.PrimitiveMatch | components/tools/json-array.tsx:176-177 | with `"none"` a primitive matches itself when present and nothing otherwise |
| Comparison.ClassifyPrimitives | components/tools/json-array.tsx:207-222 | with `"none"`, primitives absent from the other array are deletions and present ones identical |
| Comparison.AdditionsOfPrimitives | components/tools/json-array.tsx:225-230 | with `"none"`, the primitive additions are those absent from the first array |
| Comparison.DocumentedExample | app/docs/page.tsx:219-226 | `[1,2,3,4]` against `[1,2,4,5]` gives deletions `[3]`, additions `[5]`, identical `[1,2,4]` and no modifications |
| Comparison.FalsyMatchIsNoMatch | components/tools/json-array.tsx:207-230 | `[0]` against itself finds `0` as the match, yet reports it both deleted and added, because the match is falsy |
| ComparisonView.ExtractKeys | components/tools/json-array.tsx:268-279 | `extractKeys` adds the paths to the object's scalar leaves to the set, in order |
| ComparisonView.GetSortKeys | components/tools/json-array.tsx:261-283 | `getSortKeys` returns the key list `SortKeysOf` specifies |
| ComparisonView.LeafPathsSound | components/tools/json-array.tsx:268-279 | every path recorded spells a chain of keys through nested objects to a scalar |
| ComparisonView.LeafPathsComplete | components/tools/json-array.tsx:268-279 | every chain of keys through nested objects to a scalar is recorded |
| ComparisonView.LeafPathsSpec | components/tools/json-array.tsx:268-279 | a path is recorded exactly when it leads through nested non-array objects to a scalar |
| ComparisonView.ItemsPathsMembers | components/tools/json-array.tsx:281 | the paths of all items are those of some item |
| ComparisonView.SortKeysSpec | components/tools/json-array.tsx:261-283 | the keys start with `"none"` and hold no duplicates; besides `"none"`, they are exactly the scalar-leaf paths of the first array's items |
| ComparisonView.GetDiffItems | components/tools/json-array.tsx:289-316 | the four loops compute the rows `DiffItemsOf` specifies |
| ComparisonView.DiffItemsLayout | components/tools/json-array.tsx:289-316 | one row per deletion, addition, modification and identical item, in that order, each row built from its entry |
| ComparisonView.DiffItemsOfComparison | components/tools/json-array.tsx:289-316 | a comparison yields as many rows as the first array has items plus the additions |
| Sequences.AnySpec | lib/query-parser.ts:185 | `some` holds exactly when an element satisfies the predicate |
| Sequences.FilterMembers | lib/query-parser.ts:138 | `filter` keeps exactly the elements that satisfy the predicate |
| Sequences.FilterAppend | lib/query-parser.ts:138 | filtering a concatenation concatenates the filtered parts |
| Sequences.FilterAll | lib/query-parser.ts:138 | filtering keeps everything exactly when every element satisfies the predicate |
| Sequences.FilterTwice | lib/query-parser.ts:138 | filtering twice is filtering once |
| Sequences.FilterMultiplicity | lib/query-parser.ts:138 | `filter` keeps every copy of a value that passes and no copy of one that fails |
| Sequences.FindSpec | components/tools/json-array.tsx:177 | `find` yields nothing exactly when no element qualifies, and otherwise the first that does |
| Sequences.FlattenMembers | components/tools/json-array.tsx:152 | the entries pushed from the parts are exactly the entries of some part |
| Sequences.AddAllSpec | components/tools/json-array.tsx:265-282 | adding to a set keeps what it held in front, gains exactly the new values and holds no duplicates |
| Sequences.AddAllAppend | components/tools/json-array.tsx:281 | adding two lists one after the other adds their concatenation |

## Left out

- The React component is not modelled: state, memoisation, rendering, and the query builder that wires `parse` and `execute` to the view.
- `JSON.parse` is left out. `getSortKeys` takes the parsed first array as an `Option`, `None` standing for text that did not parse. `getDiffItems` takes the memoised comparison result as an `Option`.
- `JSON.stringify` is left out: the message texts of the differences and the formatting of values and queries. A difference is a structured record.
- Numbers are integers. Floating point is left out. `Number()` is modelled for decimal integer literals with an optional sign; hexadecimal, exponents, `Infinity`, surrounding white space and `NaN` are left out.
- QueryParser.ParseSimpleValue: a numeric literal that is not a decimal integer (`1.5`, `1e3`, `0x10`, `Infinity`) stays a string, where the source reads a number.
- Strings.LowerChar: case mapping covers ASCII letters only. Other Unicode case mappings are not modelled.
- Sorting.Compare: `localeCompare` is replaced by code-unit order. Key values of different kinds, which JavaScript's `<` coerces, are ordered by a fixed rank:
  - booleans and numbers by value;
  - then strings, arrays and objects.
- Sorting.Compare also deviates on two kinds of tie:
  - undefined and null tie with each other, whereas the source's comparator answers 1 both ways;
  - two arrays, or two objects, tie.
- Sorting.SortArray: the engine's sort is modelled as a stable insertion sort. Stability is stated through the items that tie with a given key (`InsertionSortStable`).
- JsonValues.StrictEquals: `===` on two arrays or two objects is false. Every value the engines meet comes from its own parse or literal, so no two share a reference.
- The prototype chain is left out. `Differences.HasMember` answers `key in obj` (`components/tools/json-array.tsx:163`) for own properties only: an object's members, an array's canonical indexes and an array's `length`. Inherited names such as `toString` are not found.
- Array `length` and the properties of strings (`name.length`) are not modelled in `Paths.PathValue`, which resolves sort keys. Only own members and canonical array indexes are found.
- QueryExecutor.EvaluateCondition: the `default` branch of `evaluateCondition` (`lib/query-parser.ts:199-200`) cannot be reached. The parser only produces the fourteen operators, and `Types.Operator` has exactly those.
- QueryExecutor.IncludesItem: `Array.prototype.includes` uses SameValueZero, which differs from `===` only on `NaN`. `NaN` cannot occur among integers.
- ComparisonView.PathFrom: the path rule `prefix ? prefix.key : key` is kept. So a key that is the empty string, or that contains a dot, yields a path that does not lead back to its value.
- ComparisonView.MemberPaths: its branch for a key that names no member cannot be reached for the object's own keys. It yields no paths.
- The static pages, navigation, authentication and documentation files are not part of this model.
