# criterium, modelled in Dafny

criterium compiles a MongoDB-style query document into the native query of
a backend. The model covers three parts of it:

- **The generic compiler** (`converter(dialect)`). It folds the query
  document bottom-up and classifies every key:
  - the root;
  - an operator the dialect implements;
  - a field (any key that is not one of the fifteen operator names);
  - an array element;
  - an operator of the table that the dialect lacks.

  Each node is checked by its validator and against the dialect's
  `dataDepth`. Errors accumulate in the call's context. At the root they
  make the call throw a plain `Error`: its message is the errors in
  reverse order, one per line. Otherwise the dialect's `$and` result is
  returned. The data path (the path without operator keys and without the
  indices of `$and`/`$or`/`$nor` arrays) is what the operators see. The
  error messages are modelled character by character.
- **The in-memory JavaScript backend**:
  - `compile` (index.ts) and `createPredicate` (filter.ts), two dialects
    whose operators build predicates; they differ in `$nor`;
  - `filter(query)(arr)`;
  - the lookup `converterOptions.predicate.get`;
  - `limit`;
  - the NeDB-style `compare` / `sorter` / `sort`.

  A call of a compiled predicate (`JsPredicate.Eval`) returns a boolean,
  or throws the TypeError of `Array.from` when `$all` meets an undefined or
  null field. `JsPredicate.Holds` is the value a call returns.
- **The RediSearch backend**: a dialect whose operators are closures that
  write `PARAMS` placeholders into a `SearchOptions` record and return
  query text; `sort`, `paginate`, and the entry point `toRedisSearch`,
  which splits off `$sort`, `$limit` and `$skip`.

Query documents are a JSON-like `Document.Doc`. Its values are undefined,
null, booleans, integers, strings, regular expressions, dates, arrays, and
objects with fields in insertion order.

Where the code does one thing and the descriptive documentation another,
the model follows the code:
- Validation errors accumulate and are all reported, in reverse order.
  They are not first-error-wins.
- A `$`-key outside the operator table (for example `$bogus`) is a field
  name. It is not an OperatorNotSupported error.

State is modelled the way the source keeps it:
- The error list of one compiler call belongs to `Converter.CallContext`,
  whose fold methods push errors. They are proved equal to the functional
  fold `Converter.Run`.
- The RediSearch record is the class `RsOptions.SearchOptions`. The
  closures in `RsRender` change its `params` and are proved against the
  value-level `RsFilter.RenderSpec` / `RsFilter.Place`. `RsSort.Sort` and
  `RsPaginate.Paginate` set `SORTBY` / `LIMIT`.
- `JsSort.Sort` copies the elements that are not undefined into a fresh
  `array`, sorts it in place and writes it back into the caller's array.

## Model

| member | source | states |
|---|---|---|
| Converter.MakeConverter | lib/core/src/lib/converter.ts:11-20 | construction fails, with the plain Error 'operators "$eq" and "$and" are mandatory', exactly when `$eq` or `$and` is missing; otherwise the returned function gives, for every query and context, the result of one compile call |
| Converter.Reverse | lib/core/src/lib/converter.ts:42-43 | `errors.reverse()`: the same length, element i is element n-1-i of the input |
| Converter.CallContext.constructor | lib/core/src/lib/converter.ts:21-25 | a call's context starts with no errors and the given context fields |
| Converter.CallContext.Visit | lib/core/src/lib/converter.ts:30-87 | the reducer's body pushes exactly the node's own errors (validation, then depth, or OperatorNotSupported) onto the list and returns what the node's role hands its parent; at the root this depends on whether any error was recorded |
| Converter.CallContext.FoldNode | lib/core/src/lib/converter.ts:30-87 | folding a subtree in place returns the functional fold's result and appends exactly the errors the functional fold records, in order |
| Converter.CallContext.FoldChildren | lib/core/src/lib/converter.ts:30-87 | the children are folded left to right; their results are collected and their errors appended in that order |
| Converter.CallContext.FoldKid | lib/core/src/lib/converter.ts:30-87 | child i is folded at the path extended by its key or index |
| Converter.CompileQuery | lib/core/src/lib/converter.ts:20-90 | one call of the compiling function, with a fresh context, gives the value-level `Compile` result (artifact, resolved result, or thrown Error) |
| ConverterFacts.KeyRoles | lib/core/src/lib/converter.ts:49-86 | a key below the root is a field exactly when it is no operator name; an implemented operator exactly when it names one the dialect has; unsupported exactly when it names one the dialect lacks |
| ConverterFacts.UnknownDollarKeyIsField | lib/core/src/lib/converter.ts:62-77 | `$bogus` is classified as a field |
| ConverterFacts.UnsupportedOperator | lib/core/src/lib/converter.ts:84-86 | an operator the dialect lacks records exactly one OperatorNotSupported error, with its path and data path, and hands its parent nothing |
| ConverterFacts.ImplementedOperator | lib/core/src/lib/converter.ts:49-60 | an implemented operator records its validator's error and then the depth error, and always returns the operator's result at the data path, whatever errors were recorded |
| ConverterFacts.FieldNode | lib/core/src/lib/converter.ts:62-77 | a field holding a plain object is `$and` of its children and records nothing; any other field value is validated as `$eq`, checked for depth, and generated by `$eq` |
| ConverterFacts.ElementNode | lib/core/src/lib/converter.ts:79-83 | an array element that is a plain object is `$and` of its children, any other element is handed up as it is; neither records an error |
| ConverterFacts.DepthRule | lib/core/src/lib/converter.ts:55-74 | an operator or non-object field records MaxDataDepth exactly when `dataDepth` is set, is non-zero, and the data path is longer |
| ConverterFacts.NoErrorsIffClean | lib/core/src/lib/converter.ts:30-87 | folding a subtree records no error exactly when no node in it records one |
| ConverterFacts.RootOutcome | lib/core/src/lib/converter.ts:36-47 | the root hands on the `$and` artifact exactly when no error was recorded |
| ConverterFacts.CompileSucceedsIffClean | lib/core/src/lib/converter.ts:20-90 | a call succeeds exactly when no node of the query records an error |
| ConverterFacts.RootMustBeObject | lib/core/src/lib/converter.ts:36-44 | a root that is not a plain object makes the call fail; the first error raised is UnexpectedValue at the empty path, "unexpected value for query at '$'" |
| ConverterFacts.EmptyQuery | lib/core/src/lib/converter.ts:36-46 | `{}` succeeds with the dialect's `$and` of no children at the root |
| ConverterFacts.ErrorsAreLocated | lib/core/src/lib/converter.ts:30-87 | every error a subtree records carries a path inside that subtree |
| ConverterFacts.FoldLeaf | lib/core/src/lib/converter.ts:30-87 | a scalar is reduced with no child results |
| ConverterFacts.FoldSingleEntry | lib/core/src/lib/converter.ts:30-87 | an object with one entry is reduced with that entry's result and records that entry's errors |
| ConverterFacts.FieldLeaf | lib/core/src/lib/converter.ts:62-77 | `{ f: v }` below the root, with a value `$eq` accepts, gives the `$eq` result at data path `[f]` with no error |
| ConverterFacts.OperatorLeaf | lib/core/src/lib/converter.ts:49-60 | `{ f: { op: v } }` with an accepted operand gives the operator's result at data path `[f]` with no error |
| Errors.PathTextStartsWithRoot | lib/core/src/lib/errors.ts:16-19 | `['$', ...path].join('.')` always starts with `$` |
| Errors.MessageNamesCode | lib/core/src/lib/errors.ts:13-47 | each of the five message forms can be told apart by how it begins, so a message determines its error code |
| Errors.ErrorTextShape | lib/core/src/lib/converter.ts:43 | an error in the thrown message prints as "QueryValidationError: " followed by its message |
| Validation.ValidateMeaning | lib/core/src/lib/validation.ts:4-89 | a rule reports UnexpectedValue exactly when the operand has the wrong shape; it reports PropertyNotFound exactly when the shape is right, the operator needs a field and the data path is empty; it passes exactly in the remaining cases |
| Validation.ValidateReportsOnlyItsOwnErrors | lib/core/src/lib/validation.ts:4-89 | a reported error records the value and both paths as given, and is UnexpectedValue or PropertyNotFound |
| Validation.LogicalNeverNeedsField | lib/core/src/lib/validation.ts:5-16 | `$and`, `$or` and `$nor` never report PropertyNotFound |
| Validation.ComparisonOperands | lib/core/src/lib/validation.ts:41-64 | the comparisons reject booleans and NaN operands anywhere; a number under a field passes |
| Utils.IsPropertyPrefix | lib/core/src/lib/utils.ts:42-52 | whether a segment is a property depends only on the segment and its predecessor |
| Utils.DataPathIsSubsequence | lib/core/src/lib/converter.ts:31 | the data path keeps some of the path's segments, in order |
| Utils.DataPathHasNoOperator | lib/core/src/lib/utils.ts:47-48 | no key of a data path is an operator name |
| Utils.EscapeWithoutBackslashes | lib/core/src/lib/utils.ts:59-62 | on input without backslashes, `escape` puts one backslash before each charset character and copies every other character |
| Utils.EscapeCollapsesRun | lib/core/src/lib/utils.ts:61 | a run of backslashes before a charset character collapses into the one backslash that escapes it |
| Types.InitialExt | lib/core/src/lib/converter.ts:21-25 | the context fields are those of `xctx` and, for the rest, those of `extendCtx()`; no other field exists |
| Types.GensMembers | converters/js/src/index.ts:21 | `children.filter(Boolean)` keeps exactly the generated children |
| Operators.Parse | lib/core/src/lib/converter.ts:49 | `key in operators`: the operator whose name is the key, and none when no operator has that name |
| Operators.ParseName | lib/core/src/lib/validation.ts:4-89 | every operator's name parses back to it |
| Folding.Kids | lib/core/src/lib/converter.ts:30 | the children the fold visits: one per element of an array, one per field of an object, none for a scalar |
| Folding.ChildAt | lib/core/src/lib/converter.ts:30 | child i is folded at the path extended by the segment leading to it |
| Text.NatText | converters/redisearch/src/filter.ts:24 | `${id}` for an index: a non-empty decimal text with no leading zero |
| Text.NatTextValue | converters/redisearch/src/filter.ts:24 | reading the decimal text back gives the index |
| Text.NatTextInjective | converters/redisearch/src/filter.ts:24 | different indices give different texts |
| Text.Split | converters/redisearch/src/filter.ts:22 | `split(c)`: at least one piece, and no piece contains the separator |
| Text.SplitJoin | converters/redisearch/src/filter.ts:22 | splitting and joining with the same separator restores the string |
| Text.TrimmedEnds | converters/redisearch/src/filter.ts:183 | `trim()`: the result neither starts nor ends with white space |
| Text.TrimStartRemovesSpace | converters/redisearch/src/filter.ts:183 | the leading trim leaves a suffix of the input that does not start with white space, and everything it removed is white space |
| Text.TrimEndRemovesSpace | converters/redisearch/src/filter.ts:183 | the trailing trim leaves a prefix of the input that does not end with white space, and everything it removed is white space |
| Text.TrimUnpadded | converters/redisearch/src/filter.ts:183 | a string without white space at either end is its own trim |
| Text.StrToNumber | converters/js/src/index.ts:13-15 | `Number(s)`: a blank string is 0 |
| Text.DigitsToNumber | converters/js/src/index.ts:13-15 | a string of digits converts to the number it spells |
| Text.LetterIsNaN | converters/js/src/index.ts:13-15 | a string starting with a letter is NaN |
| Text.PrefixedToNumber | converters/js/src/index.ts:13-15 | `Number('0x…')`, `Number('0o…')` and `Number('0b…')` with at least one digit of the radix give the numeral's value in that radix |
| Text.SignedPrefixIsNaN | converters/js/src/index.ts:13-15 | a sign before a `0x`, `0o` or `0b` prefix makes the text NaN |
| Text.BarePrefixIsNaN | converters/js/src/index.ts:13-15 | a prefix without digits is NaN |
| Text.PrefixedExamples | converters/js/src/index.ts:13-15 | `Number('0x10')` is 16, `Number('0o7')` is 7 and `Number('0b11')` is 3 |
| Text.PrefixedNaNExamples | converters/js/src/index.ts:13-15 | `Number('-0x10')`, `Number('+0x10')` and `Number('0x')` are NaN |
| Grammar.BareNotConformsButFails | lib/core/src/lib/types.ts:45-47 | `{ age: { $not: 5 } }` has the declared type for a numeric `age`, yet every dialect rejects it |
| Grammar.CorrectedQueriesCompile | lib/core/src/lib/types.ts:45-90 | a query of the corrected type (array fields take `$all`, `$not` takes only object expressions), over field names that are not operator names, compiles without error on a dialect that implements every operator and has no depth limit |
| Grammar.AllUntypeable | lib/core/src/lib/types.ts:48-55 | because `T extends object` is tested before `T extends Array<any>`, `{ tags: { $all: ['a'] } }` lacks the declared type of a `string[]` field and `{ tags: ['a'] }` has it; the corrected type takes the first and refuses the second |
| Grammar.CorrectedConforms | lib/core/src/lib/types.ts:45-90 | over a schema without array fields, every query of the corrected type has the declared type |
| Grammar.FieldClean | lib/core/src/lib/types.ts:45-79 | a field expression of the corrected type, over field names that are not operator names, compiles without error on a dialect with every operator and no depth limit |
| JsPredicate.Coerce | converters/js/src/index.ts:13-15 | `coerce`: a non-boolean value that converts to a number becomes it; booleans and NaN values are unchanged |
| JsPredicate.AndMeaning | converters/js/src/index.ts:19-22 | `$and` holds exactly when every generated child holds |
| JsPredicate.OrMeaning | converters/js/src/index.ts:23-26 | `$or` holds exactly when some generated child holds |
| JsPredicate.NotMeaning | converters/js/src/index.ts:31-34 | `$not` holds exactly when some generated child fails |
| JsPredicate.EqualityMeaning | converters/js/src/index.ts:70-77 | `$eq` holds exactly when the coerced field strictly equals the coerced operand; `$ne` is its negation |
| JsPredicate.MembershipMeaning | converters/js/src/index.ts:44-55 | `$in` holds exactly when some coerced operand equals the coerced field; `$nin` is its negation |
| JsPredicate.AllMeaning | converters/js/src/index.ts:35-43 | `$all` throws exactly when the field is undefined or null (where `Array.from` throws); otherwise it returns true exactly when every coerced operand equals some coerced element of `Array.from(field)` |
| JsPredicate.EvalHolds | converters/js/src/index.ts:17-93 | a call of a compiled predicate that returns gives the value of its meaning (`Holds`) |
| JsPredicate.ThrowOrder | converters/js/src/index.ts:19-34 | `$and`, `$or`, `$not` and `$nor` call their children in order with `every` or `some`: they throw exactly when a child throws and every child before it returned the value that does not decide |
| JsPredicate.EvalError | converters/js/src/index.ts:35-43 | the only error a compiled predicate throws is the TypeError of `Array.from` |
| JsPredicate.ExistsMeaning | converters/js/src/index.ts:84-91 | `$exists: true` holds exactly when the field is neither undefined nor null; `$exists: false` exactly when it is one of them |
| JsPredicate.ComparisonMeaning | converters/js/src/index.ts:56-69 | the comparisons hold exactly when `Number(field)` and `Number(operand)` are both numbers in that relation |
| JsPredicate.GreaterOrAtMost | converters/js/src/index.ts:56-69 | `$gt` and `$lte` are complements on numbers; a NaN side fails both |
| JsPredicate.MissingFieldComparesFalse | converters/js/src/index.ts:56-69 | an undefined field satisfies no comparison |
| JsIndex.IndexDialectComplete | converters/js/src/index.ts:17-93 | the `compile` dialect implements all fifteen operators and has no depth limit |
| JsIndex.IndexOperators | converters/js/src/index.ts:17-93 | configuration, as index.ts sets it: the `compile` dialect has no depth limit and no `resolve`, and its `$and`, `$eq` and `$gt` are the operators modelled in `JsPredicate` |
| JsIndex.ToPredicate | converters/js/src/index.ts:17-99 | `compile(query)` gives a predicate exactly when no node of the query records an error |
| JsIndex.NorIsNand | converters/js/src/index.ts:27-30 | in `compile`, `$nor` is the `$not` closure: it holds exactly when some generated child fails |
| JsIndex.FieldEquality | converters/js/src/index.ts:74-77 | `{ f: v }` compiles to a predicate that never throws and returns whether the coerced `item[f]` equals the coerced `v` |
| JsIndex.EveryOfOne | converters/js/src/index.ts:19-22 | `$and` of one child returns what the child returns and throws what it throws |
| JsIndex.FieldGreater | converters/js/src/index.ts:56-58 | `{ f: { $gt: v } }` compiles to a predicate that never throws and returns whether `Number(item[f]) > v`; the operator key is not part of the lookup path |
| JsFilter.FilterDialectComplete | converters/js/src/filter.ts:10-86 | the `createPredicate` dialect implements all fifteen operators and has no depth limit |
| JsFilter.CreatePredicate | converters/js/src/filter.ts:92-96 | `createPredicate(query)` gives a predicate exactly when no node of the query records an error |
| JsFilter.NorMeaning | converters/js/src/filter.ts:20-23 | in `createPredicate`, `$nor` holds exactly when no generated child holds |
| JsFilter.NorDialectsDiffer | converters/js/src/filter.ts:20-23 | when one child holds and another fails, `compile`'s `$nor` accepts the item and `createPredicate`'s rejects it |
| JsFilter.Filter | converters/js/src/filter.ts:92-98 | `filter(query)(arr)` throws compiling's error when the query does not compile; otherwise it throws exactly when the predicate throws on some element |
| JsFilter.SelectThrows | converters/js/src/filter.ts:97 | `arr.filter(predicate)` throws exactly when the predicate throws on some element |
| JsFilter.MissingArrayThrows | converters/js/src/filter.ts:28-34 | `$all` over `[{ tags: ['a'] }, { name: 'x' }]` throws the TypeError, though the first item is accepted |
| JsFilter.SelectStep | converters/js/src/filter.ts:97 | a selection that returns is the front's selection followed by the last element when the predicate accepts it |
| JsFilter.SelectInOrder | converters/js/src/filter.ts:97 | when `arr.filter(predicate)` returns, it keeps the elements in their original order |
| JsFilter.SelectOccurrences | converters/js/src/filter.ts:97 | when the selection returns, counted one element at a time: an accepted element occurs in it as often as in the input, a rejected one not at all |
| JsFilter.SelectCounts | converters/js/src/filter.ts:97 | when the selection returns, each accepted element is kept as often as it occurs, and no rejected element is kept |
| JsFilter.SelectMembers | converters/js/src/filter.ts:97 | when the selection returns, an element is kept exactly when it occurs and the predicate accepts it |
| JsOptions.GetEmpty | converters/js/src/options.ts:3-5 | the empty path gives the object itself |
| JsOptions.GetConcat | converters/js/src/options.ts:3-5 | looking up `p + q` is looking up `q` in what `p` leads to |
| JsOptions.FirstStep | converters/js/src/options.ts:3-5 | from a truthy value, the lookup steps into the first key |
| JsOptions.FalsyStops | converters/js/src/options.ts:3-5 | a falsy value is the result of any lookup from it |
| JsOptions.FalsyOnTheWay | converters/js/src/options.ts:3-5 | the lookup stops at the first falsy value on the path |
| JsLimit.Limit | converters/js/src/limit.ts:1-3 | `datas.slice(0, value)`: a prefix of `datas`, of length `value` (at most the length) for `value >= 0`, and of the length minus `-value` (at least 0) for negative `value` |
| JsLimit.LimitKeepsShort | converters/js/src/limit.ts:2 | a limit at least the length keeps everything |
| JsLimit.LimitTwice | converters/js/src/limit.ts:2 | limiting twice is limiting once by the smaller amount |
| JsSort.Nsb | converters/js/src/sort.ts:6-14 | `compareNSB` on numbers is -1, 1 or 0 exactly when `a < b`, `a > b` or `a == b` |
| JsSort.StrCmpAntisymmetric | converters/js/src/sort.ts:6-14 | `compareNSB` on strings negates when its arguments are swapped |
| JsSort.KeyOrder | converters/js/src/sort.ts:90-91 | `Object.keys(a).sort()` as field positions: one valid position per field |
| JsSort.KeyOrderSpec | converters/js/src/sort.ts:90-91 | the sorted keys hold every field exactly once, in non-decreasing key order |
| JsSort.Cmp | converters/js/src/sort.ts:32-103 | `compare(a, b)` is -1, 0 or 1 |
| JsSort.CmpItems | converters/js/src/sort.ts:16-30 | `compareArrays` is -1, 0 or 1 |
| JsSort.CmpFields | converters/js/src/sort.ts:89-102 | the object branch of `compare` is -1, 0 or 1 |
| JsSort.KindOrder | converters/js/src/sort.ts:32-87 | values of different kinds compare by kind alone: undefined, then null, numbers, strings, booleans, dates, arrays and objects |
| JsSort.CmpReflexive | converters/js/src/sort.ts:32-103 | every value compares equal to itself |
| JsSort.CmpAntisymmetric | converters/js/src/sort.ts:32-103 | swapping the arguments negates the result |
| JsSort.ArraysEqualPrefix | converters/js/src/sort.ts:16-30 | arrays whose common part compares equal are ordered by length |
| JsSort.ArraysFirstDifference | converters/js/src/sort.ts:16-30 | arrays compare like their first pair of elements that differ |
| JsSort.PrefixComesFirst | converters/js/src/sort.ts:28-29 | an array comes before every longer array that extends it |
| JsSort.ObjectsAsArrays | converters/js/src/sort.ts:89-102 | objects compare like the arrays of their values in key order |
| JsSort.KeysNotCompared | converters/js/src/sort.ts:94-95 | two one-key objects with equal values are equal whatever their keys |
| JsSort.Compare | converters/js/src/sort.ts:32-103 | the method with the source's early returns computes `compare` |
| JsSort.CompareArrays | converters/js/src/sort.ts:16-30 | the loop computes `compareArrays` |
| JsSort.SortOrderFirstDifference | converters/js/src/sort.ts:107-131 | the comparator returns the first non-zero criterion term, or 0 |
| JsSort.SortOrderAntisymmetric | converters/js/src/sort.ts:107-131 | swapping the items negates the comparator |
| JsSort.Sorter | converters/js/src/sort.ts:107-131 | the comparator's loop computes the first non-zero `direction * compare(a[key], b[key])`, or throws a TypeError when there is a criterion and `a` or `b` is null or undefined |
| JsSort.Sort | converters/js/src/sort.ts:133-136 | `datas.sort(compareFn)` throws a TypeError, leaving `datas` as it was, exactly when there is a criterion, two or more elements other than undefined, and a null among them; otherwise it returns the same array, now a permutation of its old contents with the defined elements first, in comparator order, and the undefined ones last |
| JsSort.SortDefined | converters/js/src/sort.ts:133-136 | sorting the defined elements fails exactly when there is a criterion, two or more elements and a null among them; otherwise it keeps the contents and leaves them in comparator order |
| JsSort.InsertInto | converters/js/src/sort.ts:133-136 | moving one element into the sorted prefix throws exactly when there is a criterion and the element or its left neighbour is null; otherwise it keeps the contents and extends the sorted prefix by one |
| JsSort.MoveDown | converters/js/src/sort.ts:133-136 | once the first comparison is made, the element moves down without a throw and the prefix ends up sorted |
| JsSort.UndefinedSortsLast | converters/js/src/sort.ts:133-136 | `[undefined, { a: 1 }]` sorts as `[{ a: 1 }, undefined]` |
| JsSort.NullSortExamples | converters/js/src/sort.ts:122 | with a criterion, `[null, { a: 1 }]` throws and `[null, undefined]` does not; with no criterion nothing throws |
| RsFilter.Coerce | converters/redisearch/src/filter.ts:34-36 | `coerce` gives a number or a text |
| RsFilter.RsCompile | converters/redisearch/src/filter.ts:62-175 | `compile(query)` gives a generator exactly when no node of the query records an error |
| RsFilter.Place | converters/redisearch/src/filter.ts:16-32 | `placeholder` always leaves `PARAMS` present |
| RsFilter.Tokens | converters/redisearch/src/filter.ts:22-27 | one token per part of the split text |
| RsFilter.NonEmpty | converters/redisearch/src/filter.ts:65 | `.filter(Boolean)` on texts keeps only non-empty texts |
| RsFilter.RenderParts | converters/redisearch/src/filter.ts:65-68 | rendering n children gives n texts unless one throws |
| RsFilter.PlaceEach | converters/redisearch/src/filter.ts:72-74 | one placeholder per element unless `placeholder` throws |
| RsFilter.PlaceParts | converters/redisearch/src/filter.ts:159-162 | one text per pattern part unless `placeholder` throws |
| RsFilter.PartStep | converters/redisearch/src/filter.ts:159-161 | one more part adds one text, and a throw earlier stays a throw |
| RsRender.Placeholder | converters/redisearch/src/filter.ts:16-32 | `placeholder(ctx, prop, val)` returns and writes to `PARAMS` what `Place` says, and changes nothing else in the record |
| RsRender.StoreTextParts | converters/redisearch/src/filter.ts:22-27 | storing the parts of a text returns its tokens and stores each non-empty part `i` under `prop<i>` |
| RsRender.Render | converters/redisearch/src/filter.ts:62-167 | calling a generated closure returns the text and `PARAMS` that `RenderSpec` gives, or throws when it does, and changes only `PARAMS` |
| RsRender.RenderChildren | converters/redisearch/src/filter.ts:65-68 | `children.map(child => child(ctx))` renders the children in order and stops at the first throw |
| RsRender.PlaceElements | converters/redisearch/src/filter.ts:72-74 | the placeholders of `$in`, `$nin` and `$all`, one per coerced element, as `PlaceEach` says |
| RsRender.PlacePatternParts | converters/redisearch/src/filter.ts:159-162 | the placeholders of `$like`, one per part of the pattern, as `PlaceParts` says |
| RsRender.PlacePart | converters/redisearch/src/filter.ts:160-161 | an empty part gives '', any other the trimmed placeholder of the coerced part |
| RsRender.Apply | converters/redisearch/src/filter.ts:180-186 | the filter function returns the index, the base text and generated text joined by a space and trimmed, and the same record; `PARAMS` is what rendering left |
| RsFacts.CoercedType | converters/redisearch/src/filter.ts:34-52 | `coerce` keeps the `getType` type, except that booleans become text; it gives a number exactly for numeric values |
| RsFacts.CoercedBoolean | converters/redisearch/src/filter.ts:35 | a boolean is coerced to "true" or "false" |
| RsFacts.CoercedNaN | converters/redisearch/src/filter.ts:35 | a non-numeric value is coerced to its text, of type TEXT |
| RsFacts.PlaceThrows | converters/redisearch/src/filter.ts:21-22 | `placeholder` throws exactly for a TEXT value that is not a string, and never for a coerced value |
| RsFacts.PlaceWhole | converters/redisearch/src/filter.ts:16-32 | a numeric or boolean value is stored whole under `prop` and referred to as `$prop`; `PARAMS` is created when absent |
| RsFacts.StoredPart | converters/redisearch/src/filter.ts:22-26 | after storing a text's parts, each non-empty part `i` is found under `prop<i>` |
| RsFacts.StorePartsKeepsOthers | converters/redisearch/src/filter.ts:22-26 | storing a text's parts leaves every key not starting with `prop` unchanged |
| RsFacts.PlaceKeepsOthers | converters/redisearch/src/filter.ts:16-32 | `placeholder` leaves every `PARAMS` entry whose key does not start with `prop` unchanged |
| RsFacts.PlaceTextRoundTrip | converters/redisearch/src/filter.ts:22-27 | substituting each token from `PARAMS` and joining with ' ' gives the text value back |
| RsFacts.EscapeWordName | converters/redisearch/src/filter.ts:10-14 | a field name of word characters is not changed by escaping |
| RsFacts.MatchNumber | converters/redisearch/src/filter.ts:139-154 | `$eq`/`$ne` on a number render `@f:[$f $f]` (with '-' for `$ne`) and store the number under `f` |
| RsFacts.MatchBoolean | converters/redisearch/src/filter.ts:139-154 | `$eq`/`$ne` on a boolean render the tag query `@f:{$f0}` and store "true"/"false" under `f0` |
| RsFacts.PlaceOneWord | converters/redisearch/src/filter.ts:21-27 | a one-word text is stored under `prop0` and referred to as `$prop0` |
| RsFacts.RangeNumber | converters/redisearch/src/filter.ts:111-138 | the comparisons store `Number(value)` under `f` and render `@f:[($f +inf]` for `$gt`, `@f:[$f +inf]` for `$gte`, `@f:[-inf ($f]` for `$lt` and `@f:[-inf $f]` for `$lte`; a non-numeric operand makes `placeholder` throw |
| RsFacts.EmptyGroup | converters/redisearch/src/filter.ts:65-68 | a group of no clauses renders '' for `$and`, "()" for `$or` and "-()" for `$nor`/`$not`, with `PARAMS` unchanged |
| RsFacts.SingleAnd | converters/redisearch/src/filter.ts:65 | `$and` of one clause renders as that clause |
| RsFacts.NonEmptyKeeps | converters/redisearch/src/filter.ts:65 | `.filter(Boolean)` keeps exactly the non-empty texts, and all of them when none is empty |
| RsFacts.SharedField | converters/redisearch/src/filter.ts:30 | two equalities on the same field share its `PARAMS` entry: both texts name `$f` and the later value is kept |
| RsFacts.PlaceEachNumbers | converters/redisearch/src/filter.ts:72-74 | placing numbers gives the tokens `$<ep>i` and stores number i under `<ep>i` |
| RsFacts.MembersNumbers | converters/redisearch/src/filter.ts:69-110 | `$in`/`$nin` on numbers render `(@f:[$f0 $f0]\|...)` (with '-' for `$nin`) and store number i under `f<i>` |
| RsFacts.CoercedNumbers | converters/redisearch/src/filter.ts:34-36 | `coerce` leaves numbers unchanged |
| RsFacts.TagsNumbers | converters/redisearch/src/filter.ts:84-95 | `$all` on numbers renders `@f:{$f0} @f:{$f1} ...` and stores number i under `f<i>` |
| RsFacts.NinNegatesIn | converters/redisearch/src/filter.ts:96-110 | `$nin` renders `$in`'s text with a leading '-' and stores the same `PARAMS` |
| RsFacts.NeNegatesEq | converters/redisearch/src/filter.ts:139-146 | `$ne` renders `$eq`'s text with a leading '-' and stores the same `PARAMS` |
| RsFacts.NorNegatesOr | converters/redisearch/src/filter.ts:66-67 | `$nor` renders `$or`'s text with a leading '-' and stores the same `PARAMS` |
| RsOptions.WithDefaults | converters/redisearch/src/index.ts:13-16 | `{ DIALECT: 2, ...given }`: the caller's fields, with dialect 2 unless the caller sets one |
| RsOptions.SearchOptions.Spread | converters/redisearch/src/index.ts:13-16 | the new record holds `WithDefaults` of the caller's options |
| RsSort.SortOrder | converters/redisearch/src/sort.ts:6-11 | `SORTBY` exists exactly when there is a first entry; it is by that entry's key, descending exactly when its value is the number -1 |
| RsSort.Sort | converters/redisearch/src/sort.ts:4-15 | sets `SORTBY` to `SortOrder` and returns `(index, rsQuery, ctx)`, or throws with the record untouched when there is no entry |
| RsSort.LaterEntriesIgnored | converters/redisearch/src/sort.ts:6 | only the first entry counts |
| RsSort.OnlyMinusOneDescends | converters/redisearch/src/sort.ts:10 | any value other than the number -1 (the text "-1" included) sorts ascending |
| RsSort.ArraySortsByFirstIndex | converters/redisearch/src/sort.ts:6 | an array specification sorts by the property "0" |
| RsPaginate.PageOf | converters/redisearch/src/paginate.ts:5 | `LIMIT` is `from`: skip or 0, `size`: limit or 10, the default used exactly when the value is undefined |
| RsPaginate.Paginate | converters/redisearch/src/paginate.ts:3-8 | replaces `LIMIT` by `PageOf`, changes nothing else, returns `(index, rsQuery, ctx)` |
| RsPaginate.LastPageWins | converters/redisearch/src/paginate.ts:5 | paginating twice is paginating once with the later values; only `LIMIT` changes |
| RsIndex.Conditions | converters/redisearch/src/index.ts:12 | the entries other than `$sort`, `$limit` and `$skip`, in their order |
| RsIndex.ToRedisSearch | converters/redisearch/src/index.ts:11-39 | returns a fresh record with the fields, text and index that `Convert` gives, or throws as `Convert` says |
| RsIndex.FilterStep | converters/redisearch/src/index.ts:12-28 | the options record and the filter applied to it, as `Filtered` says |
| RsIndex.ArrangeStep | converters/redisearch/src/index.ts:30-36 | sorting when `$sort` has a key and paginating when `$skip` or `$limit` is a number, as `Arranged` says |
| RsIndex.KeepsIndex | converters/redisearch/src/index.ts:13-38 | the index name comes back as given |
| RsIndex.DialectDefaultsToTwo | converters/redisearch/src/index.ts:13-16 | `DIALECT` is 2 unless the caller's options set it |
| RsIndex.NoConditions | converters/redisearch/src/index.ts:24-28 | without conditions nothing can throw; an empty text becomes '*' and a non-empty one is kept |
| RsIndex.WithConditions | converters/redisearch/src/index.ts:18-23 | the generated text follows the base text after a space, the whole trimmed, and `PARAMS` holds what generating stored |
| RsIndex.RejectedFilter | converters/redisearch/src/index.ts:18-22 | a filter that does not compile makes the call throw compiling's error |
| RsIndex.SortsOnlyWithKeys | converters/redisearch/src/index.ts:30-32 | `SORTBY` is set exactly when `$sort` has a key; otherwise it is the caller's |
| RsIndex.PaginatesOnlyWithNumbers | converters/redisearch/src/index.ts:34-36 | `LIMIT` is set exactly when `$skip` or `$limit` is a number; otherwise it is the caller's |
| RsIndex.OptionKeysNotCompiled | converters/redisearch/src/index.ts:12 | adding an option key leaves the conditions unchanged |
| RsExamples.RsOperators | converters/redisearch/src/filter.ts:62-64 | configuration, as filter.ts sets it: the RediSearch dialect has `dataDepth` 1, no hooks, and no `$exists` |
| RsExamples.FieldEquality | converters/redisearch/src/filter.ts:147-155 | `{ f: v }` compiles to `$and` of the one match clause on `f` |
| RsExamples.EmptyQuery | converters/redisearch/src/index.ts:24-28 | `toRedisSearch(['idx'], {})` is `['idx', '*', { DIALECT: 2 }]` |
| RsExamples.AgeEquals | converters/redisearch/src/index.ts:11-38 | `toRedisSearch(['idx'], { age: 30 })` is `['idx', '@age:[$age $age]', { DIALECT: 2, PARAMS: { age: 30 } }]` |
| RsExamples.NoOptionKeys | converters/redisearch/src/index.ts:30-36 | a query without option keys leaves the options as the filter left them |
| RsExamples.SpaceThenText | converters/redisearch/src/filter.ts:183 | the empty base text joined to a generated text trims to the generated text |
| RsExamples.SortAndLimit | converters/redisearch/src/index.ts:30-36 | `{ $sort: { age: -1 }, $limit: 5 }` gives text '*', `SORTBY` age descending and `LIMIT` from 0, size 5 |
| RsExamples.ExistsNotSupported | converters/redisearch/src/index.spec.ts:276-295 | `{ f: { $exists: b } }` throws "'$exists' operator not supported at '$.f.$exists'" for every field `f` |

## Left out

- Floating point: numbers are integers, so `Number()` of a fraction or an exponent is NaN here. `Infinity` (signed or not) and -0 are not modelled; `Text.StrToNumber` reads `"Infinity"` as NaN. The integer forms are modelled: an optional sign with decimal digits, and the unsigned `0x`, `0o` and `0b` numerals.
- `RsFilter.Coerce` and `JsPredicate.Coerce`: `isNaN` on a NaN *number* is modelled like a value that does not convert, since no NaN number exists in the model.
- Duplicate keys: an object is a list of fields, and a lookup takes the first field with the key. JavaScript objects cannot hold duplicates, and a literal with one keeps the last value.
- Key order: objects keep insertion order. JavaScript lists integer-like keys first. This matters for `Object.entries(sorts)[0]` in the RediSearch `sort` when a key is numeric, and for the criteria of the JavaScript `sorter`, which `Object.keys($sort)` builds (sort.ts:108): `JsSort.Sorter` and `JsSort.Sort` take the criteria as a parameter, in the order given.
- Operator membership: `key in operators` and `key in validations` (converter.ts:49 and 62, utils.ts:48) are also true for names that every object inherits, such as `toString`, `constructor` and `hasOwnProperty`. In the source such a key takes the operator branch, calling the inherited method as validator and as operator, and `isProperty` leaves it out of the data path. The model tests membership against the fixed set of fifteen operator names, so such a key is a field here; `ConverterFacts.KeyRoles` and `Utils.DataPathHasNoOperator` hold over that set.
- `JsSort.Sort`: `Array.prototype.sort` is modelled as ECMA-262 describes `Array.prototype.sort` (its SortIndexedProperties and CompareArrayElements operations, the latter called SortCompare in earlier editions): the elements that are not undefined are copied out, sorted with the comparator, and written back followed by the undefined ones, which are never passed to the comparator; when the comparator throws, nothing is written back. The engine's sorting algorithm is modelled by an insertion sort. Which pairs an engine compares is not modelled; `JsSort.SortThrows` assumes that, when there are two or more defined elements, each of them is compared at least once, so a null one makes `a[criterion.key]` throw. What an engine does with a comparator that is not transitive is not modelled, and the transitivity of `compare` is not proved.
- Strings throughout the model are sequences of code points, not of UTF-16 code units. Outside the Basic Multilingual Plane this changes what the model gives: `length` and indexing of a string in `Document.Prop`, hence in `JsOptions.Get` and every field lookup ('😀'.length is 2 in JavaScript, 1 here); `Utils.Escape` and `RsFilter.EscapeName`, where the regular expression without the `u` flag escapes each surrogate of an astral character separately, while the model escapes the character once; and the JsSort string comparison, which is by code point here.
- JsSort: dates compare by their stored time value.
- `JsPredicate.StrictEq`: arrays, objects, dates and regular expressions are never `===` to one another. In JavaScript they are when both sides are the same object; the model assumes that a value taken from the query is never the very object found in the data, which holds for queries written as literals but not for a query that reuses the data's own objects.
- Operator context: operators receive the data path and the context's extension fields (`Types.OpOptions`), not `ctx.errors`. A dialect operator that reads the error list or pushes onto it is not modelled, so `ConverterFacts.CompileSucceedsIffClean` and `ConverterFacts.NoErrorsIffClean` hold for dialects whose operators leave `ctx.errors` alone; the `compile`, `createPredicate` and RediSearch operators do.
- Array-like objects in `$all`: `Array.from` is modelled for arrays and strings, and it throws for undefined and null. Any other value, such as an object with a `length`, gives an empty array.
- TypeError messages of `Array.from`: the JavaScript engine words them, and `JsPredicate.NotIterable` carries an empty message.
- Invalid `$like` patterns in the JavaScript backend: `new RegExp(value)` throws a SyntaxError for them, but the matcher parameter `m` always returns a boolean.
- Regular expressions: `$like` matching in the JavaScript backend is a parameter `m` of the predicate semantics.
- Object elements of `$in`, `$nin` and `$all` in RediSearch: they were compiled to closures by the fold and stand as undefined in `RsFilter.ElementValues`.
- TypeError messages: a RediSearch generator that throws a TypeError (a non-string TEXT value, a non-string `$like` pattern) is `RsIndex.Thrown.GenerationTypeError`, without a message.
- `RsIndex.ToRedisSearch`: requires the query to be an object, as its declared type says.
- The `instanceof QueryValidationError` checks in RediSearch `index.ts` and `filter.ts`, and the `instanceof ConfigurationError` checks, are dead code. Compiling throws a plain `Error`, modelled as a `Failure`.
- `PARAMS` aliasing: `{ DIALECT: 2, ...options }` copies the caller's record shallowly. The model copies it as a value, so the caller's own `PARAMS` object is not changed.
- SearchOptions fields other than `DIALECT`, `PARAMS`, `SORTBY` and `LIMIT`. Also an explicit `DIALECT: undefined` in the caller's options.
- `Types.InitialExt`: the error list is kept apart from the spread fields. In `converter.ts` an `errors` field of `extendCtx()` or of `xctx` replaces the fresh `[]`, so errors would be pushed onto that array; the model always starts the call with an empty error list.
- `Grammar.CorrectedConforms`: holds only over schemas without array fields, since the corrected type gives an array field `{ $all }` where the declared one gives an array of element expressions.
- `Grammar.ExprFits`: the `$not` and `$exists` members that the declared type intersects with an array field's mapped array type are left out, since an array document has no named entries.
- The `Unnamed` clause: the model's name for a generator result that a well-formed fold never produces. It renders as a throw.
- The `fold` of the `langkit` package is not part of this model. `Folding.Fold` is a post-order fold over the document with paths, as `converter.ts` uses it.
- `reject`, `resolve` and `extendCtx` hooks are dialect parameters. Only the backends modelled here fix them.
- The Kysely backend, the typebox and zod validators, the Redis client, the test databases and every I/O path.

## Findings

| source | as written | input that shows it | evidently intended | confidence | as-written member | corrected member |
|---|---|---|---|---|---|---|
| lib/core/src/lib/types.ts:45-47 | the expression type lets `$not` hold any expression of the field's type, bare values included; the `$not` validator (validation.ts:17-22) rejects anything but a plain object | `{ age: { $not: 5 } }` for a numeric `age`: well-typed, yet every dialect that implements `$not` records UnexpectedValue, so the call throws (a plain `Error` naming it when the dialect has no `reject`) | `$not` typed as the object form of an expression, so that well-typed queries compile | not executed | Grammar.BareNotConformsButFails | Grammar.CorrectedQueriesCompile |
| lib/core/src/lib/types.ts:48-55 | `T extends object` is tested before `T extends Array<any>`; an array is an object, so an array field takes the mapped form of its array type and the `$all` arm is never reached | `{ tags: { $all: ['a'] } }` for a `string[]` field `tags`: rejected by the type, although every dialect with `$all` compiles it | the array test placed before the object test, so that array fields take `$all` | not executed | Grammar.AllUntypeable | Grammar.CorrectedQueriesCompile |
