# Collection and query helpers, modelled in Dafny

The repository is a small JavaScript utility library (`src/functions.js`).
This project models its core:

- **Array-of-records helpers.**
  - `getUniqueValues` collects the distinct values of one field.
  - `createData` appends a record.
  - `updateData` merges new fields into every record with a given `id`.
  - `deleteData` drops every record with a given `id`.

  Each returns `[]` when its type guard (`Array.isArray`, `typeof`) rejects an argument.
- **The Postgres filter builder.** `filterQueryFactoryPostgres` turns a list of filter objects `{column, condition, value, operator}` into a WHERE-clause string.
  - The inner `factory` overwrites the first filter's `operator` with `WHERE`, in place.
  - It looks the `condition` tag up in a table of thirteen SQL templates.
  - The fragments are joined with single spaces.

There are three modules, one per file:

- `JsValues` (`js_values.dfy`) holds:
  - JavaScript values;
  - plain objects, as maps from keys to values;
  - the property read `item[key]`, where a missing key reads as `undefined`;
  - `Arg<T>`, which stands for an argument as a type guard classifies it.
- `Collections` (`collections.dfy`) holds the four array helpers as pure functions, because the source builds new arrays and never mutates its inputs.
  - `Set` de-duplication is `Distinct`.
  - Object spread is `Merge`.
  - `Array.prototype.filter` is `Without`.
- `PostgresFilter` (`postgres_filter.dfy`) holds the template table and the join layout.
  - The pure specification is `SqlWhere`: the text the builder returns for a list of filter values.
  - The filter objects are a class, `FilterObject`, with mutable fields.
  - `factory` and the builder are methods that write `operator` in place. `Factory` is proved against `Fragment`, and the builder against `SqlWhere`.

## Model

| member | source | states |
|---|---|---|
| JsValues.Get | src/functions.js:15 | the property read `item[field]`: the record's own value under the key, `undefined` when the key is absent |
| Collections.IdOf | src/functions.js:53 | the property read `item.id`, which `updateData` and `deleteData` (line 70) match on |
| Collections.Project | src/functions.js:15 | `data.map((item) => item[field])`: one value per item, in order, each the item's `field` |
| Collections.Distinct | src/functions.js:18 | `[...new Set(values)]` has no duplicates and holds exactly the values of the input |
| Collections.DistinctInFirstOccurrenceOrder | src/functions.js:18 | the de-duplicated values keep the order in which each value first occurs |
| Collections.FirstOccurrenceOrderUnique | src/functions.js:18 | two duplicate-free lists with the same values, both in first-occurrence order, are equal, so the three properties fix the result |
| Collections.GetUniqueValues | src/functions.js:8-19 | `[]` when `data` is not an array or `field` not a string; otherwise every value of `field` across the items appears, nothing else appears, none twice, and values are in first-occurrence order |
| Collections.GetUniqueValuesCharacterized | src/functions.js:15-18 | any list with those three properties is the result of `getUniqueValues` |
| Collections.CreateData | src/functions.js:28-36 | `[]` when a guard fails; otherwise one element longer, the original items first and the new object last |
| Collections.Merge | src/functions.js:53 | `{ ...item, ...data }` has the keys of both; `data`'s values win and `item`'s other values are kept |
| Collections.UpdateItem | src/functions.js:53 | the `map` callback: an item whose `id` is not `id` is returned as is; a matching item gets the keys of both, `data`'s value under each of `data`'s keys, and its own value under every other key |
| Collections.UpdateItemIdempotent | src/functions.js:53 | merging the same data into an item twice is merging it once |
| Collections.UpdateEach | src/functions.js:53 | the `map` keeps the length and applies the update callback at every index |
| Collections.UpdateData | src/functions.js:46-54 | `[]` when a guard fails; otherwise the same length, items whose `id` matches merged with `data`, the others unchanged, and an equal array (a new array holding the same items) when no item matches |
| Collections.UpdateEachIdempotent | src/functions.js:53 | mapping the update twice is mapping it once |
| Collections.UpdateDataIdempotent | src/functions.js:46-54 | `updateData` with the same `id` and `data` twice is `updateData` once |
| Collections.Without | src/functions.js:70 | `array.filter((item) => item.id !== id)`: every kept item comes from the input and has an `id` other than `id` |
| Collections.WithoutCounts | src/functions.js:70 | the filter keeps each non-matching item exactly as often as it occurs and no matching item |
| Collections.WithoutIsSubsequence | src/functions.js:70 | the filter keeps the relative order of the items it keeps |
| Collections.WithoutNoMatch | src/functions.js:70 | when no item matches, the filter keeps every item |
| Collections.WithoutAppend | src/functions.js:70 | filtering a concatenation is concatenating the filtered parts |
| Collections.DeleteData | src/functions.js:63-71 | `[]` when `arr` is not an array; otherwise no longer than the input, each non-matching item as often as in the input, no matching item, in the input's order |
| Collections.DeleteDataNoMatch | src/functions.js:61-70 | when the id is not found, the result is an equal array (a new array holding the same items) |
| Collections.DeleteDataIdempotent | src/functions.js:63-71 | deleting twice by the same id is deleting once |
| Collections.DeleteUndoesCreate | src/functions.js:28-71 | deleting by the id of a newly created record whose id no other item has gives back an array equal to the original |
| Collections.DeleteAfterUpdate | src/functions.js:46-71 | deleting by `id` after updating by `id` with data that keeps the `id` is deleting by `id` alone |
| PostgresFilter.Tag | src/functions.js:110-124 | the key under which each of the thirteen conditions sits in the table |
| PostgresFilter.Template | src/functions.js:111-123 | the table entry for a condition: `${operator} ${column} ` followed by that condition's predicate text |
| PostgresFilter.Predicate | src/functions.js:111-123 | the text of each entry after the column: `IS NULL`, `< value`, `= 'value'`, `LIKE '%value%'` and the rest, value inserted as is |
| PostgresFilter.Fragment | src/functions.js:125 | `conditions[condition]` for a filter whose operator is settled: its template, or the empty string that `join` writes for `undefined` when the tag is not in the table |
| PostgresFilter.ParseCondition | src/functions.js:110-125 | a tag that the lookup `conditions[condition]` resolves names the condition whose key it is |
| PostgresFilter.ParseConditionExact | src/functions.js:110-125 | a tag resolves to a condition exactly when it is that condition's key, in both directions |
| PostgresFilter.PredicateShape | src/functions.js:111-123 | every template is fixed text, then, for conditions that take one, the value and fixed closing text |
| PostgresFilter.TemplateOpensWithOperator | src/functions.js:111-123 | every template opens with the operator, a space, the column and a space, with more text after |
| PostgresFilter.TemplateValueVerbatim | src/functions.js:111-123 | the value is inserted verbatim, unescaped, at a fixed offset and is followed only by the closing text |
| PostgresFilter.TemplateIgnoresValue | src/functions.js:111-113 | `empty` and `notEmpty` render the same text whatever the value |
| PostgresFilter.TemplateValueInjective | src/functions.js:111-123 | for the other conditions, the fragment determines the value |
| PostgresFilter.EndsWithMimicsContains | src/functions.js:118-119 | because the value is unescaped, `endsWith` with `v%` renders exactly as `contains` with `v` |
| PostgresFilter.FragmentEmptyIffUnknown | src/functions.js:109-127 | a filter contributes the empty string exactly when its tag is not in the table (`undefined`, which `join` renders as empty) |
| PostgresFilter.FragmentOpensWithOperator | src/functions.js:109-125 | a filter with a known tag renders as its operator, a space, its column and a space, then more |
| PostgresFilter.JoinSpace | src/functions.js:127 | `parts.join(' ')`: the parts with one space between neighbours, `""` for no parts |
| PostgresFilter.JoinSpaceLayout | src/functions.js:127 | `join(' ')` puts every part at its offset, with one space after every part but the last, and has the matching length |
| PostgresFilter.JoinSpaceAppend | src/functions.js:127 | joining one more part appends a space and that part |
| PostgresFilter.Fragments | src/functions.js:127 | `filters.map(factory)` on settled filters: one fragment per filter, in order |
| PostgresFilter.OpenClause | src/functions.js:108 | `factory` renders the first filter with operator `WHERE` and every later one unchanged |
| PostgresFilter.SqlWhere | src/functions.js:106-128 | an empty filter list gives the empty string |
| PostgresFilter.SqlWhereLayout | src/functions.js:106-128 | filter `i` renders at its offset in the query, the first with `WHERE` and later ones with their own operator, each followed by one space unless last |
| PostgresFilter.SqlWhereOpensWithWhere | src/functions.js:108-127 | a list whose first tag is known yields a query that starts with `WHERE`, the first column and a space |
| PostgresFilter.SqlWhereUnknownFirst | src/functions.js:125-127 | a first filter with an unknown tag, followed by others, yields a query that starts with a space |
| PostgresFilter.SqlWhereIgnoresFirstOperator | src/functions.js:108 | the first filter's own operator never reaches the text |
| PostgresFilter.SqlWhereAppend | src/functions.js:108-127 | a filter added after the first contributes a space and its fragment with its own operator |
| PostgresFilter.SqlWhereSingleExample | src/functions.js:106-128 | one filter `age greaterThan 18 AND` gives `WHERE age > 18` |
| PostgresFilter.FragmentsAppend | src/functions.js:127 | mapping `factory` over one more filter appends that filter's fragment |
| PostgresFilter.SettledFragments | src/functions.js:108-127 | once the first operator is `WHERE`, joining the fragments of the filters as they are gives the query |
| PostgresFilter.SettledOperators | src/functions.js:108 | setting the first operator to `WHERE` beforehand does not change the query |
| PostgresFilter.FilterObject.constructor | src/functions.js:109 | a filter object holds the four fields `column`, `condition`, `value` and `operator` |
| PostgresFilter.Snapshots | src/functions.js:109 | the values of the filter objects' fields, one per object, in order |
| PostgresFilter.Factory | src/functions.js:107-126 | `factory(filter, index)` sets `operator` to `WHERE` at index 0 and keeps it otherwise, changes nothing else, and returns the fragment of the filter's fields as they now are |
| PostgresFilter.RenderNext | src/functions.js:127 | one step of `filters.map(factory)`: the next fragment is appended and the list of rendered filters grows by that filter |
| PostgresFilter.FilterQueryFactoryPostgres | src/functions.js:106-128 | writes `WHERE` into the first filter's `operator`, leaves other objects and every other field as they were, and returns `SqlWhere` of the filters as they end; when the first object does not recur in the list, that is `SqlWhere` of the filters as passed in |

## Left out

- `generateId` is not modelled. It draws from `Math.random` and `crypto.getRandomValues`, so its result is not a function of its inputs.
- `index.js` and `webpack.config.js` are not modelled: they re-export the library and configure bundling.
- The type guards are abstracted. An argument is either of the kind the guard accepts, with its contents, or of another kind, with no contents (`Arg<T>`).
  - JavaScript's `typeof null === 'object'` and `typeof [] === 'object'` let `null` and arrays through the object guards of `createData` and `updateData`. The model has no such arguments.
  - Array elements are records (plain objects). Elements that are primitives, `null` or `undefined` are not modelled. On `null` or `undefined` elements `item[field]` and `item.id` would throw.
- Collections.GetUniqueValues: `Set` compares with SameValueZero, but the model uses structural equality. Distinct object references with equal contents are therefore one value here, and `NaN` is not modelled, because numbers are `real`.
- Collections.DeleteData and Collections.UpdateData: `item.id === id` is structural equality on `Value`, so two different objects with the same contents count as equal ids.
- Property reads see only own keys. Keys inherited from `Object.prototype` are not modelled: `item[field]` with `field` equal to `"constructor"`, and a `condition` tag such as `"toString"`, which the source would resolve to a function.
- PostgresFilter.FilterObject: `column`, `condition`, `value` and `operator` are strings. JavaScript converts other values to text inside template literals, and that conversion is not modelled.
- Floating-point numbers, `NaN` and infinities are not modelled. Number values are `real`.
- Collections.UpdateData and Collections.DeleteData: array identity is not modelled, and neither are the item objects that the new array shares with the input. `map` and `filter` always return a new array. The comments' "the original array" (src/functions.js:44 and :61) is therefore never what the code returns. The model returns an equal sequence.
- PostgresFilter.FilterQueryFactoryPostgres: the builder's unguarded paths are not modelled, because `filters` is a sequence of `FilterObject`s whose four fields are strings. Three such paths exist:
  - `filters.map` throws a TypeError when `filters` is not an array.
  - Lines 108-109 throw on a `null` or `undefined` element.
  - At an index above 0, `filter.operator = filter.operator` gives a filter without an `operator` an own `operator: undefined`, which renders as the text "undefined".
- The model follows the code where it differs from the source's comments:
  - The comment on `updateData` (src/functions.js:39 and :44) speaks of updating "an object". The code merges `data` into every record with the id, and so does the model.
  - The comment on `deleteData` (src/functions.js:57-61) speaks of removing "the object". The code drops every record with the id, and so does the model.
  - An unknown condition tag yields `undefined`, which `join` renders as the empty string. It does not raise an error.
  - The table has exactly the thirteen templates at src/functions.js:110-124, and the model has those and no others.
