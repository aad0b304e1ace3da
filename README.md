# Field comparers

A Dafny model of the typed comparer family in Grafana's `grafana-data`
package. Dashboard tables use it to order the rows of a data-frame column.
There are two layers:

- **Value comparers** take two cell values and return a signed number:
  negative when the first sorts first, zero when they are equal, positive
  otherwise.
  - `numericComparer` returns the raw difference.
  - `stringComparer` sorts empty strings last, then uses locale collation.
  - `booleanComparer` sorts `true` before `false`.
  - `timeComparer` sorts falsy values last, then compares timestamps, then date-time inputs by "is before". Anything else compares equal.
  - A shared falsy rule puts empty or absent values after present ones.
- **Index comparers** take two row positions. `fieldIndexComparer` picks
  one from the column's type tag. The comparer looks both rows up and calls
  the matching value comparer, swapping the operands when `reverse` is set.
  A column of any other type gets the natural comparer, which compares the
  positions themselves.

Files:

- `js_values.dfy` (module `JsValues`): JavaScript values, an explicit
  truthiness predicate, lodash `isNumber`, and `Host`, which holds the
  library calls the comparers make but whose internals are not modelled:
  `localeCompare`, `isDateTimeInput` and `dateTime(a).isBefore(b)`.
  `ValidHost` states what the ordering lemmas assume of them. The collation
  must be a total preorder in sign, and "is before" must be a strict order.
  `ValidHostExists` shows a host that meets these assumptions.
- `field_comparers.dfy` (module `FieldComparers`): the value comparers, the
  index comparers and their properties. Each closure that
  `fieldIndexComparer` returns becomes a value of the datatype
  `IndexComparer`, which records the captured column and reverse flag.
  Its `Compare` member is the closure body.
- `index_order.dfy` (module `IndexOrder`): what the comparers mean for the
  sort that consumes them. `Sorted` says every neighbouring pair of row
  positions is in order. Over a column where the comparer is a total
  preorder, every pair is then in order. The reverse flag reverses a sorted
  order. A column of an unknown type sorts to its original row order, and
  to exactly that order.

## Model

| member | source | states |
|---|---|---|
| `FieldComparers.FalsyComparer` | packages/grafana-data/src/field/fieldComparers.ts:67-77 | 1 exactly when `a` is falsy and `b` truthy, -1 exactly when `a` is truthy and `b` falsy, 0 exactly when both have the same truthiness |
| `FieldComparers.FalsyComparerAntisymmetric` | packages/grafana-data/src/field/fieldComparers.ts:67-77 | swapping the operands negates the result, and a value is equal to itself |
| `FieldComparers.NumericComparer` | packages/grafana-data/src/field/fieldComparers.ts:51-53 | the sign of the result is the numeric order of `a` and `b` (negative, zero, positive as `a < b`, `a == b`, `a > b`) |
| `FieldComparers.NumericComparerAntisymmetric` | packages/grafana-data/src/field/fieldComparers.ts:51-53 | the difference is 0 on equal operands, and swapping the operands negates it, magnitude included |
| `FieldComparers.StringComparer` | packages/grafana-data/src/field/fieldComparers.ts:56-61 | the empty string and any other falsy value sort after every non-empty string, two falsy values are equal, and two non-empty strings get exactly the collation result; only truthy non-strings, which lie outside the declared `string` type, are excluded |
| `FieldComparers.StringComparerIsPreorder` | packages/grafana-data/src/field/fieldComparers.ts:56-61 | under a collation that is a total preorder, the string order is reflexive, sign-antisymmetric and transitive |
| `FieldComparers.BooleanComparer` | packages/grafana-data/src/field/fieldComparers.ts:63-65 | (true, false) gives -1, (false, true) gives 1, equal booleans give 0; any other value, `null` included, sorts as its truthiness |
| `FieldComparers.BooleanComparerIsPreorder` | packages/grafana-data/src/field/fieldComparers.ts:63-65 | the boolean order is reflexive, antisymmetric and transitive on every value |
| `FieldComparers.TimeComparer` | packages/grafana-data/src/field/fieldComparers.ts:28-48 | falsy operands sort last and two falsy operands are equal; two truthy numbers are ordered by value; two truthy date-time inputs give -1 when the first is before, otherwise 1 when the second is before, otherwise 0; any other pair is 0; the function is total |
| `FieldComparers.TimeComparerAntisymmetric` | packages/grafana-data/src/field/fieldComparers.ts:28-48 | under a strict "is before", every value is equal to itself and swapping the operands flips the sign |
| `FieldComparers.TimeComparerTransitiveOnTimestamps` | packages/grafana-data/src/field/fieldComparers.ts:28-48 | on timestamps and falsy cells, "not after" is transitive |
| `FieldComparers.TimeComparerMixedNotTransitive` | packages/grafana-data/src/field/fieldComparers.ts:33-47 | a timestamp and a truthy non-date-time value compare equal by the final fallback, so "equal" is not transitive on mixed columns |
| `FieldComparers.FieldIndexComparer` | packages/grafana-data/src/field/fieldComparers.ts:10-25 | number, string, boolean and time tags each get the matching comparer over the column's values, and every other tag gets the natural comparer; the reverse flag is kept |
| `FieldComparers.IndexComparer.Compare` | packages/grafana-data/src/field/fieldComparers.ts:79-115 | per strategy, which row sorts first in each direction: numbers ascending; truthy before falsy for booleans; empty (falsy) strings last and two non-empty strings by the collation of the cells, swapped when reversed; time cells exactly by the time comparer, swapped when reversed; positions ascending for the natural comparer; reversed, each order is flipped |
| `FieldComparers.ReverseSwapsArguments` | packages/grafana-data/src/field/fieldComparers.ts:79-115 | for every column type, the reversed comparer on `(i, j)` equals the forward comparer on `(j, i)` |
| `FieldComparers.CompareReadsOnlyTwoCells` | packages/grafana-data/src/field/fieldComparers.ts:79-109 | two columns of the same type that agree at rows `i` and `j` give the same result on `(i, j)` |
| `FieldComparers.NaturalIgnoresValues` | packages/grafana-data/src/field/fieldComparers.ts:111-115 | for a column of any other type the result is `i - j`, or `j - i` when reversed, whatever the values |
| `FieldComparers.IndexComparerIsPreorder` | packages/grafana-data/src/field/fieldComparers.ts:10-115 | every comparer the dispatch returns is reflexive, sign-antisymmetric and transitive on the rows it compares (time columns: timestamps and falsy cells) |
| `FieldComparers.NumberColumnExample` | packages/grafana-data/src/field/fieldComparers.ts:95-101 | in a number column `[30, 10, 20]`, row 0 sorts after row 1, and before it when reversed |
| `IndexOrder.ReverseFlagReversesSortedOrder` | packages/grafana-data/src/field/fieldComparers.ts:79-115 | a row permutation is sorted by the reversed comparer exactly when, read backwards, it is sorted by the forward one |
| `IndexOrder.SortedIsPairwise` | packages/grafana-data/src/field/fieldComparers.ts:79-109 | in a permutation whose neighbours are in order, every earlier row compares not after every later row |
| `IndexOrder.NaturalSortKeepsRowOrder` | packages/grafana-data/src/field/fieldComparers.ts:111-115 | a permutation of all rows is sorted by the forward natural comparer exactly when it is the original row order |
| `IndexOrder.UnknownTypeSortsByRowOrder` | packages/grafana-data/src/field/fieldComparers.ts:22-23 | for a column of any other type, the only sorted permutation is the original row order, and the reversed comparer's only sorted permutation is that order reversed, whatever the values |

## Left out

- Numbers are mathematical integers. IEEE doubles are not modelled: NaN, infinities, fractions and rounding in `a - b` are absent, and so is the NaN falsiness that JavaScript gives.
- `localeCompare`, `isDateTimeInput` and `dateTime(a).isBefore(b)` are parameters (`Host`), not models. Locale collation and date parsing belong to the host runtime and to the date-time library, which are not part of this model. lodash `isNumber` is modelled as "the value is a number".
- The `Field` and `Vector` types are reduced to a type tag and a sequence read by position. A position outside the column is outside `Compare`'s precondition, because the source does no bounds checking.
- FieldComparers.IndexComparer.Compare: for number columns, the two cells compared must hold numbers. A `null`, `undefined` or string cell in a number column is not modelled, because `a - b` then goes through JavaScript's numeric coercion (`null - 5` is `-5`, `undefined - 5` is NaN).
- FieldComparers.StringComparer: a truthy non-string operand is outside the precondition, which keeps the declared `string` type. As the first operand, it makes the source throw a TypeError, because it has no `localeCompare`. As the second operand, the source would convert it to a string before collating, and that conversion is not modelled. Falsy cells of any kind are modelled and take the falsy rule.
- FieldComparers.IndexComparerIsPreorder: for time columns the preorder is proved only on timestamps and falsy cells. On mixed cells it does not hold (`TimeComparerMixedNotTransitive`). For date-time inputs it would need "is before" to be a strict weak order, which is not assumed.
- The names of the field-type tags other than number, string, boolean and time are declared in `types/dataFrame`, which is not part of this model. They are all `OtherType(name)`.
- The sort that consumes the comparers is not part of these files, so a sort is not modelled. `Sorted` states what a sort's output satisfies, and the lemmas about it stand in for the sort-level properties.
