# ltree label paths for ROM SQL, modelled in Dafny

This project models the PostgreSQL `ltree` extension type of rom-sql
(`lib/rom/sql/extensions/postgres/types/ltree.rb`):

- `Values::LabelPath`, a struct holding the textual `path` of a hierarchical
  label path, and its `labels` method, which is Ruby's `path.split('.')`;
- the `LTree` type's coercions: `input` passes a label path through unchanged,
  `output` wraps the raw text read from the database in a `LabelPath`;
- the two operators registered for `LTree`: `match`, which builds the boolean
  expression `expr ~ query`, and `+`, which first coerces its right operand to a
  `LabelPath` and then builds the `LTree`-typed string expression
  `expr || path`, whose right operand is the raw path string.

Files:

- `values.dfy` (module `Values`): the label path, Ruby's split on `.`
  (`Fields` cuts at every separator, `DropTrailingEmpty` removes trailing
  empty fields, `Split` is their composition), `Join`, and lemmas tying them
  together.
- `sql.dfy` (module `Sql`): the SQL builder's expression terms and typed
  attributes, kept abstract (an operator symbol with its ordered arguments,
  and a result-type tag).
- `ltree.dfy` (module `Types`): `Input`, `Output`, the operand coercion of
  `+`, and the builders `Match` and `Plus`.

Ruby's `String#split` with the separator `.` keeps empty fields at the front
and in the middle and drops those at the end; in particular the empty path has
no labels at all (`Values.LabelsOfEmpty`).

## Model

| member | source | states |
|---|---|---|
| `Values.Fields` | lib/rom/sql/extensions/postgres/types/ltree.rb:7 | cutting a path at every `.` gives at least one field, and no field contains `.` |
| `Values.FieldsCount` | lib/rom/sql/extensions/postgres/types/ltree.rb:7 | a path with k separators has exactly k + 1 fields before trailing empties are dropped |
| `Values.JoinFields` | lib/rom/sql/extensions/postgres/types/ltree.rb:7 | joining the fields of any string with `.` gives the string back |
| `Values.FieldsOfJoin` | lib/rom/sql/extensions/postgres/types/ltree.rb:7 | cutting the join of one or more `.`-free fields gives back exactly those fields, so the cut is the unique `.`-free decomposition |
| `Values.FieldsOfTrailingDot` | lib/rom/sql/extensions/postgres/types/ltree.rb:7 | a trailing `.` adds exactly one empty field at the end |
| `Values.DropTrailingEmpty` | lib/rom/sql/extensions/postgres/types/ltree.rb:7 | the result is a prefix of the fields, everything cut off is empty, and the result does not end in an empty field |
| `Values.DropTrailingEmptyUnique` | lib/rom/sql/extensions/postgres/types/ltree.rb:7 | any prefix with those three properties is the one computed, so the contract pins the result down |
| `Values.DropTrailingEmptyCons` | lib/rom/sql/extensions/postgres/types/ltree.rb:7 | a leading field survives unless it is empty and no non-empty field follows |
| `Values.LabelPath.Labels` | lib/rom/sql/extensions/postgres/types/ltree.rb:5-9 | no label contains `.`, there are at most (number of `.`) + 1 labels, and the last label is never empty |
| `Values.LabelsOfEmpty` | lib/rom/sql/extensions/postgres/types/ltree.rb:6-8 | the empty path has no labels |
| `Values.LabelsOfDotFree` | lib/rom/sql/extensions/postgres/types/ltree.rb:6-8 | a non-empty path without `.` is its own single label |
| `Values.LabelsJoinRoundTrip` | lib/rom/sql/extensions/postgres/types/ltree.rb:6-8 | a non-empty path not ending in `.` is recovered exactly by joining its labels with `.` |
| `Values.LabelsCount` | lib/rom/sql/extensions/postgres/types/ltree.rb:6-8 | a non-empty path not ending in `.` has one more label than it has `.` characters |
| `Values.LabelsOfJoin` | lib/rom/sql/extensions/postgres/types/ltree.rb:6-8 | `.`-free labels whose last one is non-empty (or no labels) are recovered by splitting their join |
| `Values.LabelsDropTrailingDot` | lib/rom/sql/extensions/postgres/types/ltree.rb:6-8 | appending `.` to a path does not change its labels (trailing empty fields are dropped) |
| `Values.LabelsKeepLeadingField` | lib/rom/sql/extensions/postgres/types/ltree.rb:6-8 | the labels of `a.t` are `a` followed by the labels of `t`, except that an empty `a` vanishes when `t` has no labels |
| `Values.LabelsKeepInteriorEmpty` | lib/rom/sql/extensions/postgres/types/ltree.rb:6-8 | an empty field between two separators is kept as an empty label (`a..b` gives `a`, empty, `b`) |
| `Values.LabelsKeepLeadingEmpty` | lib/rom/sql/extensions/postgres/types/ltree.rb:6-8 | a leading `.` gives an empty first label (`.b` gives empty, `b`) |
| `Values.LabelsOfDotsOnly` | lib/rom/sql/extensions/postgres/types/ltree.rb:6-8 | a path of separators only has no labels |
| `Types.Input` | lib/rom/sql/extensions/postgres/types/ltree.rb:17-19 | writing passes the label path through, so reading its text back gives the same value |
| `Types.Output` | lib/rom/sql/extensions/postgres/types/ltree.rb:21-23 | reading wraps the raw text unchanged as the path |
| `Types.OutputInputRoundTrip` | lib/rom/sql/extensions/postgres/types/ltree.rb:17-23 | reading, writing and reading again gives the value first read |
| `Types.CoercePathOperand` | lib/rom/sql/extensions/postgres/types/ltree.rb:32-37 | an operand that is already a label path is used as is; a string becomes the label path with that text |
| `Types.CoerceIdempotent` | lib/rom/sql/extensions/postgres/types/ltree.rb:32-37 | coercing an already coerced operand changes nothing |
| `Types.CoerceTextAsPath` | lib/rom/sql/extensions/postgres/types/ltree.rb:32-37 | a string and the label path wrapping it coerce to the same value |
| `Types.Match` | lib/rom/sql/extensions/postgres/types/ltree.rb:27-29 | the result is a `Bool` attribute carrying a boolean `~` expression whose operands are the column and the unaltered query, in that order |
| `Types.MatchInjective` | lib/rom/sql/extensions/postgres/types/ltree.rb:27-29 | two `match` results are equal exactly when their columns and queries are, so no operand is lost |
| `Types.Plus` | lib/rom/sql/extensions/postgres/types/ltree.rb:31-39 | the result is an `LTree` attribute carrying a string `\|\|` expression whose operands are the column and the literal path text of the coerced right operand |
| `Types.PlusDependsOnlyOnPath` | lib/rom/sql/extensions/postgres/types/ltree.rb:31-38 | two `+` results on one column are equal exactly when the coerced right operands have the same path |
| `Types.PlusTextOrPath` | lib/rom/sql/extensions/postgres/types/ltree.rb:31-38 | `+` with a string and `+` with the label path wrapping it build the same expression |

## Left out

- The registration mechanism (`TypeExtensions.register` injecting methods per type) is replaced by one plain function per operator; the unused `type` argument of the operator methods is dropped.
- Sequel's `BooleanExpression` and `StringExpression` and their SQL rendering are a foreign library: they are modelled as abstract terms (operator symbol plus ordered arguments), and a caller's column expression as an opaque `Sql.Ident`.
- ROM's `Attribute[...]`, `.meta(sql_expr: ...)` and `SQL::Types.define` are framework wrappers: only the result-type tag (`Bool` or `LTree`) and the carried expression are modelled.
- What `~` and `||` mean inside PostgreSQL (pattern matching, path concatenation) is not modelled: the code only builds terms and never evaluates them.
- Types.Input: only a `LabelPath` is accepted; the Ruby `input` block returns any written value unchanged (a String, for example), and values other than label paths are not modelled.
- Values.LabelPath.Labels: the path is always a string; a Ruby `LabelPath` built without an argument holds `nil`, and `labels` then raises `NoMethodError`, which is not modelled.
- Types.Plus: `Sql.Str` keeps a nested `||` term as it is, whereas Sequel's `StringExpression` constructor flattens an argument that is itself a `||` expression; for a chained `+` the Sequel object has three or more operands, which the model's two-operand term does not describe.
- Types.Output: only string raw values are modelled; `to_s` of other Ruby objects (for example `nil`) is not.
- Types.CoercePathOperand: only strings and label paths are modelled as the right operand of `+`; `LabelPath.new` applied to other Ruby objects is not.
- Mutation of a `LabelPath` through the struct's `path=` writer is not modelled; values are immutable.
- Other ltree operators (ancestor and descendant containment, `match_any`, the `find_*` operators of the array type, tagged pattern arrays and a failing lookup of an unregistered operator) do not appear in this source file and are not modelled.
