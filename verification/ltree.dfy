/**
 The `LTree` column type: its coercions between the database's text and a
 `LabelPath`, and the two operators it registers, `match` (`~`) and `+`
 (`||`). Each operator is a plain function of its operands; the unused
 type argument of the Ruby operator methods is dropped.
 */
module Types {
  import opened Values
  import opened Sql

  /** Sequel operator symbols used by the ltree operators. */
  const MatchOp: string := "~"
  const ConcatOp: string := "||"

  /** Writing a value: the label path goes out as it came in, so reading
      its text back yields the same value. */
  function Input(labelPath: LabelPath): (r: LabelPath)
    ensures Output(r.path) == labelPath
  {
    labelPath
  }

  /** Reading a value: the raw text is wrapped unchanged. */
  function Output(raw: string): (r: LabelPath)
    ensures r.path == raw
  {
    LabelPath(raw)
  }

  /** The right operand of `+`: an existing label path or a string. */
  datatype PathOperand = Path(value: LabelPath) | Text(text: string)

  /** The right operand of `+` as a label path: an existing one is used as
      is, a string is wrapped. */
  function CoercePathOperand(other: PathOperand): (r: LabelPath)
    ensures other.Path? ==> r == other.value
    ensures other.Text? ==> r.path == other.text
  {
    match other
    case Path(p) => p
    case Text(s) => LabelPath(s)
  }

  /** `expr ~ query`: a boolean attribute whose operands are the column and
      the untouched query, in that order. */
  function Match(expr: Expr, query: Expr): (r: Attribute)
    ensures r.ty == Bool && WellTagged(r)
    ensures r.sqlExpr.op == MatchOp
    ensures Operands(r.sqlExpr) == [expr, query]
  {
    Attribute(Bool, Boolean(MatchOp, [expr, query]))
  }

  /** `expr || other`: an ltree attribute whose right operand is the raw path
      string of `other`, not a nested expression. */
  function Plus(expr: Expr, other: PathOperand): (r: Attribute)
    ensures r.ty == LTree && WellTagged(r)
    ensures r.sqlExpr.op == ConcatOp
    ensures Operands(r.sqlExpr) == [expr, Literal(CoercePathOperand(other).path)]
  {
    var otherValue := CoercePathOperand(other);
    Attribute(LTree, Str(ConcatOp, [expr, Literal(otherValue.path)]))
  }

  /** Coercing an already coerced operand changes nothing. */
  lemma CoerceIdempotent(other: PathOperand)
    ensures CoercePathOperand(Path(CoercePathOperand(other))) == CoercePathOperand(other)
  {
  }

  /** A string and the label path wrapping it are the same operand. */
  lemma CoerceTextAsPath(s: string)
    ensures CoercePathOperand(Text(s)) == CoercePathOperand(Path(LabelPath(s)))
  {
  }

  /** Reading back written text and writing it again is lossless. */
  lemma OutputInputRoundTrip(raw: string)
    ensures Output(Input(Output(raw)).path) == Output(raw)
  {
  }

  /** `match` keeps both of its operands: two match terms agree exactly when
      their columns and queries agree. */
  lemma MatchInjective(e1: Expr, q1: Expr, e2: Expr, q2: Expr)
    ensures Match(e1, q1) == Match(e2, q2) <==> e1 == e2 && q1 == q2
  {
  }

  /** `+` sees its right operand only through its path text: two
      concatenations on one column agree exactly when the coerced paths do,
      so a string and the label path wrapping it give the same term. */
  lemma PlusDependsOnlyOnPath(expr: Expr, o1: PathOperand, o2: PathOperand)
    ensures Plus(expr, o1) == Plus(expr, o2) <==>
            CoercePathOperand(o1).path == CoercePathOperand(o2).path
  {
  }

  /** The string form and the label-path form of the same text concatenate
      to the same term. */
  lemma PlusTextOrPath(expr: Expr, s: string)
    ensures Plus(expr, Text(s)) == Plus(expr, Path(LabelPath(s)))
  {
  }
}
