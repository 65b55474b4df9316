/** The abstract syntax of the read-only Cypher subset, and its tokens. */
module CypherSyntax {
  import opened Wrappers

  datatype TokenKind = Ident | Quoted | Numeral | Symbol

  datatype Token = Token(kind: TokenKind, text: string)

  datatype ValueExpr =
    | Property(v: string, prop: string)
    | Labels(v: string)
    | ToInteger(inner: ValueExpr)
    | Text(s: string)
    | Number(n: int)
    | Alias(name: string)
    | CountAll
    | CountDistinct(inner: ValueExpr)

  datatype CompareOp = Eq | Ne | Gt | Gte | Lt | Lte | Contains | StartsWith

  datatype BoolExpr =
    | Or(left: BoolExpr, right: BoolExpr)
    | And(left: BoolExpr, right: BoolExpr)
    | Not(operand: BoolExpr)
    | Compare(lhs: ValueExpr, op: CompareOp, rhs: ValueExpr)
    | LabelTest(v: string, name: string)

  datatype SelectItem = SelectItem(expr: ValueExpr, name: string)

  datatype Projection = Projection(distinct: bool, items: seq<SelectItem>)

  datatype Pattern = Pattern(
    leftVar: string,
    leftLabel: Option<string>,
    relVar: Option<string>,
    relType: string,
    rightVar: string,
    rightLabel: Option<string>
  )

  datatype OrderBy = OrderBy(key: string, descending: bool)

  datatype Query = Query(
    at: Option<string>,
    pattern: Pattern,
    filter: Option<BoolExpr>,
    carried: Option<Projection>,
    returned: Projection,
    order: Option<OrderBy>,
    limit: Option<nat>
  )

  const MAX_I64: int := 0x7fff_ffff_ffff_ffff

  function LowerChar(c: char): char {
    if 'A' <= c <= 'Z' then c + 32 as char else c
  }

  function UpperChar(c: char): char {
    if 'a' <= c <= 'z' then c - 32 as char else c
  }

  /** `eq_ignore_ascii_case`. */
  predicate SameWord(a: string, b: string) {
    |a| == |b| && forall i :: 0 <= i < |a| ==> LowerChar(a[i]) == LowerChar(b[i])
  }
}
