/** What the recursive-descent parser accepts, as functions from a token list to what is left of it. */
module CypherGrammar {
  import opened Wrappers
  import opened CypherSyntax
  import opened Decimal

  datatype Parsed<+T> = Failed | Done(value: T, rest: seq<Token>) {
    predicate IsFailure() {
      Failed?
    }

    function PropagateFailure<U>(): Parsed<U>
      requires Failed?
    {
      Failed
    }

    function Extract(): (T, seq<Token>)
      requires Done?
    {
      (value, rest)
    }
  }

  /** `consume_text` looks at the text only, whatever the token's kind. */
  predicate AtText(ts: seq<Token>, text: string) {
    ts != [] && ts[0].text == text
  }

  predicate AtKind(ts: seq<Token>, kind: TokenKind) {
    ts != [] && ts[0].kind == kind
  }

  predicate AtWord(ts: seq<Token>, word: string) {
    AtKind(ts, Ident) && SameWord(ts[0].text, word)
  }

  function ExpectText(ts: seq<Token>, text: string): (r: Parsed<()>)
    ensures r.Done? ==> |r.rest| < |ts|
  {
    if AtText(ts, text) then Done((), ts[1..]) else Failed
  }

  function ExpectWord(ts: seq<Token>, word: string): (r: Parsed<()>)
    ensures r.Done? ==> |r.rest| < |ts|
  {
    if AtWord(ts, word) then Done((), ts[1..]) else Failed
  }

  function ExpectIdent(ts: seq<Token>): (r: Parsed<string>)
    ensures r.Done? ==> |r.rest| < |ts|
  {
    if AtKind(ts, Ident) then Done(ts[0].text, ts[1..]) else Failed
  }

  function ExpectNumber(ts: seq<Token>): (r: Parsed<nat>)
    ensures r.Done? ==> |r.rest| < |ts|
  {
    if AtKind(ts, Numeral) && ts[0].text != "" && AllDigits(ts[0].text) && ParseDigits(ts[0].text) <= MAX_I64
    then Done(ParseDigits(ts[0].text), ts[1..]) else Failed
  }

  function ExpectStringLike(ts: seq<Token>): (r: Parsed<string>)
    ensures r.Done? ==> |r.rest| < |ts|
  {
    if AtKind(ts, Quoted) || AtKind(ts, Ident) then Done(ts[0].text, ts[1..]) else Failed
  }

  // ---------------------------------------------------------------- expressions

  function ParseCount(ts: seq<Token>): (r: Parsed<ValueExpr>)
    ensures r.Done? ==> |r.rest| < |ts|
    decreases |ts|, 0
  {
    var open :- ExpectText(ts, "(");
    if AtText(open.1, "*") then
      var close :- ExpectText(open.1[1..], ")");
      Done(CountAll, close.1)
    else
      var distinct :- ExpectWord(open.1, "DISTINCT");
      var inner :- ParseValue(distinct.1);
      var close :- ExpectText(inner.1, ")");
      Done(CountDistinct(inner.0), close.1)
  }

  function ParseLabels(ts: seq<Token>): (r: Parsed<ValueExpr>)
    ensures r.Done? ==> |r.rest| < |ts|
  {
    var open :- ExpectText(ts, "(");
    var name :- ExpectIdent(open.1);
    var close :- ExpectText(name.1, ")");
    Done(Labels(name.0), close.1)
  }

  function ParseToInteger(ts: seq<Token>): (r: Parsed<ValueExpr>)
    ensures r.Done? ==> |r.rest| < |ts|
    decreases |ts|, 0
  {
    var open :- ExpectText(ts, "(");
    var inner :- ParseValue(open.1);
    var close :- ExpectText(inner.1, ")");
    Done(ToInteger(inner.0), close.1)
  }

  function ParseName(ts: seq<Token>): (r: Parsed<ValueExpr>)
    ensures r.Done? ==> |r.rest| < |ts|
  {
    var name :- ExpectIdent(ts);
    if AtText(name.1, ".") then
      var prop :- ExpectIdent(name.1[1..]);
      Done(Property(name.0, prop.0), prop.1)
    else Done(Alias(name.0), name.1)
  }

  function ParseValue(ts: seq<Token>): (r: Parsed<ValueExpr>)
    ensures r.Done? ==> |r.rest| < |ts|
    decreases |ts|, 1
  {
    if AtWord(ts, "count") then ParseCount(ts[1..])
    else if AtWord(ts, "labels") then ParseLabels(ts[1..])
    else if AtWord(ts, "toInteger") then ParseToInteger(ts[1..])
    else if AtKind(ts, Quoted) then Done(Text(ts[0].text), ts[1..])
    else if AtKind(ts, Numeral) then
      var n :- ExpectNumber(ts);
      Done(Number(n.0), n.1)
    else ParseName(ts)
  }

  function ParseOp(ts: seq<Token>): (r: Parsed<CompareOp>)
    ensures r.Done? ==> |r.rest| < |ts|
  {
    if AtText(ts, "=") then Done(Eq, ts[1..])
    else if AtText(ts, "<>") then Done(Ne, ts[1..])
    else if AtText(ts, ">=") then Done(Gte, ts[1..])
    else if AtText(ts, "<=") then Done(Lte, ts[1..])
    else if AtText(ts, ">") then Done(Gt, ts[1..])
    else if AtText(ts, "<") then Done(Lt, ts[1..])
    else if AtWord(ts, "CONTAINS") then Done(Contains, ts[1..])
    else if AtWord(ts, "STARTS") then
      var rest :- ExpectWord(ts[1..], "WITH");
      Done(StartsWith, rest.1)
    else Failed
  }

  function ParseLabelTest(ts: seq<Token>): (r: Parsed<BoolExpr>)
    ensures r.Done? ==> |r.rest| < |ts|
  {
    var v :- ExpectIdent(ts);
    var colon :- ExpectText(v.1, ":");
    var name :- ExpectIdent(colon.1);
    Done(LabelTest(v.0, name.0), name.1)
  }

  function ParseComparison(ts: seq<Token>): (r: Parsed<BoolExpr>)
    ensures r.Done? ==> |r.rest| < |ts|
  {
    var lhs :- ParseValue(ts);
    var op :- ParseOp(lhs.1);
    var rhs :- ParseValue(op.1);
    Done(Compare(lhs.0, op.0, rhs.0), rhs.1)
  }

  function ParseAtom(ts: seq<Token>): (r: Parsed<BoolExpr>)
    ensures r.Done? ==> |r.rest| < |ts|
    decreases |ts|, 0
  {
    if AtText(ts, "(") then
      var inner :- ParseOr(ts[1..]);
      var close :- ExpectText(inner.1, ")");
      Done(inner.0, close.1)
    else if AtKind(ts, Ident) && AtText(ts[1..], ":") then ParseLabelTest(ts)
    else ParseComparison(ts)
  }

  function ParseNot(ts: seq<Token>): (r: Parsed<BoolExpr>)
    ensures r.Done? ==> |r.rest| < |ts|
    decreases |ts|, 1
  {
    if AtWord(ts, "NOT") then
      var inner :- ParseNot(ts[1..]);
      Done(Not(inner.0), inner.1)
    else ParseAtom(ts)
  }

  /** The `while` of `parse_and_expr`, with the operand parsed so far. */
  function AndLoop(left: BoolExpr, ts: seq<Token>): (r: Parsed<BoolExpr>)
    ensures r.Done? ==> |r.rest| <= |ts|
    decreases |ts|, 2
  {
    if AtWord(ts, "AND") then
      var right :- ParseNot(ts[1..]);
      AndLoop(And(left, right.0), right.1)
    else Done(left, ts)
  }

  function ParseAnd(ts: seq<Token>): (r: Parsed<BoolExpr>)
    ensures r.Done? ==> |r.rest| < |ts|
    decreases |ts|, 3
  {
    var first :- ParseNot(ts);
    AndLoop(first.0, first.1)
  }

  /** The `while` of `parse_or_expr`, with the operand parsed so far. */
  function OrLoop(left: BoolExpr, ts: seq<Token>): (r: Parsed<BoolExpr>)
    ensures r.Done? ==> |r.rest| <= |ts|
    decreases |ts|, 4
  {
    if AtWord(ts, "OR") then
      var right :- ParseAnd(ts[1..]);
      OrLoop(Or(left, right.0), right.1)
    else Done(left, ts)
  }

  function ParseOr(ts: seq<Token>): (r: Parsed<BoolExpr>)
    ensures r.Done? ==> |r.rest| < |ts|
    decreases |ts|, 5
  {
    var first :- ParseAnd(ts);
    OrLoop(first.0, first.1)
  }

  // ---------------------------------------------------------------- clauses

  function DefaultAlias(e: ValueExpr): string {
    match e
    case Property(v, prop) => v + "." + prop
    case Labels(v) => "labels(" + v + ")"
    case ToInteger(_) => "toInteger"
    case Text(_) => "string"
    case Number(_) => "number"
    case Alias(name) => name
    case CountAll => "count"
    case CountDistinct(_) => "count"
  }

  function ParseItem(ts: seq<Token>): (r: Parsed<SelectItem>)
    ensures r.Done? ==> |r.rest| < |ts|
  {
    var e :- ParseValue(ts);
    if AtWord(e.1, "AS") then
      var name :- ExpectIdent(e.1[1..]);
      Done(SelectItem(e.0, name.0), name.1)
    else Done(SelectItem(e.0, DefaultAlias(e.0)), e.1)
  }

  predicate AtStop(ts: seq<Token>, stops: seq<string>) {
    ts == [] || exists i :: 0 <= i < |stops| && AtWord(ts, stops[i])
  }

  /** The loop of `parse_projection_until`, with the items parsed so far. */
  function ItemsLoop(items: seq<SelectItem>, ts: seq<Token>, stops: seq<string>): (r: Parsed<seq<SelectItem>>)
    ensures r.Done? ==> |r.rest| < |ts| && |r.value| > |items|
    decreases |ts|
  {
    var item :- ParseItem(ts);
    if AtText(item.1, ",") then ItemsLoop(items + [item.0], item.1[1..], stops)
    else if AtStop(item.1, stops) then Done(items + [item.0], item.1)
    else Failed
  }

  function ParseProjection(ts: seq<Token>, stops: seq<string>): (r: Parsed<Projection>)
    ensures r.Done? ==> |r.rest| < |ts| && r.value.items != []
  {
    var distinct := AtWord(ts, "DISTINCT");
    var items :- ItemsLoop([], if distinct then ts[1..] else ts, stops);
    Done(Projection(distinct, items.0), items.1)
  }

  /** An optional `: label`. */
  function ParseLabel(ts: seq<Token>): (r: Parsed<Option<string>>)
    ensures r.Done? ==> |r.rest| <= |ts|
  {
    if AtText(ts, ":") then
      var name :- ExpectIdent(ts[1..]);
      Done(Some(name.0), name.1)
    else Done(None, ts)
  }

  function ParseNode(ts: seq<Token>): (r: Parsed<(string, Option<string>)>)
    ensures r.Done? ==> |r.rest| < |ts|
  {
    var open :- ExpectText(ts, "(");
    var v :- ExpectIdent(open.1);
    var name :- ParseLabel(v.1);
    var close :- ExpectText(name.1, ")");
    Done((v.0, name.0), close.1)
  }

  function ParseRelationship(ts: seq<Token>): (r: Parsed<(Option<string>, string)>)
    ensures r.Done? ==> |r.rest| < |ts|
  {
    var dash :- ExpectText(ts, "-");
    var open :- ExpectText(dash.1, "[");
    var named := AtKind(open.1, Ident) && AtText(open.1[1..], ":");
    var typed :- ParseRelationshipType(if named then open.1[1..] else open.1);
    Done((if named then Some(open.1[0].text) else None, typed.0), typed.1)
  }

  /** The type and the arrow, with the forms that are refused. */
  function ParseRelationshipType(ts: seq<Token>): (r: Parsed<string>)
    ensures r.Done? ==> |r.rest| < |ts|
  {
    var colon :- ExpectText(ts, ":");
    if AtText(colon.1, "*") then Failed
    else
      var name :- ExpectIdent(colon.1);
      if AtText(name.1, "|") then Failed
      else
        var close :- ExpectText(name.1, "]");
        if AtText(close.1, "<-") then Failed
        else
          var arrow :- ExpectText(close.1, "->");
          Done(name.0, arrow.1)
  }

  function ParsePattern(ts: seq<Token>): (r: Parsed<Pattern>)
    ensures r.Done? ==> |r.rest| < |ts|
  {
    if AtKind(ts, Ident) && AtText(ts[1..], "=") then Failed
    else
      var left :- ParseNode(ts);
      var rel :- ParseRelationship(left.1);
      var right :- ParseNode(rel.1);
      Done(Pattern(left.0.0, left.0.1, rel.0.0, rel.0.1, right.0.0, right.0.1), right.1)
  }

  function ParseAt(ts: seq<Token>): Parsed<Option<string>> {
    if AtWord(ts, "AS") then
      var of :- ExpectWord(ts[1..], "OF");
      var at :- ExpectStringLike(of.1);
      Done(Some(at.0), at.1)
    else Done(None, ts)
  }

  function ParseWhere(ts: seq<Token>): Parsed<Option<BoolExpr>> {
    if AtWord(ts, "WHERE") then
      var e :- ParseOr(ts[1..]);
      Done(Some(e.0), e.1)
    else Done(None, ts)
  }

  function ParseWith(ts: seq<Token>): Parsed<Option<Projection>> {
    if AtWord(ts, "WITH") then
      var p :- ParseProjection(ts[1..], ["RETURN"]);
      Done(Some(p.0), p.1)
    else Done(None, ts)
  }

  function ParseOrder(ts: seq<Token>): Parsed<Option<OrderBy>> {
    if AtWord(ts, "ORDER") then
      var start :- ExpectWord(ts[1..], "BY");
      var key :- ExpectIdent(start.1);
      if AtWord(key.1, "DESC") then Done(Some(OrderBy(key.0, true)), key.1[1..])
      else Done(Some(OrderBy(key.0, false)), if AtWord(key.1, "ASC") then key.1[1..] else key.1)
    else Done(None, ts)
  }

  function ParseLimit(ts: seq<Token>): Parsed<Option<nat>> {
    if AtWord(ts, "LIMIT") then
      var n :- ExpectNumber(ts[1..]);
      Done(Some(n.0), n.1)
    else Done(None, ts)
  }

  function ParseQuery(ts: seq<Token>): Option<Query> {
    var parsed := ParseClauses(ts);
    if parsed.Done? && parsed.rest == [] then Some(parsed.value) else None
  }

  function ParseClauses(ts: seq<Token>): Parsed<Query> {
    var at :- ParseAt(ts);
    var m :- ExpectWord(at.1, "MATCH");
    var pattern :- ParsePattern(m.1);
    var filter :- ParseWhere(pattern.1);
    var carried :- ParseWith(filter.1);
    var r :- ExpectWord(carried.1, "RETURN");
    var returned :- ParseProjection(r.1, ["ORDER", "LIMIT"]);
    var order :- ParseOrder(returned.1);
    var limit :- ParseLimit(order.1);
    Done(Query(at.0, pattern.0, filter.0, carried.0, returned.0, order.0, limit.0), limit.1)
  }
}
