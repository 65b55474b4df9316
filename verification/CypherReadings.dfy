/**
 What single queries list: the meaning of a comparison, a label test, NOT, LIMIT and each property,
 read off the edges.
 */
module CypherReadings {
  import opened Wrappers
  import opened CypherSyntax
  import opened Order
  import opened Walks
  import opened CypherEval
  import opened CypherMeaning
  import J = CanonicalJson

  /** `MATCH pattern WHERE filter RETURN e AS column LIMIT limit` */
  function ColumnQuery(p: Pattern, filter: Option<BoolExpr>, e: ValueExpr, column: string, limit: Option<nat>): Query {
    Query(None, p, filter, None, Projection(false, [SelectItem(e, column)]), None, limit)
  }

  /** The answer lists these values under one column, as far as the limits allow. */
  predicate Lists(r: Result<QueryResult>, column: string, values: seq<J.Value>, limit: Option<nat>, maxRows: nat) {
    && r.Ok? && r.value.columns == [column]
    && CutTo(Map(v => J.Object(map[column := v]), values), limit, maxRows, r.value.rows, r.value.truncated)
  }

  lemma {:induction false} ColumnAnswers(h: Host, p: Pattern, filter: Option<BoolExpr>, e: ValueExpr, column: string, limit: Option<nat>,
                      edges: seq<GraphEdge>, maxRows: nat, passes: GraphEdge -> bool, shown: GraphEdge -> J.Value)
    requires forall x :: x in edges ==> (passes(x) <==> Fits(p, x) && (filter.Some? ==> Comes(h, p, x, filter.value, true)))
    requires forall x :: x in edges && passes(x) ==> Has(h, p, x, e, shown(x))
    requires !IsAggregate(e)
    ensures Lists(Evaluate(h, ColumnQuery(p, filter, e, column, limit), edges, maxRows), column, Map(shown, Select(edges, passes)), limit, maxRows)
  {
    hide Evaluate, Has, Fits, Comes, Select, CutTo, Firsts, Arranged;
    var q := ColumnQuery(p, filter, e, column, limit);
    var items := q.returned.items;
    var chosen := Chosen(h, q, edges);
    SelectSame(edges, x => Wanted(h, q, x), passes);
    assert chosen == Select(edges, passes);
    var rows := QueryAnswers(h, q, edges, maxRows);
    forall x | x in chosen ensures AllShow(h, p, items, x) {
      assert Has(h, p, x, e, shown(x));
    }
    var r := Evaluate(h, q, edges, maxRows);
    assert r.Ok?;
    var kept, sorted :| DeliversBy(h, q, rows, maxRows, r.value, kept, sorted);
    forall k | 0 <= k < |rows| ensures rows[k] == J.Object(map[column := shown(chosen[k])]) {
      OneColumn(h, p, e, column, chosen[k], rows[k], shown(chosen[k]));
    }
    assert rows == Map(v => J.Object(map[column := v]), Map(shown, chosen));
    assert Names(items) == [column];
  }

  lemma {:induction false} OneColumn(h: Host, p: Pattern, e: ValueExpr, column: string, edge: GraphEdge, row: J.Value, v: J.Value)
    requires RowShows(h, p, [SelectItem(e, column)], edge, row) && Has(h, p, edge, e, v)
    ensures row == J.Object(map[column := v])
  {
    hide Has, EvalValue;
    var items := [SelectItem(e, column)];
    assert Names(items) == [column];
    assert LastUseOf(items, 0);
    HasIff(h, p, edge, e, v);
    HasIff(h, p, edge, e, row.fields[column]);
    assert row.fields == map[column := v];
  }

  /** What a comparison of a name with a text asks. */
  ghost predicate NameTest(h: Host, name: string, op: CompareOp, s: string) {
    match op
    case Eq => name == s
    case Ne => name != s
    case Contains => Holds(name, s)
    case StartsWith => Starts(name, s)
    case _ =>
      var m, n := h.integer(name), h.integer(s);
      if m.Some? && n.Some? then IntegerTest(m.value, op, n.value) else TextTest(name, op, s)
  }

  predicate IntegerTest(m: int, op: CompareOp, n: int) {
    match op
    case Lt => m < n
    case Lte => m <= n
    case Gt => m > n
    case Gte => m >= n
    case Eq => m == n
    case Ne => m != n
    case _ => false
  }

  predicate TextTest(s: string, op: CompareOp, t: string) {
    match op
    case Lt => Less(s, t)
    case Lte => Less(s, t) || s == t
    case Gt => Less(t, s)
    case Gte => Less(t, s) || s == t
    case _ => false
  }

  lemma {:induction false} NameTestIff(h: Host, name: string, op: CompareOp, s: string)
    ensures Stands(h, J.String(name), op, J.String(s)) <==> NameTest(h, name, op, s)
  {
    hide Holds, Starts, Occurs, Less;
    StandsIff(h, J.String(name), op, J.String(s));
    HoldsIff(name, s);
    StartsIff(name, s);
    LessTotal(name, s);
  }

  lemma {:induction false} HasOne(h: Host, p: Pattern, edge: GraphEdge, e: ValueExpr, v: J.Value, w: J.Value)
    requires Has(h, p, edge, e, v) && Has(h, p, edge, e, w)
    ensures v == w
  {
    hide Has, EvalValue;
    HasIff(h, p, edge, e, v);
    HasIff(h, p, edge, e, w);
  }

  lemma {:induction false} ComparesTo(h: Host, p: Pattern, edge: GraphEdge, l: ValueExpr, op: CompareOp, r: ValueExpr, v: J.Value, w: J.Value)
    requires Has(h, p, edge, l, v) && Has(h, p, edge, r, w)
    ensures Comes(h, p, edge, Compare(l, op, r), true) <==> Stands(h, v, op, w)
  {
    hide Has, Stands;
    if Comes(h, p, edge, Compare(l, op, r), true) {
      var a, b :| Has(h, p, edge, l, a) && Has(h, p, edge, r, b) && Stands(h, a, op, b);
      HasOne(h, p, edge, l, v, a);
      HasOne(h, p, edge, r, w, b);
    }
  }

  lemma {:induction false} EndNames(h: Host, p: Pattern, edge: GraphEdge)
    ensures Has(h, p, edge, Property(p.rightVar, "name"), J.String(edge.to))
    ensures p.leftVar != p.rightVar ==> Has(h, p, edge, Property(p.leftVar, "name"), J.String(edge.from))
  {
    assert StandsFor(p, edge, p.rightVar, edge.to) && NodeShows(edge.to, "name", J.String(edge.to));
    assert p.leftVar != p.rightVar ==> StandsFor(p, edge, p.leftVar, edge.from) && NodeShows(edge.from, "name", J.String(edge.from));
  }

  /**
   `WHERE a.name op 's' RETURN b.name` lists, in order, the right ends of the fitting edges whose
   left end passes the test.
   */
  lemma {:induction false} WhereName(h: Host, p: Pattern, op: CompareOp, s: string, column: string, limit: Option<nat>, edges: seq<GraphEdge>, maxRows: nat)
    requires p.leftVar != p.rightVar
    ensures var filter := Some(Compare(Property(p.leftVar, "name"), op, Text(s)));
            Lists(Evaluate(h, ColumnQuery(p, filter, Property(p.rightVar, "name"), column, limit), edges, maxRows), column,
                  Map((x: GraphEdge) => J.String(x.to), Select(edges, x => Fits(p, x) && NameTest(h, x.from, op, s))), limit, maxRows)
  {
    hide Evaluate, Has, Fits, Comes, Select, Lists, NameTest, Stands;
    var left, right := Property(p.leftVar, "name"), Text(s);
    var filter := Some(Compare(left, op, right));
    forall x | x in edges
      ensures Comes(h, p, x, filter.value, true) <==> NameTest(h, x.from, op, s)
      ensures Has(h, p, x, Property(p.rightVar, "name"), J.String(x.to))
    {
      EndNames(h, p, x);
      TextIs(h, p, x, s);
      ComparesTo(h, p, x, left, op, right, J.String(x.from), J.String(s));
      NameTestIff(h, x.from, op, s);
    }
    ColumnAnswers(h, p, filter, Property(p.rightVar, "name"), column, limit, edges, maxRows,
                  x => Fits(p, x) && NameTest(h, x.from, op, s), (x: GraphEdge) => J.String(x.to));
  }

  /** What an order comparison of a name with a number asks. */
  predicate NumberTest(h: Host, name: string, op: CompareOp, n: int) {
    var m := h.integer(name);
    if m.Some? then IntegerTest(m.value, op, n) else TextTest(name, op, h.numberKey(J.Number(n)))
  }

  predicate IsOrderTest(op: CompareOp) {
    op.Lt? || op.Lte? || op.Gt? || op.Gte?
  }

  lemma {:induction false} NumberTestIff(h: Host, name: string, op: CompareOp, n: int)
    requires IsOrderTest(op)
    ensures Stands(h, J.String(name), op, J.Number(n)) <==> NumberTest(h, name, op, n)
  {
    hide Less;
    StandsIff(h, J.String(name), op, J.Number(n));
    LessTotal(name, h.numberKey(J.Number(n)));
  }

  /** `WHERE a.name op n` with `<`, `<=`, `>` or `>=`: integer order for names that read as integers. */
  lemma {:induction false} WhereNumber(h: Host, p: Pattern, op: CompareOp, n: int, column: string, limit: Option<nat>, edges: seq<GraphEdge>, maxRows: nat)
    requires p.leftVar != p.rightVar && IsOrderTest(op)
    ensures var filter := Some(Compare(Property(p.leftVar, "name"), op, Number(n)));
            Lists(Evaluate(h, ColumnQuery(p, filter, Property(p.rightVar, "name"), column, limit), edges, maxRows), column,
                  Map((x: GraphEdge) => J.String(x.to), Select(edges, x => Fits(p, x) && NumberTest(h, x.from, op, n))), limit, maxRows)
  {
    hide Evaluate, Has, Fits, Comes, Select, Lists, NumberTest, Stands;
    var left, right := Property(p.leftVar, "name"), Number(n);
    var filter := Some(Compare(left, op, right));
    forall x | x in edges
      ensures Comes(h, p, x, filter.value, true) <==> NumberTest(h, x.from, op, n)
      ensures Has(h, p, x, Property(p.rightVar, "name"), J.String(x.to))
    {
      EndNames(h, p, x);
      NumberIs(h, p, x, n);
      ComparesTo(h, p, x, left, op, right, J.String(x.from), J.Number(n));
      NumberTestIff(h, x.from, op, n);
    }
    ColumnAnswers(h, p, filter, Property(p.rightVar, "name"), column, limit, edges, maxRows,
                  x => Fits(p, x) && NumberTest(h, x.from, op, n), (x: GraphEdge) => J.String(x.to));
  }

  lemma {:induction false} NumberIs(h: Host, p: Pattern, edge: GraphEdge, n: int)
    ensures Has(h, p, edge, Number(n), J.Number(n))
  {
  }

  lemma {:induction false} TextIs(h: Host, p: Pattern, edge: GraphEdge, s: string)
    ensures Has(h, p, edge, Text(s), J.String(s))
  {
  }

  /** `WHERE a:Label` asks for the label of the left end's kind. */
  lemma {:induction false} WhereLabel(h: Host, p: Pattern, asked: string, column: string, limit: Option<nat>, edges: seq<GraphEdge>, maxRows: nat)
    requires p.leftVar != p.rightVar
    ensures Lists(Evaluate(h, ColumnQuery(p, Some(LabelTest(p.leftVar, asked)), Property(p.rightVar, "name"), column, limit), edges, maxRows), column,
                  Map((x: GraphEdge) => J.String(x.to), Select(edges, x => Fits(p, x) && HasLabel(x.from, asked))), limit, maxRows)
  {
    hide Evaluate, Has, Fits, Select, Lists, HasLabel;
    forall x | x in edges
      ensures Comes(h, p, x, LabelTest(p.leftVar, asked), true) <==> HasLabel(x.from, asked)
      ensures Has(h, p, x, Property(p.rightVar, "name"), J.String(x.to))
    {
      EndNames(h, p, x);
      assert StandsFor(p, x, p.leftVar, x.from);
    }
    ColumnAnswers(h, p, Some(LabelTest(p.leftVar, asked)), Property(p.rightVar, "name"), column, limit, edges, maxRows,
                  x => Fits(p, x) && HasLabel(x.from, asked), (x: GraphEdge) => J.String(x.to));
  }

  /** Each relationship property returns its own column of the edge. */
  lemma {:induction false} RelationshipColumns(h: Host, p: Pattern, r: string, column: string, limit: Option<nat>, edges: seq<GraphEdge>, maxRows: nat)
    requires p.relVar == Some(r) && r != p.leftVar && r != p.rightVar
    ensures var fitting := Select(edges, x => Fits(p, x));
            var Answer := (prop: string) => Evaluate(h, ColumnQuery(p, None, Property(r, prop), column, limit), edges, maxRows);
            && Lists(Answer("predicate"), column, Map((x: GraphEdge) => J.String(x.pred), fitting), limit, maxRows)
            && Lists(Answer("factId"), column, Map((x: GraphEdge) => J.String(x.factId), fitting), limit, maxRows)
            && Lists(Answer("fact_id"), column, Map((x: GraphEdge) => J.String(x.factId), fitting), limit, maxRows)
            && Lists(Answer("from"), column, Map((x: GraphEdge) => J.String(x.from), fitting), limit, maxRows)
            && Lists(Answer("to"), column, Map((x: GraphEdge) => J.String(x.to), fitting), limit, maxRows)
            && Lists(Answer("source"), column, Map((x: GraphEdge) => J.String(x.source), fitting), limit, maxRows)
  {
    hide Evaluate, Fits, Select, Lists;
    RelationshipColumn(h, p, r, "predicate", column, limit, edges, maxRows, (x: GraphEdge) => J.String(x.pred));
    RelationshipColumn(h, p, r, "factId", column, limit, edges, maxRows, (x: GraphEdge) => J.String(x.factId));
    RelationshipColumn(h, p, r, "fact_id", column, limit, edges, maxRows, (x: GraphEdge) => J.String(x.factId));
    RelationshipColumn(h, p, r, "from", column, limit, edges, maxRows, (x: GraphEdge) => J.String(x.from));
    RelationshipColumn(h, p, r, "to", column, limit, edges, maxRows, (x: GraphEdge) => J.String(x.to));
    RelationshipColumn(h, p, r, "source", column, limit, edges, maxRows, (x: GraphEdge) => J.String(x.source));
  }

  lemma {:induction false} RelationshipColumn(h: Host, p: Pattern, r: string, prop: string, column: string, limit: Option<nat>,
                           edges: seq<GraphEdge>, maxRows: nat, shown: GraphEdge -> J.Value)
    requires p.relVar == Some(r) && r != p.leftVar && r != p.rightVar && forall x :: EdgeShows(x, prop, shown(x))
    ensures Lists(Evaluate(h, ColumnQuery(p, None, Property(r, prop), column, limit), edges, maxRows), column,
                  Map(shown, Select(edges, x => Fits(p, x))), limit, maxRows)
  {
    hide Evaluate, Fits, Select, Lists, EdgeShows, NodeShows;
    ColumnAnswers(h, p, None, Property(r, prop), column, limit, edges, maxRows, x => Fits(p, x), shown);
  }

  /** `toInteger(b.name)` lists the integer a name reads as, or null. */
  lemma {:induction false} ToIntegerColumn(h: Host, p: Pattern, column: string, limit: Option<nat>, edges: seq<GraphEdge>, maxRows: nat)
    ensures Lists(Evaluate(h, ColumnQuery(p, None, ToInteger(Property(p.rightVar, "name")), column, limit), edges, maxRows), column,
                  Map((x: GraphEdge) => if h.integer(x.to).Some? then J.Number(h.integer(x.to).value) else J.Null, Select(edges, x => Fits(p, x))), limit, maxRows)
  {
    hide Evaluate, Fits, Select, Lists, NodeShows;
    var shown := (x: GraphEdge) => if h.integer(x.to).Some? then J.Number(h.integer(x.to).value) else J.Null;
    var name := Property(p.rightVar, "name");
    forall x | x in edges ensures Has(h, p, x, ToInteger(name), shown(x)) {
      EndNames(h, p, x);
      assert Has(h, p, x, name, J.String(x.to));
    }
    ColumnAnswers(h, p, None, ToInteger(name), column, limit, edges, maxRows, x => Fits(p, x), shown);
  }

  ghost predicate Evaluates(h: Host, p: Pattern, edge: GraphEdge, b: BoolExpr) {
    Comes(h, p, edge, b, true) || Comes(h, p, edge, b, false)
  }

  ghost predicate Declined(h: Host, q: Query, b: BoolExpr, edges: seq<GraphEdge>, edge: GraphEdge) {
    Fits(q.pattern, edge) && Evaluates(h, q.pattern, edge, b) && edge !in Chosen(h, q.(filter := Some(b)), edges)
  }

  /** NOT chooses, among the fitting edges on which its operand evaluates, those the operand does not choose. */
  lemma {:induction false} NotIsComplement(h: Host, q: Query, b: BoolExpr, edges: seq<GraphEdge>)
    ensures Chosen(h, q.(filter := Some(Not(b))), edges) == Select(edges, x => Declined(h, q, b, edges, x))
  {
    hide Fits, Select;
    var other := q.(filter := Some(Not(b)));
    forall x | x in edges ensures Wanted(h, other, x) <==> Declined(h, q, b, edges, x) {
      ComesOnce(h, q.pattern, x, b);
    }
    SelectSame(edges, x => Wanted(h, other, x), x => Declined(h, q, b, edges, x));
  }

  lemma {:induction false} ComesOnce(h: Host, p: Pattern, edge: GraphEdge, b: BoolExpr)
    ensures !(Comes(h, p, edge, b, true) && Comes(h, p, edge, b, false))
  {
    hide Comes, EvalBool;
    ComesIff(h, p, edge, b, true);
    ComesIff(h, p, edge, b, false);
  }

  /** LIMIT n returns the first n rows of the same query without a limit. */
  lemma {:induction false} LimitTakesFirst(h: Host, q: Query, edges: seq<GraphEdge>, maxRows: nat, n: nat)
    ensures var all, some := Evaluate(h, q.(limit := None), edges, maxRows), Evaluate(h, q.(limit := Some(n)), edges, maxRows);
            && (all.Ok? <==> some.Ok?)
            && (all.Ok? ==> some.value.columns == all.value.columns &&
                            some.value.rows == if n < |all.value.rows| then all.value.rows[..n] else all.value.rows)
  {
    hide Matched, ProjectEval, Returned, SortRows;
    SameMatches(h, q.(limit := None), q.(limit := Some(n)), edges);
  }
}
