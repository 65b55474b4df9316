/**
 What a query with WITH means: the values that WITH takes from each chosen edge, which of those
 lists it keeps, and what RETURN shows of them. Nothing else of the edge is left.
 */
module CypherCarried {
  import opened Wrappers
  import opened CypherSyntax
  import opened Walks
  import opened CypherEval
  import opened CypherMeaning
  import J = CanonicalJson

  // ---------------------------------------------------------------- meaning

  /** The edge has these values for the items. */
  ghost predicate Gives(h: Host, p: Pattern, items: seq<SelectItem>, edge: GraphEdge, values: seq<J.Value>) {
    |values| == |items| && forall i :: 0 <= i < |items| ==> Has(h, p, edge, items[i].expr, values[i])
  }

  /** Under these names and values, `x` stands for `v`: the value of its last use. */
  ghost predicate Carries(names: seq<string>, values: seq<J.Value>, x: string, v: J.Value) {
    |names| == |values| && exists i :: 0 <= i < |names| && names[i] == x && values[i] == v && forall j :: i < j < |names| ==> names[j] != x
  }

  /** The expression has this value on what WITH carried; properties and labels have none. */
  ghost predicate HasCarried(h: Host, names: seq<string>, values: seq<J.Value>, e: ValueExpr, v: J.Value) {
    match e
    case Alias(x) => Carries(names, values, x, v)
    case Text(s) => v == J.String(s)
    case Number(n) => v == J.Number(n)
    case ToInteger(inner) =>
      exists w :: HasCarried(h, names, values, inner, w) && if v.Number? then ReadsAs(h, w, v.n) else v.Null? && !IsInteger(h, w)
    case _ => false
  }

  ghost predicate HasSome(h: Host, names: seq<string>, values: seq<J.Value>, e: ValueExpr) {
    exists v :: HasCarried(h, names, values, e, v)
  }

  ghost predicate ShowsCarried(h: Host, names: seq<string>, values: seq<J.Value>, items: seq<SelectItem>) {
    forall i :: 0 <= i < |items| ==> HasSome(h, names, values, items[i].expr)
  }

  ghost predicate RowShowsCarried(h: Host, names: seq<string>, values: seq<J.Value>, items: seq<SelectItem>, row: J.Value) {
    && row.Object?
    && (forall k :: k in row.fields <==> k in Names(items))
    && forall i :: 0 <= i < |items| && LastUseOf(items, i) ==>
         items[i].name in row.fields && HasCarried(h, names, values, items[i].expr, row.fields[items[i].name])
  }

  // ---------------------------------------------------------------- evaluation on carried rows

  lemma {:induction false} CarriesIff(names: seq<string>, values: seq<J.Value>, x: string, v: J.Value)
    requires |names| == |values|
    ensures Carries(names, values, x, v) <==> x in Bind(names, values) && Bind(names, values)[x] == v
  {
    hide Bind, LastUse;
    BindKeys(names, values);
    if Carries(names, values, x, v) {
      var i :| 0 <= i < |names| && names[i] == x && values[i] == v && forall j :: i < j < |names| ==> names[j] != x;
      BindKeepsLast(names, values, i);
      assert LastUse(names, i) == i;
    }
    if x in names {
      var i :| 0 <= i < |names| && names[i] == x;
      BindKeepsLast(names, values, i);
      assert names[LastUse(names, i)] == x;
    }
  }

  lemma {:induction false} HasCarriedIff(h: Host, names: seq<string>, values: seq<J.Value>, e: ValueExpr, v: J.Value)
    requires |names| == |values|
    ensures HasCarried(h, names, values, e, v) <==> EvalValue(h, e, CarriedRow(names, values)) == Ok(v)
    decreases e
  {
    hide Carries, Bind, ReadsAs, IsInteger, AsInteger;
    match e {
      case Alias(x) => CarriesIff(names, values, x, v);
      case ToInteger(inner) =>
        var r := EvalValue(h, inner, CarriedRow(names, values));
        forall w ensures HasCarried(h, names, values, inner, w) <==> r == Ok(w) { HasCarriedIff(h, names, values, inner, w); }
        if r.Ok? {
          assert HasCarried(h, names, values, inner, r.value);
          ReadsAsIff(h, r.value, if v.Number? then v.n else 0);
        }
      case _ =>
    }
  }

  lemma {:induction false} TupleCarried(h: Host, names: seq<string>, values: seq<J.Value>, items: seq<SelectItem>)
    requires |names| == |values|
    ensures var t := Tuple(h, items, CarriedRow(names, values));
            && (t.Ok? <==> ShowsCarried(h, names, values, items))
            && (t.Ok? ==> forall i :: 0 <= i < |items| ==> HasCarried(h, names, values, items[i].expr, t.value[i]))
    decreases |items|
  {
    hide HasCarried, EvalValue, CarriedRow;
    if items != [] {
      var n := |items| - 1;
      TupleCarried(h, names, values, items[..n]);
      var last := EvalValue(h, items[n].expr, CarriedRow(names, values));
      forall v ensures HasCarried(h, names, values, items[n].expr, v) <==> last == Ok(v) { HasCarriedIff(h, names, values, items[n].expr, v); }
      assert last.Ok? ==> HasCarried(h, names, values, items[n].expr, last.value);
      assert forall i :: 0 <= i < n ==> items[..n][i] == items[i];
      assert ShowsCarried(h, names, values, items) <==> ShowsCarried(h, names, values, items[..n]) && HasSome(h, names, values, items[n].expr);
    }
  }

  lemma {:induction false} RowCarried(h: Host, names: seq<string>, values: seq<J.Value>, items: seq<SelectItem>)
    requires |names| == |values| && Tuple(h, items, CarriedRow(names, values)).Ok?
    ensures RowShowsCarried(h, names, values, items, JsonRow(Names(items), Tuple(h, items, CarriedRow(names, values)).value))
  {
    hide HasCarried, Tuple, Bind, CarriedRow, LastUse;
    var shown, columns := Tuple(h, items, CarriedRow(names, values)).value, Names(items);
    TupleCarried(h, names, values, items);
    BindKeys(columns, shown);
    forall i | 0 <= i < |items| && LastUseOf(items, i)
      ensures items[i].name in Bind(columns, shown) && HasCarried(h, names, values, items[i].expr, Bind(columns, shown)[items[i].name])
    {
      BindKeepsLast(columns, shown, i);
      assert LastUse(columns, i) == i;
    }
  }

  lemma {:induction false} TuplesCarried(h: Host, names: seq<string>, lists: seq<seq<J.Value>>, items: seq<SelectItem>)
    requires forall k :: 0 <= k < |lists| ==> |lists[k]| == |names|
    ensures var ts := Tuples(h, items, Map(t => CarriedRow(names, t), lists));
            && (ts.Ok? <==> forall k :: 0 <= k < |lists| ==> ShowsCarried(h, names, lists[k], items))
            && (ts.Ok? ==> forall k :: 0 <= k < |lists| ==> Tuple(h, items, CarriedRow(names, lists[k])) == Ok(ts.value[k]))
    decreases |lists|
  {
    hide Tuple, CarriedRow, ShowsCarried;
    if lists != [] {
      var n := |lists| - 1;
      var rows := Map(t => CarriedRow(names, t), lists);
      assert rows[..n] == Map(t => CarriedRow(names, t), lists[..n]);
      TuplesCarried(h, names, lists[..n], items);
      TupleCarried(h, names, lists[n], items);
    }
  }

  // ---------------------------------------------------------------- what WITH keeps

  /** The value lists of the chosen edges, and those that WITH keeps. */
  ghost predicate Carried(h: Host, q: Query, edges: seq<GraphEdge>, lists: seq<seq<J.Value>>, kept: seq<seq<J.Value>>)
    requires q.carried.Some?
  {
    var chosen := Chosen(h, q, edges);
    && |lists| == |chosen| && (forall k :: 0 <= k < |lists| ==> Gives(h, q.pattern, q.carried.value.items, chosen[k], lists[k]))
    && (if q.carried.value.distinct then OnlyFirsts(lists, kept) else kept == lists)
  }

  lemma {:induction false} DistinctLists(lists: seq<seq<J.Value>>, n: nat)
    requires forall k :: 0 <= k < |lists| ==> |lists[k]| == n
    ensures OnlyFirsts(lists, Firsts(lists, TupleKey))
    ensures forall k :: 0 <= k < |Firsts(lists, TupleKey)| ==> |Firsts(lists, TupleKey)[k]| == n
  {
    hide TupleKey, Firsts, Firstly;
    forall i, j | 0 <= i < |lists| && 0 <= j < |lists| ensures TupleKey(lists[i]) == TupleKey(lists[j]) <==> lists[i] == lists[j] {
      TupleKeyInjective(lists[i], lists[j]);
    }
    var at := FirstsAreFirst(lists, TupleKey);
    FirstsFromInput(lists, TupleKey);
    forall k | 0 <= k < |Firsts(lists, TupleKey)| ensures |Firsts(lists, TupleKey)[k]| == n {
      assert Firsts(lists, TupleKey)[k] in lists;
    }
  }

  /** WITH fails exactly when a chosen edge lacks a value; else it carries the lists it keeps. */
  lemma {:induction false} WithCarries(h: Host, q: Query, edges: seq<GraphEdge>) returns (lists: seq<seq<J.Value>>, kept: seq<seq<J.Value>>)
    requires q.carried.Some?
    ensures var w := q.carried.value;
            var r := ProjectEval(h, w, Matched(h, q, edges));
            && (r.Ok? <==> forall e :: e in Chosen(h, q, edges) ==> AllShow(h, q.pattern, w.items, e))
            && (r.Ok? ==>
                && Carried(h, q, edges, lists, kept) && (forall k :: 0 <= k < |kept| ==> |kept[k]| == |w.items|)
                && r.value == Map(t => CarriedRow(Names(w.items), t), kept))
  {
    hide Matched, Chosen, Tuples, Firsts, RowOf, AllShow, CarriedRow, TupleKey, OnlyFirsts;
    var w, chosen := q.carried.value, Chosen(h, q, edges);
    MatchedAreChosen(h, q, edges);
    TuplesShow(h, q.pattern, w.items, chosen);
    var tuples := Tuples(h, w.items, Matched(h, q, edges));
    lists, kept := [], [];
    if tuples.Ok? {
      lists := tuples.value;
      kept := if w.distinct then Firsts(lists, TupleKey) else lists;
      DistinctLists(lists, |w.items|);
      forall k | 0 <= k < |lists| ensures Gives(h, q.pattern, w.items, chosen[k], lists[k]) { TupleShows(h, q.pattern, w.items, chosen[k]); }
    }
  }

  // ---------------------------------------------------------------- the answers

  /**
   A query with WITH and without an aggregate fails exactly when a chosen edge lacks a value for
   WITH, or a kept list lacks one for RETURN. Otherwise it has one row for each kept list, in order.
   */
  lemma {:induction false} WithAnswers(h: Host, q: Query, edges: seq<GraphEdge>, maxRows: nat)
    returns (lists: seq<seq<J.Value>>, kept: seq<seq<J.Value>>, rows: seq<J.Value>)
    requires q.carried.Some? && !HasAggregate(q.returned.items)
    ensures var r, names := Evaluate(h, q, edges, maxRows), Names(q.carried.value.items);
            var carried := forall e :: e in Chosen(h, q, edges) ==> AllShow(h, q.pattern, q.carried.value.items, e);
            && (carried ==> Carried(h, q, edges, lists, kept))
            && (r.Ok? <==> carried && forall k :: 0 <= k < |kept| ==> ShowsCarried(h, names, kept[k], q.returned.items))
            && (r.Ok? ==>
                && |rows| == |kept| && (forall k :: 0 <= k < |rows| ==> RowShowsCarried(h, names, kept[k], q.returned.items, rows[k]))
                && r.value.columns == Names(q.returned.items)
                && Delivers(h, q, rows, maxRows, r.value))
  {
    hide Matched, Chosen, Tuples, Firsts, JsonRow, Delivers, Finish, AllShow, RowOf, Carried, ShowsCarried, RowShowsCarried, CarriedRow, ProjectEval;
    var names, items := Names(q.carried.value.items), q.returned.items;
    lists, kept := WithCarries(h, q, edges);
    rows := [];
    var carried := ProjectEval(h, q.carried.value, Matched(h, q, edges));
    if carried.Ok? {
      TuplesCarried(h, names, kept, items);
      PlainReturn(h, q.returned, carried.value);
      var tuples := Tuples(h, items, carried.value);
      if tuples.Ok? {
        rows := Map(t => JsonRow(Names(items), t), tuples.value);
        forall k | 0 <= k < |rows| ensures RowShowsCarried(h, names, kept[k], items, rows[k]) { RowCarried(h, names, kept[k], items); }
        FinishDelivers(h, q, rows, maxRows);
        FinishCuts(h, q, if q.returned.distinct then Firsts(rows, RowKey) else rows, maxRows);
      }
    }
  }

  /** After WITH, `count(*)` is the number of kept lists. */
  lemma {:induction false} WithCountAnswers(h: Host, q: Query, edges: seq<GraphEdge>, maxRows: nat, column: string)
    returns (lists: seq<seq<J.Value>>, kept: seq<seq<J.Value>>)
    requires q.carried.Some? && q.returned.items == [SelectItem(CountAll, column)]
    ensures var r := Evaluate(h, q, edges, maxRows);
            && (r.Ok? <==> forall e :: e in Chosen(h, q, edges) ==> AllShow(h, q.pattern, q.carried.value.items, e))
            && (r.Ok? ==>
                && Carried(h, q, edges, lists, kept) && r.value.columns == [column]
                && CutTo([J.Object(map[column := J.Number(|kept|)])], q.limit, maxRows, r.value.rows, r.value.truncated))
  {
    hide Matched, Chosen, Firsts, Finish, CutTo, RowOf, Carried, ProjectEval, AllShow, CarriedRow;
    lists, kept := WithCarries(h, q, edges);
    assert IsAggregate(q.returned.items[0].expr);
    OneRowDelivered(h, q, J.Object(map[column := J.Number(|kept|)]), maxRows);
  }

  ghost predicate SeenIn(h: Host, names: seq<string>, lists: seq<seq<J.Value>>, e: ValueExpr, v: J.Value) {
    exists k :: 0 <= k < |lists| && HasCarried(h, names, lists[k], e, v)
  }

  lemma {:induction false} SeenInStep(h: Host, names: seq<string>, lists: seq<seq<J.Value>>, e: ValueExpr, v: J.Value)
    requires lists != []
    ensures var n := |lists| - 1; SeenIn(h, names, lists, e, v) <==> SeenIn(h, names, lists[..n], e, v) || HasCarried(h, names, lists[n], e, v)
  {
    hide HasCarried;
    var n := |lists| - 1;
    assert forall k :: 0 <= k < n ==> lists[..n][k] == lists[k];
  }

  lemma {:induction false} HasSomeIff(h: Host, names: seq<string>, values: seq<J.Value>, e: ValueExpr)
    requires |names| == |values|
    ensures HasSome(h, names, values, e) <==> EvalValue(h, e, CarriedRow(names, values)).Ok?
  {
    hide HasCarried, EvalValue, CarriedRow;
    var r := EvalValue(h, e, CarriedRow(names, values));
    forall v ensures HasCarried(h, names, values, e, v) <==> r == Ok(v) { HasCarriedIff(h, names, values, e, v); }
    assert r.Ok? ==> HasCarried(h, names, values, e, r.value);
  }

  lemma {:induction false} NothingSeenIn(h: Host, names: seq<string>, e: ValueExpr)
    ensures AreSeenIn(h, names, [], e, {}) && KeysOfValues({}, {})
  {
    hide HasCarried;
  }

  ghost predicate AreSeenIn(h: Host, names: seq<string>, lists: seq<seq<J.Value>>, e: ValueExpr, values: set<J.Value>) {
    forall v :: v in values <==> SeenIn(h, names, lists, e, v)
  }

  lemma {:induction false} KeysCarried(h: Host, names: seq<string>, lists: seq<seq<J.Value>>, e: ValueExpr) returns (values: set<J.Value>)
    requires forall k :: 0 <= k < |lists| ==> |lists[k]| == |names|
    ensures var keys := Keys(h, e, Map(t => CarriedRow(names, t), lists));
            && (keys.Ok? <==> forall k :: 0 <= k < |lists| ==> HasSome(h, names, lists[k], e))
            && (keys.Ok? ==> KeysOfValues(keys.value, values) && AreSeenIn(h, names, lists, e, values))
    decreases |lists|
  {
    hide EvalValue, CarriedRow, J.Encode, HasSome, AreSeenIn, KeysOfValues;
    values := {};
    if lists == [] {
      NothingSeenIn(h, names, e);
    } else {
      var n := |lists| - 1;
      var rows := Map(t => CarriedRow(names, t), lists);
      assert rows[..n] == Map(t => CarriedRow(names, t), lists[..n]);
      var front := KeysCarried(h, names, lists[..n], e);
      var keys, last := Keys(h, e, rows[..n]), EvalValue(h, e, rows[n]);
      assert forall k :: 0 <= k < n ==> lists[..n][k] == lists[k];
      HasSomeIff(h, names, lists[n], e);
      if keys.Ok? && last.Ok? {
        values := front + {last.value};
        SeenInGrows(h, names, lists, e, front, last.value);
        KeyAdded(keys.value, front, last.value);
      }
    }
  }

  lemma {:induction false} SeenInGrows(h: Host, names: seq<string>, lists: seq<seq<J.Value>>, e: ValueExpr, front: set<J.Value>, value: J.Value)
    requires lists != [] && |lists[|lists| - 1]| == |names| && AreSeenIn(h, names, lists[..|lists| - 1], e, front)
    requires EvalValue(h, e, CarriedRow(names, lists[|lists| - 1])) == Ok(value)
    ensures AreSeenIn(h, names, lists, e, front + {value})
  {
    hide HasCarried, EvalValue, CarriedRow, SeenIn;
    forall v ensures v in front + {value} <==> SeenIn(h, names, lists, e, v) {
      HasCarriedIff(h, names, lists[|lists| - 1], e, v);
      SeenInStep(h, names, lists, e, v);
    }
  }

  /** After WITH, `count(DISTINCT e)` is the number of different values `e` has on the kept lists. */
  lemma {:induction false} WithCountDistinctAnswers(h: Host, q: Query, edges: seq<GraphEdge>, maxRows: nat, e: ValueExpr, column: string)
    returns (lists: seq<seq<J.Value>>, kept: seq<seq<J.Value>>, values: set<J.Value>)
    requires q.carried.Some? && q.returned.items == [SelectItem(CountDistinct(e), column)]
    ensures var r, names := Evaluate(h, q, edges, maxRows), Names(q.carried.value.items);
            var carried := forall x :: x in Chosen(h, q, edges) ==> AllShow(h, q.pattern, q.carried.value.items, x);
            && (carried ==> Carried(h, q, edges, lists, kept))
            && (r.Ok? <==> carried && forall k :: 0 <= k < |kept| ==> HasSome(h, names, kept[k], e))
            && (r.Ok? ==>
                && r.value.columns == [column] && AreSeenIn(h, names, kept, e, values)
                && CutTo([J.Object(map[column := J.Number(|values|)])], q.limit, maxRows, r.value.rows, r.value.truncated))
  {
    hide Matched, Chosen, Firsts, Finish, CutTo, RowOf, Carried, ProjectEval, AllShow, CarriedRow, Keys, AreSeenIn, HasSome;
    lists, kept := WithCarries(h, q, edges);
    assert IsAggregate(q.returned.items[0].expr);
    values := {};
    if ProjectEval(h, q.carried.value, Matched(h, q, edges)).Ok? {
      values := KeysCarried(h, Names(q.carried.value.items), kept, e);
    }
    OneRowDelivered(h, q, J.Object(map[column := J.Number(|values|)]), maxRows);
  }
}
