/**
 `evaluate_cypher`. What the results are about: a WITH clause that only names values can be folded
 into RETURN, and counting distinct values counts the rows of RETURN DISTINCT.
 */
module CypherEval {
  import opened Wrappers
  import opened CypherSyntax
  import opened Order
  import opened Walks
  import opened StableSorting
  import J = CanonicalJson

  /**
   What evaluation takes from the libraries: integers read from strings, the padded text of a number,
   and the text of a value that is not a string.
   */
  datatype Host = Host(
    integer: string -> Option<int>,
    numberKey: J.Value -> string,
    text: J.Value -> string
  )

  datatype EvalRow = EvalRow(entities: map<string, string>, rels: map<string, GraphEdge>, aliases: map<string, J.Value>)

  datatype QueryResult = QueryResult(columns: seq<string>, rows: seq<J.Value>, truncated: bool)

  // ---------------------------------------------------------------- values

  predicate EndsWith(s: string, end: string) {
    |end| <= |s| && s[|s| - |end|..] == end
  }

  function EntityType(name: string): string {
    if "project:" <= name then "project"
    else if "provider:" <= name then "provider"
    else if "adr:" <= name || "decision:" <= name then "decision"
    else if "file:" <= name then "file"
    else if "module:" <= name || EndsWith(name, "_mjs") then "module"
    else if EndsWith(name, "Port") then "port"
    else if "class:" <= name then "class"
    else if "method:" <= name then "method"
    else if "function:" <= name then "function"
    else "entity"
  }

  function CypherLabel(name: string): string {
    match EntityType(name)
    case "project" => "Project"
    case "provider" => "Provider"
    case "decision" => "Decision"
    case "file" => "File"
    case "module" => "Module"
    case "port" => "Port"
    case "class" => "Class"
    case "method" => "Method"
    case "function" => "Function"
    case _ => "Entity"
  }

  predicate LabelMatches(name: string, label_: string) {
    SameWord(CypherLabel(name), label_)
  }

  function NodeProperty(name: string, prop: string): Result<J.Value> {
    if prop == "name" then Ok(J.String(name))
    else if prop == "type" || prop == "kind" then Ok(J.String(EntityType(name)))
    else Err("unsupported Cypher: node property " + prop)
  }

  function EdgeProperty(edge: GraphEdge, prop: string): Result<J.Value> {
    if prop == "predicate" then Ok(J.String(edge.pred))
    else if prop == "factId" || prop == "fact_id" then Ok(J.String(edge.factId))
    else if prop == "from" then Ok(J.String(edge.from))
    else if prop == "to" then Ok(J.String(edge.to))
    else if prop == "source" then Ok(J.String(edge.source))
    else Err("unsupported Cypher: relationship property " + prop)
  }

  function AsInteger(h: Host, v: J.Value): Option<int> {
    match v
    case Number(n) => Some(n)
    case String(s) => h.integer(s)
    case _ => None
  }

  function EvalValue(h: Host, e: ValueExpr, row: EvalRow): Result<J.Value> {
    match e
    case Property(v, prop) =>
      if v in row.entities then NodeProperty(row.entities[v], prop)
      else if v in row.rels then EdgeProperty(row.rels[v], prop)
      else Err("invalid Cypher: unknown variable " + v)
    case Labels(v) =>
      if v in row.entities then Ok(J.Array([J.String(CypherLabel(row.entities[v]))]))
      else Err("invalid Cypher: unknown variable " + v)
    case ToInteger(inner) =>
      var value :- EvalValue(h, inner, row);
      var n := AsInteger(h, value);
      Ok(if n.Some? then J.Number(n.value) else J.Null)
    case Text(s) => Ok(J.String(s))
    case Number(n) => Ok(J.Number(n))
    case Alias(name) =>
      if name in row.aliases then Ok(row.aliases[name])
      else if name in row.entities then Ok(J.String(row.entities[name]))
      else Err("invalid Cypher: unknown alias or variable " + name)
    case CountAll => Err("invalid Cypher: aggregate expression is only valid in RETURN")
    case CountDistinct(_) => Err("invalid Cypher: aggregate expression is only valid in RETURN")
  }

  function ValueText(h: Host, v: J.Value): string {
    if v.String? then v.s else h.text(v)
  }

  function SortKey(h: Host, v: J.Value): string {
    match v
    case Null => ""
    case String(s) => s
    case Number(_) => h.numberKey(v)
    case Float(_) => h.numberKey(v)
    case Bool(b) => if b then "true" else "false"
    case Array(_) => J.Encode(v)
    case Object(_) => J.Encode(v)
  }

  function Ordered(op: CompareOp, less: bool, greater: bool): bool {
    match op
    case Gt => greater
    case Gte => !less
    case Lt => less
    case Lte => !greater
    case _ => false
  }

  predicate CompareValues(h: Host, left: J.Value, op: CompareOp, right: J.Value) {
    match op
    case Eq => left == right
    case Ne => left != right
    case Contains => Occurs(ValueText(h, left), ValueText(h, right))
    case StartsWith => ValueText(h, right) <= ValueText(h, left)
    case _ =>
      var l, r := AsInteger(h, left), AsInteger(h, right);
      if l.Some? && r.Some? then Ordered(op, l.value < r.value, l.value > r.value)
      else Ordered(op, Less(SortKey(h, left), SortKey(h, right)), Less(SortKey(h, right), SortKey(h, left)))
  }

  predicate Occurs(s: string, part: string) {
    exists i :: 0 <= i <= |s| && part <= s[i..]
  }

  function EvalBool(h: Host, e: BoolExpr, row: EvalRow): Result<bool> {
    match e
    case Or(l, r) =>
      var left :- EvalBool(h, l, row);
      if left then Ok(true) else EvalBool(h, r, row)
    case And(l, r) =>
      var left :- EvalBool(h, l, row);
      if left then EvalBool(h, r, row) else Ok(false)
    case Not(x) =>
      var inner :- EvalBool(h, x, row);
      Ok(!inner)
    case LabelTest(v, name) => Ok(v in row.entities && LabelMatches(row.entities[v], name))
    case Compare(l, op, r) =>
      var left :- EvalValue(h, l, row);
      var right :- EvalValue(h, r, row);
      Ok(CompareValues(h, left, op, right))
  }

  // ---------------------------------------------------------------- matching

  predicate EdgeMatches(p: Pattern, edge: GraphEdge) {
    && edge.pred == p.relType
    && (p.leftLabel.Some? ==> LabelMatches(edge.from, p.leftLabel.value))
    && (p.rightLabel.Some? ==> LabelMatches(edge.to, p.rightLabel.value))
  }

  function RowOf(p: Pattern, edge: GraphEdge): EvalRow {
    EvalRow(map[p.leftVar := edge.from][p.rightVar := edge.to], if p.relVar.Some? then map[p.relVar.value := edge] else map[], map[])
  }

  /** A row on which the condition fails to evaluate is dropped. */
  predicate Kept(h: Host, filter: Option<BoolExpr>, row: EvalRow) {
    filter.None? || EvalBool(h, filter.value, row) == Ok(true)
  }

  /** One row for each edge that fits the pattern, in order. */
  function PatternRows(p: Pattern, edges: seq<GraphEdge>): seq<EvalRow> {
    if edges == [] then []
    else
      var n := |edges| - 1;
      PatternRows(p, edges[..n]) + (if EdgeMatches(p, edges[n]) then [RowOf(p, edges[n])] else [])
  }

  function Retain(h: Host, filter: Option<BoolExpr>, rows: seq<EvalRow>): seq<EvalRow> {
    if rows == [] then []
    else
      var n := |rows| - 1;
      Retain(h, filter, rows[..n]) + (if Kept(h, filter, rows[n]) then [rows[n]] else [])
  }

  /** The rows of MATCH and WHERE. */
  function Matched(h: Host, q: Query, edges: seq<GraphEdge>): seq<EvalRow> {
    Retain(h, q.filter, PatternRows(q.pattern, edges))
  }

  // ---------------------------------------------------------------- projecting

  /** The values of a projection on one row, or the first error. */
  function Tuple(h: Host, items: seq<SelectItem>, row: EvalRow): (r: Result<seq<J.Value>>)
    ensures r.Ok? ==> |r.value| == |items|
  {
    if items == [] then Ok([])
    else
      var n := |items| - 1;
      var front :- Tuple(h, items[..n], row);
      var last :- EvalValue(h, items[n].expr, row);
      Ok(front + [last])
  }

  /** The values on every row, or the first error. */
  function Tuples(h: Host, items: seq<SelectItem>, rows: seq<EvalRow>): (r: Result<seq<seq<J.Value>>>)
    ensures r.Ok? ==> |r.value| == |rows| && forall i :: 0 <= i < |rows| ==> |r.value[i]| == |items|
  {
    if rows == [] then Ok([])
    else
      var n := |rows| - 1;
      var front :- Tuples(h, items, rows[..n]);
      var last :- Tuple(h, items, rows[n]);
      Ok(front + [last])
  }

  /** Values under their names; a repeated name keeps the last value. */
  function Bind(names: seq<string>, values: seq<J.Value>): map<string, J.Value> {
    if names == [] || |names| != |values| then map[]
    else
      var n := |names| - 1;
      Bind(names[..n], values[..n])[names[n] := values[n]]
  }

  function Names(items: seq<SelectItem>): (r: seq<string>)
    ensures |r| == |items| && forall i :: 0 <= i < |items| ==> r[i] == items[i].name
  {
    seq(|items|, i requires 0 <= i < |items| => items[i].name)
  }

  function Map<T, U>(f: T -> U, xs: seq<T>): (r: seq<U>)
    ensures |r| == |xs| && forall i :: 0 <= i < |xs| ==> r[i] == f(xs[i])
  {
    seq(|xs|, i requires 0 <= i < |xs| => f(xs[i]))
  }

  /** The elements whose key has not occurred before. */
  function Firsts<T>(xs: seq<T>, key: T -> string): seq<T> {
    if xs == [] then []
    else
      var n := |xs| - 1;
      Firsts(xs[..n], key) + (if key(xs[n]) in Map(key, xs[..n]) then [] else [xs[n]])
  }

  function JoinNul(parts: seq<string>): string {
    if parts == [] then ""
    else if |parts| == 1 then parts[0]
    else parts[0] + ([0 as char] + JoinNul(parts[1..]))
  }

  /** The key WITH DISTINCT compares rows by. */
  function TupleKey(values: seq<J.Value>): string {
    JoinNul(Map(v => J.Encode(v), values))
  }

  function RowKey(row: J.Value): string {
    J.Encode(row)
  }

  function CarriedRow(names: seq<string>, values: seq<J.Value>): EvalRow {
    EvalRow(map[], map[], Bind(names, values))
  }

  function JsonRow(names: seq<string>, values: seq<J.Value>): J.Value {
    J.Object(Bind(names, values))
  }

  function ProjectEval(h: Host, p: Projection, rows: seq<EvalRow>): Result<seq<EvalRow>> {
    var tuples :- Tuples(h, p.items, rows);
    Ok(Map(t => CarriedRow(Names(p.items), t), if p.distinct then Firsts(tuples, TupleKey) else tuples))
  }

  function ProjectJson(h: Host, p: Projection, rows: seq<EvalRow>): Result<seq<J.Value>> {
    var tuples :- Tuples(h, p.items, rows);
    Ok(Map(t => JsonRow(Names(p.items), t), tuples))
  }

  predicate IsAggregate(e: ValueExpr) {
    e.CountAll? || e.CountDistinct?
  }

  predicate HasAggregate(items: seq<SelectItem>) {
    exists i :: 0 <= i < |items| && IsAggregate(items[i].expr)
  }

  function Keys(h: Host, e: ValueExpr, rows: seq<EvalRow>): Result<set<string>> {
    if rows == [] then Ok({})
    else
      var n := |rows| - 1;
      var front :- Keys(h, e, rows[..n]);
      var value :- EvalValue(h, e, rows[n]);
      Ok(front + {J.Encode(value)})
  }

  function Aggregate(h: Host, item: SelectItem, rows: seq<EvalRow>): Result<J.Value> {
    match item.expr
    case CountAll => Ok(J.Object(map[item.name := J.Number(|rows|)]))
    case CountDistinct(e) =>
      var keys :- Keys(h, e, rows);
      Ok(J.Object(map[item.name := J.Number(|keys|)]))
    case _ => Err("invalid Cypher: expected aggregate expression")
  }

  function Truncate<T>(xs: seq<T>, n: nat): seq<T> {
    if n < |xs| then xs[..n] else xs
  }

  /** The sort key of the column a row is ordered by; a missing column counts as null. */
  function ColumnKey(h: Host, column: string, row: J.Value): string {
    SortKey(h, if row.Object? && column in row.fields then row.fields[column] else J.Null)
  }

  /** `sort_by` with the comparison of the column, reversed for DESC. */
  function SortRows(h: Host, order: OrderBy, rows: seq<J.Value>): seq<J.Value> {
    StableSort(rows, row => ColumnKey(h, order.key, row), order.descending)
  }

  /** ORDER BY, LIMIT and the row cap. */
  function Finish(h: Host, q: Query, rows: seq<J.Value>, maxRows: nat): QueryResult {
    var sorted := if q.order.Some? then SortRows(h, q.order.value, rows) else rows;
    var limited := if q.limit.Some? then Truncate(sorted, q.limit.value) else sorted;
    QueryResult(Names(q.returned.items), Truncate(limited, maxRows), |limited| > maxRows)
  }

  /** The rows of RETURN, before ordering and limits. */
  function Returned(h: Host, p: Projection, rows: seq<EvalRow>): Result<seq<J.Value>> {
    var out :-
      if !HasAggregate(p.items) then ProjectJson(h, p, rows)
      else if |p.items| != 1 then Err("unsupported Cypher: aggregate projections cannot be mixed")
      else AggregateRows(h, p.items[0], rows);
    Ok(if p.distinct then Firsts(out, RowKey) else out)
  }

  function AggregateRows(h: Host, item: SelectItem, rows: seq<EvalRow>): Result<seq<J.Value>> {
    var row :- Aggregate(h, item, rows);
    Ok([row])
  }

  function Evaluate(h: Host, q: Query, edges: seq<GraphEdge>, maxRows: nat): Result<QueryResult> {
    var matched := Matched(h, q, edges);
    var rows :- if q.carried.Some? then ProjectEval(h, q.carried.value, matched) else Ok(matched);
    var out :- Returned(h, q.returned, rows);
    Ok(Finish(h, q, out, maxRows))
  }

  // ---------------------------------------------------------------- first occurrences

  lemma {:induction false} FirstsMapped<T, U>(xs: seq<T>, key: T -> string, f: T -> U, key': U -> string)
    requires forall x, y :: x in xs && y in xs ==> (key(x) == key(y) <==> key'(f(x)) == key'(f(y)))
    ensures Map(f, Firsts(xs, key)) == Firsts(Map(f, xs), key')
  {
    if xs != [] {
      hide Firsts, Map;
      var front, x := xs[..|xs| - 1], xs[|xs| - 1];
      assert xs == front + [x];
      FirstsMapped(front, key, f, key');
      KeyOccurs(front, x, key, f, key');
      FirstsSnoc(front, x, key);
      MapStep(f, front, x);
      MapStep(f, Firsts(front, key), x);
      FirstsSnoc(Map(f, front), f(x), key');
    }
  }

  lemma {:induction false} KeyOccurs<T, U>(xs: seq<T>, x: T, key: T -> string, f: T -> U, key': U -> string)
    requires forall y :: y in xs ==> (key(y) == key(x) <==> key'(f(y)) == key'(f(x)))
    ensures key(x) in Map(key, xs) <==> key'(f(x)) in Map(key', Map(f, xs))
  {
    var a, b := Map(key, xs), Map(key', Map(f, xs));
    forall i | 0 <= i < |xs| ensures a[i] == key(x) <==> b[i] == key'(f(x)) {
      assert xs[i] in xs;
    }
  }

  lemma {:induction false} FirstsFromInput<T>(xs: seq<T>, key: T -> string)
    ensures forall x :: x in Firsts(xs, key) ==> x in xs
  {
    if xs != [] {
      FirstsFromInput(xs[..|xs| - 1], key);
    }
  }

  ghost predicate DistinctKeys<T(!new)>(xs: seq<T>, key: T -> string) {
    forall i, j :: 0 <= i < j < |xs| ==> key(xs[i]) != key(xs[j])
  }

  lemma {:induction false} DistinctKeysGrow<T(!new)>(xs: seq<T>, x: T, key: T -> string)
    requires DistinctKeys(xs, key) && key(x) !in Map(key, xs)
    ensures DistinctKeys(xs + [x], key)
  {
    var ys := xs + [x];
    forall i, j | 0 <= i < j < |ys| ensures key(ys[i]) != key(ys[j]) {
      assert ys[i] == xs[i] && Map(key, xs)[i] == key(xs[i]);
    }
  }

  /** The kept elements have different keys, and all keys are kept. */
  lemma {:induction false} FirstsKeys<T(!new)>(xs: seq<T>, key: T -> string)
    ensures DistinctKeys(Firsts(xs, key), key)
    ensures forall k :: k in Map(key, Firsts(xs, key)) <==> k in Map(key, xs)
  {
    hide DistinctKeys;
    if xs == [] {
      assert DistinctKeys([], key) by { NothingRepeats(key); }
    } else {
      var n := |xs| - 1;
      FirstsKeys(xs[..n], key);
      var front, ys := Firsts(xs[..n], key), Firsts(xs, key);
      assert Map(key, xs) == Map(key, xs[..n]) + [key(xs[n])];
      if key(xs[n]) in Map(key, xs[..n]) {
        assert ys == front;
      } else {
        DistinctKeysGrow(front, xs[n], key);
        assert Map(key, ys) == Map(key, front) + [key(xs[n])];
      }
    }
  }

  lemma {:induction false} NothingRepeats<T(!new)>(key: T -> string)
    ensures DistinctKeys([], key)
  {
  }

  function KeySet<T>(xs: seq<T>, key: T -> string): set<string> {
    set k | k in Map(key, xs)
  }

  lemma {:induction false} FirstsCount<T>(xs: seq<T>, key: T -> string)
    ensures |Firsts(xs, key)| == |KeySet(xs, key)|
  {
    if xs == [] {
      assert KeySet(xs, key) == {};
    } else {
      hide Firsts, Map;
      var front, x := xs[..|xs| - 1], xs[|xs| - 1];
      assert xs == front + [x];
      FirstsCount(front, key);
      FirstsSnoc(front, x, key);
      KeySetGrows(front, x, key);
      assert key(x) in Map(key, front) <==> key(x) in KeySet(front, key);
    }
  }

  // ---------------------------------------------------------------- keys

  ghost predicate NoNul(s: string) {
    forall i :: 0 <= i < |s| ==> s[i] != 0 as char
  }

  lemma {:induction false} SplitAtNul(a: string, b: string, x: string, y: string)
    requires NoNul(a) && NoNul(b) && a + ([0 as char] + x) == b + ([0 as char] + y)
    ensures a == b && x == y
  {
    var s, t := a + ([0 as char] + x), b + ([0 as char] + y);
    assert s[|a|] == 0 as char && t[|b|] == 0 as char;
    assert forall i :: 0 <= i < |a| ==> s[i] == a[i];
    assert forall i :: 0 <= i < |b| ==> t[i] == b[i];
    assert |a| == |b|;
    assert a == s[..|a|] && b == t[..|b|];
    assert x == s[|a| + 1..] && y == t[|b| + 1..];
  }

  lemma {:induction false} JoinNulInjective(a: seq<string>, b: seq<string>)
    requires |a| == |b| && (forall i :: 0 <= i < |a| ==> NoNul(a[i]) && NoNul(b[i]))
    requires JoinNul(a) == JoinNul(b)
    ensures a == b
  {
    if |a| > 1 {
      SplitAtNul(a[0], b[0], JoinNul(a[1..]), JoinNul(b[1..]));
      JoinNulInjective(a[1..], b[1..]);
      assert a == [a[0]] + a[1..] && b == [b[0]] + b[1..];
    }
  }

  lemma {:induction false} EncodeHasNoNul(v: J.Value)
    ensures NoNul(J.Encode(v))
  {
    hide J.Encode;
    J.EncodePrintable(v);
    var t := J.Encode(v);
    assert forall i :: 0 <= i < |t| ==> !J.IsControl(t[i]);
  }

  /** The NUL-joined key identifies the values. */
  lemma {:induction false} TupleKeyInjective(s: seq<J.Value>, t: seq<J.Value>)
    requires |s| == |t|
    ensures TupleKey(s) == TupleKey(t) <==> s == t
  {
    hide J.Encode, NoNul, JoinNul;
    if TupleKey(s) == TupleKey(t) {
      var a, b := Map(v => J.Encode(v), s), Map(v => J.Encode(v), t);
      forall i | 0 <= i < |a| ensures NoNul(a[i]) && NoNul(b[i]) {
        EncodeHasNoNul(s[i]);
        EncodeHasNoNul(t[i]);
      }
      JoinNulInjective(a, b);
      forall i | 0 <= i < |s| ensures s[i] == t[i] {
        assert a[i] == b[i];
        J.EncodeInjective(s[i], t[i]);
      }
    }
  }

  ghost predicate Distinct(names: seq<string>) {
    forall i, j :: 0 <= i < j < |names| ==> names[i] != names[j]
  }

  lemma {:induction false} BindKeys(names: seq<string>, values: seq<J.Value>)
    requires |names| == |values|
    ensures forall k :: k in Bind(names, values) <==> k in names
  {
    if names != [] {
      var n := |names| - 1;
      BindKeys(names[..n], values[..n]);
      assert names == names[..n] + [names[n]];
    }
  }

  /** Distinct names keep every value. */
  lemma {:induction false} BindLooksUp(names: seq<string>, values: seq<J.Value>, i: nat)
    requires |names| == |values| && i < |names| && Distinct(names)
    ensures names[i] in Bind(names, values) && Bind(names, values)[names[i]] == values[i]
  {
    var n := |names| - 1;
    if i < n {
      BindLooksUp(names[..n], values[..n], i);
      assert names[..n][i] == names[i] && names[i] != names[n];
    }
  }

  lemma {:induction false} RowKeyInjective(names: seq<string>, s: seq<J.Value>, t: seq<J.Value>)
    requires |s| == |t| == |names| && Distinct(names)
    ensures RowKey(JsonRow(names, s)) == RowKey(JsonRow(names, t)) <==> s == t
  {
    hide J.Encode, Bind;
    J.EncodeInjective(JsonRow(names, s), JsonRow(names, t));
    if Bind(names, s) == Bind(names, t) {
      forall i | 0 <= i < |s| ensures s[i] == t[i] {
        BindLooksUp(names, s, i);
        BindLooksUp(names, t, i);
      }
    }
  }

  // ---------------------------------------------------------------- folding WITH into RETURN

  /** RETURN items that pick the carried names `from` and show them as `to`. */
  function Rename(from: seq<string>, to: seq<string>): (r: seq<SelectItem>)
    requires |from| == |to|
    ensures |r| == |from| && forall i :: 0 <= i < |from| ==> r[i] == SelectItem(Alias(from[i]), to[i])
  {
    seq(|from|, i requires 0 <= i < |from| => SelectItem(Alias(from[i]), to[i]))
  }

  function Named(exprs: seq<ValueExpr>, names: seq<string>): (r: seq<SelectItem>)
    requires |exprs| == |names|
    ensures |r| == |exprs| && forall i :: 0 <= i < |exprs| ==> r[i] == SelectItem(exprs[i], names[i])
  {
    seq(|exprs|, i requires 0 <= i < |exprs| => SelectItem(exprs[i], names[i]))
  }

  lemma {:induction false} TupleIgnoresNames(h: Host, a: seq<SelectItem>, b: seq<SelectItem>, row: EvalRow)
    requires |a| == |b| && forall i :: 0 <= i < |a| ==> a[i].expr == b[i].expr
    ensures Tuple(h, a, row) == Tuple(h, b, row)
  {
    hide EvalValue;
    if a != [] {
      TupleIgnoresNames(h, a[..|a| - 1], b[..|b| - 1], row);
    }
  }

  lemma {:induction false} TuplesIgnoreNames(h: Host, a: seq<SelectItem>, b: seq<SelectItem>, rows: seq<EvalRow>)
    requires |a| == |b| && forall i :: 0 <= i < |a| ==> a[i].expr == b[i].expr
    ensures Tuples(h, a, rows) == Tuples(h, b, rows)
  {
    hide Tuple;
    if rows != [] {
      TuplesIgnoreNames(h, a, b, rows[..|rows| - 1]);
      TupleIgnoresNames(h, a, b, rows[|rows| - 1]);
    }
  }

  lemma {:induction false} CarriedTuple(h: Host, items: seq<SelectItem>, row: EvalRow, values: seq<J.Value>)
    requires |items| == |values|
    requires forall i :: 0 <= i < |items| ==> EvalValue(h, items[i].expr, row) == Ok(values[i])
    ensures Tuple(h, items, row) == Ok(values)
  {
    hide EvalValue;
    if items != [] {
      var n := |items| - 1;
      CarriedTuple(h, items[..n], row, values[..n]);
      assert values == values[..n] + [values[n]];
    }
  }

  /** Reading the carried names gives the carried values back. */
  lemma {:induction false} CarriedTuples(h: Host, from: seq<string>, to: seq<string>, tuples: seq<seq<J.Value>>)
    requires |from| == |to| && Distinct(from) && forall i :: 0 <= i < |tuples| ==> |tuples[i]| == |from|
    ensures Tuples(h, Rename(from, to), Map(t => CarriedRow(from, t), tuples)) == Ok(tuples)
  {
    hide Tuple, Bind;
    if tuples != [] {
      var n := |tuples| - 1;
      var rows, items, t := Map(t => CarriedRow(from, t), tuples), Rename(from, to), tuples[n];
      assert rows[..n] == Map(t => CarriedRow(from, t), tuples[..n]);
      CarriedTuples(h, from, to, tuples[..n]);
      forall i | 0 <= i < |items| ensures EvalValue(h, items[i].expr, rows[n]) == Ok(t[i]) {
        BindLooksUp(from, t, i);
      }
      CarriedTuple(h, items, rows[n], t);
      assert tuples == tuples[..n] + [t];
    }
  }

  /** Dropping repeated values and then naming them is naming them and then dropping repeated rows. */
  lemma {:induction false} DistinctThenName(names: seq<string>, tuples: seq<seq<J.Value>>)
    requires Distinct(names) && forall t :: t in tuples ==> |t| == |names|
    ensures var f := t => JsonRow(names, t);
            Map(f, Firsts(tuples, TupleKey)) == Firsts(Map(f, tuples), RowKey)
  {
    hide TupleKey, JsonRow, RowKey, Firsts;
    forall s, t | s in tuples && t in tuples
      ensures TupleKey(s) == TupleKey(t) <==> RowKey(JsonRow(names, s)) == RowKey(JsonRow(names, t))
    {
      TupleKeyInjective(s, t);
      RowKeyInjective(names, s, t);
    }
    FirstsMapped(tuples, TupleKey, t => JsonRow(names, t), RowKey);
  }

  function WithQuery(q: Query, exprs: seq<ValueExpr>, from: seq<string>, to: seq<string>, carry: bool, show: bool): Query
    requires |exprs| == |from| == |to|
  {
    q.(carried := Some(Projection(carry, Named(exprs, from))), returned := Projection(show, Rename(from, to)))
  }

  function DirectQuery(q: Query, exprs: seq<ValueExpr>, to: seq<string>, distinct: bool): Query
    requires |exprs| == |to|
  {
    q.(carried := None, returned := Projection(distinct, Named(exprs, to)))
  }

  lemma {:induction false} PlainReturn(h: Host, p: Projection, rows: seq<EvalRow>)
    requires forall i :: 0 <= i < |p.items| ==> !IsAggregate(p.items[i].expr)
    ensures var tuples := Tuples(h, p.items, rows);
            Returned(h, p, rows) ==
            if tuples.Err? then Err(tuples.error)
            else Ok(Shown(Names(p.items), p.distinct, tuples.value))
  {
    hide Tuples, JsonRow, Firsts, AggregateRows;
  }

  function Shown(names: seq<string>, distinct: bool, tuples: seq<seq<J.Value>>): seq<J.Value> {
    var rows := Map(t => JsonRow(names, t), tuples);
    if distinct then Firsts(rows, RowKey) else rows
  }

  /** Dropping repeated values first changes nothing that RETURN DISTINCT, or distinct names, would show. */
  lemma {:induction false} ShownAfterDistinct(names: seq<string>, show: bool, tuples: seq<seq<J.Value>>)
    requires (!show ==> Distinct(names)) && forall t :: t in tuples ==> |t| == |names|
    ensures Shown(names, show, Firsts(tuples, TupleKey)) == Shown(names, true, tuples)
  {
    hide TupleKey, JsonRow, RowKey, Firsts;
    var f := t => JsonRow(names, t);
    if show {
      forall s, t | s in tuples && t in tuples && TupleKey(s) == TupleKey(t) ensures RowKey(f(s)) == RowKey(f(t)) {
        TupleKeyInjective(s, t);
      }
      FirstsThroughFiner(tuples, TupleKey, f, RowKey);
    } else {
      DistinctThenName(names, tuples);
    }
  }

  /** Dropping repeats by a finer key first does not change what a coarser key keeps. */
  lemma {:induction false} FirstsThroughFiner<T(!new), U>(xs: seq<T>, key: T -> string, f: T -> U, key': U -> string)
    requires forall x, y :: x in xs && y in xs && key(x) == key(y) ==> key'(f(x)) == key'(f(y))
    ensures Firsts(Map(f, Firsts(xs, key)), key') == Firsts(Map(f, xs), key')
  {
    if xs != [] {
      hide Firsts, Map;
      var front, x := xs[..|xs| - 1], xs[|xs| - 1];
      assert xs == front + [x];
      FirstsThroughFiner(front, key, f, key');
      KeptKeysAgree(front, x, key, f, key');
      var kept := Firsts(front, key);
      FirstsSnoc(front, x, key);
      MapStep(f, front, x);
      FirstsSnoc(Map(f, front), f(x), key');
      MapStep(f, kept, x);
      FirstsSnoc(Map(f, kept), f(x), key');
    }
  }

  lemma {:induction false} FirstsSnoc<T>(xs: seq<T>, x: T, key: T -> string)
    ensures Firsts(xs + [x], key) == if key(x) in Map(key, xs) then Firsts(xs, key) else Firsts(xs, key) + [x]
  {
    assert (xs + [x])[..|xs|] == xs;
  }

  /** A coarser key occurs among the kept elements iff it occurs at all. */
  lemma {:induction false} KeptKeysAgree<T(!new), U>(xs: seq<T>, x: T, key: T -> string, f: T -> U, key': U -> string)
    requires forall a, b :: (a in xs || a == x) && (b in xs || b == x) && key(a) == key(b) ==> key'(f(a)) == key'(f(b))
    ensures key'(f(x)) in Map(key', Map(f, Firsts(xs, key))) <==> key'(f(x)) in Map(key', Map(f, xs))
    ensures key(x) in Map(key, xs) ==> key'(f(x)) in Map(key', Map(f, xs))
  {
    hide Firsts;
    var kept := Firsts(xs, key);
    FirstsFromInput(xs, key);
    FirstsKeys(xs, key);
    var target := key'(f(x));
    if target in Map(key', Map(f, kept)) {
      var i :| 0 <= i < |kept| && key'(f(kept[i])) == target;
      assert kept[i] in xs;
      var j :| 0 <= j < |xs| && xs[j] == kept[i];
      assert Map(key', Map(f, xs))[j] == target;
    }
    if target in Map(key', Map(f, xs)) {
      var j :| 0 <= j < |xs| && key'(f(xs[j])) == target;
      assert Map(key, xs)[j] == key(xs[j]);
      assert key(xs[j]) in Map(key, kept);
      var i :| 0 <= i < |kept| && key(kept[i]) == key(xs[j]);
      assert kept[i] in xs && xs[j] in xs;
      assert Map(key', Map(f, kept))[i] == target;
    }
    if key(x) in Map(key, xs) {
      var j :| 0 <= j < |xs| && key(xs[j]) == key(x);
      assert xs[j] in xs;
      assert Map(key', Map(f, xs))[j] == target;
    }
  }

  /** RETURN after WITH, on the rows themselves. */
  lemma {:induction false} FoldRows(h: Host, exprs: seq<ValueExpr>, from: seq<string>, to: seq<string>, carry: bool, show: bool, rows: seq<EvalRow>)
    requires |exprs| == |from| == |to| && Distinct(from) && (carry && !show ==> Distinct(to))
    requires forall i :: 0 <= i < |exprs| ==> !IsAggregate(exprs[i])
    ensures var carried := ProjectEval(h, Projection(carry, Named(exprs, from)), rows);
            var direct := Returned(h, Projection(carry || show, Named(exprs, to)), rows);
            if carried.Err? then direct == Err(carried.error)
            else Returned(h, Projection(show, Rename(from, to)), carried.value) == direct
  {
    hide Tuples, TupleKey, Firsts, CarriedRow, Shown, Returned, Distinct;
    var with, shown, direct := Named(exprs, from), Rename(from, to), Named(exprs, to);
    TuplesIgnoreNames(h, with, direct, rows);
    PlainReturn(h, Projection(carry || show, direct), rows);
    var all := Tuples(h, with, rows);
    if all.Ok? {
      var kept := if carry then Firsts(all.value, TupleKey) else all.value;
      FirstsFromInput(all.value, TupleKey);
      assert forall i :: 0 <= i < |kept| ==> kept[i] in all.value;
      assert Names(with) == from && Names(shown) == to && Names(direct) == to;
      CarriedTuples(h, from, to, kept);
      PlainReturn(h, Projection(show, shown), Map(t => CarriedRow(from, t), kept));
      if carry {
        ShownAfterDistinct(to, show, all.value);
      }
    }
  }

  /**
   `WITH [DISTINCT] e AS a RETURN [DISTINCT] a AS b` is `RETURN [DISTINCT] e AS b`: same columns,
   rows, order, limits and errors.
   */
  lemma {:induction false} WithFoldsIntoReturn(
    h: Host, q: Query, exprs: seq<ValueExpr>, from: seq<string>, to: seq<string>, carry: bool, show: bool, edges: seq<GraphEdge>, maxRows: nat)
    requires |exprs| == |from| == |to| && Distinct(from) && (carry && !show ==> Distinct(to))
    requires forall i :: 0 <= i < |exprs| ==> !IsAggregate(exprs[i])
    ensures Evaluate(h, WithQuery(q, exprs, from, to, carry, show), edges, maxRows) ==
            Evaluate(h, DirectQuery(q, exprs, to, carry || show), edges, maxRows)
  {
    hide Matched, ProjectEval, Returned;
    var w, d := WithQuery(q, exprs, from, to, carry, show), DirectQuery(q, exprs, to, carry || show);
    assert Names(w.returned.items) == to && Names(d.returned.items) == to;
    SameMatches(h, w, d, edges);
    FoldRows(h, exprs, from, to, carry, show, Matched(h, w, edges));
  }

  lemma {:induction false} SameMatches(h: Host, q: Query, r: Query, edges: seq<GraphEdge>)
    requires q.pattern == r.pattern && q.filter == r.filter
    ensures Matched(h, q, edges) == Matched(h, r, edges)
  {
  }

  // ---------------------------------------------------------------- counting distinct values

  function OneKey(values: seq<J.Value>): string {
    if |values| == 1 then J.Encode(values[0]) else ""
  }

  lemma {:induction false} KeysAreTupleKeys(h: Host, item: SelectItem, rows: seq<EvalRow>)
    ensures var tuples := Tuples(h, [item], rows);
            Keys(h, item.expr, rows) == if tuples.Ok? then Ok(KeySet(tuples.value, OneKey)) else Err(tuples.error)
  {
    hide EvalValue, J.Encode;
    if rows == [] {
      assert KeySet<seq<J.Value>>([], OneKey) == {};
    } else {
      var n := |rows| - 1;
      KeysAreTupleKeys(h, item, rows[..n]);
      var front, value := Tuples(h, [item], rows[..n]), EvalValue(h, item.expr, rows[n]);
      SingleTuple(h, item, rows[n]);
      if front.Ok? && value.Ok? {
        KeySetGrows(front.value, [value.value], OneKey);
      }
    }
  }

  lemma {:induction false} SingleTuple(h: Host, item: SelectItem, row: EvalRow)
    ensures var value := EvalValue(h, item.expr, row);
            Tuple(h, [item], row) == if value.Ok? then Ok([value.value]) else Err(value.error)
  {
    hide EvalValue;
    assert [item][..0] == [];
    assert Tuple(h, [item][..0], row) == Ok([]);
    var value := EvalValue(h, item.expr, row);
    if value.Ok? {
      assert [] + [value.value] == [value.value];
    }
  }

  lemma {:induction false} KeySetGrows<T>(xs: seq<T>, x: T, key: T -> string)
    ensures KeySet(xs + [x], key) == KeySet(xs, key) + {key(x)}
  {
    assert Map(key, xs + [x]) == Map(key, xs) + [key(x)];
  }

  /** `count(DISTINCT e)` is the number of rows of `RETURN DISTINCT e`, errors included. */
  lemma {:induction false} CountDistinctCountsRows(h: Host, e: ValueExpr, counted: string, shown: string, rows: seq<EvalRow>)
    requires !IsAggregate(e)
    ensures var listed := Returned(h, Projection(true, [SelectItem(e, shown)]), rows);
            Returned(h, Projection(false, [SelectItem(CountDistinct(e), counted)]), rows) ==
            if listed.Ok? then Ok([J.Object(map[counted := J.Number(|listed.value|)])]) else Err(listed.error)
  {
    hide Tuples, Keys, RowKey, JsonRow, Firsts, OneKey, KeySet;
    var item, count := SelectItem(e, shown), SelectItem(CountDistinct(e), counted);
    var names := Names([item]);
    assert names == [shown];
    assert IsAggregate([count][0].expr);
    KeysAreTupleKeys(h, item, rows);
    var tuples := Tuples(h, [item], rows);
    if tuples.Ok? {
      var f := t => JsonRow(names, t);
      forall s, t | s in tuples.value && t in tuples.value
        ensures OneKey(s) == OneKey(t) <==> RowKey(JsonRow(names, s)) == RowKey(JsonRow(names, t))
      {
        RowKeyInjective(names, s, t);
        OneKeyInjective(s, t);
      }
      FirstsMapped(tuples.value, OneKey, f, RowKey);
      FirstsCount(tuples.value, OneKey);
    }
  }

  lemma {:induction false} OneKeyInjective(s: seq<J.Value>, t: seq<J.Value>)
    requires |s| == |t| == 1
    ensures OneKey(s) == OneKey(t) <==> s == t
  {
    hide J.Encode;
    J.EncodeInjective(s[0], t[0]);
    assert s == [s[0]] && t == [t[0]];
  }

  // ---------------------------------------------------------------- limits of the two laws

  /** The last position that uses the name at `i`. */
  function LastUse(names: seq<string>, i: nat): (j: nat)
    requires i < |names|
    ensures i <= j < |names| && names[j] == names[i] && forall k :: j < k < |names| ==> names[k] != names[i]
    decreases |names|
  {
    var n := |names| - 1;
    if names[n] == names[i] then n else LastUse(names[..n], i)
  }

  /** A repeated name keeps the value of its last use. */
  lemma {:induction false} BindKeepsLast(names: seq<string>, values: seq<J.Value>, i: nat)
    requires |names| == |values| && i < |names|
    ensures names[i] in Bind(names, values) && Bind(names, values)[names[i]] == values[LastUse(names, i)]
    decreases |names|
  {
    var n := |names| - 1;
    if names[n] != names[i] {
      BindKeepsLast(names[..n], values[..n], i);
      assert names[..n][i] == names[i];
    }
  }

  /** The values as the carried names show them. */
  function ReadBack(names: seq<string>, values: seq<J.Value>): (r: seq<J.Value>)
    requires |names| == |values|
    ensures |r| == |values| && forall i :: 0 <= i < |values| ==> r[i] == values[LastUse(names, i)]
  {
    seq(|values|, i requires 0 <= i < |values| => values[LastUse(names, i)])
  }

  lemma {:induction false} CarriedReadBack(h: Host, from: seq<string>, to: seq<string>, tuples: seq<seq<J.Value>>, back: seq<seq<J.Value>>)
    requires |from| == |to| && |back| == |tuples|
    requires forall i :: 0 <= i < |tuples| ==> |tuples[i]| == |from| && back[i] == ReadBack(from, tuples[i])
    ensures Tuples(h, Rename(from, to), Map(t => CarriedRow(from, t), tuples)) == Ok(back)
  {
    hide Tuple, Bind;
    if tuples != [] {
      var n := |tuples| - 1;
      var rows, items, t := Map(t => CarriedRow(from, t), tuples), Rename(from, to), tuples[n];
      assert rows[..n] == Map(t => CarriedRow(from, t), tuples[..n]);
      CarriedReadBack(h, from, to, tuples[..n], back[..n]);
      forall i | 0 <= i < |items| ensures EvalValue(h, items[i].expr, rows[n]) == Ok(back[n][i]) {
        BindKeepsLast(from, t, i);
      }
      CarriedTuple(h, items, rows[n], back[n]);
      assert back == back[..n] + [back[n]];
    }
  }

  /**
   Without distinct aliases: folding a plain WITH into RETURN is right if and only if, on every row,
   each repeated alias stands for equal values.
   */
  lemma {:induction false} RepeatedNameLosesValue(h: Host, exprs: seq<ValueExpr>, from: seq<string>, to: seq<string>, rows: seq<EvalRow>)
    requires |exprs| == |from| == |to| && Distinct(to) && forall i :: 0 <= i < |exprs| ==> !IsAggregate(exprs[i])
    requires Tuples(h, Named(exprs, from), rows).Ok?
    ensures var carried := ProjectEval(h, Projection(false, Named(exprs, from)), rows);
            var tuples := Tuples(h, Named(exprs, from), rows).value;
            && carried.Ok?
            && (Returned(h, Projection(false, Rename(from, to)), carried.value) == Returned(h, Projection(false, Named(exprs, to)), rows) <==>
                forall k :: 0 <= k < |rows| ==> RepeatsAgree(from, tuples[k]))
  {
    hide Tuples, CarriedRow, JsonRow, Returned, RowKey, Shown, Distinct, LastUse, ReadBack, RepeatsAgree;
    var with, shown, direct := Named(exprs, from), Rename(from, to), Named(exprs, to);
    var tuples := Tuples(h, with, rows).value;
    assert Names(with) == from && Names(shown) == to && Names(direct) == to;
    var back := seq(|tuples|, k requires 0 <= k < |tuples| => ReadBack(from, tuples[k]));
    TuplesIgnoreNames(h, with, direct, rows);
    CarriedReadBack(h, from, to, tuples, back);
    PlainReturn(h, Projection(false, direct), rows);
    PlainReturn(h, Projection(false, shown), Map(t => CarriedRow(from, t), tuples));
    ShownApart(to, back, tuples);
    forall k | 0 <= k < |tuples| ensures back[k] == tuples[k] <==> RepeatsAgree(from, tuples[k]) {
      ReadBackSame(from, tuples[k]);
    }
  }

  /** A repeated name stands for equal values. */
  ghost predicate RepeatsAgree(names: seq<string>, values: seq<J.Value>) {
    |names| == |values| && forall i, j :: 0 <= i < j < |names| && names[i] == names[j] ==> values[i] == values[j]
  }

  lemma {:induction false} ReadBackSame(names: seq<string>, values: seq<J.Value>)
    requires |names| == |values|
    ensures ReadBack(names, values) == values <==> RepeatsAgree(names, values)
  {
    hide LastUse;
    var back := ReadBack(names, values);
    if back == values {
      forall i, j | 0 <= i < j < |names| && names[i] == names[j] ensures values[i] == values[j] {
        SameLastUse(names, i, j);
        assert back[i] == back[j];
      }
    }
    if RepeatsAgree(names, values) {
      forall i | 0 <= i < |names| ensures back[i] == values[i] {
        assert back[i] == values[LastUse(names, i)];
      }
      assert back == values;
    }
  }

  lemma {:induction false} SameLastUse(names: seq<string>, i: nat, j: nat)
    requires i < |names| && j < |names| && names[i] == names[j]
    ensures LastUse(names, i) == LastUse(names, j)
  {
    hide LastUse;
  }

  /** Under distinct names different values show as different rows. */
  lemma {:induction false} ShownApart(names: seq<string>, a: seq<seq<J.Value>>, b: seq<seq<J.Value>>)
    requires Distinct(names) && |a| == |b| && forall k :: 0 <= k < |a| ==> |a[k]| == |b[k]| == |names|
    ensures Shown(names, false, a) == Shown(names, false, b) <==> forall k :: 0 <= k < |a| ==> a[k] == b[k]
  {
    hide JsonRow, RowKey, Distinct;
    var x, y := Shown(names, false, a), Shown(names, false, b);
    forall k | 0 <= k < |a| ensures x[k] == y[k] <==> a[k] == b[k] {
      RowKeyInjective(names, a[k], b[k]);
    }
  }

  ghost predicate BindsRightEnd(p: Pattern, edges: seq<GraphEdge>, row: EvalRow) {
    exists i :: 0 <= i < |edges| && EdgeMatches(p, edges[i]) && row.entities == map[p.rightVar := edges[i].to]
  }

  /** One variable on both ends stands for the right end only; it does not ask for a self-loop. */
  lemma {:induction false} SameVariableIsRightEnd(p: Pattern, edges: seq<GraphEdge>)
    requires p.leftVar == p.rightVar
    ensures forall i :: 0 <= i < |PatternRows(p, edges)| ==> BindsRightEnd(p, edges, PatternRows(p, edges)[i])
    ensures forall other :: |PatternRows(p.(leftVar := other), edges)| == |PatternRows(p, edges)|
  {
    hide EdgeMatches, BindsRightEnd;
    if edges != [] {
      var n := |edges| - 1;
      SameVariableIsRightEnd(p, edges[..n]);
      var front, rows := PatternRows(p, edges[..n]), PatternRows(p, edges);
      forall i | 0 <= i < |rows| ensures BindsRightEnd(p, edges, rows[i]) {
        RightEndKept(p, edges, if i < |front| then front[i] else RowOf(p, edges[n]));
      }
      forall other ensures |PatternRows(p.(leftVar := other), edges)| == |PatternRows(p, edges)| {
        SamePatternLabels(p, other, edges[n]);
      }
    }
  }

  lemma {:induction false} RightEndKept(p: Pattern, edges: seq<GraphEdge>, row: EvalRow)
    requires edges != [] && p.leftVar == p.rightVar
    requires BindsRightEnd(p, edges[..|edges| - 1], row) ||
             (EdgeMatches(p, edges[|edges| - 1]) && row == RowOf(p, edges[|edges| - 1]))
    ensures BindsRightEnd(p, edges, row)
  {
    hide EdgeMatches;
    var n := |edges| - 1;
    if BindsRightEnd(p, edges[..n], row) {
      var i :| 0 <= i < n && EdgeMatches(p, edges[..n][i]) && row.entities == map[p.rightVar := edges[..n][i].to];
      assert edges[..n][i] == edges[i];
    }
  }

  lemma {:induction false} SamePatternLabels(p: Pattern, other: string, e: GraphEdge)
    ensures EdgeMatches(p.(leftVar := other), e) == EdgeMatches(p, e)
  {
  }

  // ---------------------------------------------------------------- conditions that fail to evaluate

  lemma {:induction false} RetainStep(h: Host, filter: Option<BoolExpr>, rows: seq<EvalRow>, row: EvalRow)
    ensures Retain(h, filter, rows + [row]) == if Kept(h, filter, row) then Retain(h, filter, rows) + [row] else Retain(h, filter, rows)
  {
    hide Kept;
    assert (rows + [row])[..|rows|] == rows;
  }

  lemma {:induction false} KeptByBoth(h: Host, a: BoolExpr, b: BoolExpr, row: EvalRow)
    ensures Kept(h, Some(And(a, b)), row) == (Kept(h, Some(a), row) && Kept(h, Some(b), row))
  {
  }

  /** WHERE a AND b filters by a and then by b, also when a condition fails to evaluate. */
  lemma {:induction false} AndIsTwoFilters(h: Host, a: BoolExpr, b: BoolExpr, rows: seq<EvalRow>)
    ensures Retain(h, Some(And(a, b)), rows) == Retain(h, Some(b), Retain(h, Some(a), rows))
  {
    hide Kept;
    if rows != [] {
      var front, row := rows[..|rows| - 1], rows[|rows| - 1];
      AndIsTwoFilters(h, a, b, front);
      assert rows == front + [row];
      RetainStep(h, Some(And(a, b)), front, row);
      RetainStep(h, Some(a), front, row);
      RetainStep(h, Some(b), Retain(h, Some(a), front), row);
      KeptByBoth(h, a, b, row);
    }
  }

  /** OR may be swapped unless one side fails to evaluate where the other holds. */
  lemma {:induction false} OrCommutesUnlessOneFails(h: Host, a: BoolExpr, b: BoolExpr, row: EvalRow)
    ensures var x, y := EvalBool(h, a, row), EvalBool(h, b, row);
            Kept(h, Some(Or(a, b)), row) == Kept(h, Some(Or(b, a)), row) <==>
            !(x.Err? && y == Ok(true)) && !(y.Err? && x == Ok(true))
  {
  }

  // ---------------------------------------------------------------- the loops

  lemma {:induction false} TupleFails(h: Host, items: seq<SelectItem>, row: EvalRow, n: nat)
    requires n <= |items| && Tuple(h, items[..n], row).Err?
    ensures Tuple(h, items, row) == Tuple(h, items[..n], row)
    decreases |items|
  {
    hide EvalValue;
    if n < |items| {
      var m := |items| - 1;
      assert items[..m][..n] == items[..n];
      TupleFails(h, items[..m], row, n);
    } else {
      assert items[..n] == items;
    }
  }

  lemma {:induction false} TuplesFail(h: Host, items: seq<SelectItem>, rows: seq<EvalRow>, n: nat)
    requires n <= |rows| && Tuples(h, items, rows[..n]).Err?
    ensures Tuples(h, items, rows) == Tuples(h, items, rows[..n])
    decreases |rows|
  {
    hide Tuple;
    if n < |rows| {
      var m := |rows| - 1;
      assert rows[..m][..n] == rows[..n];
      TuplesFail(h, items, rows[..m], n);
    } else {
      assert rows[..n] == rows;
    }
  }

  lemma {:induction false} KeysFail(h: Host, e: ValueExpr, rows: seq<EvalRow>, n: nat)
    requires n <= |rows| && Keys(h, e, rows[..n]).Err?
    ensures Keys(h, e, rows) == Keys(h, e, rows[..n])
    decreases |rows|
  {
    hide EvalValue;
    if n < |rows| {
      var m := |rows| - 1;
      assert rows[..m][..n] == rows[..n];
      KeysFail(h, e, rows[..m], n);
    } else {
      assert rows[..n] == rows;
    }
  }

  method MatchRows(h: Host, q: Query, edges: seq<GraphEdge>) returns (rows: seq<EvalRow>)
    ensures rows == Matched(h, q, edges)
  {
    hide EdgeMatches, Kept;
    rows := [];
    for i := 0 to |edges|
      invariant rows == PatternRows(q.pattern, edges[..i])
    {
      assert edges[..i + 1][..i] == edges[..i];
      if EdgeMatches(q.pattern, edges[i]) {
        rows := rows + [RowOf(q.pattern, edges[i])];
      }
    }
    assert edges[..|edges|] == edges;
    var all := rows;
    rows := [];
    for i := 0 to |all|
      invariant rows == Retain(h, q.filter, all[..i])
    {
      assert all[..i + 1][..i] == all[..i];
      if Kept(h, q.filter, all[i]) {
        rows := rows + [all[i]];
      }
    }
    assert all[..|all|] == all;
  }

  lemma {:induction false} TupleStep(h: Host, items: seq<SelectItem>, row: EvalRow, n: nat)
    requires n < |items| && Tuple(h, items[..n], row).Ok?
    ensures var last := EvalValue(h, items[n].expr, row);
            Tuple(h, items[..n + 1], row) ==
            if last.Ok? then Ok(Tuple(h, items[..n], row).value + [last.value]) else Err(last.error)
  {
    hide EvalValue;
    assert items[..n + 1][..n] == items[..n];
  }

  lemma {:induction false} BindStep(items: seq<SelectItem>, n: nat, values: seq<J.Value>, value: J.Value)
    requires n < |items| && |values| == n
    ensures Bind(Names(items[..n + 1]), values + [value]) == Bind(Names(items[..n]), values)[items[n].name := value]
  {
    assert Names(items[..n + 1])[..n] == Names(items[..n]) && (values + [value])[..n] == values;
  }

  lemma {:induction false} NoItems(h: Host, row: EvalRow)
    ensures Tuple(h, [], row) == Ok([]) && Bind(Names([]), []) == map[]
  {
  }

  /** The inner loop over the items of a projection. */
  method BindItems(h: Host, items: seq<SelectItem>, row: EvalRow) returns (r: Result<(seq<J.Value>, map<string, J.Value>)>)
    ensures var t := Tuple(h, items, row);
            r == if t.Ok? then Ok((t.value, Bind(Names(items), t.value))) else Err(t.error)
  {
    hide EvalValue, Tuple, Bind, Names;
    var values: seq<J.Value> := [];
    var aliases: map<string, J.Value> := map[];
    NoItems(h, row);
    assert items[..0] == [];
    for i := 0 to |items|
      invariant |values| == i && Tuple(h, items[..i], row) == Ok(values) && aliases == Bind(Names(items[..i]), values)
    {
      TupleStep(h, items, row, i);
      var value := EvalValue(h, items[i].expr, row);
      if value.Err? {
        TupleFails(h, items, row, i + 1);
        return Err(value.error);
      }
      BindStep(items, i, values, value.value);
      values := values + [value.value];
      aliases := aliases[items[i].name := value.value];
    }
    assert items[..|items|] == items;
    r := Ok((values, aliases));
  }

  lemma {:induction false} TuplesStep(h: Host, items: seq<SelectItem>, rows: seq<EvalRow>, n: nat)
    requires n < |rows| && Tuples(h, items, rows[..n]).Ok?
    ensures var last := Tuple(h, items, rows[n]);
            Tuples(h, items, rows[..n + 1]) ==
            if last.Ok? then Ok(Tuples(h, items, rows[..n]).value + [last.value]) else Err(last.error)
  {
    hide Tuple;
    assert rows[..n + 1][..n] == rows[..n];
  }

  lemma {:induction false} FirstsStep<T>(xs: seq<T>, x: T, key: T -> string)
    ensures Firsts(xs + [x], key) == if key(x) in KeySet(xs, key) then Firsts(xs, key) else Firsts(xs, key) + [x]
  {
    assert (xs + [x])[..|xs|] == xs;
  }

  lemma {:induction false} MapStep<T, U>(f: T -> U, xs: seq<T>, x: T)
    ensures Map(f, xs + [x]) == Map(f, xs) + [f(x)]
  {
  }

  method ProjectEvalRows(h: Host, p: Projection, rows: seq<EvalRow>) returns (r: Result<seq<EvalRow>>)
    ensures r == ProjectEval(h, p, rows)
  {
    hide Tuple, Tuples, Bind, TupleKey, Firsts, KeySet, Map;
    var out: seq<EvalRow> := [];
    var seen: set<string> := {};
    ghost var tuples: seq<seq<J.Value>> := [];
    ghost var row := t => CarriedRow(Names(p.items), t);
    StartEmpty(h, p, row);
    assert rows[..0] == [];
    for i := 0 to |rows|
      invariant Tuples(h, p.items, rows[..i]) == Ok(tuples)
      invariant out == Map(row, if p.distinct then Firsts(tuples, TupleKey) else tuples)
      invariant p.distinct ==> seen == KeySet(tuples, TupleKey)
    {
      TuplesStep(h, p.items, rows, i);
      var bound := BindItems(h, p.items, rows[i]);
      if bound.Err? {
        TuplesFail(h, p.items, rows, i + 1);
        return Err(bound.error);
      }
      var (values, aliases) := bound.value;
      FirstsStep(tuples, values, TupleKey);
      KeySetGrows(tuples, values, TupleKey);
      MapStep(row, if p.distinct then Firsts(tuples, TupleKey) else tuples, values);
      tuples := tuples + [values];
      if p.distinct {
        var key := TupleKey(values);
        if key in seen {
          assert seen + {key} == seen;
          continue;
        }
        seen := seen + {key};
      }
      out := out + [EvalRow(map[], map[], aliases)];
    }
    assert rows[..|rows|] == rows;
    r := Ok(out);
  }

  lemma {:induction false} StartEmpty(h: Host, p: Projection, row: seq<J.Value> -> EvalRow)
    ensures Tuples(h, p.items, []) == Ok([]) && Firsts([], TupleKey) == [] && Map(row, []) == [] && KeySet([], TupleKey) == {}
  {
  }

  method ProjectJsonRows(h: Host, p: Projection, rows: seq<EvalRow>) returns (r: Result<seq<J.Value>>)
    ensures r == ProjectJson(h, p, rows)
  {
    hide Tuple, Bind, Tuples;
    var out: seq<J.Value> := [];
    ghost var tuples: seq<seq<J.Value>> := [];
    ghost var row := t => JsonRow(Names(p.items), t);
    StartEmpty(h, p, t => CarriedRow([], t));
    assert rows[..0] == [];
    for i := 0 to |rows|
      invariant Tuples(h, p.items, rows[..i]) == Ok(tuples)
      invariant out == Map(row, tuples)
    {
      TuplesStep(h, p.items, rows, i);
      var bound := BindItems(h, p.items, rows[i]);
      if bound.Err? {
        TuplesFail(h, p.items, rows, i + 1);
        return Err(bound.error);
      }
      tuples := tuples + [bound.value.0];
      out := out + [J.Object(bound.value.1)];
    }
    assert rows[..|rows|] == rows;
    r := Ok(out);
  }

  method DistinctJsonRows(rows: seq<J.Value>) returns (out: seq<J.Value>)
    ensures out == Firsts(rows, RowKey)
  {
    assert rows[..0] == [] && Firsts(rows[..0], RowKey) == [] && KeySet(rows[..0], RowKey) == {};
    hide RowKey, Firsts, KeySet;
    out := [];
    var seen: set<string> := {};
    for i := 0 to |rows|
      invariant out == Firsts(rows[..i], RowKey) && seen == KeySet(rows[..i], RowKey)
    {
      assert rows[..i + 1] == rows[..i] + [rows[i]];
      FirstsStep(rows[..i], rows[i], RowKey);
      KeySetGrows(rows[..i], rows[i], RowKey);
      var key := RowKey(rows[i]);
      if key !in seen {
        out := out + [rows[i]];
      }
      seen := seen + {key};
    }
    assert rows[..|rows|] == rows;
  }

  method ProjectAggregateRow(h: Host, item: SelectItem, rows: seq<EvalRow>) returns (r: Result<J.Value>)
    ensures r == Aggregate(h, item, rows)
  {
    hide EvalValue, J.Encode;
    if item.expr.CountAll? {
      return Ok(J.Object(map[item.name := J.Number(|rows|)]));
    } else if !item.expr.CountDistinct? {
      return Err("invalid Cypher: expected aggregate expression");
    }
    var seen: set<string> := {};
    for i := 0 to |rows|
      invariant Keys(h, item.expr.inner, rows[..i]) == Ok(seen)
    {
      assert rows[..i + 1][..i] == rows[..i];
      var value := EvalValue(h, item.expr.inner, rows[i]);
      if value.Err? {
        KeysFail(h, item.expr.inner, rows, i + 1);
        return Err(value.error);
      }
      seen := seen + {J.Encode(value.value)};
    }
    assert rows[..|rows|] == rows;
    r := Ok(J.Object(map[item.name := J.Number(|seen|)]));
  }

  method EvaluateCypher(h: Host, q: Query, edges: seq<GraphEdge>, maxRows: nat) returns (r: Result<QueryResult>)
    ensures r == Evaluate(h, q, edges, maxRows)
  {
    hide Matched, ProjectEval, ProjectJson, Aggregate, Firsts;
    var rows := MatchRows(h, q, edges);
    if q.carried.Some? {
      rows :- ProjectEvalRows(h, q.carried.value, rows);
    }
    var out: seq<J.Value>;
    if HasAggregate(q.returned.items) {
      if |q.returned.items| != 1 {
        return Err("unsupported Cypher: aggregate projections cannot be mixed");
      }
      var row :- ProjectAggregateRow(h, q.returned.items[0], rows);
      out := [row];
    } else {
      out :- ProjectJsonRows(h, q.returned, rows);
    }
    if q.returned.distinct {
      out := DistinctJsonRows(out);
    }
    r := Ok(Finish(h, q, out, maxRows));
  }
}
