/**
 What a query means, told on the edges: which edges its pattern and condition choose, and which
 values its columns show. The results say that `evaluate_cypher` answers exactly that.
 */
module CypherMeaning {
  import opened Wrappers
  import opened CypherSyntax
  import opened Order
  import opened Walks
  import opened StableSorting
  import opened CypherEval
  import J = CanonicalJson

  // ---------------------------------------------------------------- kinds and labels

  ghost predicate Starts(s: string, part: string) {
    exists rest :: s == part + rest
  }

  ghost predicate Ends(s: string, part: string) {
    exists front :: s == front + part
  }

  ghost predicate Holds(s: string, part: string) {
    exists front, rest :: s == front + part + rest
  }

  /** Prefixes that win over the endings `_mjs` and `Port`. */
  ghost predicate Settled(name: string) {
    || Starts(name, "project:") || Starts(name, "provider:") || Starts(name, "adr:")
    || Starts(name, "decision:") || Starts(name, "file:") || Starts(name, "module:")
  }

  ghost predicate IsKind(name: string, kind: string) {
    match kind
    case "project" => Starts(name, "project:")
    case "provider" => Starts(name, "provider:")
    case "decision" => Starts(name, "adr:") || Starts(name, "decision:")
    case "file" => Starts(name, "file:")
    case "module" => Starts(name, "module:") || (Ends(name, "_mjs") && !Settled(name))
    case "port" => Ends(name, "Port") && !Settled(name)
    case "class" => Starts(name, "class:") && !Ends(name, "_mjs") && !Ends(name, "Port")
    case "method" => Starts(name, "method:") && !Ends(name, "_mjs") && !Ends(name, "Port")
    case "function" => Starts(name, "function:") && !Ends(name, "_mjs") && !Ends(name, "Port")
    case "entity" =>
      && !Settled(name) && !Ends(name, "_mjs") && !Ends(name, "Port")
      && !Starts(name, "class:") && !Starts(name, "method:") && !Starts(name, "function:")
    case _ => false
  }

  /** The label of a kind. */
  predicate ShownAs(kind: string, shown: string) {
    match kind
    case "project" => shown == "Project"
    case "provider" => shown == "Provider"
    case "decision" => shown == "Decision"
    case "file" => shown == "File"
    case "module" => shown == "Module"
    case "port" => shown == "Port"
    case "class" => shown == "Class"
    case "method" => shown == "Method"
    case "function" => shown == "Function"
    case _ => shown == "Entity"
  }

  ghost predicate Labelled(name: string, shown: string) {
    exists kind :: IsKind(name, kind) && ShownAs(kind, shown)
  }

  predicate SameLetters(a: string, b: string) {
    |a| == |b| && forall i :: 0 <= i < |a| ==> UpperChar(a[i]) == UpperChar(b[i])
  }

  ghost predicate HasLabel(name: string, asked: string) {
    exists shown :: Labelled(name, shown) && SameLetters(shown, asked)
  }

  lemma {:induction false} StartsIff(s: string, part: string)
    ensures part <= s <==> Starts(s, part)
  {
    if part <= s {
      assert s == part + s[|part|..];
    }
  }

  lemma {:induction false} EndsIff(s: string, part: string)
    ensures EndsWith(s, part) <==> Ends(s, part)
  {
    if EndsWith(s, part) {
      assert s == s[..|s| - |part|] + part;
    }
  }

  /** At most one of these beginnings and at most one of these endings applies. */
  lemma {:induction false} BeginningsDiffer(name: string)
    ensures "project:" <= name ==> !("provider:" <= name || "adr:" <= name || "decision:" <= name || "file:" <= name || "module:" <= name)
    ensures "provider:" <= name ==> !("adr:" <= name || "decision:" <= name || "file:" <= name || "module:" <= name)
    ensures "adr:" <= name || "decision:" <= name ==> !("file:" <= name || "module:" <= name)
    ensures "file:" <= name ==> !("module:" <= name)
  {
    if |name| > 3 {
      assert "project:" <= name ==> name[0] == 'p' && name[3] == 'j';
      assert "provider:" <= name ==> name[0] == 'p' && name[3] == 'v';
      assert "adr:" <= name ==> name[0] == 'a';
      assert "decision:" <= name ==> name[0] == 'd';
      assert "file:" <= name ==> name[0] == 'f';
      assert "module:" <= name ==> name[0] == 'm';
    }
  }

  lemma {:induction false} PlainBeginningsDiffer(name: string)
    ensures "class:" <= name || "method:" <= name || "function:" <= name ==>
              !("project:" <= name || "provider:" <= name || "adr:" <= name || "decision:" <= name || "file:" <= name || "module:" <= name)
    ensures "class:" <= name ==> !("method:" <= name || "function:" <= name)
    ensures "method:" <= name ==> !("function:" <= name)
  {
    if |name| > 1 {
      assert "project:" <= name || "provider:" <= name ==> name[0] == 'p';
      assert "adr:" <= name ==> name[0] == 'a';
      assert "decision:" <= name ==> name[0] == 'd';
      assert "file:" <= name ==> name[0] == 'f' && name[1] == 'i';
      assert "module:" <= name ==> name[0] == 'm' && name[1] == 'o';
      assert "class:" <= name ==> name[0] == 'c';
      assert "method:" <= name ==> name[0] == 'm' && name[1] == 'e';
      assert "function:" <= name ==> name[0] == 'f' && name[1] == 'u';
    }
  }

  lemma {:induction false} EndingsDiffer(name: string)
    ensures EndsWith(name, "Port") ==> !EndsWith(name, "_mjs")
  {
    if EndsWith(name, "Port") {
      assert name[|name| - 4..][3] == 't' && "_mjs"[3] == 's';
    }
  }

  lemma {:induction false} KindIff(name: string, kind: string)
    ensures IsKind(name, kind) <==> EntityType(name) == kind
  {
    hide Starts, Ends, EndsWith;
    forall part ensures part <= name <==> Starts(name, part) { StartsIff(name, part); }
    forall part ensures EndsWith(name, part) <==> Ends(name, part) { EndsIff(name, part); }
    BeginningsDiffer(name);
    PlainBeginningsDiffer(name);
    EndingsDiffer(name);
  }

  lemma {:induction false} LabelledIff(name: string, shown: string)
    ensures Labelled(name, shown) <==> CypherLabel(name) == shown
  {
    hide IsKind, EntityType, CypherLabel, ShownAs;
    var kind := EntityType(name);
    forall k ensures IsKind(name, k) <==> kind == k { KindIff(name, k); }
    assert IsKind(name, kind);
    LabelShown(name, shown);
  }

  lemma {:induction false} LabelShown(name: string, shown: string)
    ensures ShownAs(EntityType(name), shown) <==> CypherLabel(name) == shown
  {
    hide EntityType;
  }

  lemma {:induction false} SameLettersIff(a: string, b: string)
    ensures SameLetters(a, b) <==> SameWord(a, b)
  {
    if |a| == |b| {
      forall i | 0 <= i < |a| ensures UpperChar(a[i]) == UpperChar(b[i]) <==> LowerChar(a[i]) == LowerChar(b[i]) {
        OneLetter(a[i], b[i]);
      }
    }
  }

  lemma {:induction false} OneLetter(c: char, d: char)
    ensures UpperChar(c) == UpperChar(d) <==> LowerChar(c) == LowerChar(d)
  {
    CaseDistance(c);
    CaseDistance(d);
  }

  lemma {:induction false} CaseDistance(c: char)
    ensures LowerChar(c) as int == if 'A' <= c <= 'Z' then c as int + 32 else c as int
    ensures UpperChar(c) as int == if 'a' <= c <= 'z' then c as int - 32 else c as int
  {
  }

  lemma {:induction false} HasLabelIff(name: string, asked: string)
    ensures HasLabel(name, asked) <==> LabelMatches(name, asked)
  {
    hide Labelled, SameLetters, SameWord;
    forall shown ensures Labelled(name, shown) <==> CypherLabel(name) == shown { LabelledIff(name, shown); }
    SameLettersIff(CypherLabel(name), asked);
  }

  // ---------------------------------------------------------------- values on an edge

  ghost predicate NodeShows(name: string, prop: string, v: J.Value) {
    || (prop == "name" && v == J.String(name))
    || ((prop == "type" || prop == "kind") && v.String? && IsKind(name, v.s))
  }

  predicate EdgeShows(edge: GraphEdge, prop: string, v: J.Value) {
    || (prop == "predicate" && v == J.String(edge.pred))
    || (prop == "factId" && v == J.String(edge.factId))
    || (prop == "fact_id" && v == J.String(edge.factId))
    || (prop == "from" && v == J.String(edge.from))
    || (prop == "to" && v == J.String(edge.to))
    || (prop == "source" && v == J.String(edge.source))
  }

  /** The entity a variable stands for; a variable on both ends stands for the right one. */
  predicate StandsFor(p: Pattern, edge: GraphEdge, x: string, name: string) {
    if x == p.rightVar then name == edge.to else x == p.leftVar && name == edge.from
  }

  predicate IsEnd(p: Pattern, x: string) {
    x == p.leftVar || x == p.rightVar
  }

  predicate ReadsAs(h: Host, v: J.Value, n: int) {
    v == J.Number(n) || (v.String? && h.integer(v.s) == Some(n))
  }

  ghost predicate IsInteger(h: Host, v: J.Value) {
    exists n :: ReadsAs(h, v, n)
  }

  /** The expression has this value on the edge; on some edges it has none. */
  ghost predicate Has(h: Host, p: Pattern, edge: GraphEdge, e: ValueExpr, v: J.Value) {
    match e
    case Property(x, prop) =>
      || (exists name :: StandsFor(p, edge, x, name) && NodeShows(name, prop, v))
      || (!IsEnd(p, x) && p.relVar == Some(x) && EdgeShows(edge, prop, v))
    case Labels(x) => exists name, shown :: StandsFor(p, edge, x, name) && Labelled(name, shown) && v == J.Array([J.String(shown)])
    case ToInteger(inner) =>
      exists w :: Has(h, p, edge, inner, w) && if v.Number? then ReadsAs(h, w, v.n) else v.Null? && !IsInteger(h, w)
    case Text(s) => v == J.String(s)
    case Number(n) => v == J.Number(n)
    case Alias(x) => v.String? && StandsFor(p, edge, x, v.s)
    case CountAll => false
    case CountDistinct(_) => false
  }

  lemma {:induction false} EntityOf(p: Pattern, edge: GraphEdge, x: string)
    ensures var row := RowOf(p, edge);
            && (x in row.entities <==> IsEnd(p, x))
            && (x in row.entities ==> forall name :: StandsFor(p, edge, x, name) <==> row.entities[x] == name)
            && (x !in row.entities ==> forall name :: !StandsFor(p, edge, x, name))
            && (x in row.rels <==> p.relVar == Some(x)) && (x in row.rels ==> row.rels[x] == edge) && row.aliases == map[]
  {
  }

  lemma {:induction false} NodeIff(name: string, prop: string, v: J.Value)
    ensures NodeShows(name, prop, v) <==> NodeProperty(name, prop) == Ok(v)
  {
    hide IsKind, EntityType;
    if v.String? {
      KindIff(name, v.s);
    }
  }

  lemma {:induction false} EdgeIff(edge: GraphEdge, prop: string, v: J.Value)
    ensures EdgeShows(edge, prop, v) <==> EdgeProperty(edge, prop) == Ok(v)
  {
  }

  lemma {:induction false} ReadsAsIff(h: Host, v: J.Value, n: int)
    ensures ReadsAs(h, v, n) <==> AsInteger(h, v) == Some(n)
    ensures IsInteger(h, v) <==> AsInteger(h, v).Some?
  {
    forall m ensures ReadsAs(h, v, m) <==> AsInteger(h, v) == Some(m) {}
    if AsInteger(h, v).Some? {
      assert ReadsAs(h, v, AsInteger(h, v).value);
    }
  }

  lemma {:induction false} PropertyIff(h: Host, p: Pattern, edge: GraphEdge, x: string, prop: string, v: J.Value)
    ensures Has(h, p, edge, Property(x, prop), v) <==> EvalValue(h, Property(x, prop), RowOf(p, edge)) == Ok(v)
  {
    hide RowOf, StandsFor, IsEnd, NodeShows, EdgeShows, NodeProperty, EdgeProperty;
    EntityOf(p, edge, x);
    forall name ensures NodeShows(name, prop, v) <==> NodeProperty(name, prop) == Ok(v) { NodeIff(name, prop, v); }
    EdgeIff(edge, prop, v);
    var row := RowOf(p, edge);
    if x in row.entities {
      assert StandsFor(p, edge, x, row.entities[x]);
    }
  }

  lemma {:induction false} LabelsIff(h: Host, p: Pattern, edge: GraphEdge, x: string, v: J.Value)
    ensures Has(h, p, edge, Labels(x), v) <==> EvalValue(h, Labels(x), RowOf(p, edge)) == Ok(v)
  {
    hide RowOf, StandsFor, IsEnd, Labelled, CypherLabel;
    EntityOf(p, edge, x);
    forall name, shown ensures Labelled(name, shown) <==> CypherLabel(name) == shown { LabelledIff(name, shown); }
    var row := RowOf(p, edge);
    if x in row.entities {
      assert StandsFor(p, edge, x, row.entities[x]) && Labelled(row.entities[x], CypherLabel(row.entities[x]));
    }
  }

  lemma {:induction false} ToIntegerIff(h: Host, p: Pattern, edge: GraphEdge, inner: ValueExpr, v: J.Value)
    requires forall w :: Has(h, p, edge, inner, w) <==> EvalValue(h, inner, RowOf(p, edge)) == Ok(w)
    ensures Has(h, p, edge, ToInteger(inner), v) <==> EvalValue(h, ToInteger(inner), RowOf(p, edge)) == Ok(v)
  {
    hide RowOf, ReadsAs, IsInteger, AsInteger;
    var value := EvalValue(h, inner, RowOf(p, edge));
    if value.Ok? {
      assert Has(h, p, edge, inner, value.value);
      ReadsAsIff(h, value.value, if v.Number? then v.n else 0);
    }
  }

  lemma {:induction false} HasIff(h: Host, p: Pattern, edge: GraphEdge, e: ValueExpr, v: J.Value)
    ensures Has(h, p, edge, e, v) <==> EvalValue(h, e, RowOf(p, edge)) == Ok(v)
    decreases e
  {
    match e {
      case Property(x, prop) => PropertyIff(h, p, edge, x, prop, v);
      case Labels(x) => LabelsIff(h, p, edge, x, v);
      case ToInteger(inner) =>
        forall w ensures Has(h, p, edge, inner, w) <==> EvalValue(h, inner, RowOf(p, edge)) == Ok(w) { HasIff(h, p, edge, inner, w); }
        ToIntegerIff(h, p, edge, inner, v);
      case Alias(x) => EntityOf(p, edge, x);
      case _ =>
    }
  }

  // ---------------------------------------------------------------- conditions on an edge

  /** The text a value is compared as. */
  predicate Spelled(h: Host, v: J.Value, s: string) {
    if v.String? then s == v.s else s == h.text(v)
  }

  /** The text a value is ordered by where integers are not at hand. */
  predicate Keyed(h: Host, v: J.Value, s: string) {
    || (v == J.Null && s == "")
    || v == J.String(s)
    || (v == J.Bool(true) && s == "true") || (v == J.Bool(false) && s == "false")
    || ((v.Array? || v.Object?) && s == J.Encode(v))
    || ((v.Number? || v.Float?) && s == h.numberKey(v))
  }

  ghost predicate Below(h: Host, a: J.Value, b: J.Value) {
    || (exists m, n :: ReadsAs(h, a, m) && ReadsAs(h, b, n) && m < n)
    || (!(IsInteger(h, a) && IsInteger(h, b)) && exists s, t :: Keyed(h, a, s) && Keyed(h, b, t) && Less(s, t))
  }

  ghost predicate Stands(h: Host, a: J.Value, op: CompareOp, b: J.Value) {
    match op
    case Eq => a == b
    case Ne => a != b
    case Lt => Below(h, a, b)
    case Gt => Below(h, b, a)
    case Lte => !Below(h, b, a)
    case Gte => !Below(h, a, b)
    case Contains => exists s, t :: Spelled(h, a, s) && Spelled(h, b, t) && Holds(s, t)
    case StartsWith => exists s, t :: Spelled(h, a, s) && Spelled(h, b, t) && Starts(s, t)
  }

  /** The condition evaluates on the edge, and to this; on some edges it does not evaluate. */
  ghost predicate Comes(h: Host, p: Pattern, edge: GraphEdge, b: BoolExpr, truth: bool) {
    match b
    case Or(l, r) =>
      if truth then Comes(h, p, edge, l, true) || (Comes(h, p, edge, l, false) && Comes(h, p, edge, r, true))
      else Comes(h, p, edge, l, false) && Comes(h, p, edge, r, false)
    case And(l, r) =>
      if truth then Comes(h, p, edge, l, true) && Comes(h, p, edge, r, true)
      else Comes(h, p, edge, l, false) || (Comes(h, p, edge, l, true) && Comes(h, p, edge, r, false))
    case Not(x) => Comes(h, p, edge, x, !truth)
    case LabelTest(x, asked) => truth <==> exists name :: StandsFor(p, edge, x, name) && HasLabel(name, asked)
    case Compare(l, op, r) => exists v, w :: Has(h, p, edge, l, v) && Has(h, p, edge, r, w) && (truth <==> Stands(h, v, op, w))
  }

  lemma {:induction false} HoldsIff(s: string, part: string)
    ensures Occurs(s, part) <==> Holds(s, part)
  {
    if i :| 0 <= i <= |s| && part <= s[i..] {
      assert s == s[..i] + part + s[i..][|part|..];
    }
    if Holds(s, part) {
      var front, rest :| s == front + part + rest;
      assert s[|front|..] == part + rest;
      assert part <= s[|front|..];
    }
  }

  lemma {:induction false} BelowIff(h: Host, a: J.Value, b: J.Value)
    ensures var l, r := AsInteger(h, a), AsInteger(h, b);
            Below(h, a, b) <==> if l.Some? && r.Some? then l.value < r.value else Less(SortKey(h, a), SortKey(h, b))
  {
    hide ReadsAs, IsInteger, AsInteger, Less, Keyed, SortKey;
    forall n ensures ReadsAs(h, a, n) <==> AsInteger(h, a) == Some(n) { ReadsAsIff(h, a, n); }
    forall n ensures ReadsAs(h, b, n) <==> AsInteger(h, b) == Some(n) { ReadsAsIff(h, b, n); }
    ReadsAsIff(h, a, 0);
    ReadsAsIff(h, b, 0);
    forall s ensures Keyed(h, a, s) <==> SortKey(h, a) == s { KeyedIff(h, a, s); }
    forall s ensures Keyed(h, b, s) <==> SortKey(h, b) == s { KeyedIff(h, b, s); }
    var l, r := AsInteger(h, a), AsInteger(h, b);
    assert Keyed(h, a, SortKey(h, a)) && Keyed(h, b, SortKey(h, b));
    assert l.Some? ==> ReadsAs(h, a, l.value);
    assert r.Some? ==> ReadsAs(h, b, r.value);
  }

  lemma {:induction false} KeyedIff(h: Host, v: J.Value, s: string)
    ensures Keyed(h, v, s) <==> SortKey(h, v) == s
  {
    hide J.Encode;
  }

  lemma {:induction false} StandsIff(h: Host, a: J.Value, op: CompareOp, b: J.Value)
    ensures Stands(h, a, op, b) <==> CompareValues(h, a, op, b)
  {
    hide Below, AsInteger, Less, SortKey, Occurs, Holds, Starts;
    BelowIff(h, a, b);
    BelowIff(h, b, a);
    var s, t := ValueText(h, a), ValueText(h, b);
    assert Spelled(h, a, s) && Spelled(h, b, t);
    HoldsIff(s, t);
    StartsIff(s, t);
    SpelledOnce(h, a);
    SpelledOnce(h, b);
    LessTotal(SortKey(h, a), SortKey(h, b));
  }

  lemma {:induction false} SpelledOnce(h: Host, v: J.Value)
    ensures forall s :: Spelled(h, v, s) <==> s == ValueText(h, v)
  {
  }

  lemma {:induction false} CompareIff(h: Host, p: Pattern, edge: GraphEdge, l: ValueExpr, op: CompareOp, r: ValueExpr, truth: bool)
    ensures Comes(h, p, edge, Compare(l, op, r), truth) <==> EvalBool(h, Compare(l, op, r), RowOf(p, edge)) == Ok(truth)
  {
    hide RowOf, Has, EvalValue, Stands, CompareValues;
    forall v ensures Has(h, p, edge, l, v) <==> EvalValue(h, l, RowOf(p, edge)) == Ok(v) { HasIff(h, p, edge, l, v); }
    forall v ensures Has(h, p, edge, r, v) <==> EvalValue(h, r, RowOf(p, edge)) == Ok(v) { HasIff(h, p, edge, r, v); }
    var a, b := EvalValue(h, l, RowOf(p, edge)), EvalValue(h, r, RowOf(p, edge));
    if a.Ok? && b.Ok? {
      StandsIff(h, a.value, op, b.value);
      assert Has(h, p, edge, l, a.value) && Has(h, p, edge, r, b.value);
    }
  }

  lemma {:induction false} LabelTestIff(h: Host, p: Pattern, edge: GraphEdge, x: string, asked: string, truth: bool)
    ensures Comes(h, p, edge, LabelTest(x, asked), truth) <==> EvalBool(h, LabelTest(x, asked), RowOf(p, edge)) == Ok(truth)
  {
    hide RowOf, StandsFor, HasLabel, LabelMatches;
    EntityOf(p, edge, x);
    forall name ensures HasLabel(name, asked) <==> LabelMatches(name, asked) { HasLabelIff(name, asked); }
    var row := RowOf(p, edge);
    if x in row.entities {
      assert StandsFor(p, edge, x, row.entities[x]);
    }
  }

  lemma {:induction false} ComesIff(h: Host, p: Pattern, edge: GraphEdge, b: BoolExpr, truth: bool)
    ensures Comes(h, p, edge, b, truth) <==> EvalBool(h, b, RowOf(p, edge)) == Ok(truth)
    decreases b
  {
    hide RowOf;
    match b {
      case Or(l, r) =>
        forall t ensures Comes(h, p, edge, l, t) <==> EvalBool(h, l, RowOf(p, edge)) == Ok(t) { ComesIff(h, p, edge, l, t); }
        forall t ensures Comes(h, p, edge, r, t) <==> EvalBool(h, r, RowOf(p, edge)) == Ok(t) { ComesIff(h, p, edge, r, t); }
      case And(l, r) =>
        forall t ensures Comes(h, p, edge, l, t) <==> EvalBool(h, l, RowOf(p, edge)) == Ok(t) { ComesIff(h, p, edge, l, t); }
        forall t ensures Comes(h, p, edge, r, t) <==> EvalBool(h, r, RowOf(p, edge)) == Ok(t) { ComesIff(h, p, edge, r, t); }
      case Not(x) => ComesIff(h, p, edge, x, !truth);
      case LabelTest(x, asked) => LabelTestIff(h, p, edge, x, asked, truth);
      case Compare(l, op, r) => CompareIff(h, p, edge, l, op, r, truth);
    }
  }

  // ---------------------------------------------------------------- the chosen edges

  ghost predicate Fits(p: Pattern, edge: GraphEdge) {
    && edge.pred == p.relType
    && (p.leftLabel.Some? ==> HasLabel(edge.from, p.leftLabel.value))
    && (p.rightLabel.Some? ==> HasLabel(edge.to, p.rightLabel.value))
  }

  /** The edges that pass, in order. */
  function Select(edges: seq<GraphEdge>, passes: GraphEdge -> bool): (r: seq<GraphEdge>)
    ensures forall e :: e in r <==> e in edges && passes(e)
  {
    if edges == [] then []
    else
      var n := |edges| - 1;
      assert edges == edges[..n] + [edges[n]];
      Select(edges[..n], passes) + (if passes(edges[n]) then [edges[n]] else [])
  }

  ghost predicate Wanted(h: Host, q: Query, edge: GraphEdge) {
    Fits(q.pattern, edge) && (q.filter.Some? ==> Comes(h, q.pattern, edge, q.filter.value, true))
  }

  ghost function Chosen(h: Host, q: Query, edges: seq<GraphEdge>): seq<GraphEdge> {
    Select(edges, e => Wanted(h, q, e))
  }

  lemma {:induction false} SelectSame(edges: seq<GraphEdge>, f: GraphEdge -> bool, g: GraphEdge -> bool)
    requires forall e :: e in edges ==> f(e) == g(e)
    ensures Select(edges, f) == Select(edges, g)
  {
    if edges != [] {
      var n := |edges| - 1;
      assert edges == edges[..n] + [edges[n]];
      SelectSame(edges[..n], f, g);
    }
  }

  lemma {:induction false} FitsIff(p: Pattern, edge: GraphEdge)
    ensures Fits(p, edge) <==> EdgeMatches(p, edge)
  {
    hide HasLabel, LabelMatches;
    if p.leftLabel.Some? { HasLabelIff(edge.from, p.leftLabel.value); }
    if p.rightLabel.Some? { HasLabelIff(edge.to, p.rightLabel.value); }
  }

  lemma {:induction false} WantedIff(h: Host, q: Query, edge: GraphEdge)
    ensures Wanted(h, q, edge) <==> EdgeMatches(q.pattern, edge) && Kept(h, q.filter, RowOf(q.pattern, edge))
  {
    hide Fits, Comes, EdgeMatches, EvalBool, RowOf;
    FitsIff(q.pattern, edge);
    if q.filter.Some? { ComesIff(h, q.pattern, edge, q.filter.value, true); }
  }

  lemma {:induction false} NoEdges(h: Host, q: Query)
    ensures Matched(h, q, []) == [] && Chosen(h, q, []) == []
  {
  }

  lemma {:induction false} ChosenStep(h: Host, q: Query, edges: seq<GraphEdge>)
    requires edges != []
    ensures var n := |edges| - 1;
            Chosen(h, q, edges) == if Wanted(h, q, edges[n]) then Chosen(h, q, edges[..n]) + [edges[n]] else Chosen(h, q, edges[..n])
  {
    hide Wanted;
  }

  lemma {:induction false} MatchedStep(h: Host, q: Query, edges: seq<GraphEdge>)
    requires edges != []
    ensures var n := |edges| - 1;
            var row := RowOf(q.pattern, edges[n]);
            Matched(h, q, edges) ==
            if EdgeMatches(q.pattern, edges[n]) && Kept(h, q.filter, row) then Matched(h, q, edges[..n]) + [row] else Matched(h, q, edges[..n])
  {
    hide EdgeMatches, Kept, RowOf, Retain;
    var n := |edges| - 1;
    var front := PatternRows(q.pattern, edges[..n]);
    assert front + [] == front;
    RetainStep(h, q.filter, front, RowOf(q.pattern, edges[n]));
  }

  /** The matched rows are those of the chosen edges. */
  lemma {:induction false} MatchedAreChosen(h: Host, q: Query, edges: seq<GraphEdge>)
    ensures Matched(h, q, edges) == Map(e => RowOf(q.pattern, e), Chosen(h, q, edges))
  {
    hide Wanted, EdgeMatches, Kept, RowOf, Map, Matched, Chosen;
    if edges == [] {
      NoEdges(h, q);
    } else {
      var n := |edges| - 1;
      MatchedAreChosen(h, q, edges[..n]);
      MatchedStep(h, q, edges);
      ChosenStep(h, q, edges);
      WantedIff(h, q, edges[n]);
      MapStep(e => RowOf(q.pattern, e), Chosen(h, q, edges[..n]), edges[n]);
    }
  }

  // ---------------------------------------------------------------- the shown rows

  predicate LastUseOf(items: seq<SelectItem>, i: nat)
    requires i < |items|
  {
    forall j :: i < j < |items| ==> items[j].name != items[i].name
  }

  /** The row shows every column of the projection; of two columns with one name, the later. */
  ghost predicate RowShows(h: Host, p: Pattern, items: seq<SelectItem>, edge: GraphEdge, row: J.Value) {
    && row.Object?
    && (forall k :: k in row.fields <==> k in Names(items))
    && forall i :: 0 <= i < |items| && LastUseOf(items, i) ==>
         items[i].name in row.fields && Has(h, p, edge, items[i].expr, row.fields[items[i].name])
  }

  ghost predicate Shows(h: Host, p: Pattern, edge: GraphEdge, e: ValueExpr) {
    exists v :: Has(h, p, edge, e, v)
  }

  ghost predicate AllShow(h: Host, p: Pattern, items: seq<SelectItem>, edge: GraphEdge) {
    forall i :: 0 <= i < |items| ==> Shows(h, p, edge, items[i].expr)
  }

  /** Every element that is equal to no earlier one, in order. */
  ghost predicate Firstly<T(!new)>(xs: seq<T>, ys: seq<T>, at: seq<nat>) {
    Picks(xs, ys, at) && Rising(at) && forall i :: 0 <= i < |xs| ==> (i in at <==> FirstUse(xs, i))
  }

  ghost predicate Picks<T>(xs: seq<T>, ys: seq<T>, at: seq<nat>) {
    |at| == |ys| && forall k :: 0 <= k < |at| ==> at[k] < |xs| && ys[k] == xs[at[k]]
  }

  ghost predicate Rising(at: seq<nat>) {
    forall k, l :: 0 <= k < l < |at| ==> at[k] < at[l]
  }

  ghost predicate FirstUse<T>(xs: seq<T>, i: nat)
    requires i < |xs|
  {
    forall j :: 0 <= j < i ==> xs[j] != xs[i]
  }

  ghost predicate OnlyFirsts<T(!new)>(xs: seq<T>, ys: seq<T>) {
    exists at :: Firstly(xs, ys, at)
  }

  /** The key of a row under ORDER BY. */
  ghost predicate RowKeyed(h: Host, column: string, row: J.Value, s: string) {
    if row.Object? && column in row.fields then Keyed(h, row.fields[column], s) else s == ""
  }

  /** In the order asked for, rows of one key as they stood, and no row lost or added. */
  ghost predicate Arranged(h: Host, order: OrderBy, xs: seq<J.Value>, ys: seq<J.Value>) {
    exists key :: ArrangedBy(h, order, xs, ys, key)
  }

  ghost predicate ArrangedBy(h: Host, order: OrderBy, xs: seq<J.Value>, ys: seq<J.Value>, key: J.Value -> string) {
    && (forall row :: RowKeyed(h, order.key, row, key(row)))
    && (forall k :: WithKey(ys, key, k) == WithKey(xs, key, k))
    && forall i, j :: 0 <= i < j < |ys| ==>
         if order.descending then !Less(key(ys[i]), key(ys[j])) else !Less(key(ys[j]), key(ys[i]))
  }

  /** The longest part of the front that the limit and the cap allow. */
  predicate CutTo(all: seq<J.Value>, limit: Option<nat>, maxRows: nat, rows: seq<J.Value>, truncated: bool) {
    && rows <= all && |rows| <= maxRows && (limit.Some? ==> |rows| <= limit.value)
    && (|rows| == |all| || |rows| == maxRows || limit == Some(|rows|))
    && (truncated <==> |all| > maxRows && (limit.Some? ==> limit.value > maxRows))
  }

  /** How the answer comes from the rows of RETURN. */
  ghost predicate Delivers(h: Host, q: Query, rows: seq<J.Value>, maxRows: nat, answer: QueryResult) {
    exists kept, sorted :: DeliversBy(h, q, rows, maxRows, answer, kept, sorted)
  }

  ghost predicate DeliversBy(h: Host, q: Query, rows: seq<J.Value>, maxRows: nat, answer: QueryResult, kept: seq<J.Value>, sorted: seq<J.Value>) {
    && (if q.returned.distinct then OnlyFirsts(rows, kept) else kept == rows)
    && (if q.order.Some? then Arranged(h, q.order.value, kept, sorted) else sorted == kept)
    && CutTo(sorted, q.limit, maxRows, answer.rows, answer.truncated)
  }

  lemma {:induction false} TupleShows(h: Host, p: Pattern, items: seq<SelectItem>, edge: GraphEdge)
    ensures var t := Tuple(h, items, RowOf(p, edge));
            && (t.Ok? <==> AllShow(h, p, items, edge))
            && (t.Ok? ==> forall i :: 0 <= i < |items| ==> Has(h, p, edge, items[i].expr, t.value[i]))
    decreases |items|
  {
    hide Has, EvalValue, RowOf;
    if items != [] {
      var n := |items| - 1;
      TupleShows(h, p, items[..n], edge);
      var last := EvalValue(h, items[n].expr, RowOf(p, edge));
      forall v ensures Has(h, p, edge, items[n].expr, v) <==> last == Ok(v) { HasIff(h, p, edge, items[n].expr, v); }
      assert last.Ok? ==> Has(h, p, edge, items[n].expr, last.value);
      assert forall i :: 0 <= i < n ==> items[..n][i] == items[i];
      assert AllShow(h, p, items, edge) <==> AllShow(h, p, items[..n], edge) && Shows(h, p, edge, items[n].expr);
    }
  }

  lemma {:induction false} TuplesShow(h: Host, p: Pattern, items: seq<SelectItem>, edges: seq<GraphEdge>)
    ensures var ts := Tuples(h, items, Map(e => RowOf(p, e), edges));
            && (ts.Ok? <==> forall e :: e in edges ==> AllShow(h, p, items, e))
            && (ts.Ok? ==> forall k :: 0 <= k < |edges| ==> Tuple(h, items, RowOf(p, edges[k])) == Ok(ts.value[k]))
  {
    hide Tuple, RowOf, AllShow;
    if edges != [] {
      var n := |edges| - 1;
      var rows := Map(e => RowOf(p, e), edges);
      assert rows[..n] == Map(e => RowOf(p, e), edges[..n]);
      assert edges == edges[..n] + [edges[n]];
      TuplesShow(h, p, items, edges[..n]);
      TupleShows(h, p, items, edges[n]);
    }
  }

  lemma {:induction false} JsonRowShows(h: Host, p: Pattern, items: seq<SelectItem>, edge: GraphEdge)
    requires Tuple(h, items, RowOf(p, edge)).Ok?
    ensures RowShows(h, p, items, edge, JsonRow(Names(items), Tuple(h, items, RowOf(p, edge)).value))
  {
    hide Has, Tuple, Bind, RowOf, LastUse;
    var values, names := Tuple(h, items, RowOf(p, edge)).value, Names(items);
    TupleShows(h, p, items, edge);
    BindKeys(names, values);
    forall i | 0 <= i < |items| && LastUseOf(items, i)
      ensures items[i].name in Bind(names, values) && Has(h, p, edge, items[i].expr, Bind(names, values)[items[i].name])
    {
      BindKeepsLast(names, values, i);
      assert LastUse(names, i) == i;
    }
  }

  // ---------------------------------------------------------------- DISTINCT, ORDER BY and the limits

  lemma {:induction false} FirstsAreFirst<T(!new)>(xs: seq<T>, key: T -> string) returns (at: seq<nat>)
    requires forall i, j :: 0 <= i < |xs| && 0 <= j < |xs| ==> (key(xs[i]) == key(xs[j]) <==> xs[i] == xs[j])
    ensures Firstly(xs, Firsts(xs, key), at)
  {
    if xs == [] {
      at := [];
    } else {
      var n := |xs| - 1;
      var front := FirstsAreFirst(xs[..n], key);
      var keys := Map(key, xs[..n]);
      assert key(xs[n]) in keys <==> !FirstUse(xs, n) by {
        assert forall i :: 0 <= i < n ==> keys[i] == key(xs[i]) && xs[..n][i] == xs[i];
      }
      at := if FirstUse(xs, n) then front + [n] else front;
      FirstlyGrows(xs, Firsts(xs[..n], key), front, at);
    }
  }

  /** RETURN DISTINCT keeps the rows that are equal to no earlier one. */
  lemma {:induction false} DistinctRows(rows: seq<J.Value>)
    ensures OnlyFirsts(rows, Firsts(rows, RowKey))
  {
    hide RowKey, Firsts, Firstly;
    forall i, j | 0 <= i < |rows| && 0 <= j < |rows| ensures RowKey(rows[i]) == RowKey(rows[j]) <==> rows[i] == rows[j] {
      SameRowKey(rows[i], rows[j]);
    }
    var at := FirstsAreFirst(rows, RowKey);
  }

  lemma {:induction false} SameRowKey(a: J.Value, b: J.Value)
    ensures RowKey(a) == RowKey(b) <==> a == b
  {
    hide J.Encode;
    J.EncodeInjective(a, b);
  }

  lemma {:induction false} FirstlyGrows<T(!new)>(xs: seq<T>, ys: seq<T>, front: seq<nat>, at: seq<nat>)
    requires xs != [] && Firstly(xs[..|xs| - 1], ys, front)
    requires var n := |xs| - 1; at == if FirstUse(xs, n) then front + [n] else front
    ensures var n := |xs| - 1; Firstly(xs, if FirstUse(xs, n) then ys + [xs[n]] else ys, at)
  {
    hide FirstUse;
    var n := |xs| - 1;
    forall i | 0 <= i < n ensures FirstUse(xs[..n], i) <==> FirstUse(xs, i) { SameUse(xs, n, i); }
    assert n !in front;
    assert forall i :: 0 <= i < n ==> (i in at <==> i in front);
  }

  lemma {:induction false} SameUse<T>(xs: seq<T>, n: nat, i: nat)
    requires i < n <= |xs|
    ensures FirstUse(xs[..n], i) <==> FirstUse(xs, i)
  {
    assert forall j :: 0 <= j < n ==> xs[..n][j] == xs[j];
  }

  lemma {:induction false} SortArranges(h: Host, order: OrderBy, xs: seq<J.Value>)
    ensures Arranged(h, order, xs, SortRows(h, order, xs))
  {
    var key := row => ColumnKey(h, order.key, row);
    var ys := SortRows(h, order, xs);
    hide StableSort, WithKey, Less, SortKey, Keyed, ColumnKey;
    SortIsStable(xs, key, order.descending);
    forall row ensures RowKeyed(h, order.key, row, key(row)) { ColumnKeyed(h, order.key, row); }
    forall i, j | 0 <= i < j < |ys|
      ensures if order.descending then !Less(key(ys[i]), key(ys[j])) else !Less(key(ys[j]), key(ys[i]))
    {
      assert !Ahead(key(ys[j]), key(ys[i]), order.descending);
    }
    assert ArrangedBy(h, order, xs, ys, key);
  }

  lemma {:induction false} ColumnKeyed(h: Host, column: string, row: J.Value)
    ensures RowKeyed(h, column, row, ColumnKey(h, column, row))
  {
    hide SortKey, Keyed;
    var v := if row.Object? && column in row.fields then row.fields[column] else J.Null;
    KeyedIff(h, v, SortKey(h, v));
    KeyedIff(h, J.Null, SortKey(h, J.Null));
    NullKey(h);
  }

  lemma {:induction false} NullKey(h: Host)
    ensures SortKey(h, J.Null) == ""
  {
  }

  lemma {:induction false} FinishCuts(h: Host, q: Query, rows: seq<J.Value>, maxRows: nat)
    ensures var sorted := if q.order.Some? then SortRows(h, q.order.value, rows) else rows;
            var answer := Finish(h, q, rows, maxRows);
            CutTo(sorted, q.limit, maxRows, answer.rows, answer.truncated) && answer.columns == Names(q.returned.items)
  {
    hide SortRows;
  }

  lemma {:induction false} FinishDelivers(h: Host, q: Query, rows: seq<J.Value>, maxRows: nat)
    ensures Delivers(h, q, rows, maxRows, Finish(h, q, if q.returned.distinct then Firsts(rows, RowKey) else rows, maxRows))
  {
    hide SortRows, Finish, CutTo, Arranged, Firsts, Firstly;
    var kept := if q.returned.distinct then Firsts(rows, RowKey) else rows;
    DistinctRows(rows);
    FinishCuts(h, q, kept, maxRows);
    if q.order.Some? { SortArranges(h, q.order.value, kept); }
    var sorted := if q.order.Some? then SortRows(h, q.order.value, kept) else kept;
    assert DeliversBy(h, q, rows, maxRows, Finish(h, q, kept, maxRows), kept, sorted);
  }

  // ---------------------------------------------------------------- the answers

  /**
   A query without WITH and without an aggregate fails exactly when a chosen edge has no value for
   some column. Otherwise it answers with one row for each chosen edge, in order, each showing the
   values the edge has, with repeats dropped, the rows arranged and the answer cut as asked.
   */
  lemma {:induction false} QueryAnswers(h: Host, q: Query, edges: seq<GraphEdge>, maxRows: nat) returns (rows: seq<J.Value>)
    requires q.carried.None? && !HasAggregate(q.returned.items)
    ensures var r, chosen := Evaluate(h, q, edges, maxRows), Chosen(h, q, edges);
            && (r.Ok? <==> forall e :: e in chosen ==> AllShow(h, q.pattern, q.returned.items, e))
            && (r.Ok? ==>
                && |rows| == |chosen| && (forall k :: 0 <= k < |rows| ==> RowShows(h, q.pattern, q.returned.items, chosen[k], rows[k]))
                && r.value.columns == Names(q.returned.items)
                && Delivers(h, q, rows, maxRows, r.value))
  {
    hide Matched, Chosen, Tuples, Firsts, JsonRow, Delivers, Finish, AllShow, RowShows, RowOf;
    var items, chosen := q.returned.items, Chosen(h, q, edges);
    MatchedAreChosen(h, q, edges);
    TuplesShow(h, q.pattern, items, chosen);
    PlainReturn(h, q.returned, Matched(h, q, edges));
    var tuples := Tuples(h, items, Matched(h, q, edges));
    rows := [];
    if tuples.Ok? {
      rows := Map(t => JsonRow(Names(items), t), tuples.value);
      forall k | 0 <= k < |rows| ensures RowShows(h, q.pattern, items, chosen[k], rows[k]) { JsonRowShows(h, q.pattern, items, chosen[k]); }
      FinishDelivers(h, q, rows, maxRows);
      FinishCuts(h, q, if q.returned.distinct then Firsts(rows, RowKey) else rows, maxRows);
    }
  }

  // ---------------------------------------------------------------- counting

  ghost predicate Seen(h: Host, p: Pattern, edges: seq<GraphEdge>, e: ValueExpr, v: J.Value) {
    exists k :: 0 <= k < |edges| && Has(h, p, edges[k], e, v)
  }

  lemma {:induction false} SortOne(row: J.Value, key: J.Value -> string, descending: bool)
    ensures StableSort([row], key, descending) == [row]
  {
    hide Less;
    assert [row][..0] == [];
    assert StableSort([row][..0], key, descending) == [];
  }

  lemma {:induction false} OneRowDelivered(h: Host, q: Query, row: J.Value, maxRows: nat)
    ensures var answer := Finish(h, q, if q.returned.distinct then Firsts([row], RowKey) else [row], maxRows);
            CutTo([row], q.limit, maxRows, answer.rows, answer.truncated) && answer.columns == Names(q.returned.items)
  {
    hide RowKey, ColumnKey, CutTo, Finish, StableSort;
    assert [row][..0] == [];
    assert Firsts([row][..0], RowKey) == [];
    assert Firsts([row], RowKey) == [row];
    FinishCuts(h, q, [row], maxRows);
    if q.order.Some? {
      SortOne(row, r => ColumnKey(h, q.order.value.key, r), q.order.value.descending);
    }
  }

  /** `count(*)` is the number of chosen edges. */
  lemma {:induction false} CountAnswers(h: Host, q: Query, edges: seq<GraphEdge>, maxRows: nat, column: string)
    requires q.carried.None? && q.returned.items == [SelectItem(CountAll, column)]
    ensures var r := Evaluate(h, q, edges, maxRows);
            && r.Ok? && r.value.columns == [column]
            && CutTo([J.Object(map[column := J.Number(|Chosen(h, q, edges)|)])], q.limit, maxRows, r.value.rows, r.value.truncated)
  {
    hide Matched, Chosen, Firsts, Finish, CutTo, RowOf;
    MatchedAreChosen(h, q, edges);
    assert IsAggregate(q.returned.items[0].expr);
    OneRowDelivered(h, q, J.Object(map[column := J.Number(|Chosen(h, q, edges)|)]), maxRows);
  }

  /** These are exactly the values that `e` has on the edges. */
  ghost predicate AreSeen(h: Host, p: Pattern, edges: seq<GraphEdge>, e: ValueExpr, values: set<J.Value>) {
    forall v :: v in values <==> Seen(h, p, edges, e, v)
  }

  /** The keys stand for the values, one for each. */
  ghost predicate KeysOfValues(keys: set<string>, values: set<J.Value>) {
    |keys| == |values| && forall v :: v in values <==> J.Encode(v) in keys
  }

  lemma {:induction false} KeysCount(h: Host, p: Pattern, e: ValueExpr, edges: seq<GraphEdge>) returns (values: set<J.Value>)
    ensures var keys := Keys(h, e, Map(edge => RowOf(p, edge), edges));
            && (keys.Ok? <==> forall k :: 0 <= k < |edges| ==> Shows(h, p, edges[k], e))
            && (keys.Ok? ==> KeysOfValues(keys.value, values) && AreSeen(h, p, edges, e, values))
    decreases |edges|
  {
    hide EvalValue, RowOf, J.Encode, Shows, AreSeen, KeysOfValues;
    values := {};
    if edges == [] {
      NothingSeen(h, p, e);
    } else {
      var n := |edges| - 1;
      var rows := Map(edge => RowOf(p, edge), edges);
      assert rows[..n] == Map(edge => RowOf(p, edge), edges[..n]);
      var front := KeysCount(h, p, e, edges[..n]);
      var keys, last := Keys(h, e, rows[..n]), EvalValue(h, e, rows[n]);
      assert forall k :: 0 <= k < n ==> edges[..n][k] == edges[k];
      ShowsIff(h, p, edges[n], e);
      if keys.Ok? && last.Ok? {
        values := front + {last.value};
        SeenGrows(h, p, edges, e, front, last.value);
        KeyAdded(keys.value, front, last.value);
      }
    }
  }

  lemma {:induction false} SeenGrows(h: Host, p: Pattern, edges: seq<GraphEdge>, e: ValueExpr, front: set<J.Value>, value: J.Value)
    requires edges != [] && AreSeen(h, p, edges[..|edges| - 1], e, front) && EvalValue(h, e, RowOf(p, edges[|edges| - 1])) == Ok(value)
    ensures AreSeen(h, p, edges, e, front + {value})
  {
    hide Has, EvalValue, RowOf, Seen;
    forall v ensures v in front + {value} <==> Seen(h, p, edges, e, v) {
      HasIff(h, p, edges[|edges| - 1], e, v);
      SeenStep(h, p, edges, e, v);
    }
  }

  lemma {:induction false} NothingSeen(h: Host, p: Pattern, e: ValueExpr)
    ensures AreSeen(h, p, [], e, {}) && KeysOfValues({}, {})
  {
    hide Has;
  }

  lemma {:induction false} ShowsIff(h: Host, p: Pattern, edge: GraphEdge, e: ValueExpr)
    ensures Shows(h, p, edge, e) <==> EvalValue(h, e, RowOf(p, edge)).Ok?
  {
    hide Has, EvalValue, RowOf;
    var r := EvalValue(h, e, RowOf(p, edge));
    forall v ensures Has(h, p, edge, e, v) <==> r == Ok(v) { HasIff(h, p, edge, e, v); }
    assert r.Ok? ==> Has(h, p, edge, e, r.value);
  }

  lemma {:induction false} KeyAdded(keys: set<string>, values: set<J.Value>, v: J.Value)
    requires KeysOfValues(keys, values)
    ensures KeysOfValues(keys + {J.Encode(v)}, values + {v})
  {
    hide J.Encode;
    forall w ensures J.Encode(w) == J.Encode(v) <==> w == v { J.EncodeInjective(w, v); }
    if v in values {
      assert values + {v} == values && keys + {J.Encode(v)} == keys;
    }
  }

  lemma {:induction false} SeenStep(h: Host, p: Pattern, edges: seq<GraphEdge>, e: ValueExpr, v: J.Value)
    requires edges != []
    ensures var n := |edges| - 1; Seen(h, p, edges, e, v) <==> Seen(h, p, edges[..n], e, v) || Has(h, p, edges[n], e, v)
  {
    hide Has;
    var n := |edges| - 1;
    assert forall k :: 0 <= k < n ==> edges[..n][k] == edges[k];
  }

  /** `count(DISTINCT e)` is the number of different values that `e` has on the chosen edges. */
  lemma {:induction false} CountDistinctAnswers(h: Host, q: Query, edges: seq<GraphEdge>, maxRows: nat, e: ValueExpr, column: string)
    returns (values: set<J.Value>)
    requires q.carried.None? && q.returned.items == [SelectItem(CountDistinct(e), column)]
    ensures var r, chosen := Evaluate(h, q, edges, maxRows), Chosen(h, q, edges);
            && (r.Ok? <==> forall k :: 0 <= k < |chosen| ==> Shows(h, q.pattern, chosen[k], e))
            && (r.Ok? ==>
                && r.value.columns == [column] && AreSeen(h, q.pattern, chosen, e, values)
                && CutTo([J.Object(map[column := J.Number(|values|)])], q.limit, maxRows, r.value.rows, r.value.truncated))
  {
    hide Matched, Chosen, Keys, Firsts, Finish, CutTo, RowOf, Shows, AreSeen;
    MatchedAreChosen(h, q, edges);
    assert IsAggregate(q.returned.items[0].expr);
    values := KeysCount(h, q.pattern, e, Chosen(h, q, edges));
    OneRowDelivered(h, q, J.Object(map[column := J.Number(|values|)]), maxRows);
  }

  /** An aggregate stands alone in RETURN. */
  lemma {:induction false} MixedAggregatesFail(h: Host, q: Query, edges: seq<GraphEdge>, maxRows: nat, i: nat)
    requires i < |q.returned.items| && |q.returned.items| > 1
    requires q.returned.items[i].expr.CountAll? || q.returned.items[i].expr.CountDistinct?
    ensures Evaluate(h, q, edges, maxRows).Err?
  {
    hide Matched, ProjectEval, ProjectJson, AggregateRows, Firsts;
    assert IsAggregate(q.returned.items[i].expr);
  }
}
