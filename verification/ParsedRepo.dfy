/**
 `ParsedRepo`: per-file extraction results are merged, then `finish` resolves imports, routes and
 calls against the merged definitions. The facts do not depend on the order of the merges.
 */
module ParsedRepos {
  import opened Wrappers
  import opened Order

  datatype FactKey = FactKey(subject: string, pred: string, obj: string, source: string, note: string)
  datatype ImportRef = ImportRef(owner: string, raw: string, fallback: string, source: string)
  datatype RouteRef = RouteRef(method_: string, path: string, handlerSubject: Option<string>, handlerName: Option<string>, source: string, note: string)
  datatype TypedCallHint = TypedCallHint(targetName: string, note: string)
  datatype CallRef = CallRef(caller: string, calleeName: string, typedTarget: Option<TypedCallHint>, source: string)

  datatype Repo = Repo(
    facts: set<FactKey>,
    calls: seq<CallRef>,
    imports: seq<ImportRef>,
    routes: seq<RouteRef>,
    definitions: map<string, set<string>>,
    packages: map<string, string>)

  const EMPTY_REPO := Repo({}, [], [], [], map[], map[])

  /** Path arithmetic on imports and routes, which only reads its arguments. */
  datatype Resolvers = Resolvers(
    importTarget: (map<string, string>, ImportRef) -> Option<string>,
    routeId: (string, string) -> string)

  // ---------------------------------------------------------------- symbols

  predicate IsAlphanumeric(c: char) {
    '0' <= c <= '9' || 'a' <= c <= 'z' || 'A' <= c <= 'Z'
  }

  /** The character loop of `sanitize_symbol`; blanks contribute nothing, so trimming is implied. */
  function Squeeze(s: string, out: string): string
    decreases |s|
  {
    if s == "" then out
    else if IsAlphanumeric(s[0]) then Squeeze(s[1..], out + [s[0]])
    else if (s[0] == '_' || s[0] == '-') && out != "" && out[|out| - 1] != '_' then Squeeze(s[1..], out + "_")
    else Squeeze(s[1..], out)
  }

  function DropUnderscores(s: string): string {
    if s != "" && s[|s| - 1] == '_' then DropUnderscores(s[..|s| - 1]) else s
  }

  function SanitizeSymbol(value: string): Option<string> {
    var out := DropUnderscores(Squeeze(value, ""));
    if out == "" then None
    else
      var named := if '0' <= out[0] <= '9' then "n" + out else out;
      Some(if |named| > 96 then named[..96] else named)
  }

  function WithPrefix(subjects: set<string>, prefix: string): set<string> {
    set s | s in subjects && prefix <= s
  }

  /** The only subject, else the smallest method. */
  function ResolveExact(definitions: map<string, set<string>>, name: string): Option<string> {
    match SanitizeSymbol(name)
    case None => None
    case Some(n) =>
      if n !in definitions then None
      else
        var subjects := definitions[n];
        if |subjects| == 1 then Some(Least(subjects))
        else if WithPrefix(subjects, "method:") != {} then Some(Least(WithPrefix(subjects, "method:")))
        else None
  }

  /** The only subject, else the smallest function, else the smallest subject, else a guess. */
  function ResolveCallTarget(definitions: map<string, set<string>>, callee: string): string {
    var name := SanitizeSymbol(callee).GetOr("unknown");
    if name !in definitions then "function:" + name
    else
      var subjects := definitions[name];
      if |subjects| == 1 then Least(subjects)
      else if WithPrefix(subjects, "function:") != {} then Least(WithPrefix(subjects, "function:"))
      else if subjects != {} then Least(subjects)
      else "function:" + name
  }

  function ResolveCall(definitions: map<string, set<string>>, call: CallRef): (string, string) {
    if call.typedTarget.Some? && ResolveExact(definitions, call.typedTarget.value.targetName).Some? then
      (ResolveExact(definitions, call.typedTarget.value.targetName).value, call.typedTarget.value.note)
    else
      (ResolveCallTarget(definitions, call.calleeName), "oaf.ingest:call")
  }

  function ResolveHandler(definitions: map<string, set<string>>, route: RouteRef): Option<string> {
    if route.handlerSubject.Some? then route.handlerSubject
    else if route.handlerName.Some? then ResolveExact(definitions, route.handlerName.value)
    else None
  }

  predicate IsDefined(definitions: map<string, set<string>>, subject: string) {
    exists name :: name in definitions && subject in definitions[name]
  }

  function SymbolKind(subject: string): string {
    if "method:" <= subject then "Method"
    else if "class:" <= subject then "Class"
    else if "module:" <= subject then "Module"
    else if "file:" <= subject then "File"
    else "Function"
  }

  // ---------------------------------------------------------------- what finish adds

  function EntityFact(subject: string, kind: string, source: string, note: string): FactKey {
    FactKey(subject, "IS_A", kind, source, note)
  }

  function ImportFacts(packages: map<string, string>, r: Resolvers, i: ImportRef): set<FactKey> {
    var target := r.importTarget(packages, i);
    if target.Some? && target.value != i.fallback then
      {EntityFact(target.value, "Module", i.source, "oaf.ingest:resolved-import-module"),
       FactKey(i.owner, "IMPORTS", target.value, i.source, "oaf.ingest:resolved-import")}
    else {}
  }

  function RouteFacts(definitions: map<string, set<string>>, r: Resolvers, route: RouteRef): set<FactKey> {
    var id := r.routeId(route.method_, route.path);
    {EntityFact(id, "Route", route.source, "oaf.ingest:route"),
     FactKey(id, "HAS_METHOD", "method=" + route.method_, route.source, route.note),
     FactKey(id, "HAS_PATH", "path=" + route.path, route.source, route.note)}
    + (var handler := ResolveHandler(definitions, route);
       if handler.Some? then {FactKey(handler.value, "HANDLES", id, route.source, route.note)} else {})
  }

  function CallFacts(definitions: map<string, set<string>>, call: CallRef): set<FactKey> {
    var (target, note) := ResolveCall(definitions, call);
    (if IsDefined(definitions, target) then {} else {EntityFact(target, SymbolKind(target), call.source, "oaf.ingest:call-target")})
    + {FactKey(call.caller, "CALLS", target, call.source, note)}
  }

  function AllImportFacts(packages: map<string, string>, r: Resolvers, imports: seq<ImportRef>): set<FactKey> {
    set i, f | i in imports && f in ImportFacts(packages, r, i) :: f
  }

  function AllRouteFacts(definitions: map<string, set<string>>, r: Resolvers, routes: seq<RouteRef>): set<FactKey> {
    set x, f | x in routes && f in RouteFacts(definitions, r, x) :: f
  }

  function AllCallFacts(definitions: map<string, set<string>>, calls: seq<CallRef>): set<FactKey> {
    set c, f | c in calls && f in CallFacts(definitions, c) :: f
  }

  /** The fact set that `finish` returns. */
  function FinishFacts(repo: Repo, r: Resolvers): set<FactKey> {
    repo.facts + AllImportFacts(repo.packages, r, repo.imports) + AllRouteFacts(repo.definitions, r, repo.routes)
      + AllCallFacts(repo.definitions, repo.calls)
  }

  // ---------------------------------------------------------------- what finish adds, said by the facts

  /** `t` is the first subject, in order, that starts with the prefix. */
  ghost predicate FirstWith(subjects: set<string>, prefix: string, t: string) {
    t in subjects && prefix <= t && forall s :: s in subjects && prefix <= s ==> s == t || Less(t, s)
  }

  /** A name resolves exactly: to its only definition, else to its first method. */
  ghost predicate Names(definitions: map<string, set<string>>, name: string, t: string) {
    && SanitizeSymbol(name).Some?
    && SanitizeSymbol(name).value in definitions
    && var subjects := definitions[SanitizeSymbol(name).value];
       if |subjects| == 1 then t in subjects else FirstWith(subjects, "method:", t)
  }

  ghost predicate SomeNamed(definitions: map<string, set<string>>, name: string) {
    exists t :: Names(definitions, name, t)
  }

  ghost predicate SomeWith(subjects: set<string>, prefix: string) {
    exists s :: s in subjects && prefix <= s
  }

  /** A call goes to the only definition, else to the first function, else to the first subject, else to a guess. */
  ghost predicate GoesTo(definitions: map<string, set<string>>, callee: string, t: string) {
    var name := match SanitizeSymbol(callee) { case Some(n) => n case None => "unknown" };
    var known := if name in definitions then definitions[name] else {};
    if |known| == 1 then t in known
    else if SomeWith(known, "function:") then FirstWith(known, "function:", t)
    else if known != {} then FirstWith(known, "", t)
    else t == "function:" + name
  }

  /** A typed hint that resolves comes first and gives its note. */
  ghost predicate Resolves(definitions: map<string, set<string>>, call: CallRef, t: string, note: string) {
    if call.typedTarget.Some? && SomeNamed(definitions, call.typedTarget.value.targetName)
    then Names(definitions, call.typedTarget.value.targetName, t) && note == call.typedTarget.value.note
    else GoesTo(definitions, call.calleeName, t) && note == "oaf.ingest:call"
  }

  predicate HasKind(subject: string, kind: string) {
    match kind
    case "Method" => "method:" <= subject
    case "Class" => "class:" <= subject
    case "Module" => "module:" <= subject
    case "File" => "file:" <= subject
    case "Function" => !("method:" <= subject) && !("class:" <= subject) && !("module:" <= subject) && !("file:" <= subject)
    case _ => false
  }

  /** The fact says who calls whom, or introduces a target that nothing defines. */
  ghost predicate ToldByCall(definitions: map<string, set<string>>, call: CallRef, t: string, note: string, f: FactKey) {
    && Resolves(definitions, call, t, note)
    && (|| f == FactKey(call.caller, "CALLS", t, call.source, note)
        || (&& (forall n :: n in definitions ==> t !in definitions[n])
            && HasKind(t, f.obj) && f == FactKey(t, "IS_A", f.obj, call.source, "oaf.ingest:call-target")))
  }

  ghost predicate FromCall(definitions: map<string, set<string>>, call: CallRef, f: FactKey) {
    exists t, note :: ToldByCall(definitions, call, t, note, f)
  }

  /** The handler is the given subject, else what the given name resolves to. */
  ghost predicate Handles(definitions: map<string, set<string>>, route: RouteRef, t: string) {
    if route.handlerSubject.Some? then t == route.handlerSubject.value
    else route.handlerName.Some? && Names(definitions, route.handlerName.value, t)
  }

  ghost predicate FromRoute(definitions: map<string, set<string>>, r: Resolvers, route: RouteRef, f: FactKey) {
    var id := r.routeId(route.method_, route.path);
    && f.source == route.source
    && (|| (f.pred == "IS_A" && f.subject == id && f.obj == "Route" && f.note == "oaf.ingest:route")
        || (f.pred == "HAS_METHOD" && f.subject == id && f.obj == "method=" + route.method_ && f.note == route.note)
        || (f.pred == "HAS_PATH" && f.subject == id && f.obj == "path=" + route.path && f.note == route.note)
        || (f.pred == "HANDLES" && Handles(definitions, route, f.subject) && f.obj == id && f.note == route.note))
  }

  /** An import that resolves away from its fallback names the module and imports it. */
  ghost predicate FromImport(packages: map<string, string>, r: Resolvers, i: ImportRef, f: FactKey) {
    var target := r.importTarget(packages, i);
    && target.Some? && target.value != i.fallback && f.source == i.source
    && (|| (f.subject == i.owner && f.pred == "IMPORTS" && f.obj == target.value && f.note == "oaf.ingest:resolved-import")
        || (f.subject == target.value && f.pred == "IS_A" && f.obj == "Module" && f.note == "oaf.ingest:resolved-import-module"))
  }

  /** What `finish` is to return, fact by fact. */
  ghost predicate Expected(repo: Repo, r: Resolvers, f: FactKey) {
    || f in repo.facts
    || (exists i :: i in repo.imports && FromImport(repo.packages, r, i, f))
    || (exists x :: x in repo.routes && FromRoute(repo.definitions, r, x, f))
    || (exists c :: c in repo.calls && FromCall(repo.definitions, c, f))
  }

  lemma {:induction false} FirstIsLeast(subjects: set<string>, prefix: string, t: string)
    ensures WithPrefix(subjects, prefix) != {} <==> SomeWith(subjects, prefix)
    ensures WithPrefix(subjects, prefix) != {} ==> (FirstWith(subjects, prefix, t) <==> t == Least(WithPrefix(subjects, prefix)))
    ensures WithPrefix(subjects, prefix) == {} ==> !FirstWith(subjects, prefix, t)
  {
    hide Less;
    var some := WithPrefix(subjects, prefix);
    if some != {} {
      var x :| x in some;
      assert x in subjects && prefix <= x;
      LeastExists(some);
      assert FirstWith(subjects, prefix, t) <==> IsLeast(some, t);
    } else {
      assert forall s :: s in subjects && prefix <= s ==> s in some;
    }
  }

  lemma {:induction false} OnlyOne(subjects: set<string>, t: string)
    requires |subjects| == 1
    ensures t in subjects <==> t == Least(subjects)
  {
    var x :| x in subjects;
    assert |subjects - {x}| == 0;
    assert subjects == {x} + (subjects - {x});
  }

  lemma {:induction false} NamesIff(definitions: map<string, set<string>>, name: string, t: string)
    ensures Names(definitions, name, t) <==> ResolveExact(definitions, name) == Some(t)
  {
    hide SanitizeSymbol, Less, FirstWith;
    var n := SanitizeSymbol(name);
    if n.Some? && n.value in definitions {
      var subjects := definitions[n.value];
      FirstIsLeast(subjects, "method:", t);
      if |subjects| == 1 {
        OnlyOne(subjects, t);
      }
    }
  }

  lemma {:induction false} GoesToIff(definitions: map<string, set<string>>, callee: string, t: string)
    ensures GoesTo(definitions, callee, t) <==> ResolveCallTarget(definitions, callee) == t
  {
    hide SanitizeSymbol, Less, FirstWith, SomeWith;
    var name := SanitizeSymbol(callee).GetOr("unknown");
    var known := if name in definitions then definitions[name] else {};
    FirstIsLeast(known, "function:", t);
    FirstIsLeast(known, "", t);
    assert WithPrefix(known, "") == known;
    if |known| == 1 {
      OnlyOne(known, t);
    }
    assert known == {} ==> WithPrefix(known, "function:") == {};
  }

  lemma {:induction false} ResolvesIff(definitions: map<string, set<string>>, call: CallRef, t: string, note: string)
    ensures Resolves(definitions, call, t, note) <==> ResolveCall(definitions, call) == (t, note)
  {
    hide Names, GoesTo, ResolveExact, ResolveCallTarget;
    GoesToIff(definitions, call.calleeName, t);
    if call.typedTarget.Some? {
      var name := call.typedTarget.value.targetName;
      NamesIff(definitions, name, t);
      if ResolveExact(definitions, name).Some? {
        NamesIff(definitions, name, ResolveExact(definitions, name).value);
      }
      if SomeNamed(definitions, name) {
        var s :| Names(definitions, name, s);
        NamesIff(definitions, name, s);
      }
    }
  }

  lemma {:induction false} KindIff(subject: string, kind: string)
    requires |subject| > 0
    ensures HasKind(subject, kind) <==> SymbolKind(subject) == kind
  {
    assert "method:"[0] == 'm' && "class:"[0] == 'c' && "module:"[0] == 'm' && "file:"[0] == 'f' && "method:"[1] == 'e' && "module:"[1] == 'o';
  }

  lemma {:induction false} CallFactsIff(definitions: map<string, set<string>>, call: CallRef, f: FactKey)
    ensures f in CallFacts(definitions, call) <==> FromCall(definitions, call, f)
  {
    hide Resolves, ResolveCall, SymbolKind, HasKind;
    var (target, note) := ResolveCall(definitions, call);
    ResolvesIff(definitions, call, target, note);
    SameKind(target, f.obj);
    if f in CallFacts(definitions, call) {
      assert ToldByCall(definitions, call, target, note, f);
    }
    if FromCall(definitions, call, f) {
      var t, n :| ToldByCall(definitions, call, t, n, f);
      ResolvesIff(definitions, call, t, n);
    }
  }

  lemma {:induction false} SameKind(subject: string, kind: string)
    ensures HasKind(subject, kind) <==> SymbolKind(subject) == kind
  {
    if subject != "" {
      KindIff(subject, kind);
    }
  }

  lemma {:induction false} RouteFactsIff(definitions: map<string, set<string>>, r: Resolvers, route: RouteRef, f: FactKey)
    ensures f in RouteFacts(definitions, r, route) <==> FromRoute(definitions, r, route, f)
  {
    hide ResolveExact, Names;
    if route.handlerName.Some? {
      NamesIff(definitions, route.handlerName.value, f.subject);
    }
    assert Handles(definitions, route, f.subject) <==> ResolveHandler(definitions, route) == Some(f.subject);
  }

  lemma {:induction false} ImportFactsIff(packages: map<string, string>, r: Resolvers, i: ImportRef, f: FactKey)
    ensures f in ImportFacts(packages, r, i) <==> FromImport(packages, r, i, f)
  {
  }

  /** The returned facts are exactly the expected ones. */
  lemma {:induction false} FinishIff(repo: Repo, r: Resolvers, f: FactKey)
    ensures f in FinishFacts(repo, r) <==> Expected(repo, r, f)
  {
    hide ImportFacts, RouteFacts, CallFacts, FromImport, FromRoute, FromCall;
    forall i ensures f in ImportFacts(repo.packages, r, i) <==> FromImport(repo.packages, r, i, f) { ImportFactsIff(repo.packages, r, i, f); }
    forall x ensures f in RouteFacts(repo.definitions, r, x) <==> FromRoute(repo.definitions, r, x, f) { RouteFactsIff(repo.definitions, r, x, f); }
    forall c ensures f in CallFacts(repo.definitions, c) <==> FromCall(repo.definitions, c, f) { CallFactsIff(repo.definitions, c, f); }
  }

  // ---------------------------------------------------------------- sanitised names

  predicate IsClean(s: string) {
    && 0 < |s| <= 96 && !('0' <= s[0] <= '9') && s[0] != '_' && s[|s| - 1] != '_'
    && (forall i :: 0 <= i < |s| ==> IsAlphanumeric(s[i]) || s[i] == '_')
    && forall i :: 0 < i < |s| ==> !(s[i] == '_' && s[i - 1] == '_')
  }

  lemma {:induction false} SqueezeClean(done: string, rest: string)
    requires forall i :: 0 <= i < |rest| ==> IsAlphanumeric(rest[i]) || rest[i] == '_'
    requires var s := done + rest; s != "" ==> s[0] != '_' && forall i :: 0 < i < |s| ==> !(s[i] == '_' && s[i - 1] == '_')
    ensures Squeeze(rest, done) == done + rest
    decreases |rest|
  {
    if rest == "" {
      assert done + rest == done;
    } else {
      var s := done + rest;
      assert s[|done|] == rest[0];
      assert done != "" ==> s[|done| - 1] == done[|done| - 1];
      assert done + [rest[0]] + rest[1..] == s;
      SqueezeClean(done + [rest[0]], rest[1..]);
    }
  }

  /** A clean name is its own sanitised form. */
  lemma {:induction false} CleanStays(s: string)
    requires IsClean(s)
    ensures SanitizeSymbol(s) == Some(s)
  {
    hide Squeeze;
    assert "" + s == s;
    SqueezeClean("", s);
    assert DropUnderscores(s) == s;
  }

  lemma {:induction false} SqueezeShape(s: string, out: string)
    requires forall i :: 0 <= i < |out| ==> IsAlphanumeric(out[i]) || out[i] == '_'
    requires out != "" ==> out[0] != '_'
    ensures var r := Squeeze(s, out);
            && (forall i :: 0 <= i < |r| ==> IsAlphanumeric(r[i]) || r[i] == '_')
            && (r != "" ==> r[0] != '_')
            && (r == "" <==> out == "" && forall i :: 0 <= i < |s| ==> !IsAlphanumeric(s[i]))
    decreases |s|
  {
    if s != "" {
      var next := if IsAlphanumeric(s[0]) then out + [s[0]]
                  else if (s[0] == '_' || s[0] == '-') && out != "" && out[|out| - 1] != '_' then out + "_" else out;
      SqueezeShape(s[1..], next);
      assert forall i :: 0 < i < |s| ==> s[i] == s[1..][i - 1];
      assert Squeeze(s, out) == Squeeze(s[1..], next);
    }
  }

  lemma {:induction false} DropShape(s: string)
    requires s != "" ==> s[0] != '_'
    ensures DropUnderscores(s) <= s && (s != "" ==> DropUnderscores(s) != "")
  {
    if s != "" && s[|s| - 1] == '_' {
      DropShape(s[..|s| - 1]);
    }
  }

  /** A name has a sanitised form iff it has a letter or digit; that form is short, plain and starts with a letter. */
  lemma {:induction false} SanitizedShape(value: string)
    ensures SanitizeSymbol(value).Some? <==> exists i :: 0 <= i < |value| && IsAlphanumeric(value[i])
    ensures SanitizeSymbol(value).Some? ==>
      var s := SanitizeSymbol(value).value;
      && 0 < |s| <= 96 && IsAlphanumeric(s[0]) && !('0' <= s[0] <= '9')
      && forall i :: 0 <= i < |s| ==> IsAlphanumeric(s[i]) || s[i] == '_'
  {
    hide Squeeze, DropUnderscores;
    SqueezeShape(value, "");
    var r := Squeeze(value, "");
    DropShape(r);
    var out := DropUnderscores(r);
    assert forall i :: 0 <= i < |out| ==> out[i] == r[i];
  }

  lemma {:induction false} SqueezeParts(a: string, b: string, out: string)
    ensures Squeeze(a + b, out) == Squeeze(b, Squeeze(a, out))
    decreases |a|
  {
    if a == "" {
      assert a + b == b;
    } else {
      assert (a + b)[1..] == a[1..] + b && (a + b)[0] == a[0];
      SqueezeParts(a[1..], b, out + [a[0]]);
      SqueezeParts(a[1..], b, out + "_");
      SqueezeParts(a[1..], b, out);
    }
  }

  lemma {:induction false} SqueezeOne(c: char, out: string)
    ensures Squeeze([c], out) == if IsAlphanumeric(c) then out + [c]
                                 else if (c == '_' || c == '-') && out != "" && out[|out| - 1] != '_' then out + "_" else out
  {
    assert [c][1..] == "";
  }

  lemma {:induction false} SqueezeMiddle(a: string, c: char, b: string)
    ensures Squeeze(a + [c] + b, "") == Squeeze(b, Squeeze([c], Squeeze(a, "")))
  {
    hide Squeeze;
    SqueezeParts(a + [c], b, "");
    SqueezeParts(a, [c], "");
  }

  /**
   Sanitising, as rewriting: a character that is neither a letter, a digit nor a dash of some kind
   does not count; a hyphen counts as an underscore, and so do several underscores in a row.
   */
  lemma {:induction false} SanitizeRewrites(a: string, c: char, b: string)
    ensures !IsAlphanumeric(c) && c != '_' && c != '-' ==> SanitizeSymbol(a + [c] + b) == SanitizeSymbol(a + b)
    ensures SanitizeSymbol(a + "-" + b) == SanitizeSymbol(a + "_" + b)
    ensures SanitizeSymbol(a + "__" + b) == SanitizeSymbol(a + "_" + b)
  {
    hide Squeeze, DropUnderscores;
    var done := Squeeze(a, "");
    SqueezeMiddle(a, c, b);
    SqueezeParts(a, b, "");
    SqueezeOne(c, done);
    SqueezeMiddle(a, '-', b);
    SqueezeMiddle(a, '_', b);
    SqueezeOne('-', done);
    SqueezeOne('_', done);
    assert a + "__" + b == a + "_" + "_" + b;
    SqueezeMiddle(a + "_", '_', b);
    SqueezeParts(a, "_", "");
    SqueezeOne('_', Squeeze("_", done));
  }

  /** Underscores at either end do not count. */
  lemma {:induction false} SanitizeTrims(s: string)
    ensures SanitizeSymbol("_" + s) == SanitizeSymbol(s) && SanitizeSymbol(s + "_") == SanitizeSymbol(s)
  {
    hide Squeeze;
    SqueezeParts("_", s, "");
    SqueezeOne('_', "");
    SqueezeParts(s, "_", "");
    var done := Squeeze(s, "");
    SqueezeOne('_', done);
    assert done + "_" != "" && (done + "_")[..|done|] == done;
  }

  /** A name that starts with a digit gets an "n"; a long one is cut to 96 characters. */
  lemma {:induction false} SanitizeFits(s: string)
    requires s != "" && forall i :: 0 <= i < |s| ==> IsAlphanumeric(s[i])
    ensures SanitizeSymbol(s) == Some(var named := if '0' <= s[0] <= '9' then "n" + s else s; if |named| > 96 then named[..96] else named)
  {
    hide Squeeze;
    assert "" + s == s;
    SqueezeClean("", s);
    assert DropUnderscores(s) == s;
  }

  // ---------------------------------------------------------------- merging

  function SubjectsOf(definitions: map<string, set<string>>, name: string): set<string> {
    if name in definitions then definitions[name] else {}
  }

  function MergeDefinitions(a: map<string, set<string>>, b: map<string, set<string>>): map<string, set<string>> {
    map name | name in a.Keys + b.Keys :: SubjectsOf(a, name) + SubjectsOf(b, name)
  }

  function Merge(a: Repo, b: Repo): Repo {
    Repo(a.facts + b.facts, a.calls + b.calls, a.imports + b.imports, a.routes + b.routes,
         MergeDefinitions(a.definitions, b.definitions), a.packages + b.packages)
  }

  function MergeAll(base: Repo, files: seq<Repo>): Repo {
    if files == [] then base else Merge(MergeAll(base, files[..|files| - 1]), files[|files| - 1])
  }

  /** The items a repository holds, forgetting the order of its lists. */
  datatype Item =
    | FactItem(fact: FactKey)
    | CallItem(call: CallRef)
    | ImportItem(import_: ImportRef)
    | RouteItem(route: RouteRef)
    | NameItem(name: string)
    | DefinitionItem(name: string, subject: string)

  predicate Holds(r: Repo, x: Item) {
    match x
    case FactItem(f) => f in r.facts
    case CallItem(c) => c in r.calls
    case ImportItem(i) => i in r.imports
    case RouteItem(t) => t in r.routes
    case NameItem(n) => n in r.definitions
    case DefinitionItem(n, s) => n in r.definitions && s in r.definitions[n]
  }

  predicate SomeHolds(files: seq<Repo>, x: Item) {
    exists i :: 0 <= i < |files| && Holds(files[i], x)
  }

  lemma {:induction false} MergeHolds(a: Repo, b: Repo, x: Item)
    ensures Holds(Merge(a, b), x) <==> Holds(a, x) || Holds(b, x)
  {
  }

  /** A merged repository holds what its parts hold, whatever their order. */
  lemma {:induction false} MergeAllHolds(base: Repo, files: seq<Repo>, x: Item)
    ensures Holds(MergeAll(base, files), x) <==> Holds(base, x) || SomeHolds(files, x)
    decreases |files|
  {
    hide Merge, Holds;
    if files != [] {
      var rest, last := files[..|files| - 1], files[|files| - 1];
      MergeAllHolds(base, rest, x);
      MergeHolds(MergeAll(base, rest), last, x);
      if i :| 0 <= i < |rest| && Holds(rest[i], x) {
        assert Holds(files[i], x);
      }
      if i :| 0 <= i < |files| && Holds(files[i], x) {
        assert i == |rest| || Holds(rest[i], x);
      }
    }
  }

  /** Per-file results carry no package entries; `extract_repo` sets them once on the base. */
  ghost predicate NoPackages(files: seq<Repo>) {
    forall i :: 0 <= i < |files| ==> files[i].packages == map[]
  }

  lemma {:induction false} MergeAllPackages(base: Repo, files: seq<Repo>)
    requires NoPackages(files)
    ensures MergeAll(base, files).packages == base.packages
    decreases |files|
  {
    if files != [] {
      MergeAllPackages(base, files[..|files| - 1]);
    }
  }

  /** Repositories that hold the same items and packages finish with the same facts. */
  lemma {:induction false} SameItemsSameFacts(a: Repo, b: Repo, r: Resolvers)
    requires a.packages == b.packages && forall x :: Holds(a, x) <==> Holds(b, x)
    ensures FinishFacts(a, r) == FinishFacts(b, r)
  {
    hide ImportFacts, RouteFacts, CallFacts;
    assert a.definitions == b.definitions by {
      forall n ensures n in a.definitions <==> n in b.definitions {
        assert Holds(a, NameItem(n)) <==> Holds(b, NameItem(n));
      }
      forall n | n in a.definitions ensures a.definitions[n] == b.definitions[n] {
        forall s ensures s in a.definitions[n] <==> s in b.definitions[n] {
          assert Holds(a, DefinitionItem(n, s)) <==> Holds(b, DefinitionItem(n, s));
        }
      }
    }
    assert a.facts == b.facts by {
      forall f ensures f in a.facts <==> f in b.facts {
        assert Holds(a, FactItem(f)) <==> Holds(b, FactItem(f));
      }
    }
    forall c ensures c in a.calls <==> c in b.calls {
      assert Holds(a, CallItem(c)) <==> Holds(b, CallItem(c));
    }
    forall i ensures i in a.imports <==> i in b.imports {
      assert Holds(a, ImportItem(i)) <==> Holds(b, ImportItem(i));
    }
    forall t ensures t in a.routes <==> t in b.routes {
      assert Holds(a, RouteItem(t)) <==> Holds(b, RouteItem(t));
    }
  }

  /** Any reordering of the per-file results gives the same facts. */
  lemma {:induction false} MergeOrderIrrelevant(base: Repo, files: seq<Repo>, files': seq<Repo>, r: Resolvers)
    requires NoPackages(files) && multiset(files) == multiset(files')
    ensures FinishFacts(MergeAll(base, files), r) == FinishFacts(MergeAll(base, files'), r)
  {
    hide FinishFacts, MergeAll, Holds;
    forall f ensures f in files <==> f in files' {
      assert f in multiset(files) <==> f in multiset(files');
    }
    forall i | 0 <= i < |files'| ensures files'[i].packages == map[] {
      assert files'[i] in files;
    }
    MergeAllPackages(base, files);
    MergeAllPackages(base, files');
    forall x ensures Holds(MergeAll(base, files), x) <==> Holds(MergeAll(base, files'), x) {
      MergeAllHolds(base, files, x);
      MergeAllHolds(base, files', x);
      SameMembersHold(files, files', x);
    }
    SameItemsSameFacts(MergeAll(base, files), MergeAll(base, files'), r);
  }

  lemma {:induction false} SameMembersHold(files: seq<Repo>, files': seq<Repo>, x: Item)
    requires forall f :: f in files <==> f in files'
    ensures SomeHolds(files, x) <==> SomeHolds(files', x)
  {
    hide Holds;
    if i :| 0 <= i < |files| && Holds(files[i], x) {
      assert files[i] in files';
    }
    if i :| 0 <= i < |files'| && Holds(files'[i], x) {
      assert files'[i] in files;
    }
  }

  /** A way to group merges: `Node(a, b)` merges the result of `b` into that of `a`. */
  datatype Tree = Leaf(repo: Repo) | Node(left: Tree, right: Tree)

  function Leaves(t: Tree): seq<Repo> {
    match t
    case Leaf(repo) => [repo]
    case Node(a, b) => Leaves(a) + Leaves(b)
  }

  function MergeTree(t: Tree): Repo {
    match t
    case Leaf(repo) => repo
    case Node(a, b) => Merge(MergeTree(a), MergeTree(b))
  }

  lemma {:induction false} MergeTreeHolds(t: Tree, x: Item)
    ensures Holds(MergeTree(t), x) <==> SomeHolds(Leaves(t), x)
  {
    hide Holds, Merge;
    match t
    case Leaf(repo) =>
      assert Leaves(t)[0] == repo;
    case Node(a, b) =>
      MergeTreeHolds(a, x);
      MergeTreeHolds(b, x);
      MergeHolds(MergeTree(a), MergeTree(b), x);
      SomeHoldsAppend(Leaves(a), Leaves(b), x);
  }

  /** If one set of package entries is all there is, merging keeps it wherever it stands. */
  lemma {:induction false} MergeTreePackages(t: Tree, packages: map<string, string>)
    requires forall f :: f in Leaves(t) ==> f.packages == map[] || f.packages == packages
    ensures MergeTree(t).packages == map[] || MergeTree(t).packages == packages
    ensures forall f :: f in Leaves(t) && f.packages == packages ==> MergeTree(t).packages == packages
  {
    if t.Node? {
      assert forall f :: f in Leaves(t.left) ==> f in Leaves(t);
      assert forall f :: f in Leaves(t.right) ==> f in Leaves(t);
      MergeTreePackages(t.left, packages);
      MergeTreePackages(t.right, packages);
    }
  }

  /** Every order and every grouping of the merges, the base included, gives the same facts. */
  lemma {:induction false} MergeGroupingIrrelevant(base: Repo, files: seq<Repo>, t: Tree, r: Resolvers)
    requires NoPackages(files) && multiset(Leaves(t)) == multiset([base] + files)
    ensures FinishFacts(MergeTree(t), r) == FinishFacts(MergeAll(base, files), r)
  {
    hide FinishFacts, MergeAll, MergeTree, Holds;
    var all := [base] + files;
    forall f ensures f in Leaves(t) <==> f in all {
      assert f in multiset(Leaves(t)) <==> f in multiset(all);
    }
    assert all[0] == base;
    MergeTreePackages(t, base.packages);
    MergeAllPackages(base, files);
    forall x ensures Holds(MergeTree(t), x) <==> Holds(MergeAll(base, files), x) {
      MergeTreeHolds(t, x);
      SameMembersHold(Leaves(t), all, x);
      MergeAllHolds(base, files, x);
      SomeHoldsAppend([base], files, x);
      HeldAlone(base, x);
    }
    SameItemsSameFacts(MergeTree(t), MergeAll(base, files), r);
  }

  lemma {:induction false} HeldAlone(repo: Repo, x: Item)
    ensures SomeHolds([repo], x) <==> Holds(repo, x)
  {
    hide Holds;
    assert [repo][0] == repo;
  }

  lemma {:induction false} SomeHoldsAppend(a: seq<Repo>, b: seq<Repo>, x: Item)
    ensures SomeHolds(a + b, x) <==> SomeHolds(a, x) || SomeHolds(b, x)
  {
    hide Holds;
    if i :| 0 <= i < |a| && Holds(a[i], x) {
      assert (a + b)[i] == a[i];
    }
    if i :| 0 <= i < |b| && Holds(b[i], x) {
      assert (a + b)[|a| + i] == b[i];
    }
    if i :| 0 <= i < |a + b| && Holds((a + b)[i], x) {
      assert if i < |a| then Holds(a[i], x) else Holds(b[i - |a|], x);
    }
  }

  // ---------------------------------------------------------------- the mutable repository

  function Only(definitions: map<string, set<string>>, names: set<string>): map<string, set<string>> {
    map n | n in names && n in definitions :: definitions[n]
  }

  lemma {:induction false} MergedAt(a: map<string, set<string>>, b: map<string, set<string>>, n: string)
    ensures n in MergeDefinitions(a, b) <==> n in a || n in b
    ensures SubjectsOf(MergeDefinitions(a, b), n) == SubjectsOf(a, n) + SubjectsOf(b, n)
  {
  }

  lemma {:induction false} ExtendOne(mine: map<string, set<string>>, theirs: map<string, set<string>>, done: set<string>, name: string)
    requires name in theirs && name !in done
    ensures var merged := MergeDefinitions(mine, Only(theirs, done));
            MergeDefinitions(mine, Only(theirs, done + {name})) == merged[name := SubjectsOf(merged, name) + theirs[name]]
  {
    hide MergeDefinitions;
    var merged, more := MergeDefinitions(mine, Only(theirs, done)), MergeDefinitions(mine, Only(theirs, done + {name}));
    var want := merged[name := SubjectsOf(merged, name) + theirs[name]];
    forall n ensures (n in more <==> n in want) && SubjectsOf(more, n) == SubjectsOf(want, n) {
      MergedAt(mine, Only(theirs, done), n);
      MergedAt(mine, Only(theirs, done + {name}), n);
    }
    SameSubjects(more, want);
  }

  lemma {:induction false} SameSubjects(a: map<string, set<string>>, b: map<string, set<string>>)
    requires forall n :: (n in a <==> n in b) && SubjectsOf(a, n) == SubjectsOf(b, n)
    ensures a == b
  {
    forall n | n in a ensures n in b && a[n] == b[n] {
      assert SubjectsOf(a, n) == SubjectsOf(b, n);
    }
  }

  /** The loop of `merge` over the other repository's definitions. */
  method ExtendDefinitions(mine: map<string, set<string>>, theirs: map<string, set<string>>) returns (merged: map<string, set<string>>)
    ensures merged == MergeDefinitions(mine, theirs)
  {
    hide SubjectsOf;
    var names := theirs.Keys;
    ghost var done: set<string> := {};
    merged := mine;
    MergeNothing(mine, theirs);
    while names != {}
      invariant names !! done && names + done == theirs.Keys
      invariant merged == MergeDefinitions(mine, Only(theirs, done))
    {
      var name :| name in names;
      ExtendOne(mine, theirs, done, name);
      merged := merged[name := SubjectsOf(merged, name) + theirs[name]];
      names, done := names - {name}, done + {name};
    }
    assert Only(theirs, done) == theirs;
  }

  lemma {:induction false} MergeNothing(mine: map<string, set<string>>, theirs: map<string, set<string>>)
    ensures MergeDefinitions(mine, Only(theirs, {})) == mine
  {
    forall n | n in mine ensures MergeDefinitions(mine, Only(theirs, {}))[n] == mine[n] {
      assert SubjectsOf(Only(theirs, {}), n) == {};
    }
  }

  class ParsedRepo {
    var facts: set<FactKey>
    var calls: seq<CallRef>
    var imports: seq<ImportRef>
    var routes: seq<RouteRef>
    var definitions: map<string, set<string>>
    var packages: map<string, string>

    ghost function Contents(): Repo
      reads this
    {
      Repo(facts, calls, imports, routes, definitions, packages)
    }

    constructor ()
      ensures Contents() == EMPTY_REPO
    {
      facts, calls, imports, routes, definitions, packages := {}, [], [], [], map[], map[];
    }

    /** `merge`. */
    method MergeFrom(other: ParsedRepo)
      requires other != this
      modifies this
      ensures Contents() == Merge(old(Contents()), other.Contents())
    {
      facts := facts + other.facts;
      calls := calls + other.calls;
      imports := imports + other.imports;
      routes := routes + other.routes;
      definitions := ExtendDefinitions(definitions, other.definitions);
      packages := packages + other.packages;
    }

    /** `finish`: resolution reads only definitions and packages, which it never changes. */
    method Finish(r: Resolvers) returns (out: set<FactKey>)
      modifies this
      ensures out == FinishFacts(old(Contents()), r)
      ensures forall f :: f in out <==> Expected(old(Contents()), r, f)
    {
      hide AllImportFacts, AllRouteFacts, AllCallFacts, Expected;
      ghost var start := Contents();
      ResolveImports(r);
      ResolveRoutes(r);
      ResolveCalls();
      out := facts;
      forall f ensures f in out <==> Expected(start, r, f) {
        FinishIff(start, r, f);
      }
    }

    method ResolveImports(r: Resolvers)
      modifies this
      ensures Contents() == old(Contents()).(facts := old(facts) + AllImportFacts(old(packages), r, old(imports)), imports := [])
    {
      hide ImportFacts;
      ghost var start := facts;
      var pending := imports;
      imports := [];
      for i := 0 to |pending|
        invariant facts == start + AllImportFacts(packages, r, pending[..i])
        invariant Contents() == old(Contents()).(facts := facts, imports := [])
      {
        assert pending[..i + 1] == pending[..i] + [pending[i]];
        facts := facts + ImportFacts(packages, r, pending[i]);
      }
      assert pending[..|pending|] == pending;
    }

    method ResolveRoutes(r: Resolvers)
      modifies this
      ensures Contents() == old(Contents()).(facts := old(facts) + AllRouteFacts(old(definitions), r, old(routes)), routes := [])
    {
      hide RouteFacts;
      ghost var start := facts;
      var pending := routes;
      routes := [];
      for i := 0 to |pending|
        invariant facts == start + AllRouteFacts(definitions, r, pending[..i])
        invariant Contents() == old(Contents()).(facts := facts, routes := [])
      {
        assert pending[..i + 1] == pending[..i] + [pending[i]];
        facts := facts + RouteFacts(definitions, r, pending[i]);
      }
      assert pending[..|pending|] == pending;
    }

    method ResolveCalls()
      modifies this
      ensures Contents() == old(Contents()).(facts := old(facts) + AllCallFacts(old(definitions), old(calls)), calls := [])
    {
      hide CallFacts;
      ghost var start := facts;
      var pending := calls;
      calls := [];
      for i := 0 to |pending|
        invariant facts == start + AllCallFacts(definitions, pending[..i])
        invariant Contents() == old(Contents()).(facts := facts, calls := [])
      {
        assert pending[..i + 1] == pending[..i] + [pending[i]];
        facts := facts + CallFacts(definitions, pending[i]);
      }
      assert pending[..|pending|] == pending;
    }
  }
}
