/** Whole queries and their text. */
module CypherQueries {
  import opened Wrappers
  import opened CypherSyntax
  import opened CypherLexer
  import opened CypherGrammar
  import opened CypherExpressions
  import opened CypherParsing
  import opened Decimal

  // ---------------------------------------------------------------- reading

  function Upper(s: string): string {
    seq(|s|, i requires 0 <= i < |s| => UpperChar(s[i]))
  }

  predicate Mentions(s: string, word: string) {
    exists i :: 0 <= i <= |s| && MentionsAt(s, word, i)
  }

  predicate MentionsAt(s: string, word: string, i: nat) {
    i + |word| <= |s| && s[i..i + |word|] == word
  }

  /** The text mentions a mutation clause, wherever it stands and whatever surrounds it. */
  predicate Mutates(text: string) {
    var upper := Upper(text);
    || Mentions(upper, "CREATE") || Mentions(upper, "MERGE") || Mentions(upper, "DELETE")
    || Mentions(upper, "DETACH") || Mentions(upper, "SET ") || Mentions(upper, "REMOVE ")
  }

  /** What `parse_cypher` makes of a text. */
  function Read(cc: CharTables, text: string): Option<Query> {
    if Mutates(text) then None
    else
      var lexed := Lex(cc, text);
      if lexed.Ok? then ParseQuery(lexed.value) else None
  }

  method ParseCypher(cc: CharTables, input: string) returns (r: Option<Query>)
    ensures r == Read(cc, input)
  {
    hide Lex, ParseClauses, Mutates;
    if Mutates(input) {
      return None;
    }
    var lexed := LexCypher(cc, input);
    if lexed.Err? {
      return None;
    }
    var parser := new CypherParser(lexed.value);
    r := parser.ParseAll();
  }

  // ---------------------------------------------------------------- printing

  function ItemTokens(item: SelectItem, rest: seq<Token>): seq<Token> {
    ValueTokens(item.expr, if item.name == DefaultAlias(item.expr) then rest else [Word("AS")] + ([Word(item.name)] + rest))
  }

  function ItemsTokens(items: seq<SelectItem>, rest: seq<Token>): seq<Token> {
    if items == [] then rest
    else ItemTokens(items[0], if |items| == 1 then rest else [Sym(",")] + ItemsTokens(items[1..], rest))
  }

  function ProjectionTokens(p: Projection, rest: seq<Token>): seq<Token> {
    if p.distinct then [Word("DISTINCT")] + ItemsTokens(p.items, rest) else ItemsTokens(p.items, rest)
  }

  function LabelTokens(name: Option<string>, rest: seq<Token>): seq<Token> {
    if name.Some? then [Sym(":")] + ([Word(name.value)] + rest) else rest
  }

  function NodeTokens(v: string, name: Option<string>, rest: seq<Token>): seq<Token> {
    [Sym("(")] + ([Word(v)] + LabelTokens(name, [Sym(")")] + rest))
  }

  function RelationshipTokens(v: Option<string>, name: string, rest: seq<Token>): seq<Token> {
    var typed := [Sym(":")] + ([Word(name)] + ([Sym("]")] + ([Sym("->")] + rest)));
    [Sym("-")] + ([Sym("[")] + (if v.Some? then [Word(v.value)] + typed else typed))
  }

  function PatternTokens(p: Pattern, rest: seq<Token>): seq<Token> {
    NodeTokens(p.leftVar, p.leftLabel, RelationshipTokens(p.relVar, p.relType, NodeTokens(p.rightVar, p.rightLabel, rest)))
  }

  function AtTokens(at: Option<string>, rest: seq<Token>): seq<Token> {
    if at.Some? then [Word("AS")] + ([Word("OF")] + ([Token(Quoted, at.value)] + rest)) else rest
  }

  function WhereTokens(filter: Option<BoolExpr>, rest: seq<Token>): seq<Token> {
    if filter.Some? then [Word("WHERE")] + LayoutTokens(Sparse(filter.value), rest) else rest
  }

  function WithTokens(carried: Option<Projection>, rest: seq<Token>): seq<Token> {
    if carried.Some? then [Word("WITH")] + ProjectionTokens(carried.value, rest) else rest
  }

  function OrderTokens(order: Option<OrderBy>, rest: seq<Token>): seq<Token> {
    if order.Some? then
      [Word("ORDER")] + ([Word("BY")] + ([Word(order.value.key)] + (if order.value.descending then [Word("DESC")] + rest else rest)))
    else rest
  }

  function LimitTokens(limit: Option<nat>): seq<Token> {
    if limit.Some? then [Word("LIMIT")] + [Token(Numeral, Digits(limit.value))] else []
  }

  /** The clauses after the pattern and its filter. */
  function TailTokens(q: Query): seq<Token> {
    [Word("RETURN")] + ProjectionTokens(q.returned, OrderTokens(q.order, LimitTokens(q.limit)))
  }

  function QueryTokens(q: Query): seq<Token> {
    AtTokens(q.at, [Word("MATCH")] + PatternTokens(q.pattern, WhereTokens(q.filter, WithTokens(q.carried, TailTokens(q)))))
  }

  /** A canonical text of the query. */
  function Write(q: Query): string {
    Render(QueryTokens(q))
  }

  // ---------------------------------------------------------------- what can be written

  ghost predicate WritableItem(cc: CharTables, item: SelectItem) {
    WritableValue(cc, item.expr) && (IsIdent(cc, item.name) || item.name == DefaultAlias(item.expr))
  }

  ghost predicate WritableItems(cc: CharTables, items: seq<SelectItem>) {
    forall i :: 0 <= i < |items| ==> WritableItem(cc, items[i])
  }

  ghost predicate WritableProjection(cc: CharTables, p: Projection) {
    && p.items != [] && WritableItems(cc, p.items)
    && (!p.distinct ==> !OpensWith(p.items[0].expr, "DISTINCT"))
  }

  ghost predicate WritablePattern(cc: CharTables, p: Pattern) {
    && IsIdent(cc, p.leftVar) && IsIdent(cc, p.rightVar) && IsIdent(cc, p.relType)
    && (p.leftLabel.Some? ==> IsIdent(cc, p.leftLabel.value))
    && (p.rightLabel.Some? ==> IsIdent(cc, p.rightLabel.value))
    && (p.relVar.Some? ==> IsIdent(cc, p.relVar.value))
  }

  ghost predicate WritableQuery(cc: CharTables, q: Query) {
    && (q.at.Some? ==> '\'' !in q.at.value)
    && WritablePattern(cc, q.pattern)
    && (q.filter.Some? ==> Writable(cc, q.filter.value))
    && (q.carried.Some? ==> WritableProjection(cc, q.carried.value))
    && WritableProjection(cc, q.returned)
    && (q.order.Some? ==> IsIdent(cc, q.order.value.key))
    && (q.limit.Some? ==> q.limit.value <= MAX_I64)
  }

  // ---------------------------------------------------------------- parsing what was printed

  lemma {:induction false} ClauseWords()
    ensures SameWord("AS", "AS") && SameWord("OF", "OF") && SameWord("MATCH", "MATCH") && SameWord("WHERE", "WHERE")
    ensures SameWord("WITH", "WITH") && SameWord("RETURN", "RETURN") && SameWord("ORDER", "ORDER") && SameWord("BY", "BY")
    ensures SameWord("DESC", "DESC") && SameWord("LIMIT", "LIMIT") && SameWord("DISTINCT", "DISTINCT")
    ensures !SameWord("MATCH", "AS") && !SameWord("RETURN", "AS") && !SameWord("ORDER", "AS") && !SameWord("LIMIT", "AS")
    ensures !SameWord("WITH", "WHERE") && !SameWord("RETURN", "WHERE") && !SameWord("RETURN", "WITH")
    ensures !SameWord("WITH", "AND") && !SameWord("RETURN", "AND") && !SameWord("WITH", "OR") && !SameWord("RETURN", "OR")
    ensures !SameWord("LIMIT", "DESC") && !SameWord("LIMIT", "ASC") && !SameWord("LIMIT", "ORDER")
    ensures !SameWord("count", "DISTINCT") && !SameWord("labels", "DISTINCT") && !SameWord("toInteger", "DISTINCT")
  {
    assert LowerChar("LIMIT"[0]) != LowerChar("ORDER"[0]);
  }

  /** `rest` is where a projection has to stop. */
  predicate ClauseEnd(rest: seq<Token>, stops: seq<string>) {
    AtStop(rest, stops) && Quiet(rest) && !AtText(rest, ",") && !AtWord(rest, "AS")
  }

  lemma {:induction false} ItemRoundTrip(cc: CharTables, item: SelectItem, rest: seq<Token>)
    requires WritableItem(cc, item) && Quiet(rest) && !AtWord(rest, "AS")
    ensures ParseItem(ItemTokens(item, rest)) == Done(item, rest)
  {
    hide SameWord, ParseValue, ValueTokens, WritableValue, DefaultAlias;
    ClauseWords();
    ValueRoundTrip(cc, item.expr, if item.name == DefaultAlias(item.expr) then rest else [Word("AS")] + ([Word(item.name)] + rest));
  }

  lemma {:induction false} ItemsRoundTrip(cc: CharTables, before: seq<SelectItem>, items: seq<SelectItem>, rest: seq<Token>, stops: seq<string>)
    requires items != [] && WritableItems(cc, items) && ClauseEnd(rest, stops)
    ensures ItemsLoop(before, ItemsTokens(items, rest), stops) == Done(before + items, rest)
    decreases |items|
  {
    hide SameWord, ParseItem, ItemTokens, WritableItem, AtStop;
    if |items| == 1 {
      ItemRoundTrip(cc, items[0], rest);
      assert items == [items[0]];
    } else {
      var after := ItemsTokens(items[1..], rest);
      ItemRoundTrip(cc, items[0], [Sym(",")] + after);
      ItemsRoundTrip(cc, before + [items[0]], items[1..], rest, stops);
      assert before + [items[0]] + items[1..] == before + items;
    }
  }

  lemma {:induction false} HeadWord(v: ValueExpr, rest: seq<Token>)
    requires !OpensWith(v, "DISTINCT")
    ensures !AtWord(ValueTokens(v, rest), "DISTINCT")
  {
    hide SameWord;
    ClauseWords();
  }

  lemma {:induction false} ProjectionRoundTrip(cc: CharTables, p: Projection, rest: seq<Token>, stops: seq<string>)
    requires WritableProjection(cc, p) && ClauseEnd(rest, stops)
    ensures ParseProjection(ProjectionTokens(p, rest), stops) == Done(p, rest)
  {
    hide SameWord, ItemsLoop, ClauseEnd, WritableItems, ValueTokens, OpensWith;
    ClauseWords();
    ItemsRoundTrip(cc, [], p.items, rest, stops);
    assert [] + p.items == p.items;
    if !p.distinct {
      var item := p.items[0];
      var first := if |p.items| == 1 then rest else [Sym(",")] + ItemsTokens(p.items[1..], rest);
      HeadWord(item.expr, if item.name == DefaultAlias(item.expr) then first else [Word("AS")] + ([Word(item.name)] + first));
    }
  }

  lemma {:induction false} NodeRoundTrip(v: string, name: Option<string>, rest: seq<Token>)
    ensures ParseNode(NodeTokens(v, name, rest)) == Done((v, name), rest)
  {
  }

  lemma {:induction false} TypeRoundTrip(name: string, rest: seq<Token>)
    requires name != "*"
    ensures ParseRelationshipType([Sym(":")] + ([Word(name)] + ([Sym("]")] + ([Sym("->")] + rest)))) == Done(name, rest)
  {
  }

  lemma {:induction false} RelationshipRoundTrip(v: Option<string>, name: string, rest: seq<Token>)
    requires name != "*"
    ensures ParseRelationship(RelationshipTokens(v, name, rest)) == Done((v, name), rest)
  {
    hide ParseRelationshipType;
    TypeRoundTrip(name, rest);
  }

  lemma {:induction false} PatternRoundTrip(p: Pattern, rest: seq<Token>)
    requires p.relType != "*"
    ensures ParsePattern(PatternTokens(p, rest)) == Done(p, rest)
  {
    hide ParseNode, ParseRelationship, RelationshipTokens;
    var right := NodeTokens(p.rightVar, p.rightLabel, rest);
    var rel := RelationshipTokens(p.relVar, p.relType, right);
    NodeRoundTrip(p.leftVar, p.leftLabel, rel);
    RelationshipRoundTrip(p.relVar, p.relType, right);
    NodeRoundTrip(p.rightVar, p.rightLabel, rest);
  }

  lemma {:induction false} AtRoundTrip(at: Option<string>, rest: seq<Token>)
    ensures ParseAt(AtTokens(at, [Word("MATCH")] + rest)) == Done(at, [Word("MATCH")] + rest)
  {
    hide SameWord;
    ClauseWords();
  }

  lemma {:induction false} WhereRoundTrip(cc: CharTables, filter: Option<BoolExpr>, rest: seq<Token>)
    requires Tables(cc) && (filter.Some? ==> Writable(cc, filter.value))
    requires AtKind(rest, Ident) && (rest[0].text == "WITH" || rest[0].text == "RETURN")
    ensures ParseWhere(WhereTokens(filter, rest)) == Done(filter, rest)
  {
    hide SameWord, ParseAnd, LayoutTokens, Tables, Writable;
    ClauseWords();
    if filter.Some? {
      OrRoundTrip(cc, Sparse(filter.value), rest);
    }
  }

  lemma {:induction false} WithRoundTrip(cc: CharTables, carried: Option<Projection>, rest: seq<Token>)
    requires carried.Some? ==> WritableProjection(cc, carried.value)
    ensures ParseWith(WithTokens(carried, [Word("RETURN")] + rest)) == Done(carried, [Word("RETURN")] + rest)
  {
    hide SameWord, ParseProjection, ProjectionTokens, WritableProjection;
    ClauseWords();
    if carried.Some? {
      var after := [Word("RETURN")] + rest;
      assert AtWord(after, ["RETURN"][0]);
      ProjectionRoundTrip(cc, carried.value, after, ["RETURN"]);
    }
  }

  lemma {:induction false} LimitRoundTrip(limit: Option<nat>)
    requires limit.Some? ==> limit.value <= MAX_I64
    ensures ParseLimit(LimitTokens(limit)) == Done(limit, [])
  {
    hide SameWord, ExpectNumber;
    ClauseWords();
    if limit.Some? {
      NumberRoundTrip(limit.value, []);
      assert [Token(Numeral, Digits(limit.value))] + [] == [Token(Numeral, Digits(limit.value))];
    }
  }

  lemma {:induction false} OrderRoundTrip(order: Option<OrderBy>, limit: Option<nat>)
    ensures ParseOrder(OrderTokens(order, LimitTokens(limit))) == Done(order, LimitTokens(limit))
  {
    hide SameWord;
    ClauseWords();
  }

  lemma {:induction false} ReturnRoundTrip(cc: CharTables, q: Query)
    requires WritableProjection(cc, q.returned)
    ensures ParseProjection(TailTokens(q)[1..], ["ORDER", "LIMIT"]) == Done(q.returned, OrderTokens(q.order, LimitTokens(q.limit)))
  {
    hide SameWord, ParseProjection, ProjectionTokens, WritableProjection;
    ClauseWords();
    var stops, after := ["ORDER", "LIMIT"], OrderTokens(q.order, LimitTokens(q.limit));
    assert after == [] || AtWord(after, stops[0]) || AtWord(after, stops[1]);
    ProjectionRoundTrip(cc, q.returned, after, stops);
  }

  lemma {:induction false} IdentIsNotStar(cc: CharTables, s: string)
    requires Tables(cc) && IsIdent(cc, s)
    ensures s != "*"
  {
  }

  lemma {:induction false} ClausesRoundTrip(cc: CharTables, q: Query)
    requires Tables(cc) && WritableQuery(cc, q)
    ensures ParseQuery(QueryTokens(q)) == Some(q)
  {
    hide SameWord, ParseProjection, ProjectionTokens, WritableProjection, WritablePattern, Tables, Writable, ParseAt, AtTokens,
      ParsePattern, PatternTokens, ParseWhere, WhereTokens, ParseWith, ParseOrder, OrderTokens, ParseLimit, LimitTokens;
    ClauseWords();
    var tail := TailTokens(q);
    var body := WithTokens(q.carried, tail);
    var clauses := WhereTokens(q.filter, body);
    assert IsIdent(cc, q.pattern.relType) by { PatternIdents(cc, q.pattern); }
    IdentIsNotStar(cc, q.pattern.relType);
    AtRoundTrip(q.at, PatternTokens(q.pattern, clauses));
    PatternRoundTrip(q.pattern, clauses);
    WhereRoundTrip(cc, q.filter, body);
    WithRoundTrip(cc, q.carried, tail[1..]);
    ReturnRoundTrip(cc, q);
    OrderRoundTrip(q.order, q.limit);
    LimitRoundTrip(q.limit);
  }

  lemma {:induction false} PatternIdents(cc: CharTables, p: Pattern)
    requires WritablePattern(cc, p)
    ensures IsIdent(cc, p.relType)
  {
  }

  // ---------------------------------------------------------------- tokens that can be spelled

  lemma {:induction false} ClauseWordsSpellable(cc: CharTables)
    requires Tables(cc)
    ensures IsIdent(cc, "AS") && IsIdent(cc, "OF") && IsIdent(cc, "MATCH") && IsIdent(cc, "WHERE") && IsIdent(cc, "WITH")
    ensures IsIdent(cc, "RETURN") && IsIdent(cc, "ORDER") && IsIdent(cc, "BY") && IsIdent(cc, "DESC") && IsIdent(cc, "LIMIT")
    ensures IsIdent(cc, "DISTINCT")
  {
    hide Tables, IsIdent;
    LettersAreIdent(cc, "AS");
    LettersAreIdent(cc, "OF");
    LettersAreIdent(cc, "MATCH");
    LettersAreIdent(cc, "WHERE");
    LettersAreIdent(cc, "WITH");
    LettersAreIdent(cc, "RETURN");
    LettersAreIdent(cc, "ORDER");
    LettersAreIdent(cc, "BY");
    LettersAreIdent(cc, "DESC");
    LettersAreIdent(cc, "LIMIT");
    LettersAreIdent(cc, "DISTINCT");
  }

  lemma {:induction false} ClauseSymbolsSpellable(cc: CharTables)
    ensures Spellable(cc, Sym(",")) && Spellable(cc, Sym(":")) && Spellable(cc, Sym("(")) && Spellable(cc, Sym(")"))
    ensures Spellable(cc, Sym("-")) && Spellable(cc, Sym("[")) && Spellable(cc, Sym("]")) && Spellable(cc, Sym("->"))
  {
  }

  lemma {:induction false} ItemsSpellable(cc: CharTables, items: seq<SelectItem>, rest: seq<Token>)
    requires Tables(cc) && WritableItems(cc, items) && AllSpellable(cc, rest)
    ensures AllSpellable(cc, ItemsTokens(items, rest))
    decreases |items|
  {
    hide Tables, Spellable, AllSpellable, ValueTokens, WritableValue, DefaultAlias;
    if items != [] {
      ClauseWordsSpellable(cc);
      ClauseSymbolsSpellable(cc);
      var item, after := items[0], if |items| == 1 then rest else [Sym(",")] + ItemsTokens(items[1..], rest);
      ItemsSpellable(cc, items[1..], rest);
      SpellableFront(cc, Sym(","), ItemsTokens(items[1..], rest));
      assert AllSpellable(cc, after);
      if item.name == DefaultAlias(item.expr) {
        ValueSpellable(cc, item.expr, after);
      } else {
        SpellableFront(cc, Word(item.name), after);
        SpellableFront(cc, Word("AS"), [Word(item.name)] + after);
        ValueSpellable(cc, item.expr, [Word("AS")] + ([Word(item.name)] + after));
      }
    }
  }

  lemma {:induction false} ProjectionSpellable(cc: CharTables, p: Projection, rest: seq<Token>)
    requires Tables(cc) && WritableProjection(cc, p) && AllSpellable(cc, rest)
    ensures AllSpellable(cc, ProjectionTokens(p, rest))
  {
    hide Tables, Spellable, AllSpellable, ItemsTokens, WritableItems;
    ClauseWordsSpellable(cc);
    ItemsSpellable(cc, p.items, rest);
    SpellableFront(cc, Word("DISTINCT"), ItemsTokens(p.items, rest));
  }

  lemma {:induction false} NodeSpellable(cc: CharTables, v: string, name: Option<string>, rest: seq<Token>)
    requires IsIdent(cc, v) && (name.Some? ==> IsIdent(cc, name.value)) && AllSpellable(cc, rest)
    ensures AllSpellable(cc, NodeTokens(v, name, rest))
  {
    hide Spellable, AllSpellable;
    ClauseSymbolsSpellable(cc);
    var close := [Sym(")")] + rest;
    SpellableFront(cc, Sym(")"), rest);
    if name.Some? {
      SpellableFront(cc, Word(name.value), close);
      SpellableFront(cc, Sym(":"), [Word(name.value)] + close);
    }
    SpellableFront(cc, Word(v), LabelTokens(name, close));
    SpellableFront(cc, Sym("("), [Word(v)] + LabelTokens(name, close));
  }

  lemma {:induction false} RelationshipSpellable(cc: CharTables, v: Option<string>, name: string, rest: seq<Token>)
    requires IsIdent(cc, name) && (v.Some? ==> IsIdent(cc, v.value)) && AllSpellable(cc, rest)
    ensures AllSpellable(cc, RelationshipTokens(v, name, rest))
  {
    hide Spellable, AllSpellable;
    ClauseSymbolsSpellable(cc);
    SpellableFront(cc, Sym("->"), rest);
    var arrow := [Sym("->")] + rest;
    SpellableFront(cc, Sym("]"), arrow);
    SpellableFront(cc, Word(name), [Sym("]")] + arrow);
    var typed := [Sym(":")] + ([Word(name)] + ([Sym("]")] + arrow));
    SpellableFront(cc, Sym(":"), [Word(name)] + ([Sym("]")] + arrow));
    if v.Some? {
      SpellableFront(cc, Word(v.value), typed);
    }
    var inside := if v.Some? then [Word(v.value)] + typed else typed;
    SpellableFront(cc, Sym("["), inside);
    SpellableFront(cc, Sym("-"), [Sym("[")] + inside);
  }

  lemma {:induction false} PatternSpellable(cc: CharTables, p: Pattern, rest: seq<Token>)
    requires WritablePattern(cc, p) && AllSpellable(cc, rest)
    ensures AllSpellable(cc, PatternTokens(p, rest))
  {
    hide Spellable, AllSpellable, NodeTokens, RelationshipTokens;
    var right := NodeTokens(p.rightVar, p.rightLabel, rest);
    NodeSpellable(cc, p.rightVar, p.rightLabel, rest);
    RelationshipSpellable(cc, p.relVar, p.relType, right);
    NodeSpellable(cc, p.leftVar, p.leftLabel, RelationshipTokens(p.relVar, p.relType, right));
  }

  lemma {:induction false} TailSpellable(cc: CharTables, q: Query)
    requires Tables(cc) && WritableQuery(cc, q)
    ensures AllSpellable(cc, TailTokens(q))
  {
    hide Tables, Spellable, AllSpellable, ProjectionTokens, WritableProjection, WritablePattern, Writable;
    ClauseWordsSpellable(cc);
    NothingSpellable(cc);
    if q.limit.Some? {
      LiteralSpellable(cc, Number(q.limit.value));
      var n := Token(Numeral, Digits(q.limit.value));
      SpellableFront(cc, n, []);
      assert [n] + [] == [n];
      SpellableFront(cc, Word("LIMIT"), [n]);
    }
    var limit := LimitTokens(q.limit);
    if q.order.Some? {
      var key := q.order.value.key;
      SpellableFront(cc, Word("DESC"), limit);
      var after := if q.order.value.descending then [Word("DESC")] + limit else limit;
      SpellableFront(cc, Word(key), after);
      SpellableFront(cc, Word("BY"), [Word(key)] + after);
      SpellableFront(cc, Word("ORDER"), [Word("BY")] + ([Word(key)] + after));
    }
    var order := OrderTokens(q.order, limit);
    ProjectionSpellable(cc, q.returned, order);
    SpellableFront(cc, Word("RETURN"), ProjectionTokens(q.returned, order));
  }

  lemma {:induction false} NothingSpellable(cc: CharTables)
    ensures AllSpellable(cc, [])
  {
  }

  lemma {:induction false} QuerySpellable(cc: CharTables, q: Query)
    requires Tables(cc) && WritableQuery(cc, q)
    ensures AllSpellable(cc, QueryTokens(q))
  {
    hide Tables, Spellable, AllSpellable, ProjectionTokens, WritableProjection, WritablePattern, Writable, PatternTokens, TailTokens, LayoutTokens;
    ClauseWordsSpellable(cc);
    TailSpellable(cc, q);
    var tail := TailTokens(q);
    if q.carried.Some? {
      ProjectionSpellable(cc, q.carried.value, tail);
      SpellableFront(cc, Word("WITH"), ProjectionTokens(q.carried.value, tail));
    }
    var body := WithTokens(q.carried, tail);
    if q.filter.Some? {
      LayoutSpellable(cc, Sparse(q.filter.value), body);
      SpellableFront(cc, Word("WHERE"), LayoutTokens(Sparse(q.filter.value), body));
    }
    var clauses := WhereTokens(q.filter, body);
    PatternSpellable(cc, q.pattern, clauses);
    var matched := [Word("MATCH")] + PatternTokens(q.pattern, clauses);
    SpellableFront(cc, Word("MATCH"), PatternTokens(q.pattern, clauses));
    if q.at.Some? {
      var t := Token(Quoted, q.at.value);
      LiteralSpellable(cc, Text(q.at.value));
      SpellableFront(cc, t, matched);
      SpellableFront(cc, Word("OF"), [t] + matched);
      SpellableFront(cc, Word("AS"), [Word("OF")] + ([t] + matched));
    }
  }

  // ---------------------------------------------------------------- only writable queries are parsed

  lemma {:induction false} ItemIsWritable(cc: CharTables, ts: seq<Token>)
    requires AllSpellable(cc, ts) && ParseItem(ts).Done?
    ensures WritableItem(cc, ParseItem(ts).value) && AllSpellable(cc, ParseItem(ts).rest)
    ensures forall word :: OpensWith(ParseItem(ts).value.expr, word) ==> AtWord(ts, word)
  {
    hide SameWord, Spellable, AllSpellable, IsIdent, ParseValue, WritableValue, OpensWith, DefaultAlias;
    ValueIsWritable(cc, ts);
    var rest := ParseValue(ts).rest;
    if AtWord(rest, "AS") {
      SpellableRest(cc, rest);
      ExpectSpellable(cc, rest[1..], "");
    }
  }

  lemma {:induction false} ItemsAreWritable(cc: CharTables, before: seq<SelectItem>, ts: seq<Token>, stops: seq<string>)
    requires AllSpellable(cc, ts) && WritableItems(cc, before) && ItemsLoop(before, ts, stops).Done?
    ensures WritableItems(cc, ItemsLoop(before, ts, stops).value) && AllSpellable(cc, ItemsLoop(before, ts, stops).rest)
    ensures before != [] ==> ItemsLoop(before, ts, stops).value[0] == before[0]
    ensures before == [] ==> ItemsLoop(before, ts, stops).value[0] == ParseItem(ts).value
    decreases |ts|
  {
    hide SameWord, Spellable, AllSpellable, ParseItem, WritableItem, AtStop;
    ItemIsWritable(cc, ts);
    var item := ParseItem(ts);
    if AtText(item.rest, ",") {
      SpellableRest(cc, item.rest);
      ItemsAreWritable(cc, before + [item.value], item.rest[1..], stops);
    }
  }

  lemma {:induction false} ProjectionIsWritable(cc: CharTables, ts: seq<Token>, stops: seq<string>)
    requires AllSpellable(cc, ts) && ParseProjection(ts, stops).Done?
    ensures WritableProjection(cc, ParseProjection(ts, stops).value) && AllSpellable(cc, ParseProjection(ts, stops).rest)
  {
    hide SameWord, Spellable, AllSpellable, ParseItem, WritableItem, OpensWith, ItemsLoop;
    if AtWord(ts, "DISTINCT") {
      SpellableRest(cc, ts);
      ItemsAreWritable(cc, [], ts[1..], stops);
    } else {
      ItemsAreWritable(cc, [], ts, stops);
      assert ParseItem(ts).Done? by { FirstItemParsed(ts, stops); }
      ItemIsWritable(cc, ts);
    }
  }

  lemma {:induction false} FirstItemParsed(ts: seq<Token>, stops: seq<string>)
    requires ItemsLoop([], ts, stops).Done?
    ensures ParseItem(ts).Done?
  {
    hide ParseItem, AtStop;
  }

  lemma {:induction false} NodeIsWritable(cc: CharTables, ts: seq<Token>)
    requires AllSpellable(cc, ts) && ParseNode(ts).Done?
    ensures var r := ParseNode(ts);
            IsIdent(cc, r.value.0) && (r.value.1.Some? ==> IsIdent(cc, r.value.1.value)) && AllSpellable(cc, r.rest)
  {
    hide Spellable, AllSpellable, IsIdent;
    ExpectSpellable(cc, ts, "(");
    var open := ExpectText(ts, "(").rest;
    ExpectSpellable(cc, open, "");
    var name := ExpectIdent(open).rest;
    if AtText(name, ":") {
      SpellableRest(cc, name);
      ExpectSpellable(cc, name[1..], "");
    }
    ExpectSpellable(cc, ParseLabel(name).rest, ")");
  }

  lemma {:induction false} RelationshipIsWritable(cc: CharTables, ts: seq<Token>)
    requires AllSpellable(cc, ts) && ParseRelationship(ts).Done?
    ensures var r := ParseRelationship(ts);
            IsIdent(cc, r.value.1) && (r.value.0.Some? ==> IsIdent(cc, r.value.0.value)) && AllSpellable(cc, r.rest)
  {
    hide Spellable, AllSpellable, IsIdent, ParseRelationshipType;
    ExpectSpellable(cc, ts, "-");
    var dash := ExpectText(ts, "-").rest;
    ExpectSpellable(cc, dash, "[");
    var open := ExpectText(dash, "[").rest;
    var named := AtKind(open, Ident) && AtText(open[1..], ":");
    if named {
      ExpectSpellable(cc, open, "");
      SpellableRest(cc, open);
    }
    TypeIsWritable(cc, if named then open[1..] else open);
  }

  lemma {:induction false} TypeIsWritable(cc: CharTables, ts: seq<Token>)
    requires AllSpellable(cc, ts) && ParseRelationshipType(ts).Done?
    ensures IsIdent(cc, ParseRelationshipType(ts).value) && AllSpellable(cc, ParseRelationshipType(ts).rest)
  {
    hide Spellable, AllSpellable, IsIdent;
    ExpectSpellable(cc, ts, ":");
    var colon := ExpectText(ts, ":").rest;
    ExpectSpellable(cc, colon, "");
    var name := ExpectIdent(colon).rest;
    ExpectSpellable(cc, name, "]");
    ExpectSpellable(cc, ExpectText(name, "]").rest, "->");
  }

  lemma {:induction false} PatternIsWritable(cc: CharTables, ts: seq<Token>)
    requires AllSpellable(cc, ts) && ParsePattern(ts).Done?
    ensures WritablePattern(cc, ParsePattern(ts).value) && AllSpellable(cc, ParsePattern(ts).rest)
  {
    hide Spellable, AllSpellable, IsIdent, ParseNode, ParseRelationship;
    NodeIsWritable(cc, ts);
    var left := ParseNode(ts).rest;
    RelationshipIsWritable(cc, left);
    NodeIsWritable(cc, ParseRelationship(left).rest);
  }

  lemma {:induction false} AtIsWritable(cc: CharTables, ts: seq<Token>)
    requires Tables(cc) && AllSpellable(cc, ts) && ParseAt(ts).Done?
    ensures ParseAt(ts).value.Some? ==> '\'' !in ParseAt(ts).value.value
    ensures AllSpellable(cc, ParseAt(ts).rest)
  {
    hide SameWord, Spellable, AllSpellable, Tables;
    if AtWord(ts, "AS") {
      SpellableRest(cc, ts);
      ExpectSpellable(cc, ts[1..], "OF");
      var of := ExpectWord(ts[1..], "OF").rest;
      SpellableRest(cc, of);
      NoQuote(cc, of[0]);
    }
  }

  lemma {:induction false} NoQuote(cc: CharTables, t: Token)
    requires Tables(cc) && Spellable(cc, t) && (t.kind.Quoted? || t.kind.Ident?)
    ensures '\'' !in t.text
  {
  }

  lemma {:induction false} WhereIsWritable(cc: CharTables, ts: seq<Token>)
    requires AllSpellable(cc, ts) && ParseWhere(ts).Done?
    ensures ParseWhere(ts).value.Some? ==> Writable(cc, ParseWhere(ts).value.value)
    ensures AllSpellable(cc, ParseWhere(ts).rest)
  {
    hide SameWord, Spellable, AllSpellable, ParseOr, Writable;
    if AtWord(ts, "WHERE") {
      SpellableRest(cc, ts);
      OrIsWritable(cc, ts[1..]);
    }
  }

  lemma {:induction false} WithIsWritable(cc: CharTables, ts: seq<Token>)
    requires AllSpellable(cc, ts) && ParseWith(ts).Done?
    ensures ParseWith(ts).value.Some? ==> WritableProjection(cc, ParseWith(ts).value.value)
    ensures AllSpellable(cc, ParseWith(ts).rest)
  {
    hide SameWord, Spellable, AllSpellable, ParseProjection, WritableProjection;
    if AtWord(ts, "WITH") {
      SpellableRest(cc, ts);
      ProjectionIsWritable(cc, ts[1..], ["RETURN"]);
    }
  }

  lemma {:induction false} OrderIsWritable(cc: CharTables, ts: seq<Token>)
    requires AllSpellable(cc, ts) && ParseOrder(ts).Done?
    ensures ParseOrder(ts).value.Some? ==> IsIdent(cc, ParseOrder(ts).value.value.key)
    ensures AllSpellable(cc, ParseOrder(ts).rest)
  {
    hide SameWord, Spellable, AllSpellable, IsIdent;
    if AtWord(ts, "ORDER") {
      SpellableRest(cc, ts);
      ExpectSpellable(cc, ts[1..], "BY");
      var start := ExpectWord(ts[1..], "BY").rest;
      ExpectSpellable(cc, start, "");
      var key := ExpectIdent(start).rest;
      if key != [] {
        SpellableRest(cc, key);
      }
    }
  }

  lemma {:induction false} LimitIsWritable(ts: seq<Token>)
    requires ParseLimit(ts).Done?
    ensures ParseLimit(ts).value.Some? ==> ParseLimit(ts).value.value <= MAX_I64
  {
    hide SameWord;
  }

  /** Whatever the tokens, the query that comes out can be written down again. */
  lemma {:induction false} QueryIsWritable(cc: CharTables, ts: seq<Token>)
    requires Tables(cc) && AllSpellable(cc, ts) && ParseQuery(ts).Some?
    ensures WritableQuery(cc, ParseQuery(ts).value)
  {
    hide SameWord, Spellable, AllSpellable, IsIdent, Tables, Writable, WritableProjection, WritablePattern,
      ParseAt, ParsePattern, ParseWhere, ParseWith, ParseProjection, ParseOrder, ParseLimit, ExpectWord;
    AtIsWritable(cc, ts);
    var at := ParseAt(ts).rest;
    ExpectSpellable(cc, at, "MATCH");
    var m := ExpectWord(at, "MATCH").rest;
    PatternIsWritable(cc, m);
    var pattern := ParsePattern(m).rest;
    WhereIsWritable(cc, pattern);
    var filter := ParseWhere(pattern).rest;
    WithIsWritable(cc, filter);
    var carried := ParseWith(filter).rest;
    ExpectSpellable(cc, carried, "RETURN");
    var r := ExpectWord(carried, "RETURN").rest;
    ProjectionIsWritable(cc, r, ["ORDER", "LIMIT"]);
    var returned := ParseProjection(r, ["ORDER", "LIMIT"]).rest;
    OrderIsWritable(cc, returned);
    LimitIsWritable(ParseOrder(returned).rest);
  }

  // ---------------------------------------------------------------- the round trip

  /** Every query the parser returns is writable. */
  lemma {:induction false} ReadIsWritable(cc: CharTables, text: string)
    requires Tables(cc) && Read(cc, text).Some?
    ensures WritableQuery(cc, Read(cc, text).value)
  {
    hide Lex, ParseQuery, Tables, AllSpellable, WritableQuery, Mutates;
    LexedSpellable(cc, text);
    QueryIsWritable(cc, Lex(cc, text).value);
  }

  /**
   A query reads back from its canonical text if and only if it is writable and the text does not
   happen to spell a mutation keyword.
   */
  lemma {:induction false} QueryRoundTrip(cc: CharTables, q: Query)
    requires Tables(cc)
    ensures Read(cc, Write(q)) == Some(q) <==> WritableQuery(cc, q) && !Mutates(Write(q))
  {
    hide Lex, ParseQuery, QueryTokens, Render, Tables, AllSpellable, WritableQuery, Mutates;
    if WritableQuery(cc, q) {
      QuerySpellable(cc, q);
      LexRendered(cc, QueryTokens(q));
      ClausesRoundTrip(cc, q);
    }
    if Read(cc, Write(q)) == Some(q) {
      ReadIsWritable(cc, Write(q));
    }
  }

  /** Reformatting an accepted query does not change it, unless the new text spells a mutation keyword. */
  lemma {:induction false} ReformatKeepsQuery(cc: CharTables, text: string)
    requires Tables(cc) && Read(cc, text).Some?
    ensures var written := Write(Read(cc, text).value);
            Read(cc, written) == (if Mutates(written) then None else Read(cc, text))
  {
    hide Read, Write, Mutates;
    var q := Read(cc, text).value;
    ReadIsWritable(cc, text);
    QueryRoundTrip(cc, q);
    MutatingIsRefused(cc, Write(q));
  }

  lemma {:induction false} MutatingIsRefused(cc: CharTables, text: string)
    ensures Mutates(text) ==> Read(cc, text) == None
  {
    hide Mutates;
  }

  /** A name that ends in "set" in front of a blank is refused as if it were the clause SET. */
  lemma {:induction false} NameEndingInSetIsRefused(cc: CharTables, before: string, after: string)
    ensures Read(cc, before + "set " + after) == None
  {
    var text := before + "set " + after;
    var upper := Upper(text);
    assert upper[|before|..|before| + 4] == "SET ";
    assert MentionsAt(upper, "SET ", |before|);
  }
}
