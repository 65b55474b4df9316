/**
 Inputs on which two laws of the query language stop: a query whose text in canonical spacing is
 refused, and a repeated alias that WITH loses.
 */
module CypherExamples {
  import opened Wrappers
  import opened CypherSyntax
  import opened CypherLexer
  import opened CypherGrammar
  import opened CypherExpressions
  import opened CypherQueries
  import opened CypherEval
  import opened Walks
  import J = CanonicalJson

  // ---------------------------------------------------------------- a name that ends in "set"

  /** The text with a space after every token but the last, which is a name. */
  function Unterminated(front: seq<Token>, last: string): string {
    Render(front) + last
  }

  /** Leaving out the final space reads the same query, unless the text mentions a mutation keyword. */
  lemma {:induction false} UnterminatedReads(cc: CharTables, q: Query, front: seq<Token>, last: string)
    requires Tables(cc) && WritableQuery(cc, q) && QueryTokens(q) == front + [Word(last)]
    ensures Read(cc, Unterminated(front, last)) == if Mutates(Unterminated(front, last)) then None else Some(q)
  {
    hide Lex, Mutates, Tables, QueryTokens, WritableQuery, ParseQuery, Spellable, Render;
    QuerySpellable(cc, q);
    ClausesRoundTrip(cc, q);
    var ts := QueryTokens(q);
    assert ts[|front|] == Word(last);
    assert forall i :: 0 <= i < |front| ==> front[i] == ts[i];
    LexRenderedEnd(cc, front, Word(last));
  }

  lemma {:induction false} Regroup(a: string, b: string, c: string)
    ensures a + (b + c) == a + b + c
  {
  }

  lemma {:induction false} RenderFirst(t: Token, rest: seq<Token>)
    ensures Render([t] + rest) == Spell(t) + " " + Render(rest)
  {
    assert ([t] + rest)[1..] == rest;
    Regroup(Spell(t), " ", Render(rest));
  }

  lemma {:induction false} RenderAppend(a: seq<Token>, b: seq<Token>)
    ensures Render(a + b) == Render(a) + Render(b)
  {
    if a == [] {
      assert a + b == b;
    } else {
      hide Render, Spell;
      var t, rest := a[0], a[1..];
      assert a == [t] + rest && a + b == [t] + (rest + b);
      RenderFirst(t, rest);
      RenderFirst(t, rest + b);
      RenderAppend(rest, b);
      Regroup(Spell(t) + " ", Render(rest), Render(b));
    }
  }

  /** A last name that ends in "set" makes the canonical text mention SET. */
  lemma {:induction false} CanonicalTextRefused(cc: CharTables, q: Query, front: seq<Token>, stem: string)
    requires QueryTokens(q) == front + [Word(stem + "set")]
    ensures Read(cc, Write(q)) == None
  {
    hide Render, Read;
    RenderAppend(front, [Word(stem + "set")]);
    RenderOne(Word(stem + "set"));
    var before := Render(front) + stem;
    assert Write(q) == before + "set " + "";
    NameEndingInSetIsRefused(cc, before, "");
  }

  lemma {:induction false} RenderOne(t: Token)
    ensures Render([t]) == Spell(t) + " "
  {
    assert [t][1..] == [];
  }

  function ResetQuery(): Query {
    Query(None, Pattern("a", None, None, "C", "b", None), None, None,
          Projection(false, [SelectItem(Property("a", "reset"), "a.reset")]), None, None)
  }

  const START_TOKENS: seq<Token> := [Word("MATCH")]
  const LEFT_TOKENS: seq<Token> := [Sym("("), Word("a"), Sym(")")]
  const ARROW_TOKENS: seq<Token> := [Sym("-"), Sym("["), Sym(":"), Word("C"), Sym("]"), Sym("->")]
  const RIGHT_TOKENS: seq<Token> := [Sym("("), Word("b"), Sym(")")]
  const RETURN_TOKENS: seq<Token> := [Word("RETURN"), Word("a"), Sym(".")]

  function Front(): seq<Token> {
    START_TOKENS + LEFT_TOKENS + ARROW_TOKENS + RIGHT_TOKENS + RETURN_TOKENS
  }

  lemma {:induction false} ResetTokens()
    ensures QueryTokens(ResetQuery()) == Front() + [Word("reset")]
  {
    var last := [Word("reset")];
    var tail := RETURN_TOKENS + last;
    ResetTail();
    LeftTokens("a", LEFT_TOKENS, RelationshipTokens(None, "C", NodeTokens("b", None, tail)));
    ArrowTokens(NodeTokens("b", None, tail));
    LeftTokens("b", RIGHT_TOKENS, tail);
    assert QueryTokens(ResetQuery()) == START_TOKENS + (LEFT_TOKENS + (ARROW_TOKENS + (RIGHT_TOKENS + (RETURN_TOKENS + last))));
    hide START_TOKENS, LEFT_TOKENS, ARROW_TOKENS, RIGHT_TOKENS, RETURN_TOKENS, QueryTokens;
    RegroupSix(START_TOKENS, LEFT_TOKENS, ARROW_TOKENS, RIGHT_TOKENS, RETURN_TOKENS, last);
  }

  lemma {:induction false} RegroupSix<T>(a: seq<T>, b: seq<T>, c: seq<T>, d: seq<T>, e: seq<T>, f: seq<T>)
    ensures a + (b + (c + (d + (e + f)))) == a + b + c + d + e + f
  {
    var right := d + (e + f);
    assert d + (e + f) == d + e + f;
    assert a + (b + (c + right)) == a + b + c + right;
    var left := a + b + c;
    assert left + (d + e + f) == left + d + e + f;
  }

  lemma {:induction false} ResetTail()
    ensures TailTokens(ResetQuery()) == RETURN_TOKENS + [Word("reset")]
  {
    assert DefaultAlias(Property("a", "reset")) == "a.reset";
  }

  lemma {:induction false} LeftTokens(v: string, node: seq<Token>, rest: seq<Token>)
    requires node == [Sym("("), Word(v), Sym(")")]
    ensures NodeTokens(v, None, rest) == node + rest
  {
  }

  lemma {:induction false} ArrowTokens(rest: seq<Token>)
    ensures RelationshipTokens(None, "C", rest) == ARROW_TOKENS + rest
  {
  }

  lemma {:induction false} ResetIsWritable(cc: CharTables)
    requires Tables(cc)
    ensures WritableQuery(cc, ResetQuery())
  {
    hide Tables, IsIdent;
    LettersAreIdent(cc, "a");
    LettersAreIdent(cc, "b");
    LettersAreIdent(cc, "C");
    LettersAreIdent(cc, "reset");
    assert DefaultAlias(Property("a", "reset")) == "a.reset";
  }

  const START_TEXT := "MATCH "
  const LEFT_TEXT := "( a ) "
  const ARROW_TEXT := "- [ : C ] -> "
  const RIGHT_TEXT := "( b ) "
  const RETURN_TEXT := "RETURN a . "

  /** `MATCH ( a ) - [ : C ] -> ( b ) RETURN a . reset` */
  const RESET_TEXT: string := START_TEXT + LEFT_TEXT + ARROW_TEXT + RIGHT_TEXT + RETURN_TEXT + "reset"

  lemma {:induction false} ResetText()
    ensures Unterminated(Front(), "reset") == RESET_TEXT
  {
    hide Render, START_TOKENS, LEFT_TOKENS, ARROW_TOKENS, RIGHT_TOKENS, RETURN_TOKENS, START_TEXT, LEFT_TEXT, ARROW_TEXT, RIGHT_TEXT, RETURN_TEXT;
    RenderAppend(START_TOKENS + LEFT_TOKENS + ARROW_TOKENS + RIGHT_TOKENS, RETURN_TOKENS);
    RenderAppend(START_TOKENS + LEFT_TOKENS + ARROW_TOKENS, RIGHT_TOKENS);
    RenderAppend(START_TOKENS + LEFT_TOKENS, ARROW_TOKENS);
    RenderAppend(START_TOKENS, LEFT_TOKENS);
    StartText();
    NodeTexts();
    ArrowText();
    ReturnText();
  }

  lemma {:induction false} StartText()
    ensures Render(START_TOKENS) == START_TEXT
  {
    hide Render;
    RenderOne(Word("MATCH"));
  }

  lemma {:induction false} NodeTexts()
    ensures Render(LEFT_TOKENS) == LEFT_TEXT && Render(RIGHT_TOKENS) == RIGHT_TEXT
  {
    hide Render;
    assert LEFT_TOKENS == [Sym("(")] + [Word("a"), Sym(")")];
    assert RIGHT_TOKENS == [Sym("(")] + [Word("b"), Sym(")")];
    RenderFirst(Sym("("), [Word("a"), Sym(")")]);
    RenderFirst(Sym("("), [Word("b"), Sym(")")]);
    RenderTwo(Word("a"), Sym(")"));
    RenderTwo(Word("b"), Sym(")"));
  }

  lemma {:induction false} ArrowText()
    ensures Render(ARROW_TOKENS) == ARROW_TEXT
  {
    hide Render;
    RenderSix(Sym("-"), Sym("["), Sym(":"), Word("C"), Sym("]"), Sym("->"));
  }

  lemma {:induction false} ReturnText()
    ensures Render(RETURN_TOKENS) == RETURN_TEXT
  {
    hide Render;
    assert RETURN_TOKENS == [Word("RETURN")] + [Word("a"), Sym(".")];
    RenderFirst(Word("RETURN"), [Word("a"), Sym(".")]);
    RenderTwo(Word("a"), Sym("."));
  }

  lemma {:induction false} RenderTwo(a: Token, b: Token)
    ensures Render([a, b]) == Spell(a) + " " + Spell(b) + " "
  {
    assert [a, b][1..] == [b];
    RenderOne(b);
  }

  lemma {:induction false} RenderSix(a: Token, b: Token, c: Token, d: Token, e: Token, f: Token)
    ensures Render([a, b, c, d, e, f]) ==
            Spell(a) + " " + Spell(b) + " " + (Spell(c) + " " + Spell(d) + " " + (Spell(e) + " " + Spell(f) + " "))
  {
    assert [a, b, c, d, e, f] == [a, b] + [c, d] + [e, f];
    RenderAppend([a, b] + [c, d], [e, f]);
    RenderAppend([a, b], [c, d]);
    RenderTwo(a, b);
    RenderTwo(c, d);
    RenderTwo(e, f);
  }

  /** No character between the positions reads as `c`. */
  predicate Free(text: string, c: char, from: nat, to: nat) {
    forall j :: from <= j < to && j < |text| ==> UpperChar(text[j]) != c
  }

  /** Where the letters that open a mutation keyword stand. */
  lemma {:induction false} MatchLetters()
    ensures |START_TEXT| == 6 && START_TEXT[1] == 'A' && START_TEXT[4] == 'H' && |LEFT_TEXT| == |RIGHT_TEXT| == 6
    ensures Free(START_TEXT, 'D', 0, 6) && Free(START_TEXT, 'S', 0, 6) && Free(START_TEXT, 'M', 1, 6)
    ensures Free(START_TEXT, 'C', 0, 3) && Free(START_TEXT, 'C', 4, 6)
    ensures Free(LEFT_TEXT, 'D', 0, 6) && Free(LEFT_TEXT, 'S', 0, 6) && Free(LEFT_TEXT, 'M', 0, 6) && Free(LEFT_TEXT, 'C', 0, 6)
    ensures Free(RIGHT_TEXT, 'D', 0, 6) && Free(RIGHT_TEXT, 'S', 0, 6) && Free(RIGHT_TEXT, 'M', 0, 6) && Free(RIGHT_TEXT, 'C', 0, 6)
  {
  }

  lemma {:induction false} ArrowLetters()
    ensures |ARROW_TEXT| == 13 && ARROW_TEXT[7] == ' '
    ensures Free(ARROW_TEXT, 'D', 0, 13) && Free(ARROW_TEXT, 'S', 0, 13) && Free(ARROW_TEXT, 'M', 0, 13)
    ensures Free(ARROW_TEXT, 'C', 0, 6) && Free(ARROW_TEXT, 'C', 7, 13)
  {
  }

  lemma {:induction false} ReturnLetters()
    ensures |RETURN_TEXT| == 11
    ensures Free(RETURN_TEXT, 'D', 0, 11) && Free(RETURN_TEXT, 'S', 0, 11) && Free(RETURN_TEXT, 'M', 0, 11) && Free(RETURN_TEXT, 'C', 0, 11)
    ensures Free("reset", 'D', 0, 5) && Free("reset", 'S', 0, 2) && Free("reset", 'M', 0, 5) && Free("reset", 'C', 0, 5)
  {
  }

  lemma {:induction false} ResetLetters()
    ensures |RESET_TEXT| == 47 && RESET_TEXT[1] == 'A' && RESET_TEXT[4] == 'H' && RESET_TEXT[19] == ' '
    ensures Free(RESET_TEXT, 'D', 0, 47) && Free(RESET_TEXT, 'M', 1, 47) && Free(RESET_TEXT, 'S', 0, 44)
    ensures Free(RESET_TEXT, 'C', 0, 3) && Free(RESET_TEXT, 'C', 4, 18) && Free(RESET_TEXT, 'C', 19, 47)
  {
    MatchLetters();
    ArrowLetters();
    ReturnLetters();
    hide START_TEXT, LEFT_TEXT, ARROW_TEXT, RIGHT_TEXT, RETURN_TEXT;
    var text := RESET_TEXT;
    assert forall j :: 0 <= j < 6 ==> text[j] == START_TEXT[j];
    assert forall j :: 6 <= j < 12 ==> text[j] == LEFT_TEXT[j - 6];
    assert forall j :: 12 <= j < 25 ==> text[j] == ARROW_TEXT[j - 12];
    assert forall j :: 25 <= j < 31 ==> text[j] == RIGHT_TEXT[j - 25];
    assert forall j :: 31 <= j < 42 ==> text[j] == RETURN_TEXT[j - 31];
    assert forall j :: 42 <= j < 47 ==> text[j] == "reset"[j - 42];
  }

  /** A keyword one of whose letters cannot stand where it would have to is not mentioned. */
  lemma {:induction false} NotMentioned(text: string, word: string, k: nat)
    requires k < |word| && (|word| <= |text| ==> Free(text, word[k], k, |text| - |word| + k + 1))
    ensures !Mentions(Upper(text), word)
  {
    var upper := Upper(text);
    forall i: nat | i <= |upper| ensures !MentionsAt(upper, word, i) {
      if i + |word| <= |upper| {
        MentionedChar(upper, word, i, k);
        assert upper[i + k] == UpperChar(text[i + k]);
      }
    }
  }

  lemma {:induction false} MentionedChar(s: string, word: string, i: nat, k: nat)
    requires k < |word| && i + |word| <= |s|
    ensures MentionsAt(s, word, i) ==> s[i + k] == word[k]
  {
    assert s[i..i + |word|][k] == s[i + k];
  }

  /** A keyword whose first two letters do not stand side by side is not mentioned. */
  lemma {:induction false} NoSuchPair(text: string, word: string)
    requires |word| >= 2 && forall j :: 0 <= j < |text| - 1 && UpperChar(text[j]) == word[0] ==> UpperChar(text[j + 1]) != word[1]
    ensures !Mentions(Upper(text), word)
  {
    var upper := Upper(text);
    forall i: nat | i <= |upper| ensures !MentionsAt(upper, word, i) {
      if i + |word| <= |upper| {
        MentionedChar(upper, word, i, 0);
        MentionedChar(upper, word, i, 1);
        assert upper[i] == UpperChar(text[i]) && upper[i + 1] == UpperChar(text[i + 1]);
      }
    }
  }

  lemma {:induction false} ResetDoesNotMutate()
    ensures !Mutates(RESET_TEXT)
  {
    hide RESET_TEXT, Mentions;
    ResetLetters();
    NotMentioned(RESET_TEXT, "DELETE", 0);
    NotMentioned(RESET_TEXT, "DETACH", 0);
    NotMentioned(RESET_TEXT, "SET ", 0);
    NotMentioned(RESET_TEXT, "REMOVE ", 2);
    NoSuchPair(RESET_TEXT, "CREATE");
    NoSuchPair(RESET_TEXT, "MERGE");
  }

  /**
   `MATCH ( a ) - [ : C ] -> ( b ) RETURN a . reset` is accepted, and the canonical text of the query
   it stands for, which differs by one final space, is refused.
   */
  lemma {:induction false} ResetIsRefusedWhenReformatted(cc: CharTables)
    requires Tables(cc)
    ensures Read(cc, RESET_TEXT) == Some(ResetQuery())
    ensures Mutates(Write(ResetQuery())) && Read(cc, Write(ResetQuery())) == None
  {
    hide Read, Mutates, Tables, RESET_TEXT, Front, ResetQuery, QueryTokens, WritableQuery, Write;
    var front := Front();
    ResetTokens();
    ResetIsWritable(cc);
    ResetText();
    ResetDoesNotMutate();
    UnterminatedReads(cc, ResetQuery(), front, "reset");
    assert "re" + "set" == "reset";
    CanonicalTextRefused(cc, ResetQuery(), front, "re");
    QueryRoundTrip(cc, ResetQuery());
  }

  // ---------------------------------------------------------------- a repeated alias

  function AliasQuery(pred: string): Query {
    Query(None, Pattern("a", None, None, pred, "b", None), None, None, Projection(false, []), None, None)
  }

  /**
   On any edge between two different names, `WITH a.name AS x, b.name AS x RETURN x AS p, x AS q` does
   not return what `RETURN a.name AS p, b.name AS q` does.
   */
  lemma {:induction false} RepeatedAliasBreaksFold(h: Host, e: GraphEdge, maxRows: nat)
    requires e.from != e.to && maxRows > 0
    ensures var exprs := [Property("a", "name"), Property("b", "name")];
            Evaluate(h, WithQuery(AliasQuery(e.pred), exprs, ["x", "x"], ["p", "q"], false, false), [e], maxRows) !=
            Evaluate(h, DirectQuery(AliasQuery(e.pred), exprs, ["p", "q"], false), [e], maxRows)
  {
    var exprs, from, to := [Property("a", "name"), Property("b", "name")], ["x", "x"], ["p", "q"];
    var row, values := RowOf(AliasQuery(e.pred).pattern, e), [J.String(e.from), J.String(e.to)];
    hide Evaluate, EvalValue, Tuples, Returned, ProjectEval, RowOf, LastUse, RepeatsAgree, WithQuery, DirectQuery, AliasQuery;
    AliasTuple(h, e, row, exprs, from, values);
    RepeatedNameLosesValue(h, exprs, from, to, [row]);
    assert Tuples(h, Named(exprs, from), [row]).value[0] == values;
    OneRowShown(h, exprs, from, to, row, values);
    Outcomes(h, e, maxRows, exprs, from, to);
  }

  lemma {:induction false} AliasTuple(h: Host, e: GraphEdge, row: EvalRow, exprs: seq<ValueExpr>, from: seq<string>, values: seq<J.Value>)
    requires e.from != e.to && row == RowOf(AliasQuery(e.pred).pattern, e)
    requires exprs == [Property("a", "name"), Property("b", "name")] && from == ["x", "x"] && values == [J.String(e.from), J.String(e.to)]
    ensures Tuples(h, Named(exprs, from), [row]) == Ok([values])
    ensures !RepeatsAgree(from, values)
  {
    NamesOfEnds(h, e);
    hide EvalValue, Tuples, RowOf, AliasQuery;
    OneTuple(h, Named(exprs, from), row, values);
    assert from[0] == from[1] && values[0] != values[1];
  }

  lemma {:induction false} NamesOfEnds(h: Host, e: GraphEdge)
    ensures var row := RowOf(AliasQuery(e.pred).pattern, e);
            && EvalValue(h, Property("a", "name"), row) == Ok(J.String(e.from))
            && EvalValue(h, Property("b", "name"), row) == Ok(J.String(e.to))
  {
  }

  /** Without ordering and limits a query on one edge returns the rows of RETURN. */
  lemma {:induction false} Outcomes(h: Host, e: GraphEdge, maxRows: nat, exprs: seq<ValueExpr>, from: seq<string>, to: seq<string>)
    requires |exprs| == |from| == |to| && maxRows > 0
    requires var row := RowOf(AliasQuery(e.pred).pattern, e);
             var carried := ProjectEval(h, Projection(false, Named(exprs, from)), [row]);
             && carried.Ok?
             && (var r := Returned(h, Projection(false, Named(exprs, to)), [row]); r.Ok? ==> |r.value| == 1)
             && (var r := Returned(h, Projection(false, Rename(from, to)), carried.value); r.Ok? ==> |r.value| == 1)
    ensures var row := RowOf(AliasQuery(e.pred).pattern, e);
            var w := Evaluate(h, WithQuery(AliasQuery(e.pred), exprs, from, to, false, false), [e], maxRows);
            var d := Evaluate(h, DirectQuery(AliasQuery(e.pred), exprs, to, false), [e], maxRows);
            var x := Returned(h, Projection(false, Rename(from, to)), ProjectEval(h, Projection(false, Named(exprs, from)), [row]).value);
            var y := Returned(h, Projection(false, Named(exprs, to)), [row]);
            w == d ==> x == y
  {
    hide Returned, ProjectEval, Matched, RowOf;
    OneEdge(h, WithQuery(AliasQuery(e.pred), exprs, from, to, false, false), e);
    OneEdge(h, DirectQuery(AliasQuery(e.pred), exprs, to, false), e);
  }

  lemma {:induction false} OneEdge(h: Host, q: Query, e: GraphEdge)
    requires q.pattern == Pattern("a", None, None, e.pred, "b", None) && q.filter == None
    ensures Matched(h, q, [e]) == [RowOf(q.pattern, e)]
  {
    var row := RowOf(q.pattern, e);
    assert [e][..0] == [] && [row][..0] == [];
    assert PatternRows(q.pattern, [e][..0]) == [] && Retain(h, None, [row][..0]) == [];
    assert EdgeMatches(q.pattern, e) && Kept(h, None, row);
    assert PatternRows(q.pattern, [e]) == [row];
  }

  lemma {:induction false} OneTuple(h: Host, items: seq<SelectItem>, row: EvalRow, values: seq<J.Value>)
    requires |items| == |values| && forall i :: 0 <= i < |items| ==> EvalValue(h, items[i].expr, row) == Ok(values[i])
    ensures Tuples(h, items, [row]) == Ok([values])
  {
    hide EvalValue;
    CarriedTuple(h, items, row, values);
    assert [row][..0] == [] && [] + [values] == [values];
    assert Tuples(h, items, [row][..0]) == Ok([]);
  }

  /** Both ways show one row. */
  lemma {:induction false} OneRowShown(h: Host, exprs: seq<ValueExpr>, from: seq<string>, to: seq<string>, row: EvalRow, values: seq<J.Value>)
    requires |exprs| == |from| == |to| && forall i :: 0 <= i < |exprs| ==> !IsAggregate(exprs[i])
    requires Tuples(h, Named(exprs, from), [row]) == Ok([values])
    ensures var carried := ProjectEval(h, Projection(false, Named(exprs, from)), [row]);
            && carried.Ok?
            && (Returned(h, Projection(false, Named(exprs, to)), [row]).Ok? ==> |Returned(h, Projection(false, Named(exprs, to)), [row]).value| == 1)
            && (Returned(h, Projection(false, Rename(from, to)), carried.value).Ok? ==> |Returned(h, Projection(false, Rename(from, to)), carried.value).value| == 1)
  {
    hide Tuples, JsonRow;
    TuplesIgnoreNames(h, Named(exprs, from), Named(exprs, to), [row]);
    PlainReturn(h, Projection(false, Named(exprs, to)), [row]);
    var carried := ProjectEval(h, Projection(false, Named(exprs, from)), [row]).value;
    PlainReturn(h, Projection(false, Rename(from, to)), carried);
  }
}
