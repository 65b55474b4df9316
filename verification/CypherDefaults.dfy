/** What a query may leave out: the direction of ORDER BY and the names of its columns. */
module CypherDefaults {
  import opened Wrappers
  import opened CypherSyntax
  import opened CypherLexer
  import opened CypherGrammar
  import opened CypherExpressions
  import opened CypherMeaning
  import opened CypherQueries
  import opened Decimal

  /** The next token is a name that spells this keyword, in any case. */
  predicate ReadsWord(ts: seq<Token>, word: string) {
    ts != [] && ts[0].kind == Ident && SameLetters(ts[0].text, word)
  }

  lemma {:induction false} ReadsWordIff(ts: seq<Token>, word: string)
    ensures ReadsWord(ts, word) <==> AtWord(ts, word)
  {
    hide SameLetters, SameWord;
    if ts != [] {
      SameLettersIff(ts[0].text, word);
    }
  }

  /** `ORDER BY key` is ascending, with or without ASC, and descending with DESC, whatever the case of the keywords. */
  lemma {:induction false} OrderDirections(order: string, spelledBy: string, key: string, direction: string, rest: seq<Token>)
    requires SameLetters(order, "ORDER") && SameLetters(spelledBy, "BY")
    ensures SameLetters(direction, "ASC") ==>
              ParseOrder([Word(order)] + ([Word(spelledBy)] + ([Word(key)] + ([Word(direction)] + rest)))) == Done(Some(OrderBy(key, false)), rest)
    ensures SameLetters(direction, "DESC") ==>
              ParseOrder([Word(order)] + ([Word(spelledBy)] + ([Word(key)] + ([Word(direction)] + rest)))) == Done(Some(OrderBy(key, true)), rest)
    ensures !ReadsWord(rest, "ASC") && !ReadsWord(rest, "DESC") ==>
              ParseOrder([Word(order)] + ([Word(spelledBy)] + ([Word(key)] + rest))) == Done(Some(OrderBy(key, false)), rest)
  {
    hide SameLetters, SameWord;
    SameLettersIff(order, "ORDER");
    SameLettersIff(spelledBy, "BY");
    SameLettersIff(direction, "ASC");
    SameLettersIff(direction, "DESC");
    NotBoth(direction);
    ReadsWordIff(rest, "ASC");
    ReadsWordIff(rest, "DESC");
  }

  lemma {:induction false} NotBoth(direction: string)
    ensures !(SameLetters(direction, "ASC") && SameLetters(direction, "DESC"))
  {
  }

  /** The texts of the tokens before `rest`, one after the other. */
  function Texts(ts: seq<Token>): string {
    if ts == [] then "" else ts[0].text + Texts(ts[1..])
  }

  /** A column without AS is named as it is written, or by the function or the kind of its literal. */
  lemma {:induction false} DefaultNames(cc: CharTables, v: ValueExpr, rest: seq<Token>)
    requires WritableValue(cc, v) && Quiet(rest) && !ReadsWord(rest, "AS")
    ensures ParseItem(ValueTokens(v, rest)).Done?
    ensures var r := ParseItem(ValueTokens(v, rest));
            && r.rest == rest && r.value.expr == v
            && (v.Property? || v.Labels? || v.Alias? ==> r.value.name == Texts(ValueTokens(v, [])))
            && (v.ToInteger? ==> r.value.name == "toInteger")
            && (v.CountAll? || v.CountDistinct? ==> r.value.name == "count")
            && (v.Text? ==> r.value.name == "string")
            && (v.Number? ==> r.value.name == "number")
  {
    hide SameWord, ParseValue, WritableValue, SameLetters;
    ReadsWordIff(rest, "AS");
    ValueRoundTrip(cc, v, rest);
    if v.Property? || v.Labels? || v.Alias? {
      WrittenName(v);
    }
  }

  lemma {:induction false} WrittenName(v: ValueExpr)
    requires v.Property? || v.Labels? || v.Alias?
    ensures DefaultAlias(v) == Texts(ValueTokens(v, []))
  {
    match v {
      case Property(name, prop) =>
        assert ValueTokens(v, []) == [Word(name), Sym("."), Word(prop)];
        ThreeTexts(Word(name), Sym("."), Word(prop));
      case Labels(name) =>
        var ts := [Word("labels")] + ([Sym("(")] + ([Word(name)] + ([Sym(")")] + [])));
        assert ts[1..] == [Sym("("), Word(name), Sym(")")];
        ThreeTexts(Sym("("), Word(name), Sym(")"));
      case Alias(name) => assert ([Word(name)] + [])[1..] == [];
    }
  }

  lemma {:induction false} ThreeTexts(a: Token, b: Token, c: Token)
    ensures Texts([a, b, c]) == a.text + b.text + c.text
  {
    assert [a, b, c][1..] == [b, c] && [b, c][1..] == [c] && [c][1..] == [];
    assert Texts([c]) == c.text + "" == c.text;
    assert Texts([b, c]) == b.text + c.text;
    assert a.text + (b.text + c.text) == a.text + b.text + c.text;
  }

  // ---------------------------------------------------------------- refused words

  /** The text spells the word somewhere, in any case. */
  ghost predicate Spells(text: string, word: string) {
    exists front, part, rest :: text == front + part + rest && SameLetters(part, word)
  }

  /** The words that make a query a mutation, wherever they stand. */
  ghost predicate SpellsMutation(text: string) {
    || Spells(text, "CREATE") || Spells(text, "MERGE") || Spells(text, "DELETE")
    || Spells(text, "DETACH") || Spells(text, "SET ") || Spells(text, "REMOVE ")
  }

  lemma {:induction false} SpellsIff(text: string, word: string)
    requires forall i :: 0 <= i < |word| ==> !('a' <= word[i] <= 'z')
    ensures Spells(text, word) <==> Mentions(Upper(text), word)
  {
    hide SameLetters, MentionsAt, Upper;
    if Spells(text, word) {
      var front, part, rest :| text == front + part + rest && SameLetters(part, word);
      SpelledAt(front, part, rest, word);
    }
    if i :| 0 <= i <= |Upper(text)| && MentionsAt(Upper(text), word, i) {
      SpelledFrom(text, word, i);
    }
  }

  lemma {:induction false} SpelledAt(front: string, part: string, rest: string, word: string)
    requires SameLetters(part, word) && forall i :: 0 <= i < |word| ==> !('a' <= word[i] <= 'z')
    ensures |front| <= |Upper(front + part + rest)| && MentionsAt(Upper(front + part + rest), word, |front|)
  {
    hide UpperChar;
    var text, i := front + part + rest, |front|;
    var cut := Upper(text)[i..i + |word|];
    forall k | 0 <= k < |word| ensures cut[k] == word[k] {
      assert text[i + k] == part[k];
      AlreadyUpper(word[k]);
    }
  }

  lemma {:induction false} AlreadyUpper(c: char)
    requires !('a' <= c <= 'z')
    ensures UpperChar(c) == c
  {
  }

  lemma {:induction false} SpelledFrom(text: string, word: string, i: nat)
    requires i <= |Upper(text)| && MentionsAt(Upper(text), word, i) && forall k :: 0 <= k < |word| ==> !('a' <= word[k] <= 'z')
    ensures Spells(text, word)
  {
    hide UpperChar;
    assert i + |word| <= |text|;
    var part := text[i..i + |word|];
    assert text == text[..i] + part + text[i + |word|..];
    forall k | 0 <= k < |word| ensures UpperChar(part[k]) == UpperChar(word[k]) {
      assert Upper(text)[i..i + |word|][k] == word[k];
      AlreadyUpper(word[k]);
    }
    assert SameLetters(part, word);
  }

  /** Exactly these words make `parse_cypher` refuse a text before reading it. */
  lemma {:induction false} MutationsAreRefused(cc: CharTables, text: string)
    ensures SpellsMutation(text) <==> Mutates(text)
    ensures SpellsMutation(text) ==> Read(cc, text).None?
  {
    hide Spells, Mentions, Upper, Lex;
    SpellsIff(text, "CREATE");
    SpellsIff(text, "MERGE");
    SpellsIff(text, "DELETE");
    SpellsIff(text, "DETACH");
    SpellsIff(text, "SET ");
    SpellsIff(text, "REMOVE ");
  }

  // ---------------------------------------------------------------- symbols and numbers

  /** The symbols: five of two characters, which are read whole, and thirteen of one; nothing else is one. */
  lemma {:induction false} SymbolsAreRead(c: char, d: char, rest: string)
    ensures var r := ScanSymbol([c, d] + rest);
            && ([c, d] in ["->", "<-", "<>", "<=", ">="] ==> r == Lexeme(Token(Symbol, [c, d]), 2))
            && ([c, d] !in ["->", "<-", "<>", "<=", ">="] ==>
                r == if c in ['(', ')', '[', ']', ':', '.', ',', '-', '=', '<', '>', '*', '|'] then Lexeme(Token(Symbol, [c]), 1) else Unsupported)
  {
    var s := [c, d] + rest;
    assert s[..2] == [c, d] && s[..1] == [c];
    TwoLetters(c, d);
  }

  lemma {:induction false} TwoLetters(c: char, d: char)
    ensures [c, d] in ["->", "<-", "<>", "<=", ">="] <==> PairSymbol(c, d)
  {
    assert forall a, b :: [c, d] == [a, b] <==> c == a && d == b;
    assert "->" == ['-', '>'] && "<-" == ['<', '-'] && "<>" == ['<', '>'] && "<=" == ['<', '='] && ">=" == ['>', '='];
  }

  /** A number is read up to the largest 64-bit integer and refused beyond it. */
  lemma {:induction false} NumberLimit(n: nat, rest: seq<Token>)
    ensures ExpectNumber([Token(Numeral, Digits(n))] + rest) == if n <= 9_223_372_036_854_775_807 then Done(n, rest) else Failed
  {
    ParsePrinted(n);
  }
}
