/**
 `lex_cypher`. The Unicode classes it consults are a parameter: everything here holds for any
 tables that agree with ASCII on ASCII.
 */
module CypherLexer {
  import opened Wrappers
  import opened CypherSyntax
  import opened Decimal

  datatype CharTables = CharTables(space: char -> bool, letter: char -> bool, alnum: char -> bool)

  predicate AsciiLetter(c: char) {
    'a' <= c <= 'z' || 'A' <= c <= 'Z'
  }

  /** What is used of the Unicode tables. */
  ghost predicate Tables(cc: CharTables) {
    && cc.space(' ')
    && (forall c :: cc.letter(c) ==> cc.alnum(c))
    && (forall c :: cc.letter(c) ==> !cc.space(c))
    && (forall c :: c as int < 128 ==> (cc.letter(c) <==> AsciiLetter(c)))
    && (forall c :: c as int < 128 ==> (cc.alnum(c) <==> AsciiLetter(c) || IsDigit(c)))
    && (forall c :: c as int < 128 && cc.space(c) ==> c == ' ' || 9 <= c as int <= 13)
  }

  predicate PairSymbol(a: char, b: char) {
    || (a == '-' && b == '>')
    || (a == '<' && (b == '-' || b == '>' || b == '='))
    || (a == '>' && b == '=')
  }

  predicate SingleSymbol(c: char) {
    c in "()[]:.,-=<>*|"
  }

  predicate WordStart(cc: CharTables, c: char) {
    cc.letter(c) || c == '_'
  }

  predicate WordChar(cc: CharTables, c: char) {
    cc.alnum(c) || c == '_'
  }

  function Span(keep: char -> bool, s: string): (n: nat)
    ensures n <= |s|
    ensures forall i :: 0 <= i < n ==> keep(s[i])
    ensures n < |s| ==> !keep(s[n])
  {
    if s != "" && keep(s[0]) then
      var rest := Span(keep, s[1..]);
      assert forall i :: 0 < i < 1 + rest ==> s[i] == s[1..][i - 1];
      1 + rest
    else 0
  }

  /** The contract of `Span` determines it. */
  lemma {:induction false} SpanIs(keep: char -> bool, s: string, n: nat)
    requires n <= |s| && (forall i :: 0 <= i < n ==> keep(s[i])) && (n < |s| ==> !keep(s[n]))
    ensures Span(keep, s) == n
  {
  }

  datatype Scanned = Blank | Lexeme(token: Token, length: nat) | Unterminated | Unsupported

  function ScanQuoted(s: string): (r: Scanned)
    requires s != ""
    ensures r.Lexeme? ==> 0 < r.length <= |s|
  {
    var n := Span(c => c != '\'', s[1..]);
    if n == |s| - 1 then Unterminated else Lexeme(Token(Quoted, s[1..n + 1]), n + 2)
  }

  function ScanSymbol(s: string): (r: Scanned)
    requires s != ""
    ensures r.Lexeme? ==> 0 < r.length <= |s|
  {
    if |s| >= 2 && PairSymbol(s[0], s[1]) then Lexeme(Token(Symbol, s[..2]), 2)
    else if SingleSymbol(s[0]) then Lexeme(Token(Symbol, s[..1]), 1)
    else Unsupported
  }

  /** What the next characters are. */
  function Scan(cc: CharTables, s: string): (r: Scanned)
    requires s != ""
    ensures r.Lexeme? ==> 0 < r.length <= |s|
  {
    if cc.space(s[0]) then Blank
    else if s[0] == '\'' then ScanQuoted(s)
    else if IsDigit(s[0]) then
      var n := Span(IsDigit, s[1..]) + 1;
      Lexeme(Token(Numeral, s[..n]), n)
    else if WordStart(cc, s[0]) then
      var n := Span(c => WordChar(cc, c), s[1..]) + 1;
      Lexeme(Token(Ident, s[..n]), n)
    else ScanSymbol(s)
  }

  function Lex(cc: CharTables, s: string): Result<seq<Token>>
    decreases |s|
  {
    if s == "" then Ok([])
    else
      match Scan(cc, s)
      case Blank => Lex(cc, s[1..])
      case Lexeme(t, n) => Prepend([t], Lex(cc, s[n..]))
      case Unterminated => Err("unterminated string literal")
      case Unsupported => Err("unsupported character")
  }

  function Prepend(ts: seq<Token>, r: Result<seq<Token>>): Result<seq<Token>> {
    if r.Ok? then Ok(ts + r.value) else r
  }

  // ---------------------------------------------------------------- the loop

  /** An inner `while` of the lexer: the end of the run that starts at `start`. */
  method RunEnd(keep: char -> bool, chars: string, start: nat) returns (end: nat)
    requires start <= |chars|
    ensures start <= end <= |chars| && end - start == Span(keep, chars[start..])
  {
    end := start;
    while end < |chars| && keep(chars[end])
      invariant start <= end <= |chars|
      invariant forall i :: start <= i < end ==> keep(chars[i])
    {
      end := end + 1;
    }
    SpanIs(keep, chars[start..], end - start);
  }

  /** One turn of the outer loop: what stands at `index`. */
  method ScanAt(cc: CharTables, chars: string, index: nat) returns (r: Scanned)
    requires index < |chars|
    ensures r == Scan(cc, chars[index..])
  {
    hide ScanQuoted, ScanSymbol;
    var ch := chars[index];
    ghost var s := chars[index..];
    assert s[1..] == chars[index + 1..] && s[0] == ch;
    if cc.space(ch) {
      r := Blank;
    } else if ch == '\'' {
      r := QuotedAt(chars, index);
    } else if IsDigit(ch) {
      var end := RunEnd(IsDigit, chars, index + 1);
      assert chars[index..end] == s[..end - index];
      r := Lexeme(Token(Numeral, chars[index..end]), end - index);
    } else if WordStart(cc, ch) {
      var end := RunEnd(c => WordChar(cc, c), chars, index + 1);
      assert chars[index..end] == s[..end - index];
      r := Lexeme(Token(Ident, chars[index..end]), end - index);
    } else {
      r := SymbolAt(chars, index);
    }
  }

  method QuotedAt(chars: string, index: nat) returns (r: Scanned)
    requires index < |chars|
    ensures r == ScanQuoted(chars[index..])
  {
    ghost var s := chars[index..];
    assert s[1..] == chars[index + 1..];
    var end := RunEnd(c => c != '\'', chars, index + 1);
    if end >= |chars| {
      return Unterminated;
    }
    assert chars[index + 1..end] == s[1..end - index];
    r := Lexeme(Token(Quoted, chars[index + 1..end]), end + 1 - index);
  }

  method SymbolAt(chars: string, index: nat) returns (r: Scanned)
    requires index < |chars|
    ensures r == ScanSymbol(chars[index..])
  {
    hide PairSymbol, SingleSymbol;
    ghost var s := chars[index..];
    if index + 1 < |chars| && PairSymbol(chars[index], chars[index + 1]) {
      assert chars[index..index + 2] == s[..2];
      r := Lexeme(Token(Symbol, chars[index..index + 2]), 2);
    } else if SingleSymbol(chars[index]) {
      assert [chars[index]] == s[..1];
      r := Lexeme(Token(Symbol, [chars[index]]), 1);
    } else {
      r := Unsupported;
    }
  }

  method LexCypher(cc: CharTables, chars: string) returns (r: Result<seq<Token>>)
    ensures r == Lex(cc, chars)
  {
    hide Scan;
    var out: seq<Token> := [];
    var index := 0;
    assert chars[0..] == chars;
    PrependNothing(Lex(cc, chars));
    while index < |chars|
      invariant 0 <= index <= |chars|
      invariant Lex(cc, chars) == Prepend(out, Lex(cc, chars[index..]))
    {
      ghost var s := chars[index..];
      var scanned := ScanAt(cc, chars, index);
      match scanned {
        case Blank =>
          assert s[1..] == chars[index + 1..];
          index := index + 1;
        case Lexeme(t, n) =>
          assert s[n..] == chars[index + n..];
          PrependTwice(out, [t], Lex(cc, s[n..]));
          out := out + [t];
          index := index + n;
        case Unterminated =>
          return Err("unterminated string literal");
        case Unsupported =>
          return Err("unsupported character");
      }
    }
    assert chars[index..] == "" && out + [] == out;
    r := Ok(out);
  }

  lemma {:induction false} PrependNothing(r: Result<seq<Token>>)
    ensures Prepend([], r) == r
  {
    if r.Ok? {
      assert [] + r.value == r.value;
    }
  }

  lemma {:induction false} PrependTwice(a: seq<Token>, b: seq<Token>, r: Result<seq<Token>>)
    ensures Prepend(a, Prepend(b, r)) == Prepend(a + b, r)
  {
    if r.Ok? {
      assert a + (b + r.value) == a + b + r.value;
    }
  }

  // ---------------------------------------------------------------- rendering

  ghost predicate Spellable(cc: CharTables, t: Token) {
    match t.kind
    case Ident => t.text != "" && WordStart(cc, t.text[0]) && forall i :: 0 <= i < |t.text| ==> WordChar(cc, t.text[i])
    case Quoted => '\'' !in t.text
    case Numeral => t.text != "" && AllDigits(t.text)
    case Symbol => (|t.text| == 2 && PairSymbol(t.text[0], t.text[1])) || (|t.text| == 1 && SingleSymbol(t.text[0]))
  }

  ghost predicate AllSpellable(cc: CharTables, ts: seq<Token>) {
    forall i :: 0 <= i < |ts| ==> Spellable(cc, ts[i])
  }

  function Spell(t: Token): string {
    if t.kind.Quoted? then "'" + t.text + "'" else t.text
  }

  function Render(ts: seq<Token>): string {
    if ts == [] then "" else Spell(ts[0]) + (" " + Render(ts[1..]))
  }

  lemma {:induction false} ScanSpelled(cc: CharTables, t: Token, rest: string)
    requires Tables(cc) && Spellable(cc, t)
    ensures Scan(cc, Spell(t) + (" " + rest)) == Lexeme(t, |Spell(t)|)
  {
    hide Tables, Spellable, Scan;
    match t.kind
    case Ident => IdentSpelled(cc, t, rest);
    case Quoted => QuotedSpelled(cc, t, rest);
    case Numeral => NumeralSpelled(cc, t, rest);
    case Symbol => SymbolSpelled(cc, t, rest);
  }

  lemma {:induction false} WordStartIsOnly(cc: CharTables, c: char)
    requires Tables(cc) && WordStart(cc, c)
    ensures !cc.space(c) && c != '\'' && !IsDigit(c)
  {
  }

  lemma {:induction false} BlankEndsWord(cc: CharTables)
    requires Tables(cc)
    ensures !WordChar(cc, ' ')
  {
  }

  lemma {:induction false} IdentSpelled(cc: CharTables, t: Token, rest: string)
    requires Tables(cc) && Spellable(cc, t) && t.kind.Ident?
    ensures Scan(cc, t.text + (" " + rest)) == Lexeme(t, |t.text|)
  {
    hide Tables, IsDigit, ScanSymbol, ScanQuoted, WordStart, WordChar;
    var s := t.text + (" " + rest);
    WordStartIsOnly(cc, t.text[0]);
    BlankEndsWord(cc);
    SpanIs(c => WordChar(cc, c), s[1..], |t.text| - 1);
    assert s[..|t.text|] == t.text;
  }

  lemma {:induction false} QuotedSpelled(cc: CharTables, t: Token, rest: string)
    requires Tables(cc) && Spellable(cc, t) && t.kind.Quoted?
    ensures Scan(cc, "'" + t.text + "'" + (" " + rest)) == Lexeme(t, |t.text| + 2)
  {
    hide ScanSymbol, WordStart, WordChar;
    var s := "'" + t.text + "'" + (" " + rest);
    assert s[0] == '\'' && !cc.space(s[0]);
    SpanIs(c => c != '\'', s[1..], |t.text|);
    assert s[1..|t.text| + 1] == t.text;
  }

  lemma {:induction false} NumeralSpelled(cc: CharTables, t: Token, rest: string)
    requires Tables(cc) && Spellable(cc, t) && t.kind.Numeral?
    ensures Scan(cc, t.text + (" " + rest)) == Lexeme(t, |t.text|)
  {
    hide ScanSymbol, ScanQuoted, WordStart, WordChar;
    var s := t.text + (" " + rest);
    assert s[0] == t.text[0] && !cc.space(s[0]);
    SpanIs(IsDigit, s[1..], |t.text| - 1);
    assert s[..|t.text|] == t.text;
  }

  /** A symbol's first character opens nothing else. */
  lemma {:induction false} SymbolStart(cc: CharTables, c: char)
    requires Tables(cc) && SingleSymbol(c)
    ensures !cc.space(c) && c != '\'' && !IsDigit(c) && !WordStart(cc, c)
  {
    assert c as int < 128 && !AsciiLetter(c) && c != '_';
  }

  lemma {:induction false} PairStart(a: char, b: char)
    requires PairSymbol(a, b)
    ensures SingleSymbol(a)
  {
  }

  lemma {:induction false} SymbolSpelled(cc: CharTables, t: Token, rest: string)
    requires Tables(cc) && Spellable(cc, t) && t.kind.Symbol?
    ensures Scan(cc, t.text + (" " + rest)) == Lexeme(t, |t.text|)
  {
    hide Tables, SingleSymbol, WordStart, IsDigit;
    var s := t.text + (" " + rest);
    assert s[..|t.text|] == t.text;
    assert |t.text| == 1 ==> s[1] == ' ';
    if |t.text| == 2 {
      PairStart(s[0], s[1]);
    }
    SymbolStart(cc, s[0]);
  }

  /** Spelling out tokens with a space after each and lexing the text gives the tokens back. */
  lemma {:induction false} LexRendered(cc: CharTables, ts: seq<Token>)
    requires Tables(cc) && AllSpellable(cc, ts)
    ensures Lex(cc, Render(ts)) == Ok(ts)
  {
    if ts != [] {
      var t, tail := ts[0], " " + Render(ts[1..]);
      var s := Spell(t) + tail;
      ScanSpelled(cc, t, Render(ts[1..]));
      assert s[|Spell(t)|..] == tail;
      assert tail[1..] == Render(ts[1..]);
      LexRendered(cc, ts[1..]);
      assert [t] + ts[1..] == ts;
    }
  }

  /** The same without the space after a last name. */
  lemma {:induction false} LexRenderedEnd(cc: CharTables, ts: seq<Token>, t: Token)
    requires Tables(cc) && AllSpellable(cc, ts) && Spellable(cc, t) && t.kind.Ident?
    ensures Lex(cc, Render(ts) + t.text) == Ok(ts + [t])
  {
    hide Tables, Scan;
    if ts == [] {
      LastName(cc, t);
      assert Render(ts) + t.text == t.text && t.text[|t.text|..] == "";
      assert Lex(cc, "") == Ok([]);
      assert [t] + [] == ts + [t];
    } else {
      var more := Render(ts[1..]) + t.text;
      var s := Spell(ts[0]) + (" " + more);
      assert Render(ts) + t.text == s;
      ScanSpelled(cc, ts[0], more);
      assert s[|Spell(ts[0])|..] == " " + more;
      SkipBlank(cc, more);
      LexRenderedEnd(cc, ts[1..], t);
      assert [ts[0]] + (ts[1..] + [t]) == ts + [t];
    }
  }

  lemma {:induction false} SkipBlank(cc: CharTables, s: string)
    requires Tables(cc)
    ensures Lex(cc, " " + s) == Lex(cc, s)
  {
    assert (" " + s)[1..] == s;
  }

  lemma {:induction false} LastName(cc: CharTables, t: Token)
    requires Tables(cc) && Spellable(cc, t) && t.kind.Ident?
    ensures Scan(cc, t.text) == Lexeme(t, |t.text|)
  {
    hide Tables, IsDigit, ScanSymbol, ScanQuoted, WordStart, WordChar;
    var s := t.text;
    WordStartIsOnly(cc, s[0]);
    SpanIs(c => WordChar(cc, c), s[1..], |s| - 1);
    assert s[..|s|] == s;
  }

  lemma {:induction false} ScannedSpellable(cc: CharTables, s: string)
    requires Tables(cc) && s != "" && Scan(cc, s).Lexeme?
    ensures Spellable(cc, Scan(cc, s).token)
  {
  }

  /** And only such token lists come out of the lexer. */
  lemma {:induction false} LexedSpellable(cc: CharTables, s: string)
    requires Tables(cc) && Lex(cc, s).Ok?
    ensures AllSpellable(cc, Lex(cc, s).value)
    decreases |s|
  {
    if s != "" {
      match Scan(cc, s)
      case Blank => LexedSpellable(cc, s[1..]);
      case Lexeme(t, n) =>
        ScannedSpellable(cc, s);
        LexedSpellable(cc, s[n..]);
      case Unterminated =>
      case Unsupported =>
    }
  }
}
