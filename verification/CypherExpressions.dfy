/**
 Expressions and their text: every bracketing of an expression parses back to it, and the parser
 returns exactly the expressions that can be written down.
 */
module CypherExpressions {
  import opened CypherSyntax
  import opened CypherLexer
  import opened CypherGrammar
  import opened Decimal

  // ---------------------------------------------------------------- printing

  function Word(s: string): Token {
    Token(Ident, s)
  }

  function Sym(s: string): Token {
    Token(Symbol, s)
  }

  /** The tokens of a value, in front of `rest`. */
  function ValueTokens(v: ValueExpr, rest: seq<Token>): seq<Token> {
    match v
    case Property(name, prop) => [Word(name)] + ([Sym(".")] + ([Word(prop)] + rest))
    case Labels(name) => [Word("labels")] + ([Sym("(")] + ([Word(name)] + ([Sym(")")] + rest)))
    case ToInteger(inner) => [Word("toInteger")] + ([Sym("(")] + ValueTokens(inner, [Sym(")")] + rest))
    case Text(s) => [Token(Quoted, s)] + rest
    case Number(n) => [Token(Numeral, Digits(if n < 0 then -n else n))] + rest
    case Alias(name) => [Word(name)] + rest
    case CountAll => [Word("count")] + ([Sym("(")] + ([Sym("*")] + ([Sym(")")] + rest)))
    case CountDistinct(inner) =>
      [Word("count")] + ([Sym("(")] + ([Word("DISTINCT")] + ValueTokens(inner, [Sym(")")] + rest)))
  }

  function OpTokens(op: CompareOp, rest: seq<Token>): seq<Token> {
    match op
    case Eq => [Sym("=")] + rest
    case Ne => [Sym("<>")] + rest
    case Gt => [Sym(">")] + rest
    case Gte => [Sym(">=")] + rest
    case Lt => [Sym("<")] + rest
    case Lte => [Sym("<=")] + rest
    case Contains => [Word("CONTAINS")] + rest
    case StartsWith => [Word("STARTS")] + ([Word("WITH")] + rest)
  }

  type AtomExpr = e: BoolExpr | e.Compare? || e.LabelTest? witness LabelTest("a", "b")

  /** An expression together with a choice of parentheses. */
  datatype Layout =
    | Either(left: Layout, right: Layout)
    | Both(left: Layout, right: Layout)
    | Negated(operand: Layout)
    | Group(inner: Layout)
    | Atom(e: AtomExpr)

  /** The expression without the parentheses. */
  function Meaning(s: Layout): BoolExpr {
    match s
    case Either(l, r) => Or(Meaning(l), Meaning(r))
    case Both(l, r) => And(Meaning(l), Meaning(r))
    case Negated(x) => Not(Meaning(x))
    case Group(x) => Meaning(x)
    case Atom(e) => e
  }

  /** How tightly the outermost operator binds: OR, then AND, then NOT and atoms. */
  function Binding(s: Layout): nat {
    match s
    case Either(_, _) => 0
    case Both(_, _) => 1
    case _ => 2
  }

  /** The parentheses suffice: OR and AND associate to the left and OR binds loosest. */
  predicate Readable(s: Layout) {
    match s
    case Either(l, r) => Readable(l) && Readable(r) && Binding(r) >= 1
    case Both(l, r) => Readable(l) && Readable(r) && Binding(l) >= 1 && Binding(r) >= 2
    case Negated(x) => Readable(x) && Binding(x) >= 2
    case Group(x) => Readable(x)
    case Atom(_) => true
  }

  function AtomTokens(e: AtomExpr, rest: seq<Token>): seq<Token> {
    match e
    case Compare(l, op, r) => ValueTokens(l, OpTokens(op, ValueTokens(r, rest)))
    case LabelTest(v, name) => [Word(v)] + ([Sym(":")] + ([Word(name)] + rest))
  }

  function LayoutTokens(s: Layout, rest: seq<Token>): seq<Token> {
    match s
    case Either(l, r) => LayoutTokens(l, [Word("OR")] + LayoutTokens(r, rest))
    case Both(l, r) => LayoutTokens(l, [Word("AND")] + LayoutTokens(r, rest))
    case Negated(x) => [Word("NOT")] + LayoutTokens(x, rest)
    case Group(x) => [Sym("(")] + LayoutTokens(x, [Sym(")")] + rest)
    case Atom(e) => AtomTokens(e, rest)
  }

  // ---------------------------------------------------------------- what can be written

  ghost predicate IsIdent(cc: CharTables, s: string) {
    Spellable(cc, Word(s))
  }

  predicate Reserved(s: string) {
    SameWord(s, "count") || SameWord(s, "labels") || SameWord(s, "toInteger")
  }

  ghost predicate WritableValue(cc: CharTables, v: ValueExpr) {
    match v
    case Property(name, prop) => IsIdent(cc, name) && IsIdent(cc, prop) && !Reserved(name)
    case Labels(name) => IsIdent(cc, name)
    case ToInteger(inner) => WritableValue(cc, inner)
    case Text(s) => '\'' !in s
    case Number(n) => 0 <= n <= MAX_I64
    case Alias(name) => IsIdent(cc, name) && !Reserved(name)
    case CountAll => true
    case CountDistinct(inner) => WritableValue(cc, inner)
  }

  /** A comparison may start with this value: not with the word NOT, not with the string "(". */
  predicate CanLead(v: ValueExpr) {
    !OpensWith(v, "NOT") && v != Text("(")
  }

  /** The value's first token is a name that reads as this keyword. */
  predicate OpensWith(v: ValueExpr, word: string) {
    match v
    case Property(name, _) => SameWord(name, word)
    case Alias(name) => SameWord(name, word)
    case _ => false
  }

  ghost predicate Writable(cc: CharTables, e: BoolExpr) {
    match e
    case Or(l, r) => Writable(cc, l) && Writable(cc, r)
    case And(l, r) => Writable(cc, l) && Writable(cc, r)
    case Not(x) => Writable(cc, x)
    case Compare(l, _, r) => WritableValue(cc, l) && WritableValue(cc, r) && CanLead(l)
    case LabelTest(v, name) => IsIdent(cc, v) && IsIdent(cc, name) && !SameWord(v, "NOT")
  }

  // ---------------------------------------------------------------- parsing what was printed

  lemma {:induction false} Keywords()
    ensures !SameWord("count", "NOT") && !SameWord("labels", "NOT") && !SameWord("toInteger", "NOT")
    ensures !SameWord("labels", "count") && !SameWord("toInteger", "count") && !SameWord("toInteger", "labels")
    ensures SameWord("count", "count") && SameWord("labels", "labels") && SameWord("toInteger", "toInteger")
    ensures SameWord("CONTAINS", "CONTAINS") && SameWord("STARTS", "STARTS") && SameWord("WITH", "WITH")
    ensures !SameWord("STARTS", "CONTAINS") && SameWord("DISTINCT", "DISTINCT")
    ensures SameWord("OR", "OR") && SameWord("AND", "AND") && SameWord("NOT", "NOT") && !SameWord("OR", "AND")
  {
    assert LowerChar("labels"[0]) != LowerChar("count"[0]);
  }

  /** `rest` does not continue a name. */
  predicate Quiet(rest: seq<Token>) {
    !AtText(rest, ".")
  }

  lemma {:induction false} NumberRoundTrip(n: nat, rest: seq<Token>)
    requires n <= MAX_I64
    ensures ExpectNumber([Token(Numeral, Digits(n))] + rest) == Done(n, rest)
  {
    ParsePrinted(n);
  }

  lemma {:induction false} CallRoundTrip(inner: ValueExpr, rest: seq<Token>)
    requires ParseValue(ValueTokens(inner, [Sym(")")] + rest)) == Done(inner, [Sym(")")] + rest)
    ensures ParseToInteger([Sym("(")] + ValueTokens(inner, [Sym(")")] + rest)) == Done(ToInteger(inner), rest)
    ensures ParseCount([Sym("(")] + ([Word("DISTINCT")] + ValueTokens(inner, [Sym(")")] + rest))) == Done(CountDistinct(inner), rest)
  {
    hide SameWord, ParseValue, ValueTokens;
    Keywords();
  }

  lemma {:induction false} ValueRoundTrip(cc: CharTables, v: ValueExpr, rest: seq<Token>)
    requires WritableValue(cc, v) && Quiet(rest)
    ensures ParseValue(ValueTokens(v, rest)) == Done(v, rest)
  {
    hide SameWord, IsIdent, ParseToInteger, ParseCount, ExpectNumber;
    Keywords();
    match v {
      case ToInteger(inner) =>
        ValueRoundTrip(cc, inner, [Sym(")")] + rest);
        CallRoundTrip(inner, rest);
      case CountDistinct(inner) =>
        ValueRoundTrip(cc, inner, [Sym(")")] + rest);
        CallRoundTrip(inner, rest);
      case CountAll =>
        CountAllRoundTrip(rest);
      case Number(n) =>
        NumberRoundTrip(n, rest);
      case _ =>
    }
  }

  lemma {:induction false} CountAllRoundTrip(rest: seq<Token>)
    ensures ParseCount([Sym("(")] + ([Sym("*")] + ([Sym(")")] + rest))) == Done(CountAll, rest)
  {
    hide ParseValue;
  }

  lemma {:induction false} OpRoundTrip(op: CompareOp, rest: seq<Token>)
    ensures ParseOp(OpTokens(op, rest)) == Done(op, rest)
    ensures Quiet(OpTokens(op, rest)) && !AtText(OpTokens(op, rest), ":")
  {
    hide SameWord;
    Keywords();
  }

  /** A leading value is not taken for a negation, a parenthesis or a label test. */
  lemma {:induction false} ValueHead(cc: CharTables, v: ValueExpr, rest: seq<Token>)
    requires Tables(cc) && WritableValue(cc, v) && CanLead(v) && !AtText(rest, ":")
    ensures var ts := ValueTokens(v, rest);
            && !AtWord(ts, "NOT") && !AtText(ts, "(")
            && !(AtKind(ts, Ident) && AtText(ts[1..], ":"))
  {
    hide SameWord;
    Keywords();
  }

  lemma {:induction false} AtomRoundTrip(cc: CharTables, e: AtomExpr, rest: seq<Token>)
    requires Tables(cc) && Writable(cc, e) && Quiet(rest)
    ensures ParseNot(AtomTokens(e, rest)) == Done(e, rest)
  {
    hide SameWord, ParseValue, ValueTokens, ParseOp, OpTokens, ParseOr;
    match e
    case Compare(l, op, r) =>
      var after := OpTokens(op, ValueTokens(r, rest));
      OpRoundTrip(op, ValueTokens(r, rest));
      ValueHead(cc, l, after);
      ValueRoundTrip(cc, l, after);
      ValueRoundTrip(cc, r, rest);
    case LabelTest(v, name) =>
      assert ParseLabelTest(AtomTokens(e, rest)) == Done(e, rest);
  }

  /** Tokens of a layout, read back at the level of its outermost operator. */
  lemma {:induction false} NotRoundTrip(cc: CharTables, s: Layout, rest: seq<Token>)
    requires Tables(cc) && Readable(s) && Writable(cc, Meaning(s)) && Quiet(rest) && Binding(s) == 2
    ensures ParseNot(LayoutTokens(s, rest)) == Done(Meaning(s), rest)
    decreases s, 0
  {
    hide SameWord, ParseOr, Quiet;
    Keywords();
    match s
    case Negated(x) => NotRoundTrip(cc, x, rest);
    case Group(x) =>
      assert Quiet([Sym(")")] + rest) by { QuietClose(rest); }
      OrRoundTrip(cc, x, [Sym(")")] + rest);
    case Atom(e) => AtomRoundTrip(cc, e, rest);
  }

  lemma {:induction false} QuietClose(rest: seq<Token>)
    ensures Quiet([Sym(")")] + rest) && Quiet([Word("OR")] + rest) && Quiet([Word("AND")] + rest)
  {
  }

  lemma {:induction false} AndRoundTrip(cc: CharTables, s: Layout, rest: seq<Token>)
    requires Tables(cc) && Readable(s) && Writable(cc, Meaning(s)) && Quiet(rest) && Binding(s) >= 1
    ensures ParseAnd(LayoutTokens(s, rest)) == AndLoop(Meaning(s), rest)
    decreases s, 1
  {
    hide SameWord, ParseNot, Quiet, Tables;
    Keywords();
    if s.Both? {
      var after := LayoutTokens(s.right, rest);
      QuietClose(after);
      AndRoundTrip(cc, s.left, [Word("AND")] + after);
      NotRoundTrip(cc, s.right, rest);
    } else {
      NotRoundTrip(cc, s, rest);
    }
  }

  lemma {:induction false} OrRoundTrip(cc: CharTables, s: Layout, rest: seq<Token>)
    requires Tables(cc) && Readable(s) && Writable(cc, Meaning(s)) && Quiet(rest) && !AtWord(rest, "AND")
    ensures ParseOr(LayoutTokens(s, rest)) == OrLoop(Meaning(s), rest)
    decreases s, 2
  {
    hide SameWord, ParseAnd, ParseNot, Quiet, Tables;
    Keywords();
    if s.Either? {
      var after := LayoutTokens(s.right, rest);
      QuietClose(after);
      OrRoundTrip(cc, s.left, [Word("OR")] + after);
      AndRoundTrip(cc, s.right, rest);
    } else {
      AndRoundTrip(cc, s, rest);
    }
  }

  // ---------------------------------------------------------------- only writable expressions are parsed

  lemma {:induction false} SpellableRest(cc: CharTables, ts: seq<Token>)
    requires AllSpellable(cc, ts) && ts != []
    ensures Spellable(cc, ts[0]) && AllSpellable(cc, ts[1..])
  {
  }

  lemma {:induction false} ExpectSpellable(cc: CharTables, ts: seq<Token>, text: string)
    requires AllSpellable(cc, ts)
    ensures ExpectText(ts, text).Done? ==> AllSpellable(cc, ExpectText(ts, text).rest)
    ensures ExpectWord(ts, text).Done? ==> AllSpellable(cc, ExpectWord(ts, text).rest)
    ensures ExpectIdent(ts).Done? ==> IsIdent(cc, ExpectIdent(ts).value) && AllSpellable(cc, ExpectIdent(ts).rest)
    ensures ExpectNumber(ts).Done? ==> ExpectNumber(ts).value <= MAX_I64 && AllSpellable(cc, ExpectNumber(ts).rest)
    ensures ExpectStringLike(ts).Done? ==> AllSpellable(cc, ExpectStringLike(ts).rest)
  {
    hide SameWord, Spellable, AllSpellable;
    if ts != [] {
      SpellableRest(cc, ts);
      assert AtKind(ts, Ident) ==> ts[0] == Word(ts[0].text);
    }
  }

  lemma {:induction false} ValueIsWritable(cc: CharTables, ts: seq<Token>)
    requires AllSpellable(cc, ts) && ParseValue(ts).Done?
    ensures WritableValue(cc, ParseValue(ts).value) && AllSpellable(cc, ParseValue(ts).rest)
    ensures !AtText(ts, "(") ==> ParseValue(ts).value != Text("(")
    ensures forall word :: OpensWith(ParseValue(ts).value, word) ==> AtWord(ts, word)
    decreases |ts|
  {
    hide SameWord, Spellable, AllSpellable, IsIdent, ParseCount, ParseToInteger, ParseLabels, ParseName, ExpectNumber;
    assert ts != [];
    SpellableRest(cc, ts);
    if AtWord(ts, "count") {
      CountIsWritable(cc, ts[1..]);
    } else if AtWord(ts, "labels") {
      LabelsIsWritable(cc, ts[1..]);
    } else if AtWord(ts, "toInteger") {
      ToIntegerIsWritable(cc, ts[1..]);
    } else if AtKind(ts, Quoted) {
      QuotedIsPlain(cc, ts[0]);
    } else if AtKind(ts, Numeral) {
      ExpectSpellable(cc, ts, "");
    } else {
      NameIsWritable(cc, ts);
    }
  }

  lemma {:induction false} QuotedIsPlain(cc: CharTables, t: Token)
    requires Spellable(cc, t) && t.kind.Quoted?
    ensures '\'' !in t.text
  {
  }

  lemma {:induction false} CountIsWritable(cc: CharTables, ts: seq<Token>)
    requires AllSpellable(cc, ts) && ParseCount(ts).Done?
    ensures WritableValue(cc, ParseCount(ts).value) && AllSpellable(cc, ParseCount(ts).rest)
    ensures ParseCount(ts).value.CountAll? || ParseCount(ts).value.CountDistinct?
    decreases |ts|
  {
    hide SameWord, Spellable, AllSpellable, IsIdent, ParseValue, ExpectText, ExpectWord;
    ExpectSpellable(cc, ts, "(");
    var open := ExpectText(ts, "(").rest;
    ExpectSpellable(cc, open, "DISTINCT");
    if AtText(open, "*") {
      SpellableRest(cc, open);
      ExpectSpellable(cc, open[1..], ")");
    } else {
      var inner := ExpectWord(open, "DISTINCT").rest;
      ValueIsWritable(cc, inner);
      ExpectSpellable(cc, ParseValue(inner).rest, ")");
    }
  }

  lemma {:induction false} ToIntegerIsWritable(cc: CharTables, ts: seq<Token>)
    requires AllSpellable(cc, ts) && ParseToInteger(ts).Done?
    ensures WritableValue(cc, ParseToInteger(ts).value) && AllSpellable(cc, ParseToInteger(ts).rest)
    ensures ParseToInteger(ts).value.ToInteger?
    decreases |ts|
  {
    hide SameWord, Spellable, AllSpellable, IsIdent, ParseValue, ExpectText;
    ExpectSpellable(cc, ts, "(");
    var open := ExpectText(ts, "(").rest;
    ValueIsWritable(cc, open);
    ExpectSpellable(cc, ParseValue(open).rest, ")");
  }

  lemma {:induction false} LabelsIsWritable(cc: CharTables, ts: seq<Token>)
    requires AllSpellable(cc, ts) && ParseLabels(ts).Done?
    ensures WritableValue(cc, ParseLabels(ts).value) && AllSpellable(cc, ParseLabels(ts).rest)
    ensures ParseLabels(ts).value.Labels?
  {
    hide SameWord, Spellable, AllSpellable, IsIdent, ExpectText, ExpectIdent;
    ExpectSpellable(cc, ts, "(");
    var open := ExpectText(ts, "(").rest;
    ExpectSpellable(cc, open, "");
    ExpectSpellable(cc, ExpectIdent(open).rest, ")");
  }

  lemma {:induction false} NameIsWritable(cc: CharTables, ts: seq<Token>)
    requires AllSpellable(cc, ts) && ParseName(ts).Done?
    requires !AtWord(ts, "count") && !AtWord(ts, "labels") && !AtWord(ts, "toInteger")
    ensures WritableValue(cc, ParseName(ts).value) && AllSpellable(cc, ParseName(ts).rest)
    ensures !ParseName(ts).value.Text? && forall word :: OpensWith(ParseName(ts).value, word) ==> AtWord(ts, word)
  {
    hide SameWord, Spellable, AllSpellable, IsIdent;
    ExpectSpellable(cc, ts, "");
    var rest := ExpectIdent(ts).rest;
    if AtText(rest, ".") {
      SpellableRest(cc, rest);
      ExpectSpellable(cc, rest[1..], "");
    }
  }

  lemma {:induction false} OpSpellable(cc: CharTables, ts: seq<Token>)
    requires AllSpellable(cc, ts) && ParseOp(ts).Done?
    ensures AllSpellable(cc, ParseOp(ts).rest)
  {
    hide SameWord, Spellable, AllSpellable;
    assert ts != [];
    SpellableRest(cc, ts);
    ExpectSpellable(cc, ts[1..], "WITH");
  }

  ghost predicate WritableResult(cc: CharTables, r: Parsed<BoolExpr>) {
    r.Done? ==> Writable(cc, r.value) && AllSpellable(cc, r.rest)
  }

  lemma {:induction false} AtomIsWritable(cc: CharTables, ts: seq<Token>)
    requires AllSpellable(cc, ts) && !AtWord(ts, "NOT")
    ensures WritableResult(cc, ParseAtom(ts))
    decreases |ts|, 0
  {
    hide SameWord, Spellable, AllSpellable, IsIdent, ParseOr, ParseComparison, ParseLabelTest;
    if AtText(ts, "(") {
      SpellableRest(cc, ts);
      OrIsWritable(cc, ts[1..]);
      if ParseOr(ts[1..]).Done? {
        ExpectSpellable(cc, ParseOr(ts[1..]).rest, ")");
      }
    } else if AtKind(ts, Ident) && AtText(ts[1..], ":") {
      LabelTestIsWritable(cc, ts);
    } else {
      ComparisonIsWritable(cc, ts);
    }
  }

  lemma {:induction false} LabelTestIsWritable(cc: CharTables, ts: seq<Token>)
    requires AllSpellable(cc, ts) && !AtWord(ts, "NOT")
    ensures WritableResult(cc, ParseLabelTest(ts))
  {
    hide SameWord, Spellable, AllSpellable, IsIdent;
    if ParseLabelTest(ts).Done? {
      ExpectSpellable(cc, ts, "");
      var v := ExpectIdent(ts);
      ExpectSpellable(cc, v.rest, ":");
      ExpectSpellable(cc, ExpectText(v.rest, ":").rest, "");
    }
  }

  lemma {:induction false} ComparisonIsWritable(cc: CharTables, ts: seq<Token>)
    requires AllSpellable(cc, ts) && !AtWord(ts, "NOT") && !AtText(ts, "(")
    ensures WritableResult(cc, ParseComparison(ts))
  {
    hide SameWord, Spellable, AllSpellable, IsIdent, ParseValue, ParseOp, OpensWith, WritableValue;
    if ParseComparison(ts).Done? {
      ValueIsWritable(cc, ts);
      var left := ParseValue(ts);
      OpSpellable(cc, left.rest);
      ValueIsWritable(cc, ParseOp(left.rest).rest);
    }
  }

  lemma {:induction false} NotIsWritable(cc: CharTables, ts: seq<Token>)
    requires AllSpellable(cc, ts)
    ensures WritableResult(cc, ParseNot(ts))
    decreases |ts|, 1
  {
    hide SameWord, Spellable, AllSpellable, IsIdent, ParseAtom;
    if AtWord(ts, "NOT") {
      SpellableRest(cc, ts);
      NotIsWritable(cc, ts[1..]);
    } else {
      AtomIsWritable(cc, ts);
    }
  }

  lemma {:induction false} AndLoopIsWritable(cc: CharTables, left: BoolExpr, ts: seq<Token>)
    requires AllSpellable(cc, ts) && Writable(cc, left)
    ensures WritableResult(cc, AndLoop(left, ts))
    decreases |ts|, 2
  {
    hide SameWord, Spellable, AllSpellable, IsIdent, ParseNot;
    if AtWord(ts, "AND") {
      SpellableRest(cc, ts);
      NotIsWritable(cc, ts[1..]);
      var right := ParseNot(ts[1..]);
      if right.Done? {
        AndLoopIsWritable(cc, And(left, right.value), right.rest);
      }
    }
  }

  lemma {:induction false} AndIsWritable(cc: CharTables, ts: seq<Token>)
    requires AllSpellable(cc, ts)
    ensures WritableResult(cc, ParseAnd(ts))
    decreases |ts|, 3
  {
    hide SameWord, Spellable, AllSpellable, IsIdent, ParseNot, AndLoop;
    NotIsWritable(cc, ts);
    var first := ParseNot(ts);
    if first.Done? {
      AndLoopIsWritable(cc, first.value, first.rest);
    }
  }

  lemma {:induction false} OrLoopIsWritable(cc: CharTables, left: BoolExpr, ts: seq<Token>)
    requires AllSpellable(cc, ts) && Writable(cc, left)
    ensures WritableResult(cc, OrLoop(left, ts))
    decreases |ts|, 4
  {
    hide SameWord, Spellable, AllSpellable, IsIdent, ParseAnd;
    if AtWord(ts, "OR") {
      SpellableRest(cc, ts);
      AndIsWritable(cc, ts[1..]);
      var right := ParseAnd(ts[1..]);
      if right.Done? {
        OrLoopIsWritable(cc, Or(left, right.value), right.rest);
      }
    }
  }

  /** Whatever the tokens, the expression that comes out can be written down again. */
  lemma {:induction false} OrIsWritable(cc: CharTables, ts: seq<Token>)
    requires AllSpellable(cc, ts)
    ensures WritableResult(cc, ParseOr(ts))
    decreases |ts|, 5
  {
    hide SameWord, Spellable, AllSpellable, IsIdent, ParseAnd, OrLoop;
    AndIsWritable(cc, ts);
    var first := ParseAnd(ts);
    if first.Done? {
      OrLoopIsWritable(cc, first.value, first.rest);
    }
  }

  // ---------------------------------------------------------------- tokens that can be spelled

  lemma {:induction false} SpellableFront(cc: CharTables, t: Token, rest: seq<Token>)
    requires Spellable(cc, t) && AllSpellable(cc, rest)
    ensures AllSpellable(cc, [t] + rest)
  {
  }

  lemma {:induction false} LettersAreIdent(cc: CharTables, s: string)
    requires Tables(cc) && s != "" && forall i :: 0 <= i < |s| ==> AsciiLetter(s[i])
    ensures IsIdent(cc, s)
  {
  }

  lemma {:induction false} FixedWords(cc: CharTables)
    requires Tables(cc)
    ensures IsIdent(cc, "labels") && IsIdent(cc, "toInteger") && IsIdent(cc, "count") && IsIdent(cc, "DISTINCT")
    ensures IsIdent(cc, "CONTAINS") && IsIdent(cc, "STARTS") && IsIdent(cc, "WITH")
    ensures IsIdent(cc, "OR") && IsIdent(cc, "AND") && IsIdent(cc, "NOT")
  {
    hide Tables, IsIdent;
    LettersAreIdent(cc, "labels");
    LettersAreIdent(cc, "toInteger");
    LettersAreIdent(cc, "count");
    LettersAreIdent(cc, "DISTINCT");
    LettersAreIdent(cc, "CONTAINS");
    LettersAreIdent(cc, "STARTS");
    LettersAreIdent(cc, "WITH");
    LettersAreIdent(cc, "OR");
    LettersAreIdent(cc, "AND");
    LettersAreIdent(cc, "NOT");
  }

  lemma {:induction false} FixedSymbols(cc: CharTables)
    ensures Spellable(cc, Sym("(")) && Spellable(cc, Sym(")")) && Spellable(cc, Sym("*")) && Spellable(cc, Sym(".")) && Spellable(cc, Sym(":"))
    ensures Spellable(cc, Sym("=")) && Spellable(cc, Sym("<>")) && Spellable(cc, Sym(">")) && Spellable(cc, Sym(">="))
    ensures Spellable(cc, Sym("<")) && Spellable(cc, Sym("<="))
  {
  }

  lemma {:induction false} ValueSpellable(cc: CharTables, v: ValueExpr, rest: seq<Token>)
    requires Tables(cc) && WritableValue(cc, v) && AllSpellable(cc, rest)
    ensures AllSpellable(cc, ValueTokens(v, rest))
  {
    hide Tables, Spellable, AllSpellable;
    FixedWords(cc);
    FixedSymbols(cc);
    SpellableFront(cc, Sym(")"), rest);
    var close := [Sym(")")] + rest;
    match v
    case Property(name, prop) =>
      SpellableFront(cc, Word(prop), rest);
      SpellableFront(cc, Sym("."), [Word(prop)] + rest);
      SpellableFront(cc, Word(name), [Sym(".")] + ([Word(prop)] + rest));
    case Labels(name) =>
      SpellableFront(cc, Word(name), close);
      SpellableFront(cc, Sym("("), [Word(name)] + close);
      SpellableFront(cc, Word("labels"), [Sym("(")] + ([Word(name)] + close));
    case ToInteger(inner) =>
      ValueSpellable(cc, inner, close);
      SpellableFront(cc, Sym("("), ValueTokens(inner, close));
      SpellableFront(cc, Word("toInteger"), [Sym("(")] + ValueTokens(inner, close));
    case Text(s) =>
      LiteralSpellable(cc, v);
      SpellableFront(cc, Token(Quoted, s), rest);
    case Number(n) =>
      LiteralSpellable(cc, v);
      SpellableFront(cc, Token(Numeral, Digits(n)), rest);
    case Alias(name) =>
      SpellableFront(cc, Word(name), rest);
    case CountAll =>
      SpellableFront(cc, Sym("*"), close);
      SpellableFront(cc, Sym("("), [Sym("*")] + close);
      SpellableFront(cc, Word("count"), [Sym("(")] + ([Sym("*")] + close));
    case CountDistinct(inner) =>
      ValueSpellable(cc, inner, close);
      SpellableFront(cc, Word("DISTINCT"), ValueTokens(inner, close));
      SpellableFront(cc, Sym("("), [Word("DISTINCT")] + ValueTokens(inner, close));
      SpellableFront(cc, Word("count"), [Sym("(")] + ([Word("DISTINCT")] + ValueTokens(inner, close)));
  }

  lemma {:induction false} LiteralSpellable(cc: CharTables, v: ValueExpr)
    requires WritableValue(cc, v)
    ensures v.Text? ==> Spellable(cc, Token(Quoted, v.s))
    ensures v.Number? ==> Spellable(cc, Token(Numeral, Digits(v.n)))
  {
  }

  lemma {:induction false} OpTokensSpellable(cc: CharTables, op: CompareOp, rest: seq<Token>)
    requires Tables(cc) && AllSpellable(cc, rest)
    ensures AllSpellable(cc, OpTokens(op, rest))
  {
    hide Tables, Spellable, AllSpellable;
    FixedWords(cc);
    FixedSymbols(cc);
    SpellableFront(cc, Word("WITH"), rest);
    SpellableFront(cc, Word("STARTS"), [Word("WITH")] + rest);
    SpellableFront(cc, Word("CONTAINS"), rest);
    SpellableFront(cc, Sym("="), rest);
    SpellableFront(cc, Sym("<>"), rest);
    SpellableFront(cc, Sym(">"), rest);
    SpellableFront(cc, Sym(">="), rest);
    SpellableFront(cc, Sym("<"), rest);
    SpellableFront(cc, Sym("<="), rest);
  }

  lemma {:induction false} LayoutSpellable(cc: CharTables, s: Layout, rest: seq<Token>)
    requires Tables(cc) && Writable(cc, Meaning(s)) && AllSpellable(cc, rest)
    ensures AllSpellable(cc, LayoutTokens(s, rest))
  {
    hide Tables, Spellable, AllSpellable, ValueTokens, OpTokens;
    FixedWords(cc);
    FixedSymbols(cc);
    match s
    case Either(l, r) =>
      LayoutSpellable(cc, r, rest);
      SpellableFront(cc, Word("OR"), LayoutTokens(r, rest));
      LayoutSpellable(cc, l, [Word("OR")] + LayoutTokens(r, rest));
    case Both(l, r) =>
      LayoutSpellable(cc, r, rest);
      SpellableFront(cc, Word("AND"), LayoutTokens(r, rest));
      LayoutSpellable(cc, l, [Word("AND")] + LayoutTokens(r, rest));
    case Negated(x) =>
      LayoutSpellable(cc, x, rest);
      SpellableFront(cc, Word("NOT"), LayoutTokens(x, rest));
    case Group(x) =>
      SpellableFront(cc, Sym(")"), rest);
      LayoutSpellable(cc, x, [Sym(")")] + rest);
      SpellableFront(cc, Sym("("), LayoutTokens(x, [Sym(")")] + rest));
    case Atom(e) =>
      AtomSpellable(cc, e, rest);
  }

  lemma {:induction false} AtomSpellable(cc: CharTables, e: AtomExpr, rest: seq<Token>)
    requires Tables(cc) && Writable(cc, e) && AllSpellable(cc, rest)
    ensures AllSpellable(cc, AtomTokens(e, rest))
  {
    hide Tables, Spellable, AllSpellable, ValueTokens, OpTokens;
    match e
    case Compare(l, op, r) =>
      ValueSpellable(cc, r, rest);
      OpTokensSpellable(cc, op, ValueTokens(r, rest));
      ValueSpellable(cc, l, OpTokens(op, ValueTokens(r, rest)));
    case LabelTest(v, name) =>
      FixedSymbols(cc);
      SpellableFront(cc, Word(name), rest);
      SpellableFront(cc, Sym(":"), [Word(name)] + rest);
      SpellableFront(cc, Word(v), [Sym(":")] + ([Word(name)] + rest));
  }

  // ---------------------------------------------------------------- the round trip

  function ExpressionText(s: Layout): string {
    Render(LayoutTokens(s, []))
  }

  /** Lexing and parsing the text gives the expression, with nothing left over. */
  predicate ReadsBack(cc: CharTables, s: Layout) {
    var lexed := Lex(cc, ExpressionText(s));
    lexed.Ok? && ParseOr(lexed.value) == Done(Meaning(s), [])
  }

  /** However it is sufficiently bracketed, an expression reads back if and only if it is writable. */
  lemma {:induction false} ExpressionRoundTrip(cc: CharTables, s: Layout)
    requires Tables(cc) && Readable(s)
    ensures ReadsBack(cc, s) <==> Writable(cc, Meaning(s))
  {
    hide Tables, Lex, Render, LayoutTokens, Writable, ParseOr, SameWord;
    if Writable(cc, Meaning(s)) {
      LayoutSpellable(cc, s, []);
      LexRendered(cc, LayoutTokens(s, []));
      OrRoundTrip(cc, s, []);
    }
    if ReadsBack(cc, s) {
      LexedSpellable(cc, ExpressionText(s));
      OrIsWritable(cc, Lex(cc, ExpressionText(s)).value);
    }
  }

  // ---------------------------------------------------------------- choices of parentheses

  function Enclose(s: Layout, binding: nat): (r: Layout)
    requires binding <= 2
    ensures Meaning(r) == Meaning(s) && Binding(r) >= binding
  {
    if Binding(s) >= binding then s else Group(s)
  }

  /** Parentheses only where the grammar needs them. */
  function Sparse(e: BoolExpr): (s: Layout)
    ensures Meaning(s) == e && Readable(s)
  {
    match e
    case Or(l, r) => Either(Sparse(l), Enclose(Sparse(r), 1))
    case And(l, r) => Both(Enclose(Sparse(l), 1), Enclose(Sparse(r), 2))
    case Not(x) => Negated(Enclose(Sparse(x), 2))
    case _ => Atom(e)
  }

  /** Parentheses around every compound expression. */
  function Full(e: BoolExpr): (s: Layout)
    ensures Meaning(s) == e && Readable(s) && Binding(s) == 2
  {
    match e
    case Or(l, r) => Group(Either(Full(l), Full(r)))
    case And(l, r) => Group(Both(Full(l), Full(r)))
    case Not(x) => Group(Negated(Full(x)))
    case _ => Atom(e)
  }

  function Groups(s: Layout): nat {
    match s
    case Either(l, r) => Groups(l) + Groups(r)
    case Both(l, r) => Groups(l) + Groups(r)
    case Negated(x) => Groups(x)
    case Group(x) => Groups(x) + 1
    case Atom(_) => 0
  }

  /** No sufficient bracketing has fewer parentheses than the sparse one. */
  lemma {:induction false} SparseIsSparsest(s: Layout, binding: nat)
    requires Readable(s) && binding <= 2 && binding <= Binding(s)
    ensures Groups(Enclose(Sparse(Meaning(s)), binding)) <= Groups(s)
  {
    match s
    case Either(l, r) =>
      SparseIsSparsest(l, 0);
      SparseIsSparsest(r, 1);
    case Both(l, r) =>
      SparseIsSparsest(l, 1);
      SparseIsSparsest(r, 2);
    case Negated(x) =>
      SparseIsSparsest(x, 2);
    case Group(x) =>
      SparseIsSparsest(x, 0);
    case Atom(_) =>
  }

  /** Fewest parentheses or all of them: the same expressions read back. */
  lemma {:induction false} SparseAndFullReadBack(cc: CharTables, e: BoolExpr)
    requires Tables(cc)
    ensures ReadsBack(cc, Sparse(e)) <==> Writable(cc, e)
    ensures ReadsBack(cc, Full(e)) <==> Writable(cc, e)
  {
    hide ReadsBack, Writable, Tables;
    ExpressionRoundTrip(cc, Sparse(e));
    ExpressionRoundTrip(cc, Full(e));
  }

  /** The string "(" on the left of any comparison is taken for a parenthesis. */
  lemma {:induction false} LeftParenthesisString(cc: CharTables, op: CompareOp, rhs: ValueExpr)
    requires Tables(cc)
    ensures !ReadsBack(cc, Atom(Compare(Text("("), op, rhs)))
  {
    hide Lex, Render, LayoutTokens, ParseOr;
    ExpressionRoundTrip(cc, Atom(Compare(Text("("), op, rhs)));
  }
}
