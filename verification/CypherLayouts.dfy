/**
 Which bracketings read back. A layout and the parser's own reading of its tokens are compared: the
 tokens and the expression together determine the layout, so an insufficient bracketing is always
 read as another expression.
 */
module CypherLayouts {
  import opened CypherSyntax
  import opened CypherLexer
  import opened CypherGrammar
  import opened CypherExpressions

  // ---------------------------------------------------------------- the parser's own layout

  /** `x OR y`, with the operands of `y` taken in from the left. */
  function JoinOr(x: Layout, y: Layout): (r: Layout)
    requires Readable(x) && Readable(y)
    ensures Readable(r)
    decreases y
  {
    if y.Either? then Either(JoinOr(x, y.left), y.right) else Either(x, y)
  }

  /** `x AND y`, which binds tighter than an OR on either side. */
  function JoinAnd(x: Layout, y: Layout): (r: Layout)
    requires Readable(x) && Readable(y)
    ensures Readable(r) && (Binding(x) >= 1 && Binding(y) >= 1 ==> Binding(r) >= 1)
    decreases y, x
  {
    if y.Either? then Either(JoinAnd(x, y.left), y.right)
    else if x.Either? then Either(x.left, JoinAnd(x.right, y))
    else if y.Both? then Both(JoinAnd(x, y.left), y.right)
    else Both(x, y)
  }

  /** `NOT x`, which takes the first operand only. */
  function JoinNot(x: Layout): (r: Layout)
    requires Readable(x)
    ensures Readable(r) && (Binding(x) >= 1 ==> Binding(r) >= 1)
  {
    match x
    case Either(l, r) => Either(JoinNot(l), r)
    case Both(l, r) => Both(JoinNot(l), r)
    case _ => Negated(x)
  }

  /** The sufficient bracketing with the same tokens. */
  function Normal(s: Layout): (r: Layout)
    ensures Readable(r)
  {
    match s
    case Either(l, r) => JoinOr(Normal(l), Normal(r))
    case Both(l, r) => JoinAnd(Normal(l), Normal(r))
    case Negated(x) => JoinNot(Normal(x))
    case Group(x) => Group(Normal(x))
    case Atom(_) => s
  }

  lemma {:induction false} JoinOrTokens(cc: CharTables, x: Layout, y: Layout, rest: seq<Token>)
    requires Readable(x) && Readable(y)
    ensures LayoutTokens(JoinOr(x, y), rest) == LayoutTokens(x, [Word("OR")] + LayoutTokens(y, rest))
    ensures Writable(cc, Meaning(JoinOr(x, y))) <==> Writable(cc, Meaning(x)) && Writable(cc, Meaning(y))
    decreases y
  {
    hide AtomTokens, WritableValue, IsIdent, CanLead;
    if y.Either? {
      JoinOrTokens(cc, x, y.left, [Word("OR")] + LayoutTokens(y.right, rest));
    }
  }

  lemma {:induction false} JoinAndTokens(cc: CharTables, x: Layout, y: Layout, rest: seq<Token>)
    requires Readable(x) && Readable(y)
    ensures LayoutTokens(JoinAnd(x, y), rest) == LayoutTokens(x, [Word("AND")] + LayoutTokens(y, rest))
    ensures Writable(cc, Meaning(JoinAnd(x, y))) <==> Writable(cc, Meaning(x)) && Writable(cc, Meaning(y))
    decreases y, x
  {
    hide AtomTokens, WritableValue, IsIdent, CanLead;
    if y.Either? {
      JoinAndTokens(cc, x, y.left, [Word("OR")] + LayoutTokens(y.right, rest));
    } else if x.Either? {
      JoinAndTokens(cc, x.right, y, rest);
    } else if y.Both? {
      JoinAndTokens(cc, x, y.left, [Word("AND")] + LayoutTokens(y.right, rest));
    }
  }

  lemma {:induction false} JoinNotTokens(cc: CharTables, x: Layout, rest: seq<Token>)
    requires Readable(x)
    ensures LayoutTokens(JoinNot(x), rest) == [Word("NOT")] + LayoutTokens(x, rest)
    ensures Writable(cc, Meaning(JoinNot(x))) <==> Writable(cc, Meaning(x))
  {
    hide AtomTokens, WritableValue, IsIdent, CanLead;
    match x
    case Either(l, r) => JoinNotTokens(cc, l, [Word("OR")] + LayoutTokens(r, rest));
    case Both(l, r) => JoinNotTokens(cc, l, [Word("AND")] + LayoutTokens(r, rest));
    case _ =>
  }

  lemma {:induction false} NormalTokens(cc: CharTables, s: Layout, rest: seq<Token>)
    ensures LayoutTokens(Normal(s), rest) == LayoutTokens(s, rest)
    ensures Writable(cc, Meaning(Normal(s))) <==> Writable(cc, Meaning(s))
  {
    hide AtomTokens, WritableValue, IsIdent, CanLead, JoinOr, JoinAnd, JoinNot;
    match s
    case Either(l, r) =>
      NormalTokens(cc, r, rest);
      NormalTokens(cc, l, [Word("OR")] + LayoutTokens(r, rest));
      JoinOrTokens(cc, Normal(l), Normal(r), rest);
    case Both(l, r) =>
      NormalTokens(cc, r, rest);
      NormalTokens(cc, l, [Word("AND")] + LayoutTokens(r, rest));
      JoinAndTokens(cc, Normal(l), Normal(r), rest);
    case Negated(x) =>
      NormalTokens(cc, x, rest);
      JoinNotTokens(cc, Normal(x), rest);
    case Group(x) =>
      NormalTokens(cc, x, [Sym(")")] + rest);
    case Atom(_) =>
  }

  // ---------------------------------------------------------------- opening parentheses

  /** The parentheses a layout starts with. */
  function Opens(s: Layout): nat {
    match s
    case Either(l, _) => Opens(l)
    case Both(l, _) => Opens(l)
    case Group(x) => Opens(x) + 1
    case _ => 0
  }

  /** The tokens after them. */
  function Body(s: Layout, rest: seq<Token>): seq<Token> {
    match s
    case Either(l, r) => Body(l, [Word("OR")] + LayoutTokens(r, rest))
    case Both(l, r) => Body(l, [Word("AND")] + LayoutTokens(r, rest))
    case Group(x) => Body(x, [Sym(")")] + rest)
    case _ => LayoutTokens(s, rest)
  }

  function Repeat(t: Token, n: nat, rest: seq<Token>): seq<Token> {
    if n == 0 then rest else [t] + Repeat(t, n - 1, rest)
  }

  predicate StartsWith(ts: seq<Token>, t: Token) {
    ts != [] && ts[0] == t
  }

  /** A run of one token in front of something else can be measured. */
  lemma {:induction false} RepeatInjective(t: Token, m: nat, n: nat, a: seq<Token>, b: seq<Token>)
    requires Repeat(t, m, a) == Repeat(t, n, b) && !StartsWith(a, t) && !StartsWith(b, t)
    ensures m == n && a == b
  {
    if m > 0 && n > 0 {
      assert Repeat(t, m, a)[1..] == Repeat(t, m - 1, a) && Repeat(t, n, b)[1..] == Repeat(t, n - 1, b);
      RepeatInjective(t, m - 1, n - 1, a, b);
    }
  }

  lemma {:induction false} RepeatLast(t: Token, n: nat, rest: seq<Token>)
    ensures Repeat(t, n, [t] + rest) == Repeat(t, n + 1, rest)
  {
    if n > 0 {
      RepeatLast(t, n - 1, rest);
    }
  }

  lemma {:induction false} SameCount(t: Token, n: nat, a: seq<Token>, b: seq<Token>)
    requires Repeat(t, n, a) == Repeat(t, n, b)
    ensures a == b
  {
    if n > 0 {
      assert Repeat(t, n, a)[1..] == Repeat(t, n - 1, a) && Repeat(t, n, b)[1..] == Repeat(t, n - 1, b);
      SameCount(t, n - 1, a, b);
    }
  }

  lemma {:induction false} LeadingParentheses(s: Layout, rest: seq<Token>)
    ensures LayoutTokens(s, rest) == Repeat(Sym("("), Opens(s), Body(s, rest))
    ensures Body(s, rest) != [] && !StartsWith(Body(s, rest), Sym("("))
  {
    match s
    case Either(l, r) => LeadingParentheses(l, [Word("OR")] + LayoutTokens(r, rest));
    case Both(l, r) => LeadingParentheses(l, [Word("AND")] + LayoutTokens(r, rest));
    case Group(x) => LeadingParentheses(x, [Sym(")")] + rest);
    case Negated(x) =>
    case Atom(e) => AtomHead(e, rest);
  }

  lemma {:induction false} AtomHead(e: AtomExpr, rest: seq<Token>)
    ensures AtomTokens(e, rest) != [] && !StartsWith(AtomTokens(e, rest), Sym("("))
  {
  }

  // ---------------------------------------------------------------- tokens and meaning determine the layout

  lemma {:induction false} ValueRest(v: ValueExpr, a: seq<Token>, b: seq<Token>)
    requires ValueTokens(v, a) == ValueTokens(v, b)
    ensures a == b
  {
    match v
    case Property(name, prop) =>
      DropOne(Word(name), [Sym(".")] + ([Word(prop)] + a), [Sym(".")] + ([Word(prop)] + b));
      DropOne(Sym("."), [Word(prop)] + a, [Word(prop)] + b);
      DropOne(Word(prop), a, b);
    case Labels(name) =>
      DropCall("labels", [Word(name)] + ([Sym(")")] + a), [Word(name)] + ([Sym(")")] + b));
      DropOne(Word(name), [Sym(")")] + a, [Sym(")")] + b);
      DropOne(Sym(")"), a, b);
    case ToInteger(inner) =>
      DropCall("toInteger", ValueTokens(inner, [Sym(")")] + a), ValueTokens(inner, [Sym(")")] + b));
      ValueRest(inner, [Sym(")")] + a, [Sym(")")] + b);
      DropOne(Sym(")"), a, b);
    case Text(s) => DropOne(Token(Quoted, s), a, b);
    case Number(_) => DropOne(ValueTokens(v, a)[0], a, b);
    case Alias(name) => DropOne(Word(name), a, b);
    case CountAll =>
      DropCall("count", [Sym("*")] + ([Sym(")")] + a), [Sym("*")] + ([Sym(")")] + b));
      DropOne(Sym("*"), [Sym(")")] + a, [Sym(")")] + b);
      DropOne(Sym(")"), a, b);
    case CountDistinct(inner) =>
      DropCall("count", [Word("DISTINCT")] + ValueTokens(inner, [Sym(")")] + a), [Word("DISTINCT")] + ValueTokens(inner, [Sym(")")] + b));
      DropOne(Word("DISTINCT"), ValueTokens(inner, [Sym(")")] + a), ValueTokens(inner, [Sym(")")] + b));
      ValueRest(inner, [Sym(")")] + a, [Sym(")")] + b);
      DropOne(Sym(")"), a, b);
  }

  lemma {:induction false} DropOne(t: Token, a: seq<Token>, b: seq<Token>)
    requires [t] + a == [t] + b
    ensures a == b
  {
    assert ([t] + a)[1..] == a && ([t] + b)[1..] == b;
  }

  lemma {:induction false} DropCall(name: string, a: seq<Token>, b: seq<Token>)
    requires [Word(name)] + ([Sym("(")] + a) == [Word(name)] + ([Sym("(")] + b)
    ensures a == b
  {
    DropOne(Word(name), [Sym("(")] + a, [Sym("(")] + b);
    DropOne(Sym("("), a, b);
  }

  lemma {:induction false} OpRest(op: CompareOp, a: seq<Token>, b: seq<Token>)
    requires OpTokens(op, a) == OpTokens(op, b)
    ensures a == b
  {
    if op.StartsWith? {
      DropOne(Word("STARTS"), [Word("WITH")] + a, [Word("WITH")] + b);
      DropOne(Word("WITH"), a, b);
    } else {
      DropOne(OpTokens(op, a)[0], a, b);
    }
  }

  lemma {:induction false} AtomRest(e: AtomExpr, a: seq<Token>, b: seq<Token>)
    requires AtomTokens(e, a) == AtomTokens(e, b)
    ensures a == b
  {
    hide ValueTokens, OpTokens;
    match e
    case Compare(l, op, r) =>
      ValueRest(l, OpTokens(op, ValueTokens(r, a)), OpTokens(op, ValueTokens(r, b)));
      OpRest(op, ValueTokens(r, a), ValueTokens(r, b));
      ValueRest(r, a, b);
    case LabelTest(v, name) =>
      DropOne(Word(v), [Sym(":")] + ([Word(name)] + a), [Sym(":")] + ([Word(name)] + b));
      DropOne(Sym(":"), [Word(name)] + a, [Word(name)] + b);
      DropOne(Word(name), a, b);
  }

  function Size(s: Layout): (n: nat)
    ensures n > 0
  {
    match s
    case Either(l, r) => Size(l) + Size(r) + 1
    case Both(l, r) => Size(l) + Size(r) + 1
    case Negated(x) => Size(x) + 1
    case Group(x) => Size(x) + 1
    case Atom(_) => 1
  }

  /** The layout inside its outermost parentheses, and how many there are. */
  function Core(s: Layout): (r: Layout)
    ensures !r.Group? && Meaning(r) == Meaning(s)
  {
    if s.Group? then Core(s.inner) else s
  }

  function Depth(s: Layout): nat {
    if s.Group? then Depth(s.inner) + 1 else 0
  }

  lemma {:induction false} CoreAndDepth(a: Layout, b: Layout)
    requires Core(a) == Core(b) && Depth(a) == Depth(b)
    ensures a == b
  {
    if a.Group? {
      CoreAndDepth(a.inner, b.inner);
    }
  }

  lemma {:induction false} OpensOfCore(s: Layout)
    ensures Opens(s) == Depth(s) + Opens(Core(s))
  {
    if s.Group? {
      OpensOfCore(s.inner);
    }
  }

  lemma {:induction false} SameTokensSameLayout(a: Layout, x: seq<Token>, b: Layout, y: seq<Token>)
    requires Meaning(a) == Meaning(b) && LayoutTokens(a, x) == LayoutTokens(b, y)
    ensures a == b && x == y
    decreases Size(a) + Size(b), 1
  {
    hide Meaning, LayoutTokens, Body, Opens, Core, Depth, Repeat;
    LeadingParentheses(a, x);
    LeadingParentheses(b, y);
    RepeatInjective(Sym("("), Opens(a), Opens(b), Body(a, x), Body(b, y));
    SameBodySameCore(a, x, b, y);
    OpensOfCore(a);
    OpensOfCore(b);
    CoreAndDepth(a, b);
    SameCount(Sym(")"), Depth(a), x, y);
  }

  /** Without the opening parentheses the tokens still determine all but the outermost pairs. */
  lemma {:induction false} SameBodySameCore(a: Layout, x: seq<Token>, b: Layout, y: seq<Token>)
    requires Meaning(a) == Meaning(b) && Body(a, x) == Body(b, y)
    ensures Core(a) == Core(b) && Repeat(Sym(")"), Depth(a), x) == Repeat(Sym(")"), Depth(b), y)
    decreases Size(a) + Size(b), 0
  {
    hide AtomTokens;
    if a.Group? {
      SameBodySameCore(a.inner, [Sym(")")] + x, b, y);
      RepeatLast(Sym(")"), Depth(a.inner), x);
    } else if b.Group? {
      SameBodySameCore(a, x, b.inner, [Sym(")")] + y);
      RepeatLast(Sym(")"), Depth(b.inner), y);
    } else {
      match a
      case Either(l, r) => SameOperands(Word("OR"), l, r, x, b.left, b.right, y);
      case Both(l, r) => SameOperands(Word("AND"), l, r, x, b.left, b.right, y);
      case Negated(z) =>
        DropOne(Word("NOT"), LayoutTokens(z, x), LayoutTokens(b.operand, y));
        SameTokensSameLayout(z, x, b.operand, y);
      case Atom(e) => AtomRest(e, x, y);
    }
  }

  lemma {:induction false} SameOperands(op: Token, l: Layout, r: Layout, x: seq<Token>, l': Layout, r': Layout, y: seq<Token>)
    requires op == Word("OR") || op == Word("AND")
    requires Meaning(l) == Meaning(l') && Meaning(r) == Meaning(r')
    requires Body(l, [op] + LayoutTokens(r, x)) == Body(l', [op] + LayoutTokens(r', y))
    ensures l == l' && r == r' && x == y
    decreases Size(l) + Size(r) + Size(l') + Size(r'), 0
  {
    hide Meaning, LayoutTokens, Body, Core, Depth, Repeat;
    var after, after' := [op] + LayoutTokens(r, x), [op] + LayoutTokens(r', y);
    SameBodySameCore(l, after, l', after');
    RepeatInjective(Sym(")"), Depth(l), Depth(l'), after, after');
    CoreAndDepth(l, l');
    DropOne(op, LayoutTokens(r, x), LayoutTokens(r', y));
    SameTokensSameLayout(r, x, r', y);
  }

  // ---------------------------------------------------------------- the result

  /** A layout is its own normal form exactly when its parentheses suffice. */
  lemma {:induction false} NormalOfReadable(cc: CharTables, s: Layout)
    requires Meaning(Normal(s)) == Meaning(s)
    ensures Readable(s)
  {
    hide Normal, LayoutTokens, Readable;
    NormalTokens(cc, s, []);
    SameTokensSameLayout(Normal(s), [], s, []);
  }

  /** For every bracketing: it reads back if and only if it suffices and the expression is writable. */
  lemma {:induction false} LayoutReadsBackIff(cc: CharTables, s: Layout)
    requires Tables(cc)
    ensures ReadsBack(cc, s) <==> Readable(s) && Writable(cc, Meaning(s))
  {
    hide Tables, Lex, Render, LayoutTokens, Writable, ParseOr, SameWord, Readable, Normal, Meaning;
    if Readable(s) {
      ExpressionRoundTrip(cc, s);
    }
    if ReadsBack(cc, s) {
      NormalTokens(cc, s, []);
      ExpressionRoundTrip(cc, Normal(s));
      LexedSpellable(cc, ExpressionText(s));
      OrIsWritable(cc, Lex(cc, ExpressionText(s)).value);
      NormalOfReadable(cc, s);
    }
  }

  /** No text that reads back has fewer parentheses than the sparse one, which does read back. */
  lemma {:induction false} FewestParentheses(cc: CharTables, s: Layout)
    requires Tables(cc) && ReadsBack(cc, s)
    ensures ReadsBack(cc, Sparse(Meaning(s))) && Groups(Sparse(Meaning(s))) <= Groups(s)
  {
    hide Tables, ReadsBack, Writable, Readable, Sparse, Groups;
    LayoutReadsBackIff(cc, s);
    LayoutReadsBackIff(cc, Sparse(Meaning(s)));
    SparseIsSparsest(s, 0);
  }
}
