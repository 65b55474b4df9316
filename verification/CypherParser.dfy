/** `CypherParser`: a cursor over the tokens that each method moves forward, as the grammar says. */
module CypherParsing {
  import opened Wrappers
  import opened CypherSyntax
  import opened CypherGrammar

  class CypherParser {
    const tokens: seq<Token>
    var pos: nat

    constructor (tokens: seq<Token>)
      ensures Valid() && Rest() == tokens
    {
      this.tokens := tokens;
      pos := 0;
    }

    ghost predicate Valid()
      reads this
    {
      pos <= |tokens|
    }

    /** The tokens not yet consumed. */
    ghost function Rest(): (rest: seq<Token>)
      requires Valid()
      reads this
      ensures |rest| == |tokens| - pos
    {
      tokens[pos..]
    }

    /** The outcome is the grammar's, and what it leaves is what is left. */
    ghost predicate Follows<T(!new)>(r: Option<T>, expected: Parsed<T>)
      requires Valid()
      reads this
    {
      match expected
      case Failed => r.None?
      case Done(value, rest) => r == Some(value) && Rest() == rest
    }

    method ConsumeText(text: string) returns (taken: bool)
      requires Valid()
      modifies this
      ensures Valid() && taken == AtText(old(Rest()), text)
      ensures Rest() == if taken then old(Rest())[1..] else old(Rest())
    {
      taken := pos < |tokens| && tokens[pos].text == text;
      if taken {
        pos := pos + 1;
      }
    }

    method ConsumeKeyword(word: string) returns (taken: bool)
      requires Valid()
      modifies this
      ensures Valid() && taken == AtWord(old(Rest()), word)
      ensures Rest() == if taken then old(Rest())[1..] else old(Rest())
    {
      taken := pos < |tokens| && tokens[pos].kind == Ident && SameWord(tokens[pos].text, word);
      if taken {
        pos := pos + 1;
      }
    }

    method ExpectTextHere(text: string) returns (r: Option<()>)
      requires Valid()
      modifies this
      ensures Valid() && Follows(r, ExpectText(old(Rest()), text))
    {
      var taken := ConsumeText(text);
      r := if taken then Some(()) else None;
    }

    method ExpectKeyword(word: string) returns (r: Option<()>)
      requires Valid()
      modifies this
      ensures Valid() && Follows(r, ExpectWord(old(Rest()), word))
    {
      var taken := ConsumeKeyword(word);
      r := if taken then Some(()) else None;
    }

    /** The kind of the next token, and whether the one after it has this text. */
    method Peek(text: string) returns (kind: Option<TokenKind>, followed: bool)
      requires Valid()
      ensures kind == if Rest() == [] then None else Some(Rest()[0].kind)
      ensures followed == (Rest() != [] && AtText(Rest()[1..], text))
    {
      kind := if pos < |tokens| then Some(tokens[pos].kind) else None;
      followed := pos + 1 < |tokens| && tokens[pos + 1].text == text;
    }

    method ExpectIdentifier() returns (r: Option<string>)
      requires Valid()
      modifies this
      ensures Valid() && Follows(r, ExpectIdent(old(Rest())))
    {
      if pos < |tokens| && tokens[pos].kind == Ident {
        r := Some(tokens[pos].text);
        pos := pos + 1;
      } else {
        r := None;
      }
    }

    method ExpectNumeral() returns (r: Option<nat>)
      requires Valid()
      modifies this
      ensures Valid() && Follows(r, ExpectNumber(old(Rest())))
    {
      if pos < |tokens| {
        var here := ExpectNumber([tokens[pos]]);
        if here.Done? {
          pos := pos + 1;
          return Some(here.value);
        }
      }
      r := None;
    }

    method ParseCountCall() returns (r: Option<ValueExpr>)
      requires Valid()
      modifies this
      ensures Valid() && Follows(r, ParseCount(old(Rest())))
      decreases |tokens| - pos, 0
    {
      hide SameWord, ParseValue;
      var _ :- ExpectTextHere("(");
      var star := ConsumeText("*");
      if star {
        var _ :- ExpectTextHere(")");
        return Some(CountAll);
      }
      var _ :- ExpectKeyword("DISTINCT");
      var inner :- ParseValueExpr();
      var _ :- ExpectTextHere(")");
      r := Some(CountDistinct(inner));
    }

    method ParseLabelsCall() returns (r: Option<ValueExpr>)
      requires Valid()
      modifies this
      ensures Valid() && Follows(r, ParseLabels(old(Rest())))
    {
      var _ :- ExpectTextHere("(");
      var name :- ExpectIdentifier();
      var _ :- ExpectTextHere(")");
      r := Some(Labels(name));
    }

    method ParseToIntegerCall() returns (r: Option<ValueExpr>)
      requires Valid()
      modifies this
      ensures Valid() && Follows(r, ParseToInteger(old(Rest())))
      decreases |tokens| - pos, 0
    {
      hide SameWord, ParseValue;
      var _ :- ExpectTextHere("(");
      var inner :- ParseValueExpr();
      var _ :- ExpectTextHere(")");
      r := Some(ToInteger(inner));
    }

    method ParseNameExpr() returns (r: Option<ValueExpr>)
      requires Valid()
      modifies this
      ensures Valid() && Follows(r, ParseName(old(Rest())))
    {
      var name :- ExpectIdentifier();
      var dot := ConsumeText(".");
      if dot {
        var prop :- ExpectIdentifier();
        return Some(Property(name, prop));
      }
      r := Some(Alias(name));
    }

    method ParseValueExpr() returns (r: Option<ValueExpr>)
      requires Valid()
      modifies this
      ensures Valid() && Follows(r, ParseValue(old(Rest())))
      decreases |tokens| - pos, 1
    {
      hide SameWord, ParseCount, ParseLabels, ParseToInteger, ParseName, ExpectNumber;
      var count := ConsumeKeyword("count");
      if count {
        r := ParseCountCall();
        return;
      }
      var labels := ConsumeKeyword("labels");
      if labels {
        r := ParseLabelsCall();
        return;
      }
      var toInteger := ConsumeKeyword("toInteger");
      if toInteger {
        r := ParseToIntegerCall();
        return;
      }
      if pos < |tokens| && tokens[pos].kind == Quoted {
        r := Some(Text(tokens[pos].text));
        pos := pos + 1;
        return;
      }
      if pos < |tokens| && tokens[pos].kind == Numeral {
        var n :- ExpectNumeral();
        return Some(Number(n));
      }
      r := ParseNameExpr();
    }

    method ParseOperator() returns (r: Option<CompareOp>)
      requires Valid()
      modifies this
      ensures Valid() && Follows(r, ParseOp(old(Rest())))
    {
      hide SameWord;
      var taken := ConsumeText("=");
      if taken { return Some(Eq); }
      taken := ConsumeText("<>");
      if taken { return Some(Ne); }
      taken := ConsumeText(">=");
      if taken { return Some(Gte); }
      taken := ConsumeText("<=");
      if taken { return Some(Lte); }
      taken := ConsumeText(">");
      if taken { return Some(Gt); }
      taken := ConsumeText("<");
      if taken { return Some(Lt); }
      taken := ConsumeKeyword("CONTAINS");
      if taken { return Some(Contains); }
      taken := ConsumeKeyword("STARTS");
      if taken {
        var _ :- ExpectKeyword("WITH");
        return Some(StartsWith);
      }
      r := None;
    }

    method ParseLabelTestExpr() returns (r: Option<BoolExpr>)
      requires Valid()
      modifies this
      ensures Valid() && Follows(r, ParseLabelTest(old(Rest())))
    {
      var v :- ExpectIdentifier();
      var _ :- ExpectTextHere(":");
      var name :- ExpectIdentifier();
      r := Some(LabelTest(v, name));
    }

    method ParseComparisonExpr() returns (r: Option<BoolExpr>)
      requires Valid()
      modifies this
      ensures Valid() && Follows(r, ParseComparison(old(Rest())))
    {
      hide ParseValue, ParseOp;
      var lhs :- ParseValueExpr();
      var op :- ParseOperator();
      var rhs :- ParseValueExpr();
      r := Some(Compare(lhs, op, rhs));
    }

    method ParseAtomExpr() returns (r: Option<BoolExpr>)
      requires Valid()
      modifies this
      ensures Valid() && Follows(r, ParseAtom(old(Rest())))
      decreases |tokens| - pos, 0
    {
      hide ParseOr, ParseLabelTest, ParseComparison;
      var open := ConsumeText("(");
      if open {
        var inner :- ParseOrExpr();
        var _ :- ExpectTextHere(")");
        return Some(inner);
      }
      var kind, followed := Peek(":");
      if kind == Some(Ident) && followed {
        r := ParseLabelTestExpr();
      } else {
        r := ParseComparisonExpr();
      }
    }

    method ParseNotExpr() returns (r: Option<BoolExpr>)
      requires Valid()
      modifies this
      ensures Valid() && Follows(r, ParseNot(old(Rest())))
      decreases |tokens| - pos, 1
    {
      hide SameWord, ParseAtom;
      var negated := ConsumeKeyword("NOT");
      if negated {
        var inner :- ParseNotExpr();
        return Some(Not(inner));
      }
      r := ParseAtomExpr();
    }

    method ParseAndExpr() returns (r: Option<BoolExpr>)
      requires Valid()
      modifies this
      ensures Valid() && Follows(r, ParseAnd(old(Rest())))
      decreases |tokens| - pos, 2
    {
      hide SameWord, ParseNot;
      var expr :- ParseNotExpr();
      while true
        invariant Valid() && pos > old(pos)
        invariant ParseAnd(old(Rest())) == AndLoop(expr, Rest())
        decreases |tokens| - pos
      {
        var more := ConsumeKeyword("AND");
        if !more {
          break;
        }
        var right :- ParseNotExpr();
        expr := And(expr, right);
      }
      r := Some(expr);
    }

    method ParseOrExpr() returns (r: Option<BoolExpr>)
      requires Valid()
      modifies this
      ensures Valid() && Follows(r, ParseOr(old(Rest())))
      decreases |tokens| - pos, 3
    {
      hide SameWord, ParseAnd;
      var expr :- ParseAndExpr();
      while true
        invariant Valid() && pos > old(pos)
        invariant ParseOr(old(Rest())) == OrLoop(expr, Rest())
        decreases |tokens| - pos
      {
        var more := ConsumeKeyword("OR");
        if !more {
          break;
        }
        var right :- ParseAndExpr();
        expr := Or(expr, right);
      }
      r := Some(expr);
    }

    method ParseSelectItem() returns (r: Option<SelectItem>)
      requires Valid()
      modifies this
      ensures Valid() && Follows(r, ParseItem(old(Rest())))
    {
      hide SameWord, ParseValue;
      var e :- ParseValueExpr();
      var named := ConsumeKeyword("AS");
      if named {
        var name :- ExpectIdentifier();
        return Some(SelectItem(e, name));
      }
      r := Some(SelectItem(e, DefaultAlias(e)));
    }

    method ParseProjectionUntil(stops: seq<string>) returns (r: Option<Projection>)
      requires Valid()
      modifies this
      ensures Valid() && Follows(r, ParseProjection(old(Rest()), stops))
    {
      hide SameWord, ParseItem;
      var distinct := ConsumeKeyword("DISTINCT");
      var items: seq<SelectItem> := [];
      ghost var start := Rest();
      while true
        invariant Valid()
        invariant ItemsLoop([], start, stops) == ItemsLoop(items, Rest(), stops)
        decreases |tokens| - pos
      {
        var item :- ParseSelectItem();
        var comma := ConsumeText(",");
        if !comma {
          var stop := AtStop(tokens[pos..], stops);
          if stop {
            return Some(Projection(distinct, items + [item]));
          }
          return None;
        }
        items := items + [item];
      }
    }

    method ParseNodeLabel() returns (r: Option<Option<string>>)
      requires Valid()
      modifies this
      ensures Valid() && Follows(r, ParseLabel(old(Rest())))
    {
      var colon := ConsumeText(":");
      if colon {
        var name :- ExpectIdentifier();
        return Some(Some(name));
      }
      r := Some(None);
    }

    method ParseNodePattern() returns (r: Option<(string, Option<string>)>)
      requires Valid()
      modifies this
      ensures Valid() && Follows(r, ParseNode(old(Rest())))
    {
      hide ParseLabel;
      var _ :- ExpectTextHere("(");
      var v :- ExpectIdentifier();
      var name :- ParseNodeLabel();
      var _ :- ExpectTextHere(")");
      r := Some((v, name));
    }

    method ParseRelationshipPattern() returns (r: Option<(Option<string>, string)>)
      requires Valid()
      modifies this
      ensures Valid() && Follows(r, ParseRelationship(old(Rest())))
    {
      hide ParseRelationshipType;
      var _ :- ExpectTextHere("-");
      var _ :- ExpectTextHere("[");
      var v: Option<string> := None;
      var kind, followed := Peek(":");
      if kind == Some(Ident) && followed {
        v := ExpectIdentifier();
      }
      var name :- ParseTypeAndArrow();
      r := Some((v, name));
    }

    method ParseTypeAndArrow() returns (r: Option<string>)
      requires Valid()
      modifies this
      ensures Valid() && Follows(r, ParseRelationshipType(old(Rest())))
    {
      var _ :- ExpectTextHere(":");
      var star := ConsumeText("*");
      if star {
        return None;
      }
      var name :- ExpectIdentifier();
      var bar := ConsumeText("|");
      if bar {
        return None;
      }
      var _ :- ExpectTextHere("]");
      var reversed := ConsumeText("<-");
      if reversed {
        return None;
      }
      var _ :- ExpectTextHere("->");
      r := Some(name);
    }

    method ParseMatchPattern() returns (r: Option<Pattern>)
      requires Valid()
      modifies this
      ensures Valid() && Follows(r, ParsePattern(old(Rest())))
    {
      hide ParseNode, ParseRelationship;
      var kind, followed := Peek("=");
      if kind == Some(Ident) && followed {
        return None;
      }
      var left :- ParseNodePattern();
      var rel :- ParseRelationshipPattern();
      var right :- ParseNodePattern();
      r := Some(Pattern(left.0, left.1, rel.0, rel.1, right.0, right.1));
    }

    method ParseAtClause() returns (r: Option<Option<string>>)
      requires Valid()
      modifies this
      ensures Valid() && Follows(r, ParseAt(old(Rest())))
    {
      hide SameWord;
      var present := ConsumeKeyword("AS");
      if !present {
        return Some(None);
      }
      var _ :- ExpectKeyword("OF");
      if pos < |tokens| && (tokens[pos].kind == Quoted || tokens[pos].kind == Ident) {
        r := Some(Some(tokens[pos].text));
        pos := pos + 1;
      } else {
        r := None;
      }
    }

    method ParseWhereClause() returns (r: Option<Option<BoolExpr>>)
      requires Valid()
      modifies this
      ensures Valid() && Follows(r, ParseWhere(old(Rest())))
    {
      hide SameWord, ParseOr;
      var present := ConsumeKeyword("WHERE");
      if !present {
        return Some(None);
      }
      var e :- ParseOrExpr();
      r := Some(Some(e));
    }

    method ParseWithClause() returns (r: Option<Option<Projection>>)
      requires Valid()
      modifies this
      ensures Valid() && Follows(r, ParseWith(old(Rest())))
    {
      hide SameWord, ParseProjection;
      var present := ConsumeKeyword("WITH");
      if !present {
        return Some(None);
      }
      var p :- ParseProjectionUntil(["RETURN"]);
      r := Some(Some(p));
    }

    method ParseOrderClause() returns (r: Option<Option<OrderBy>>)
      requires Valid()
      modifies this
      ensures Valid() && Follows(r, ParseOrder(old(Rest())))
    {
      hide SameWord;
      var present := ConsumeKeyword("ORDER");
      if !present {
        return Some(None);
      }
      var _ :- ExpectKeyword("BY");
      var key :- ExpectIdentifier();
      var descending := ConsumeKeyword("DESC");
      if !descending {
        var _ := ConsumeKeyword("ASC");
      }
      r := Some(Some(OrderBy(key, descending)));
    }

    method ParseLimitClause() returns (r: Option<Option<nat>>)
      requires Valid()
      modifies this
      ensures Valid() && Follows(r, ParseLimit(old(Rest())))
    {
      hide SameWord, ExpectNumber;
      var present := ConsumeKeyword("LIMIT");
      if !present {
        return Some(None);
      }
      var n :- ExpectNumeral();
      r := Some(Some(n));
    }

    method ParseAll() returns (r: Option<Query>)
      requires Valid()
      modifies this
      ensures r == ParseQuery(old(Rest()))
    {
      hide SameWord, ParseAt, ParsePattern, ParseWhere, ParseWith, ParseProjection, ParseOrder, ParseLimit, ExpectWord;
      var at :- ParseAtClause();
      var _ :- ExpectKeyword("MATCH");
      var pattern :- ParseMatchPattern();
      var filter :- ParseWhereClause();
      var carried :- ParseWithClause();
      var _ :- ExpectKeyword("RETURN");
      var returned :- ParseProjectionUntil(["ORDER", "LIMIT"]);
      var order :- ParseOrderClause();
      var limit :- ParseLimitClause();
      if pos < |tokens| {
        return None;
      }
      r := Some(Query(at, pattern, filter, carried, returned, order, limit));
    }
  }
}
