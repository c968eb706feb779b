/** What the grammar of parser.cpp promises, stated over module ParserSpec.
    Every lemma holds for either node family, so it covers the base parser
    and its copy in app/codegen.cpp alike. */
module ParserProperties {
  import opened TokenKinds
  import opened Ast
  import opened ParserSpec

  // -----------------------------------------------------------------------
  // GetTokPrecedence and the table

  /** The special tags are never operators: their precedence is -1. */
  lemma SpecialTokensHaveNoPrecedence(table: map<char, int>, t: Token)
    requires !t.Char?
    ensures TokPrecedence(table, t) == -1
  {
    SpecialTagsDistinctNegative();
  }

  /** The 0 entry operator[] inserts changes no later answer of
      GetTokPrecedence, no entry already in the table, and not the set of
      declared operators. */
  lemma LookupChangesNoPrecedence(table: map<char, int>, t: Token, u: Token)
    ensures TokPrecedence(AfterLookup(table, t), u) == TokPrecedence(table, u)
    ensures forall c :: c in table ==> AfterLookup(table, t)[c] == table[c]
    ensures Declared(AfterLookup(table, t)) == Declared(table)
  {
    var after := AfterLookup(table, t);
    if u.Char? {
      assert Lookup(after, u.c) == Lookup(table, u.c);
    }
  }

  // -----------------------------------------------------------------------
  // Primary expressions

  /** A number followed by anything but an operator is a whole expression
      of one token. */
  lemma NumberAlone(fam: Family, ops: map<char, int>, toks: seq<Token>, pos: nat)
    requires pos < |toks| && toks[pos].Number?
    requires TokPrecedence(ops, Cur(toks, pos + 1)) < 0
    ensures ParseExpression(fam, ops, toks, pos) == Ok(NumberExpr(fam, toks[pos].lexeme), pos + 1)
  {
    assert ParsePrimary(fam, ops, toks, pos) == Ok(NumberExpr(fam, toks[pos].lexeme), pos + 1);
  }

  /** A parenthesised expression is its inner expression, with no node of
      its own; without the ')' it fails there with "expected ')'". */
  lemma ParenUnwraps(fam: Family, ops: map<char, int>, toks: seq<Token>, pos: nat)
    requires pos <= |toks| && Cur(toks, pos) == Char('(')
    ensures var inner, r := ParseExpression(fam, ops, toks, pos + 1), ParseParenExpr(fam, ops, toks, pos);
            && (inner.Fail? ==> r == inner)
            && (inner.Ok? && Cur(toks, inner.next) == Char(')') ==> r == Ok(inner.value, inner.next + 1))
            && (inner.Ok? && Cur(toks, inner.next) != Char(')') ==> r == Fail(ExpectedCloseParen, inner.next))
  {
  }

  /** An identifier not followed by '(' is a variable reference of one
      token; followed by "()" it is a call with no arguments. */
  lemma IdentifierForms(fam: Family, ops: map<char, int>, toks: seq<Token>, pos: nat)
    requires pos < |toks| && toks[pos].Identifier?
    ensures Cur(toks, pos + 1) != Char('(') ==>
              ParseIdentifierExpr(fam, ops, toks, pos) == Ok(VariableExpr(fam, toks[pos].name), pos + 1)
    ensures Cur(toks, pos + 1) == Char('(') && Cur(toks, pos + 2) == Char(')') ==>
              ParseIdentifierExpr(fam, ops, toks, pos) == Ok(CallExpr(fam, toks[pos].name, []), pos + 3)
  {
  }

  // -----------------------------------------------------------------------
  // Call arguments

  /** args ::= expression (',' expression)* ')', read right-recursively:
      the arguments from pos on, first one first. */
  function ArgList(fam: Family, ops: map<char, int>, toks: seq<Token>, pos: nat): (r: Parsed<seq<Expr>>)
    requires pos <= |toks|
    ensures pos <= r.End() <= |toks|
    ensures r.Ok? ==> |r.value| > 0 && Cur(toks, r.next) == Char(')')
    decreases |toks| - pos
  {
    var arg := ParseExpression(fam, ops, toks, pos);
    if arg.Fail? then Fail(arg.error, arg.at)
    else if Cur(toks, arg.next) == Char(')') then Ok([arg.value], arg.next)
    else if Cur(toks, arg.next) != Char(',') then Fail(ExpectedCloseOrComma, arg.next)
    else
      var rest := ArgList(fam, ops, toks, arg.next + 1);
      if rest.Fail? then rest else Ok([arg.value] + rest.value, rest.next)
  }

  /** The arguments parsed so far, then those of r. */
  function Prepend(acc: seq<Expr>, r: Parsed<seq<Expr>>): (s: Parsed<seq<Expr>>)
    ensures s.Ok? == r.Ok? && s.End() == r.End()
    ensures s.Ok? ==> s.value == acc + r.value
  {
    if r.Ok? then Ok(acc + r.value, r.next) else r
  }

  /** The argument loop, which pushes each argument onto a vector, collects
      the arguments in source order: what it returns is the arguments
      already collected followed by the list right-recursion gives. */
  lemma {:induction false} ArgsInOrder(fam: Family, ops: map<char, int>, toks: seq<Token>, pos: nat, acc: seq<Expr>)
    requires pos <= |toks|
    ensures ParseArgs(fam, ops, toks, pos, acc) == Prepend(acc, ArgList(fam, ops, toks, pos))
    decreases |toks| - pos
  {
    var arg := ParseExpression(fam, ops, toks, pos);
    if arg.Ok? && Cur(toks, arg.next) == Char(',') {
      ArgsInOrder(fam, ops, toks, arg.next + 1, acc + [arg.value]);
      ArgsCommaStep(fam, ops, toks, pos, acc);
    } else {
      ArgsLastStep(fam, ops, toks, pos, acc);
    }
  }

  lemma ArgsLastStep(fam: Family, ops: map<char, int>, toks: seq<Token>, pos: nat, acc: seq<Expr>)
    requires pos <= |toks|
    requires var arg := ParseExpression(fam, ops, toks, pos);
      !(arg.Ok? && Cur(toks, arg.next) == Char(','))
    ensures ParseArgs(fam, ops, toks, pos, acc) == Prepend(acc, ArgList(fam, ops, toks, pos))
  {
  }

  lemma ArgsCommaStep(fam: Family, ops: map<char, int>, toks: seq<Token>, pos: nat, acc: seq<Expr>)
    requires pos <= |toks|
    requires var arg := ParseExpression(fam, ops, toks, pos);
      && arg.Ok? && Cur(toks, arg.next) == Char(',')
      && ParseArgs(fam, ops, toks, arg.next + 1, acc + [arg.value])
         == Prepend(acc + [arg.value], ArgList(fam, ops, toks, arg.next + 1))
    ensures ParseArgs(fam, ops, toks, pos, acc) == Prepend(acc, ArgList(fam, ops, toks, pos))
  {
    var arg := ParseExpression(fam, ops, toks, pos);
    var rest := ArgList(fam, ops, toks, arg.next + 1);
    if rest.Ok? {
      ConcatAssociates(acc, [arg.value], rest.value);
    }
  }

  lemma ConcatAssociates<T>(a: seq<T>, b: seq<T>, c: seq<T>)
    ensures (a + b) + c == a + (b + c)
  {
  }

  /** A call with arguments holds exactly the argument list, in order; it
      fails where the list fails, and otherwise eats the closing ')'. */
  lemma CallArguments(fam: Family, ops: map<char, int>, toks: seq<Token>, pos: nat)
    requires pos < |toks| && toks[pos].Identifier?
    requires Cur(toks, pos + 1) == Char('(') && Cur(toks, pos + 2) != Char(')')
    ensures var r, args := ParseIdentifierExpr(fam, ops, toks, pos), ArgList(fam, ops, toks, pos + 2);
            && r.Ok? == args.Ok?
            && (args.Ok? ==> r == Ok(CallExpr(fam, toks[pos].name, args.value), args.next + 1))
            && (args.Fail? ==> r == Fail(args.error, args.at))
  {
    ArgsInOrder(fam, ops, toks, pos + 2, []);
    var args := ArgList(fam, ops, toks, pos + 2);
    if args.Ok? {
      assert [] + args.value == args.value;
    }
  }

  // -----------------------------------------------------------------------
  // Binary operators

  /** Of two operators around three numbers, a following operator that does
      not bind tighter closes the first: a o1 b o2 c is (a o1 b) o2 c.  With
      equal precedences this is left associativity. */
  lemma LooserOrEqualAssociatesLeft(fam: Family, ops: map<char, int>, a: string, o1: char, b: string, o2: char, c: string)
    requires 0 < TokPrecedence(ops, Char(o2)) <= TokPrecedence(ops, Char(o1))
    ensures var toks := [Number(a), Char(o1), Number(b), Char(o2), Number(c)];
            ParseExpression(fam, ops, toks, 0)
            == Ok(BinaryExpr(fam, o2, BinaryExpr(fam, o1, NumberExpr(fam, a), NumberExpr(fam, b)), NumberExpr(fam, c)), 5)
  {
    var toks := [Number(a), Char(o1), Number(b), Char(o2), Number(c)];
    var left := BinaryExpr(fam, o1, NumberExpr(fam, a), NumberExpr(fam, b));
    var whole := BinaryExpr(fam, o2, left, NumberExpr(fam, c));
    assert ParsePrimary(fam, ops, toks, 0) == Ok(NumberExpr(fam, a), 1);
    assert ParsePrimary(fam, ops, toks, 2) == Ok(NumberExpr(fam, b), 3);
    assert ParsePrimary(fam, ops, toks, 4) == Ok(NumberExpr(fam, c), 5);
    assert ClimbRound(fam, ops, toks, 1, NumberExpr(fam, a)) == Ok(left, 3);
    assert ClimbRound(fam, ops, toks, 3, left) == Ok(whole, 5);
    assert ParseBinOpRHS(fam, ops, toks, 3, 0, left) == Ok(whole, 5);
  }

  /** A following operator that binds strictly tighter takes the middle
      operand: a o1 b o2 c is a o1 (b o2 c). */
  lemma TighterNestsRight(fam: Family, ops: map<char, int>, a: string, o1: char, b: string, o2: char, c: string)
    requires 0 < TokPrecedence(ops, Char(o1)) < TokPrecedence(ops, Char(o2))
    ensures var toks := [Number(a), Char(o1), Number(b), Char(o2), Number(c)];
            ParseExpression(fam, ops, toks, 0)
            == Ok(BinaryExpr(fam, o1, NumberExpr(fam, a), BinaryExpr(fam, o2, NumberExpr(fam, b), NumberExpr(fam, c))), 5)
  {
    var toks := [Number(a), Char(o1), Number(b), Char(o2), Number(c)];
    var p1 := TokPrecedence(ops, Char(o1));
    var right := BinaryExpr(fam, o2, NumberExpr(fam, b), NumberExpr(fam, c));
    var whole := BinaryExpr(fam, o1, NumberExpr(fam, a), right);
    assert ParsePrimary(fam, ops, toks, 0) == Ok(NumberExpr(fam, a), 1);
    assert ParsePrimary(fam, ops, toks, 2) == Ok(NumberExpr(fam, b), 3);
    assert ParsePrimary(fam, ops, toks, 4) == Ok(NumberExpr(fam, c), 5);
    assert ClimbRound(fam, ops, toks, 3, NumberExpr(fam, b)) == Ok(right, 5);
    assert ParseBinOpRHS(fam, ops, toks, 3, p1 + 1, NumberExpr(fam, b)) == Ok(right, 5);
    assert ClimbRound(fam, ops, toks, 1, NumberExpr(fam, a)) == Ok(whole, 5);
  }

  /** A round whose right operand is not followed by a tighter operator
      merges the operator with lhs and that operand, and the loop goes on
      from there with the merged node, for any operands and whatever
      follows. */
  lemma FlatRound(fam: Family, ops: map<char, int>, toks: seq<Token>, pos: nat, exprPrec: int, lhs: Expr, rhs: Expr, next: nat)
    requires pos < |toks| && toks[pos].Char? && 0 <= exprPrec <= TokPrecedence(ops, toks[pos])
    requires ParsePrimary(fam, ops, toks, pos + 1) == Ok(rhs, next)
    requires TokPrecedence(ops, Cur(toks, next)) <= TokPrecedence(ops, toks[pos])
    ensures ParseBinOpRHS(fam, ops, toks, pos, exprPrec, lhs)
         == ParseBinOpRHS(fam, ops, toks, next, exprPrec, BinaryExpr(fam, toks[pos].c, lhs, rhs))
  {
    assert ClimbRound(fam, ops, toks, pos, lhs) == Ok(BinaryExpr(fam, toks[pos].c, lhs, rhs), next);
  }

  /** A round whose right operand b is followed by a strictly tighter
      operator o2 and its operand c, and then by nothing tighter than the
      first operator, nests: lhs o1 (b o2 c), and the loop goes on after c.
      The operands are any primaries and anything may follow. */
  lemma TighterRound(fam: Family, ops: map<char, int>, toks: seq<Token>, pos: nat, exprPrec: int,
                     lhs: Expr, b: Expr, mid: nat, c: Expr, next: nat)
    requires pos < |toks| && toks[pos].Char? && 0 <= exprPrec <= TokPrecedence(ops, toks[pos])
    requires ParsePrimary(fam, ops, toks, pos + 1) == Ok(b, mid)
    requires mid < |toks| && toks[mid].Char? && TokPrecedence(ops, toks[pos]) < TokPrecedence(ops, toks[mid])
    requires ParsePrimary(fam, ops, toks, mid + 1) == Ok(c, next)
    requires TokPrecedence(ops, Cur(toks, next)) <= TokPrecedence(ops, toks[pos])
    ensures ParseBinOpRHS(fam, ops, toks, pos, exprPrec, lhs)
         == ParseBinOpRHS(fam, ops, toks, next, exprPrec,
                          BinaryExpr(fam, toks[pos].c, lhs, BinaryExpr(fam, toks[mid].c, b, c)))
  {
    var p1 := TokPrecedence(ops, toks[pos]);
    var inner := BinaryExpr(fam, toks[mid].c, b, c);
    FlatRound(fam, ops, toks, mid, p1 + 1, b, c, next);
    assert ParseBinOpRHS(fam, ops, toks, next, p1 + 1, inner) == Ok(inner, next);
    assert ClimbRound(fam, ops, toks, pos, lhs) == Ok(BinaryExpr(fam, toks[pos].c, lhs, inner), next);
  }

  /** The chain o1 e1 o2 e2 ... starting at pos, all of whose operators
      have precedence prec: operator i is os[i], and the primary after it is
      es[i], which ends at ends[i], where the next operator stands. */
  ghost predicate EqualChain(fam: Family, ops: map<char, int>, toks: seq<Token>, pos: nat, prec: int,
                             os: seq<char>, es: seq<Expr>, ends: seq<nat>)
    requires pos <= |toks|
    decreases |os|
  {
    && |os| == |es| == |ends|
    && ChainEnd(pos, ends) <= |toks|
    && (|os| > 0 ==>
          && pos < |toks| && toks[pos] == Char(os[0]) && TokPrecedence(ops, Char(os[0])) == prec
          && ParsePrimary(fam, ops, toks, pos + 1) == Ok(es[0], ends[0])
          && EqualChain(fam, ops, toks, ends[0], prec, os[1..], es[1..], ends[1..]))
  }

  /** Where a chain ends: after its last operand. */
  function ChainEnd(pos: nat, ends: seq<nat>): nat {
    if ends == [] then pos else ends[|ends| - 1]
  }

  /** lhs o1 e1 o2 e2 ... on en grouped from the left: the last operator is
      the root, and its left operand is the rest grouped likewise. */
  function FoldLeft(fam: Family, lhs: Expr, os: seq<char>, es: seq<Expr>): Expr
    requires |os| == |es|
    decreases |os|
  {
    if os == [] then lhs
    else BinaryExpr(fam, os[|os| - 1], FoldLeft(fam, lhs, os[..|os| - 1], es[..|es| - 1]), es[|es| - 1])
  }

  /** Merging the first operand into lhs and folding the rest is the fold. */
  lemma {:induction false} FoldLeftFront(fam: Family, lhs: Expr, os: seq<char>, es: seq<Expr>)
    requires |os| == |es| && os != []
    ensures FoldLeft(fam, BinaryExpr(fam, os[0], lhs, es[0]), os[1..], es[1..]) == FoldLeft(fam, lhs, os, es)
    decreases |os|
  {
    var n := |os|;
    if n > 1 {
      FoldLeftFront(fam, lhs, os[..n - 1], es[..n - 1]);
      assert os[1..][..n - 2] == os[..n - 1][1..];
      assert es[1..][..n - 2] == es[..n - 1][1..];
    }
  }

  /** The climbing loop folds a chain of operators of one precedence from
      the left, whatever the operands, and goes on after the chain with the
      folded node, when the token after the chain is weaker. */
  lemma {:induction false} EqualChainFoldsLeft(fam: Family, ops: map<char, int>, toks: seq<Token>, pos: nat, exprPrec: int,
                                               lhs: Expr, prec: int, os: seq<char>, es: seq<Expr>, ends: seq<nat>)
    requires pos <= |toks| && 0 <= exprPrec <= prec
    requires EqualChain(fam, ops, toks, pos, prec, os, es, ends)
    requires TokPrecedence(ops, Cur(toks, ChainEnd(pos, ends))) < prec
    ensures ParseBinOpRHS(fam, ops, toks, pos, exprPrec, lhs)
         == ParseBinOpRHS(fam, ops, toks, ChainEnd(pos, ends), exprPrec, FoldLeft(fam, lhs, os, es))
    decreases |os|
  {
    if os != [] {
      var merged := BinaryExpr(fam, os[0], lhs, es[0]);
      assert ChainEnd(ends[0], ends[1..]) == ChainEnd(pos, ends);
      FlatRound(fam, ops, toks, pos, exprPrec, lhs, es[0], ends[0]);
      EqualChainFoldsLeft(fam, ops, toks, ends[0], exprPrec, merged, prec, os[1..], es[1..], ends[1..]);
      FoldLeftFront(fam, lhs, os, es);
    }
  }

  /** An expression p0 o1 p1 ... on pn whose operators share one precedence
      and which is followed by a weaker token is grouped from the left: no
      operand is lost or reordered.  When no operator follows, that is the
      whole expression. */
  lemma EqualPrecedenceAssociatesLeft(fam: Family, ops: map<char, int>, toks: seq<Token>, pos: nat, first: Expr, start: nat,
                                      prec: int, os: seq<char>, es: seq<Expr>, ends: seq<nat>)
    requires pos <= |toks| && 0 < prec
    requires ParsePrimary(fam, ops, toks, pos) == Ok(first, start)
    requires EqualChain(fam, ops, toks, start, prec, os, es, ends)
    requires TokPrecedence(ops, Cur(toks, ChainEnd(start, ends))) < prec
    ensures ParseExpression(fam, ops, toks, pos)
         == ParseBinOpRHS(fam, ops, toks, ChainEnd(start, ends), 0, FoldLeft(fam, first, os, es))
    ensures TokPrecedence(ops, Cur(toks, ChainEnd(start, ends))) < 0 ==>
              ParseExpression(fam, ops, toks, pos) == Ok(FoldLeft(fam, first, os, es), ChainEnd(start, ends))
  {
    EqualChainFoldsLeft(fam, ops, toks, start, 0, first, prec, os, es, ends);
  }

  /** Whatever ParseBinOpRHS returns ends before an operator weaker than
      exprPrec, and a call whose current operator is already weaker returns
      its lhs without eating anything. */
  lemma BinOpRHSStopsBelow(fam: Family, ops: map<char, int>, toks: seq<Token>, pos: nat, exprPrec: int, lhs: Expr)
    requires pos <= |toks| && exprPrec >= 0
    ensures var r := ParseBinOpRHS(fam, ops, toks, pos, exprPrec, lhs);
            && (TokPrecedence(ops, Cur(toks, pos)) < exprPrec <==> r == Ok(lhs, pos))
            && (r.Ok? ==> TokPrecedence(ops, Cur(toks, r.next)) < exprPrec)
  {
  }

  // -----------------------------------------------------------------------
  // Prototypes and top-level constructs

  /** The argument names are the identifiers read one by one, in order. */
  lemma {:induction false} ArgNamesInOrder(toks: seq<Token>, pos: nat)
    requires pos <= |toks|
    ensures var names := ArgNames(toks, pos);
            forall i :: 0 <= i < |names| ==> toks[pos + i] == Identifier(names[i])
    decreases |toks| - pos
  {
    if Cur(toks, pos).Identifier? {
      ArgNamesInOrder(toks, pos + 1);
      var names := ArgNames(toks, pos);
      forall i | 0 <= i < |names|
        ensures toks[pos + i] == Identifier(names[i])
      {
        if i > 0 {
          assert names[i] == ArgNames(toks, pos + 1)[i - 1];
        }
      }
    }
  }

  /** A prototype fails with one of three distinct messages, where the name,
      the '(' or the ')' is missing; otherwise it takes every identifier
      between the parentheses, in order, duplicates included, and eats the
      ')'; the prototype's arity is the number of tokens between the
      parentheses, and getName gives back the identifier. */
  lemma PrototypeCases(fam: Family, toks: seq<Token>, pos: nat)
    requires pos <= |toks|
    ensures var r := ParsePrototype(fam, toks, pos);
            && (!Cur(toks, pos).Identifier? ==> r == Fail(ExpectedFunctionName, pos))
            && (Cur(toks, pos).Identifier? && Cur(toks, pos + 1) != Char('(') ==>
                  r == Fail(ExpectedOpenParenInProto, pos + 1))
            && (Cur(toks, pos).Identifier? && Cur(toks, pos + 1) == Char('(') ==>
                  var names := ArgNames(toks, pos + 2);
                  var close := pos + 2 + |names|;
                  && (Cur(toks, close) != Char(')') ==> r == Fail(ExpectedCloseParenInProto, close))
                  && (Cur(toks, close) == Char(')') ==>
                        && r == Ok(Prototype(fam, toks[pos].name, names), close + 1)
                        && GetName(r.value) == toks[pos].name
                        && Arity(r.value) == close - (pos + 2)
                        && (forall i :: 0 <= i < |names| ==> toks[pos + 2 + i] == Identifier(names[i]))))
  {
    if Cur(toks, pos).Identifier? && Cur(toks, pos + 1) == Char('(') {
      ArgNamesInOrder(toks, pos + 2);
    }
  }

  /** ParseDefinition and ParseExtern eat their keyword before the prototype;
      a definition's body is the expression after the prototype. */
  lemma KeywordIsEatenFirst(fam: Family, ops: map<char, int>, toks: seq<Token>, pos: nat)
    requires pos < |toks|
    ensures ParseExtern(fam, toks, pos) == ParsePrototype(fam, toks, pos + 1)
    ensures var proto, r := ParsePrototype(fam, toks, pos + 1), ParseDefinition(fam, ops, toks, pos);
            && (proto.Fail? ==> r == Fail(proto.error, proto.at))
            && (proto.Ok? ==>
                  var body := ParseExpression(fam, ops, toks, proto.next);
                  && (body.Fail? ==> r == Fail(body.error, body.at))
                  && (body.Ok? ==> r == Ok(Function(fam, proto.value, body.value), body.next)))
  {
  }

  /** A top-level expression becomes a function of no arguments named
      __anon_expr whose body is the expression. */
  lemma TopLevelIsAnonymous(fam: Family, ops: map<char, int>, toks: seq<Token>, pos: nat)
    requires pos <= |toks|
    ensures var e, r := ParseExpression(fam, ops, toks, pos), ParseTopLevelExpr(fam, ops, toks, pos);
            && r.Ok? == e.Ok? && r.End() == e.End()
            && (r.Ok? ==> && r.value.proto == Prototype(fam, "__anon_expr", []) && r.value.body == e.value
                          && GetName(r.value.proto) == "__anon_expr" && Arity(r.value.proto) == 0)
  {
  }
}
