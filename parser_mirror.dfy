/** The parser of parser.cpp and its copy in app/codegen.cpp accept the same
    language in the same way: for every token stream and every precedence
    table, the grammar run for one node family gives what the grammar run
    for another gives, with the tree relabelled.  So the two copies stop at
    the same token, fail with the same message at the same place, and build
    trees of the same shape; they differ only in the classes of the nodes. */
module ParserMirror {
  import opened Wrappers
  import opened TokenKinds
  import opened Ast
  import opened ParserSpec

  /** A parse result with its tree rebuilt from the classes of family fam. */
  function RelabelParsed(r: Parsed<Expr>, fam: Family): (s: Parsed<Expr>)
    ensures s.Ok? == r.Ok? && s.End() == r.End() && s.Logged() == r.Logged()
    ensures s.Ok? ==> s.value == Relabel(r.value, fam) && InFamily(s.value, fam)
  {
    match r
    case Ok(v, next) => Ok(Relabel(v, fam), next)
    case Fail(e, at) => Fail(e, at)
  }

  function RelabelParsedArgs(r: Parsed<seq<Expr>>, fam: Family): (s: Parsed<seq<Expr>>)
    ensures s.Ok? == r.Ok? && s.End() == r.End() && s.Logged() == r.Logged()
    ensures s.Ok? ==> s.value == RelabelAll(r.value, fam)
  {
    match r
    case Ok(v, next) => Ok(RelabelAll(v, fam), next)
    case Fail(e, at) => Fail(e, at)
  }

  function RelabelParsedProto(r: Parsed<Prototype>, fam: Family): (s: Parsed<Prototype>)
    ensures s.Ok? == r.Ok? && s.End() == r.End() && s.Logged() == r.Logged()
    ensures s.Ok? ==> s.value == RelabelProto(r.value, fam)
  {
    match r
    case Ok(v, next) => Ok(RelabelProto(v, fam), next)
    case Fail(e, at) => Fail(e, at)
  }

  function RelabelParsedFunction(r: Parsed<Function>, fam: Family): (s: Parsed<Function>)
    ensures s.Ok? == r.Ok? && s.End() == r.End() && s.Logged() == r.Logged()
    ensures s.Ok? ==> s.value == RelabelFunction(r.value, fam)
  {
    match r
    case Ok(v, next) => Ok(RelabelFunction(v, fam), next)
    case Fail(e, at) => Fail(e, at)
  }

  // -----------------------------------------------------------------------
  // Expressions, by simultaneous induction over the grammar

  lemma {:induction false} ParenMirror(f1: Family, f2: Family, ops: map<char, int>, toks: seq<Token>, pos: nat)
    requires pos <= |toks| && Cur(toks, pos) == Char('(')
    ensures ParseParenExpr(f2, ops, toks, pos) == RelabelParsed(ParseParenExpr(f1, ops, toks, pos), f2)
    decreases |toks| - pos, 2
  {
    ExpressionMirror(f1, f2, ops, toks, pos + 1);
  }

  lemma {:induction false} IdentifierMirror(f1: Family, f2: Family, ops: map<char, int>, toks: seq<Token>, pos: nat)
    requires pos <= |toks| && Cur(toks, pos).Identifier?
    ensures ParseIdentifierExpr(f2, ops, toks, pos) == RelabelParsed(ParseIdentifierExpr(f1, ops, toks, pos), f2)
    decreases |toks| - pos, 2
  {
    if Cur(toks, pos + 1) == Char('(') && Cur(toks, pos + 2) != Char(')') {
      ArgsMirror(f1, f2, ops, toks, pos + 2, []);
      CallMirror(f1, f2, ops, toks, pos);
    }
  }

  /** A call with arguments, given that the argument list parses alike. */
  lemma CallMirror(f1: Family, f2: Family, ops: map<char, int>, toks: seq<Token>, pos: nat)
    requires pos <= |toks| && Cur(toks, pos).Identifier?
    requires Cur(toks, pos + 1) == Char('(') && Cur(toks, pos + 2) != Char(')')
    requires ParseArgs(f2, ops, toks, pos + 2, []) == RelabelParsedArgs(ParseArgs(f1, ops, toks, pos + 2, []), f2)
    ensures ParseIdentifierExpr(f2, ops, toks, pos) == RelabelParsed(ParseIdentifierExpr(f1, ops, toks, pos), f2)
  {
  }

  lemma {:induction false} ArgsMirror(f1: Family, f2: Family, ops: map<char, int>, toks: seq<Token>, pos: nat, acc: seq<Expr>)
    requires pos <= |toks|
    ensures ParseArgs(f2, ops, toks, pos, RelabelAll(acc, f2)) == RelabelParsedArgs(ParseArgs(f1, ops, toks, pos, acc), f2)
    decreases |toks| - pos, 5
  {
    ExpressionMirror(f1, f2, ops, toks, pos);
    var arg := ParseExpression(f1, ops, toks, pos);
    if arg.Fail? {
      ArgFailMirror(f1, f2, ops, toks, pos, acc);
    } else {
      RelabelAllAppend(acc, arg.value, f2);
      if Cur(toks, arg.next) == Char(',') {
        ArgsMirror(f1, f2, ops, toks, arg.next + 1, acc + [arg.value]);
        ArgCommaMirror(f1, f2, ops, toks, pos, acc);
      } else {
        ArgEndMirror(f1, f2, ops, toks, pos, acc);
      }
    }
  }

  lemma ArgFailMirror(f1: Family, f2: Family, ops: map<char, int>, toks: seq<Token>, pos: nat, acc: seq<Expr>)
    requires pos <= |toks|
    requires ParseExpression(f2, ops, toks, pos) == RelabelParsed(ParseExpression(f1, ops, toks, pos), f2)
    requires ParseExpression(f1, ops, toks, pos).Fail?
    ensures ParseArgs(f2, ops, toks, pos, RelabelAll(acc, f2)) == RelabelParsedArgs(ParseArgs(f1, ops, toks, pos, acc), f2)
  {
  }

  lemma ArgEndMirror(f1: Family, f2: Family, ops: map<char, int>, toks: seq<Token>, pos: nat, acc: seq<Expr>)
    requires pos <= |toks|
    requires ParseExpression(f2, ops, toks, pos) == RelabelParsed(ParseExpression(f1, ops, toks, pos), f2)
    requires var arg := ParseExpression(f1, ops, toks, pos);
      arg.Ok? && Cur(toks, arg.next) != Char(',') && RelabelAll(acc + [arg.value], f2) == RelabelAll(acc, f2) + [Relabel(arg.value, f2)]
    ensures ParseArgs(f2, ops, toks, pos, RelabelAll(acc, f2)) == RelabelParsedArgs(ParseArgs(f1, ops, toks, pos, acc), f2)
  {
  }

  lemma ArgCommaMirror(f1: Family, f2: Family, ops: map<char, int>, toks: seq<Token>, pos: nat, acc: seq<Expr>)
    requires pos <= |toks|
    requires ParseExpression(f2, ops, toks, pos) == RelabelParsed(ParseExpression(f1, ops, toks, pos), f2)
    requires var arg := ParseExpression(f1, ops, toks, pos);
      && arg.Ok? && Cur(toks, arg.next) == Char(',')
      && RelabelAll(acc + [arg.value], f2) == RelabelAll(acc, f2) + [Relabel(arg.value, f2)]
      && ParseArgs(f2, ops, toks, arg.next + 1, RelabelAll(acc + [arg.value], f2))
         == RelabelParsedArgs(ParseArgs(f1, ops, toks, arg.next + 1, acc + [arg.value]), f2)
    ensures ParseArgs(f2, ops, toks, pos, RelabelAll(acc, f2)) == RelabelParsedArgs(ParseArgs(f1, ops, toks, pos, acc), f2)
  {
  }

  lemma {:induction false} PrimaryMirror(f1: Family, f2: Family, ops: map<char, int>, toks: seq<Token>, pos: nat)
    requires pos <= |toks|
    ensures ParsePrimary(f2, ops, toks, pos) == RelabelParsed(ParsePrimary(f1, ops, toks, pos), f2)
    decreases |toks| - pos, 3
  {
    match Cur(toks, pos)
    case Identifier(_) => IdentifierMirror(f1, f2, ops, toks, pos);
    case Number(_) =>
    case Char(c) =>
      if c == '(' {
        ParenMirror(f1, f2, ops, toks, pos);
      }
    case _ =>
  }

  lemma {:induction false} BinOpRHSMirror(f1: Family, f2: Family, ops: map<char, int>, toks: seq<Token>, pos: nat, exprPrec: int, lhs: Expr)
    requires pos <= |toks| && exprPrec >= 0
    ensures ParseBinOpRHS(f2, ops, toks, pos, exprPrec, Relabel(lhs, f2))
         == RelabelParsed(ParseBinOpRHS(f1, ops, toks, pos, exprPrec, lhs), f2)
    decreases |toks| - pos, 1
  {
    if TokPrecedence(ops, Cur(toks, pos)) >= exprPrec {
      ClimbMirror(f1, f2, ops, toks, pos, lhs);
      var round := ClimbRound(f1, ops, toks, pos, lhs);
      if round.Ok? {
        BinOpRHSMirror(f1, f2, ops, toks, round.next, exprPrec, round.value);
      }
    }
  }

  lemma {:induction false} ClimbMirror(f1: Family, f2: Family, ops: map<char, int>, toks: seq<Token>, pos: nat, lhs: Expr)
    requires pos <= |toks| && TokPrecedence(ops, Cur(toks, pos)) > 0
    ensures ClimbRound(f2, ops, toks, pos, Relabel(lhs, f2)) == RelabelParsed(ClimbRound(f1, ops, toks, pos, lhs), f2)
    decreases |toks| - pos, 0
  {
    PrimaryMirror(f1, f2, ops, toks, pos + 1);
    var rhs := ParsePrimary(f1, ops, toks, pos + 1);
    if rhs.Ok? && TokPrecedence(ops, Cur(toks, pos)) < TokPrecedence(ops, Cur(toks, rhs.next)) {
      BinOpRHSMirror(f1, f2, ops, toks, rhs.next, TokPrecedence(ops, Cur(toks, pos)) + 1, rhs.value);
      NestedClimbMirror(f1, f2, ops, toks, pos, lhs);
    } else {
      FlatClimbMirror(f1, f2, ops, toks, pos, lhs);
    }
  }

  lemma FlatClimbMirror(f1: Family, f2: Family, ops: map<char, int>, toks: seq<Token>, pos: nat, lhs: Expr)
    requires pos <= |toks| && TokPrecedence(ops, Cur(toks, pos)) > 0
    requires ParsePrimary(f2, ops, toks, pos + 1) == RelabelParsed(ParsePrimary(f1, ops, toks, pos + 1), f2)
    requires var rhs := ParsePrimary(f1, ops, toks, pos + 1);
      !(rhs.Ok? && TokPrecedence(ops, Cur(toks, pos)) < TokPrecedence(ops, Cur(toks, rhs.next)))
    ensures ClimbRound(f2, ops, toks, pos, Relabel(lhs, f2)) == RelabelParsed(ClimbRound(f1, ops, toks, pos, lhs), f2)
  {
  }

  lemma NestedClimbMirror(f1: Family, f2: Family, ops: map<char, int>, toks: seq<Token>, pos: nat, lhs: Expr)
    requires pos <= |toks| && TokPrecedence(ops, Cur(toks, pos)) > 0
    requires ParsePrimary(f2, ops, toks, pos + 1) == RelabelParsed(ParsePrimary(f1, ops, toks, pos + 1), f2)
    requires var rhs := ParsePrimary(f1, ops, toks, pos + 1);
      && rhs.Ok? && TokPrecedence(ops, Cur(toks, pos)) < TokPrecedence(ops, Cur(toks, rhs.next))
      && ParseBinOpRHS(f2, ops, toks, rhs.next, TokPrecedence(ops, Cur(toks, pos)) + 1, Relabel(rhs.value, f2))
         == RelabelParsed(ParseBinOpRHS(f1, ops, toks, rhs.next, TokPrecedence(ops, Cur(toks, pos)) + 1, rhs.value), f2)
    ensures ClimbRound(f2, ops, toks, pos, Relabel(lhs, f2)) == RelabelParsed(ClimbRound(f1, ops, toks, pos, lhs), f2)
  {
  }

  lemma {:induction false} ExpressionMirror(f1: Family, f2: Family, ops: map<char, int>, toks: seq<Token>, pos: nat)
    requires pos <= |toks|
    ensures ParseExpression(f2, ops, toks, pos) == RelabelParsed(ParseExpression(f1, ops, toks, pos), f2)
    decreases |toks| - pos, 4
  {
    PrimaryMirror(f1, f2, ops, toks, pos);
    var lhs := ParsePrimary(f1, ops, toks, pos);
    if lhs.Ok? {
      BinOpRHSMirror(f1, f2, ops, toks, lhs.next, 0, lhs.value);
    }
  }

  /** Relabelling a list distributes over appending an argument. */
  lemma RelabelAllAppend(es: seq<Expr>, e: Expr, fam: Family)
    ensures RelabelAll(es + [e], fam) == RelabelAll(es, fam) + [Relabel(e, fam)]
  {
    assert |RelabelAll(es + [e], fam)| == |RelabelAll(es, fam) + [Relabel(e, fam)]|;
    forall i | 0 <= i < |es| + 1
      ensures RelabelAll(es + [e], fam)[i] == (RelabelAll(es, fam) + [Relabel(e, fam)])[i]
    {
      if i < |es| {
        assert (es + [e])[i] == es[i];
      }
    }
  }

  // -----------------------------------------------------------------------
  // Top-level constructs

  lemma DefinitionMirror(f1: Family, f2: Family, ops: map<char, int>, toks: seq<Token>, pos: nat)
    requires pos <= |toks|
    ensures ParseDefinition(f2, ops, toks, pos) == RelabelParsedFunction(ParseDefinition(f1, ops, toks, pos), f2)
  {
    var proto := ParsePrototype(f1, toks, Advance(toks, pos));
    if proto.Ok? {
      ExpressionMirror(f1, f2, ops, toks, proto.next);
    }
  }

  lemma TopLevelMirror(f1: Family, f2: Family, ops: map<char, int>, toks: seq<Token>, pos: nat)
    requires pos <= |toks|
    ensures ParseTopLevelExpr(f2, ops, toks, pos) == RelabelParsedFunction(ParseTopLevelExpr(f1, ops, toks, pos), f2)
  {
    ExpressionMirror(f1, f2, ops, toks, pos);
  }

  lemma ExternMirror(f1: Family, f2: Family, toks: seq<Token>, pos: nat)
    requires pos <= |toks|
    ensures ParseExtern(f2, toks, pos) == RelabelParsedProto(ParseExtern(f1, toks, pos), f2)
  {
  }

  // -----------------------------------------------------------------------
  // Consequences

  /** Every tree the grammar builds for a family is made of that family's
      classes only. */
  lemma ExpressionInFamily(fam: Family, ops: map<char, int>, toks: seq<Token>, pos: nat)
    requires pos <= |toks|
    ensures var r := ParseExpression(fam, ops, toks, pos);
            r.Ok? ==> InFamily(r.value, fam)
  {
    ExpressionMirror(fam, fam, ops, toks, pos);
  }

  /** The two parsers of the program on one token stream: the codegen copy
      succeeds exactly when the base parser does, stops at the same token,
      writes the same message, and its tree is the base tree relabelled. */
  lemma CopiesAgree(ops: map<char, int>, toks: seq<Token>, pos: nat)
    requires pos <= |toks|
    ensures var base, copy := ParseExpression(Plain, ops, toks, pos), ParseExpression(Lowering, ops, toks, pos);
            && copy.Ok? == base.Ok?
            && copy.End() == base.End()
            && copy.Logged() == base.Logged()
            && (copy.Ok? ==> copy.value == Relabel(base.value, Lowering) && base.value == Relabel(copy.value, Plain))
  {
    ExpressionMirror(Plain, Lowering, ops, toks, pos);
    ExpressionMirror(Lowering, Plain, ops, toks, pos);
  }

  /** The definitions, externs and top-level expressions the two copies
      read from one token stream: the same outcome, the same end, the same
      message, and trees that relabel into each other. */
  lemma TopLevelCopiesAgree(ops: map<char, int>, toks: seq<Token>, pos: nat)
    requires pos <= |toks|
    ensures var base, copy := ParseDefinition(Plain, ops, toks, pos), ParseDefinition(Lowering, ops, toks, pos);
            && copy.Ok? == base.Ok? && copy.End() == base.End() && copy.Logged() == base.Logged()
            && (copy.Ok? ==> copy.value == RelabelFunction(base.value, Lowering))
    ensures var base, copy := ParseTopLevelExpr(Plain, ops, toks, pos), ParseTopLevelExpr(Lowering, ops, toks, pos);
            && copy.Ok? == base.Ok? && copy.End() == base.End() && copy.Logged() == base.Logged()
            && (copy.Ok? ==> copy.value == RelabelFunction(base.value, Lowering))
    ensures var base, copy := ParseExtern(Plain, toks, pos), ParseExtern(Lowering, toks, pos);
            && copy.Ok? == base.Ok? && copy.End() == base.End() && copy.Logged() == base.Logged()
            && (copy.Ok? ==> copy.value == RelabelProto(base.value, Lowering))
  {
    DefinitionMirror(Plain, Lowering, ops, toks, pos);
    TopLevelMirror(Plain, Lowering, ops, toks, pos);
    ExternMirror(Plain, Lowering, toks, pos);
  }

  /** What the base parser builds never lowers: its codegen returns null.
      What the codegen copy builds is handed to the lowering. */
  lemma OnlyTheCopyLowers<V>(ops: map<char, int>, toks: seq<Token>, pos: nat, lower: Expr -> Option<V>)
    requires pos <= |toks|
    ensures var r := ParseExpression(Plain, ops, toks, pos);
            r.Ok? ==> ExprCodegen(r.value, lower) == None
    ensures var r := ParseExpression(Lowering, ops, toks, pos);
            r.Ok? ==> ExprCodegen(r.value, lower) == lower(r.value)
  {
    ExpressionInFamily(Plain, ops, toks, pos);
    ExpressionInFamily(Lowering, ops, toks, pos);
  }
}
