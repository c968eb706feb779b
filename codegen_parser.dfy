/** The copy of the parser in app/codegen.cpp.  It drives the same CurTok
    cursor and precedence table as the parser of parser.cpp and repeats its
    grammar token for token, but builds every node through the factory
    functions of the codegen classes; here that is the Lowering family.  Each
    method is proved to do what the grammar function of ParserSpec computes
    for that family, and ParserMirror relates those results to the base
    parser's. */
module CodegenParser {
  import opened Wrappers
  import opened TokenKinds
  import opened Ast
  import opened ParserSpec
  import opened Parser

  /** numberexpr through CreateNumberExprCodegen. */
  method ParseNumberExprCodegen(p: ParserState) returns (r: Option<Expr>)
    requires p.Valid() && p.CurTok().Number?
    modifies p
    ensures p.Valid() && p.binopPrecedence == old(p.binopPrecedence) && p.declared == old(p.declared)
    ensures Follows(ParserSpec.ParseNumberExpr(Lowering, p.toks, old(p.pos)), r, p.pos, old(p.diagnostics), p.diagnostics)
  {
    var result := NumberExpr(Lowering, p.CurTok().lexeme);
    var _ := p.GetNextToken();
    return Some(result);
  }

  /** parenexpr; the inner node is returned as it is. */
  method ParseParenExprCodegen(p: ParserState) returns (r: Option<Expr>)
    requires p.Valid() && p.CurTok() == Char('(')
    modifies p
    decreases |p.toks| - p.pos, 2
    ensures p.Valid() && p.declared == old(p.declared)
    ensures Follows(ParserSpec.ParseParenExpr(Lowering, p.declared, p.toks, old(p.pos)),
                    r, p.pos, old(p.diagnostics), p.diagnostics)
  {
    var _ := p.GetNextToken();
    var v := ParseExpressionCodegen(p);
    if v.None? {
      return None;
    }
    if p.CurTok() != Char(')') {
      p.LogError(ExpectedCloseParen);
      return None;
    }
    var _ := p.GetNextToken();
    return v;
  }

  /** identifierexpr through CreateVariableExprCodegen and CreateCallExprCodegen. */
  method ParseIdentifierExprCodegen(p: ParserState) returns (r: Option<Expr>)
    requires p.Valid() && p.CurTok().Identifier?
    modifies p
    decreases |p.toks| - p.pos, 2
    ensures p.Valid() && p.declared == old(p.declared)
    ensures Follows(ParserSpec.ParseIdentifierExpr(Lowering, p.declared, p.toks, old(p.pos)),
                    r, p.pos, old(p.diagnostics), p.diagnostics)
  {
    var idName := p.CurTok().name;
    var _ := p.GetNextToken();
    if p.CurTok() != Char('(') {
      return Some(VariableExpr(Lowering, idName));
    }
    var _ := p.GetNextToken();
    var args: seq<Expr> := [];
    if p.CurTok() != Char(')') {
      var a := ParseArgsCodegen(p);
      if a.None? {
        return None;
      }
      args := a.value;
    }
    var _ := p.GetNextToken();
    return Some(CallExpr(Lowering, idName, args));
  }

  /** The argument loop of ParseIdentifierExprCodegen, which stops at the ')'. */
  method ParseArgsCodegen(p: ParserState) returns (r: Option<seq<Expr>>)
    requires p.Valid()
    modifies p
    decreases |p.toks| - p.pos, 5
    ensures p.Valid() && p.declared == old(p.declared)
    ensures Follows(ParserSpec.ParseArgs(Lowering, p.declared, p.toks, old(p.pos), []),
                    r, p.pos, old(p.diagnostics), p.diagnostics)
  {
    ghost var ops := p.declared;
    ghost var argsSpec := ParserSpec.ParseArgs(Lowering, ops, p.toks, p.pos, []);
    var args: seq<Expr> := [];
    while true
      invariant p.Valid() && old(p.pos) <= p.pos
      invariant p.declared == ops
      invariant p.diagnostics == old(p.diagnostics)
      invariant ParserSpec.ParseArgs(Lowering, ops, p.toks, p.pos, args) == argsSpec
      decreases |p.toks| - p.pos
    {
      var arg := ParseExpressionCodegen(p);
      if arg.None? {
        return None;
      }
      args := args + [arg.value];
      if p.CurTok() == Char(')') {
        return Some(args);
      }
      if p.CurTok() != Char(',') {
        p.LogError(ExpectedCloseOrComma);
        return None;
      }
      var _ := p.GetNextToken();
    }
  }

  /** primary, dispatching to the Codegen variants. */
  method ParsePrimaryCodegen(p: ParserState) returns (r: Option<Expr>)
    requires p.Valid()
    modifies p
    decreases |p.toks| - p.pos, 3
    ensures p.Valid() && p.declared == old(p.declared)
    ensures Follows(ParserSpec.ParsePrimary(Lowering, p.declared, p.toks, old(p.pos)),
                    r, p.pos, old(p.diagnostics), p.diagnostics)
  {
    match p.CurTok()
    case Identifier(_) =>
      r := ParseIdentifierExprCodegen(p);
    case Number(_) =>
      r := ParseNumberExprCodegen(p);
    case Char(c) =>
      if c == '(' {
        r := ParseParenExprCodegen(p);
      } else {
        p.LogError(UnknownToken);
        r := None;
      }
    case _ =>
      p.LogError(UnknownToken);
      r := None;
  }

  /** binoprhs, merging through CreateBinaryExprCodegen.
      Requires exprPrec >= 0, as every caller passes 0 or TokPrec + 1. */
  method ParseBinOpRHSCodegen(p: ParserState, exprPrec: int, lhs0: Expr) returns (r: Option<Expr>)
    requires p.Valid() && exprPrec >= 0
    modifies p
    decreases |p.toks| - p.pos, 1
    ensures p.Valid() && p.declared == old(p.declared)
    ensures Follows(ParserSpec.ParseBinOpRHS(Lowering, p.declared, p.toks, old(p.pos), exprPrec, lhs0),
                    r, p.pos, old(p.diagnostics), p.diagnostics)
  {
    ghost var ops := p.declared;
    ghost var spec := ParserSpec.ParseBinOpRHS(Lowering, ops, p.toks, p.pos, exprPrec, lhs0);
    var lhs := lhs0;
    while true
      invariant p.Valid() && old(p.pos) <= p.pos
      invariant p.declared == ops
      invariant p.diagnostics == old(p.diagnostics)
      invariant ParserSpec.ParseBinOpRHS(Lowering, ops, p.toks, p.pos, exprPrec, lhs) == spec
      decreases |p.toks| - p.pos
    {
      var tokPrec := p.GetTokPrecedence();
      // The loop runs while the pending operator reaches exprPrec; the
      // first weaker token (or any non-operator, at -1) leaves lhs final.
      if tokPrec < exprPrec {
        return Some(lhs);
      }
      var merged := ClimbRoundCodegen(p, tokPrec, lhs);
      if merged.None? {
        return None;
      }
      lhs := merged.value;
    }
  }

  /** The body of the climbing loop, for the operator at CurTok with
      precedence tokPrec: eat it, parse its right operand, extend that
      operand while the next operator binds tighter, and merge. */
  method ClimbRoundCodegen(p: ParserState, tokPrec: int, lhs: Expr) returns (r: Option<Expr>)
    requires p.Valid() && tokPrec > 0 && tokPrec == TokPrecedence(p.declared, p.CurTok())
    modifies p
    decreases |p.toks| - p.pos, 0
    ensures p.Valid() && p.declared == old(p.declared)
    ensures Follows(ParserSpec.ClimbRound(Lowering, p.declared, p.toks, old(p.pos), lhs),
                    r, p.pos, old(p.diagnostics), p.diagnostics)
  {
    var binOp := p.CurTok().c;
    var _ := p.GetNextToken();
    var rhs := ParsePrimaryCodegen(p);
    if rhs.None? {
      return None;
    }
    var nextPrec := p.GetTokPrecedence();
    if tokPrec < nextPrec {
      rhs := ParseBinOpRHSCodegen(p, tokPrec + 1, rhs.value);
      if rhs.None? {
        return None;
      }
    }
    return Some(BinaryExpr(Lowering, binOp, lhs, rhs.value));
  }

  /** expression, with the Codegen primary and binoprhs. */
  method ParseExpressionCodegen(p: ParserState) returns (r: Option<Expr>)
    requires p.Valid()
    modifies p
    decreases |p.toks| - p.pos, 4
    ensures p.Valid() && p.declared == old(p.declared)
    ensures Follows(ParserSpec.ParseExpression(Lowering, p.declared, p.toks, old(p.pos)),
                    r, p.pos, old(p.diagnostics), p.diagnostics)
  {
    var lhs := ParsePrimaryCodegen(p);
    if lhs.None? {
      return None;
    }
    r := ParseBinOpRHSCodegen(p, 0, lhs.value);
  }

  /** prototype through CreatePrototypeCodegen. */
  method ParsePrototypeCodegen(p: ParserState) returns (r: Option<Prototype>)
    requires p.Valid()
    modifies p
    ensures p.Valid() && p.binopPrecedence == old(p.binopPrecedence) && p.declared == old(p.declared)
    ensures Follows(ParserSpec.ParsePrototype(Lowering, p.toks, old(p.pos)), r, p.pos, old(p.diagnostics), p.diagnostics)
  {
    ghost var toks, pos0 := p.toks, p.pos;
    if !p.CurTok().Identifier? {
      p.LogError(ExpectedFunctionName);
      return None;
    }
    var fnName := p.CurTok().name;
    var t := p.GetNextToken();
    if t != Char('(') {
      p.LogError(ExpectedOpenParenInProto);
      return None;
    }
    ghost var names := ArgNames(toks, pos0 + 2);
    var argNames: seq<string> := [];
    t := p.GetNextToken();
    while t.Identifier?
      invariant p.Valid() && p.pos == pos0 + 2 + |argNames| && t == Cur(toks, p.pos)
      invariant names == argNames + ArgNames(toks, p.pos)
      invariant p.binopPrecedence == old(p.binopPrecedence) && p.declared == old(p.declared)
      invariant p.diagnostics == old(p.diagnostics)
      decreases |toks| - p.pos
    {
      assert ArgNames(toks, p.pos) == [t.name] + ArgNames(toks, p.pos + 1);
      assert argNames + ([t.name] + ArgNames(toks, p.pos + 1)) == (argNames + [t.name]) + ArgNames(toks, p.pos + 1);
      argNames := argNames + [t.name];
      t := p.GetNextToken();
    }
    assert ArgNames(toks, p.pos) == [];
    assert argNames == names;
    if t != Char(')') {
      p.LogError(ExpectedCloseParenInProto);
      return None;
    }
    t := p.GetNextToken();
    return Some(Prototype(Lowering, fnName, argNames));
  }

  /** definition through CreateFunctionCodegen. */
  method ParseDefinitionCodegen(p: ParserState) returns (r: Option<Function>)
    requires p.Valid()
    modifies p
    ensures p.Valid() && p.declared == old(p.declared)
    ensures Follows(ParserSpec.ParseDefinition(Lowering, p.declared, p.toks, old(p.pos)),
                    r, p.pos, old(p.diagnostics), p.diagnostics)
  {
    var _ := p.GetNextToken();
    var proto := ParsePrototypeCodegen(p);
    if proto.None? {
      return None;
    }
    var e := ParseExpressionCodegen(p);
    if e.None? {
      return None;
    }
    return Some(Function(Lowering, proto.value, e.value));
  }

  /** toplevelexpr: the anonymous prototype and the function both come
      from the factories. */
  method ParseTopLevelExprCodegen(p: ParserState) returns (r: Option<Function>)
    requires p.Valid()
    modifies p
    ensures p.Valid() && p.declared == old(p.declared)
    ensures Follows(ParserSpec.ParseTopLevelExpr(Lowering, p.declared, p.toks, old(p.pos)),
                    r, p.pos, old(p.diagnostics), p.diagnostics)
  {
    var e := ParseExpressionCodegen(p);
    if e.None? {
      return None;
    }
    var proto := Prototype(Lowering, AnonName, []);
    return Some(Function(Lowering, proto, e.value));
  }

  /** external: eat the keyword, then the Codegen prototype. */
  method ParseExternCodegen(p: ParserState) returns (r: Option<Prototype>)
    requires p.Valid()
    modifies p
    ensures p.Valid() && p.binopPrecedence == old(p.binopPrecedence) && p.declared == old(p.declared)
    ensures Follows(ParserSpec.ParseExtern(Lowering, p.toks, old(p.pos)), r, p.pos, old(p.diagnostics), p.diagnostics)
  {
    var _ := p.GetNextToken();
    r := ParsePrototypeCodegen(p);
  }
}
