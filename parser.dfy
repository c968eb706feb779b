/** The parser of parser.cpp: the CurTok cursor, the BinopPrecedence table
    and the parse functions, which advance the cursor and build base-family
    nodes.  Each parse method is proved to do what the grammar function of
    the same name in ParserSpec computes, run on the declared operators of
    the table. */
module Parser {
  import opened Wrappers
  import opened TokenKinds
  import opened Ast
  import opened ParserSpec

  /** The parser's globals: the token stream the lexer delivers (read
      through CurTok), the precedence table and what has been written to
      stderr. */
  class ParserState {
    const toks: seq<Token>
    /** How many tokens getNextToken has moved past. */
    var pos: nat
    var binopPrecedence: map<char, int>
    /** The declared operators: what the table says wherever it says a
        positive precedence. */
    ghost var declared: map<char, int>
    var diagnostics: seq<Diagnostic>

    ghost predicate Valid()
      reads this
    {
      pos <= |toks| && Realizes(binopPrecedence, declared)
    }

    /** CurTok, once the first token has been primed. */
    function CurTok(): Token
      reads this
    {
      Cur(toks, pos)
    }

    /** A parser over the lexer's tokens, none of which is tok_eof: the end
        of the sequence is where the input ends. */
    constructor (toks: seq<Token>)
      requires forall i :: 0 <= i < |toks| ==> toks[i] != Eof
      ensures Valid() && this.toks == toks
      ensures pos == 0 && binopPrecedence == map[] && declared == map[] && diagnostics == []
    {
      this.toks := toks;
      pos := 0;
      binopPrecedence := map[];
      declared := map[];
      diagnostics := [];
    }

    /** BinopPrecedence[c] = prec, as main does before parsing. */
    method SetPrecedence(c: char, prec: int)
      requires Valid()
      modifies this`binopPrecedence, this`declared
      ensures Valid()
      ensures binopPrecedence == old(binopPrecedence)[c := prec]
      ensures declared == old(declared)[c := prec]
    {
      AssignKeepsRealizes(binopPrecedence, declared, c, prec);
      binopPrecedence := binopPrecedence[c := prec];
      declared := declared[c := prec];
    }

    /** getNextToken: CurTok becomes the next token; at tok_eof it stays. */
    method GetNextToken() returns (t: Token)
      requires Valid()
      modifies this`pos
      ensures Valid() && pos == Advance(toks, old(pos)) && t == CurTok()
    {
      if pos < |toks| {
        pos := pos + 1;
      }
      t := CurTok();
    }

    /** GetTokPrecedence.  operator[] inserts a 0 entry for an ASCII
        character it has not seen, which leaves the declared operators as
        they were. */
    method GetTokPrecedence() returns (tokPrec: int)
      requires Valid()
      modifies this`binopPrecedence
      ensures Valid()
      ensures tokPrec == TokPrecedence(old(binopPrecedence), CurTok())
      ensures tokPrec == TokPrecedence(declared, CurTok())
      ensures binopPrecedence == AfterLookup(old(binopPrecedence), CurTok())
    {
      LookupKeepsRealizes(binopPrecedence, declared, CurTok());
      RealizedPrecedence(binopPrecedence, declared, CurTok());
      var t := CurTok();
      if !IsAscii(Tag(t)) {
        return -1;
      }
      if t.c !in binopPrecedence {
        binopPrecedence := binopPrecedence[t.c := 0];
      }
      tokPrec := binopPrecedence[t.c];
      if tokPrec <= 0 {
        return -1;
      }
    }

    /** LogError and LogErrorP: write the message; the caller returns null. */
    method LogError(e: ParseError)
      modifies this`diagnostics
      ensures diagnostics == old(diagnostics) + [Error(e)]
    {
      diagnostics := diagnostics + [Error(e)];
    }
  }

  /** A parse method did what the grammar function computes: it returned
      the node (or null), left CurTok where the grammar ends, and logged
      exactly what the grammar logs. */
  ghost predicate Follows<T>(spec: Parsed<T>, r: Option<T>, pos: nat, before: seq<Diagnostic>, after: seq<Diagnostic>) {
    r == spec.ToOption() && pos == spec.End() && after == before + spec.Logged()
  }

  /** numberexpr ::= number */
  method ParseNumberExpr(p: ParserState) returns (r: Option<Expr>)
    requires p.Valid() && p.CurTok().Number?
    modifies p
    ensures p.Valid() && p.binopPrecedence == old(p.binopPrecedence) && p.declared == old(p.declared)
    ensures Follows(ParserSpec.ParseNumberExpr(Plain, p.toks, old(p.pos)), r, p.pos, old(p.diagnostics), p.diagnostics)
  {
    var result := NumberExpr(Plain, p.CurTok().lexeme);
    var _ := p.GetNextToken();
    return Some(result);
  }

  /** parenexpr ::= '(' expression ')' */
  method ParseParenExpr(p: ParserState) returns (r: Option<Expr>)
    requires p.Valid() && p.CurTok() == Char('(')
    modifies p
    decreases |p.toks| - p.pos, 2
    ensures p.Valid() && p.declared == old(p.declared)
    ensures Follows(ParserSpec.ParseParenExpr(Plain, p.declared, p.toks, old(p.pos)),
                    r, p.pos, old(p.diagnostics), p.diagnostics)
  {
    var _ := p.GetNextToken();
    var v := ParseExpression(p);
    if v.None? {
      return None;
    }
    if p.CurTok() != Char(')') {
      p.LogError(ExpectedCloseParen);
      return None;
    }
    var _ := p.GetNextToken();
    return v;
  }

  /** identifierexpr ::= identifier | identifier '(' expression* ')' */
  method ParseIdentifierExpr(p: ParserState) returns (r: Option<Expr>)
    requires p.Valid() && p.CurTok().Identifier?
    modifies p
    decreases |p.toks| - p.pos, 2
    ensures p.Valid() && p.declared == old(p.declared)
    ensures Follows(ParserSpec.ParseIdentifierExpr(Plain, p.declared, p.toks, old(p.pos)),
                    r, p.pos, old(p.diagnostics), p.diagnostics)
  {
    var idName := p.CurTok().name;
    var _ := p.GetNextToken();
    if p.CurTok() != Char('(') {
      return Some(VariableExpr(Plain, idName));
    }
    var _ := p.GetNextToken();
    var args: seq<Expr> := [];
    if p.CurTok() != Char(')') {
      var a := ParseArgs(p);
      if a.None? {
        return None;
      }
      args := a.value;
    }
    var _ := p.GetNextToken();
    return Some(CallExpr(Plain, idName, args));
  }

  /** The argument loop of ParseIdentifierExpr, which stops at the ')'. */
  method ParseArgs(p: ParserState) returns (r: Option<seq<Expr>>)
    requires p.Valid()
    modifies p
    decreases |p.toks| - p.pos, 5
    ensures p.Valid() && p.declared == old(p.declared)
    ensures Follows(ParserSpec.ParseArgs(Plain, p.declared, p.toks, old(p.pos), []),
                    r, p.pos, old(p.diagnostics), p.diagnostics)
  {
    ghost var ops := p.declared;
    ghost var argsSpec := ParserSpec.ParseArgs(Plain, ops, p.toks, p.pos, []);
    var args: seq<Expr> := [];
    while true
      invariant p.Valid() && old(p.pos) <= p.pos
      invariant p.declared == ops
      invariant p.diagnostics == old(p.diagnostics)
      invariant ParserSpec.ParseArgs(Plain, ops, p.toks, p.pos, args) == argsSpec
      decreases |p.toks| - p.pos
    {
      var arg := ParseExpression(p);
      if arg.None? {
        return None;
      }
      args := args + [arg.value];
      if p.CurTok() == Char(')') {
        return Some(args);
      }
      if p.CurTok() != Char(',') {
        p.LogError(ExpectedCloseOrComma);
        return None;
      }
      var _ := p.GetNextToken();
    }
  }

  /** primary ::= identifierexpr | numberexpr | parenexpr */
  method ParsePrimary(p: ParserState) returns (r: Option<Expr>)
    requires p.Valid()
    modifies p
    decreases |p.toks| - p.pos, 3
    ensures p.Valid() && p.declared == old(p.declared)
    ensures Follows(ParserSpec.ParsePrimary(Plain, p.declared, p.toks, old(p.pos)),
                    r, p.pos, old(p.diagnostics), p.diagnostics)
  {
    match p.CurTok()
    case Identifier(_) =>
      r := ParseIdentifierExpr(p);
    case Number(_) =>
      r := ParseNumberExpr(p);
    case Char(c) =>
      if c == '(' {
        r := ParseParenExpr(p);
      } else {
        p.LogError(UnknownToken);
        r := None;
      }
    case _ =>
      p.LogError(UnknownToken);
      r := None;
  }

  /** binoprhs ::= (binop primary)*
      Requires exprPrec >= 0, as every caller passes 0 or TokPrec + 1. */
  method ParseBinOpRHS(p: ParserState, exprPrec: int, lhs0: Expr) returns (r: Option<Expr>)
    requires p.Valid() && exprPrec >= 0
    modifies p
    decreases |p.toks| - p.pos, 1
    ensures p.Valid() && p.declared == old(p.declared)
    ensures Follows(ParserSpec.ParseBinOpRHS(Plain, p.declared, p.toks, old(p.pos), exprPrec, lhs0),
                    r, p.pos, old(p.diagnostics), p.diagnostics)
  {
    ghost var ops := p.declared;
    ghost var spec := ParserSpec.ParseBinOpRHS(Plain, ops, p.toks, p.pos, exprPrec, lhs0);
    var lhs := lhs0;
    while true
      invariant p.Valid() && old(p.pos) <= p.pos
      invariant p.declared == ops
      invariant p.diagnostics == old(p.diagnostics)
      invariant ParserSpec.ParseBinOpRHS(Plain, ops, p.toks, p.pos, exprPrec, lhs) == spec
      decreases |p.toks| - p.pos
    {
      var tokPrec := p.GetTokPrecedence();
      // The loop runs while the pending operator reaches exprPrec; the
      // first weaker token (or any non-operator, at -1) leaves lhs final.
      if tokPrec < exprPrec {
        return Some(lhs);
      }
      var merged := ClimbRound(p, tokPrec, lhs);
      if merged.None? {
        return None;
      }
      lhs := merged.value;
    }
  }

  /** The body of the climbing loop, for the operator at CurTok with
      precedence tokPrec: eat it, parse its right operand, extend that
      operand while the next operator binds tighter, and merge. */
  method ClimbRound(p: ParserState, tokPrec: int, lhs: Expr) returns (r: Option<Expr>)
    requires p.Valid() && tokPrec > 0 && tokPrec == TokPrecedence(p.declared, p.CurTok())
    modifies p
    decreases |p.toks| - p.pos, 0
    ensures p.Valid() && p.declared == old(p.declared)
    ensures Follows(ParserSpec.ClimbRound(Plain, p.declared, p.toks, old(p.pos), lhs),
                    r, p.pos, old(p.diagnostics), p.diagnostics)
  {
    var binOp := p.CurTok().c;
    var _ := p.GetNextToken();
    var rhs := ParsePrimary(p);
    if rhs.None? {
      return None;
    }
    var nextPrec := p.GetTokPrecedence();
    if tokPrec < nextPrec {
      rhs := ParseBinOpRHS(p, tokPrec + 1, rhs.value);
      if rhs.None? {
        return None;
      }
    }
    return Some(BinaryExpr(Plain, binOp, lhs, rhs.value));
  }

  /** expression ::= primary binoprhs */
  method ParseExpression(p: ParserState) returns (r: Option<Expr>)
    requires p.Valid()
    modifies p
    decreases |p.toks| - p.pos, 4
    ensures p.Valid() && p.declared == old(p.declared)
    ensures Follows(ParserSpec.ParseExpression(Plain, p.declared, p.toks, old(p.pos)),
                    r, p.pos, old(p.diagnostics), p.diagnostics)
  {
    var lhs := ParsePrimary(p);
    if lhs.None? {
      return None;
    }
    r := ParseBinOpRHS(p, 0, lhs.value);
  }

  /** prototype ::= id '(' id* ')' */
  method ParsePrototype(p: ParserState) returns (r: Option<Prototype>)
    requires p.Valid()
    modifies p
    ensures p.Valid() && p.binopPrecedence == old(p.binopPrecedence) && p.declared == old(p.declared)
    ensures Follows(ParserSpec.ParsePrototype(Plain, p.toks, old(p.pos)), r, p.pos, old(p.diagnostics), p.diagnostics)
  {
    ghost var toks, pos0 := p.toks, p.pos;
    if !p.CurTok().Identifier? {
      p.LogError(ExpectedFunctionName);
      return None;
    }
    var fnName := p.CurTok().name;
    var t := p.GetNextToken();
    if t != Char('(') {
      p.LogError(ExpectedOpenParenInProto);
      return None;
    }
    ghost var names := ArgNames(toks, pos0 + 2);
    var argNames: seq<string> := [];
    t := p.GetNextToken();
    while t.Identifier?
      invariant p.Valid() && p.pos == pos0 + 2 + |argNames| && t == Cur(toks, p.pos)
      invariant names == argNames + ArgNames(toks, p.pos)
      invariant p.binopPrecedence == old(p.binopPrecedence) && p.declared == old(p.declared)
      invariant p.diagnostics == old(p.diagnostics)
      decreases |toks| - p.pos
    {
      assert ArgNames(toks, p.pos) == [t.name] + ArgNames(toks, p.pos + 1);
      assert argNames + ([t.name] + ArgNames(toks, p.pos + 1)) == (argNames + [t.name]) + ArgNames(toks, p.pos + 1);
      argNames := argNames + [t.name];
      t := p.GetNextToken();
    }
    assert ArgNames(toks, p.pos) == [];
    assert argNames == names;
    if t != Char(')') {
      p.LogError(ExpectedCloseParenInProto);
      return None;
    }
    t := p.GetNextToken();
    return Some(Prototype(Plain, fnName, argNames));
  }

  /** definition ::= 'def' prototype expression */
  method ParseDefinition(p: ParserState) returns (r: Option<Function>)
    requires p.Valid()
    modifies p
    ensures p.Valid() && p.declared == old(p.declared)
    ensures Follows(ParserSpec.ParseDefinition(Plain, p.declared, p.toks, old(p.pos)),
                    r, p.pos, old(p.diagnostics), p.diagnostics)
  {
    var _ := p.GetNextToken();
    var proto := ParsePrototype(p);
    if proto.None? {
      return None;
    }
    var e := ParseExpression(p);
    if e.None? {
      return None;
    }
    return Some(Function(Plain, proto.value, e.value));
  }

  /** toplevelexpr ::= expression */
  method ParseTopLevelExpr(p: ParserState) returns (r: Option<Function>)
    requires p.Valid()
    modifies p
    ensures p.Valid() && p.declared == old(p.declared)
    ensures Follows(ParserSpec.ParseTopLevelExpr(Plain, p.declared, p.toks, old(p.pos)),
                    r, p.pos, old(p.diagnostics), p.diagnostics)
  {
    var e := ParseExpression(p);
    if e.None? {
      return None;
    }
    var proto := Prototype(Plain, AnonName, []);
    return Some(Function(Plain, proto, e.value));
  }

  /** external ::= 'extern' prototype */
  method ParseExtern(p: ParserState) returns (r: Option<Prototype>)
    requires p.Valid()
    modifies p
    ensures p.Valid() && p.binopPrecedence == old(p.binopPrecedence) && p.declared == old(p.declared)
    ensures Follows(ParserSpec.ParseExtern(Plain, p.toks, old(p.pos)), r, p.pos, old(p.diagnostics), p.diagnostics)
  {
    var _ := p.GetNextToken();
    r := ParsePrototype(p);
  }
}
