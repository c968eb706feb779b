/** The grammar that parser.cpp implements, as functions over the token
    stream.  A parser position pos is an index into the tokens the lexer
    returns before its first tok_eof; at and past the end the current token
    is tok_eof, and eating it leaves the position where it is (EOF is
    sticky).  The node family is a parameter, so the base parser of
    parser.cpp and its copy in codegen.cpp share one specification. */
module ParserSpec {
  import opened Wrappers
  import opened TokenKinds
  import opened Ast

  /** The messages passed to LogError and LogErrorP. */
  datatype ParseError =
    | UnknownToken             // unknown token when expecting an expression
    | ExpectedCloseParen       // expected ')'
    | ExpectedCloseOrComma     // Expected ')' or ',' in argument list
    | ExpectedFunctionName     // Expected function name in prototype
    | ExpectedOpenParenInProto // Expected '(' in prototype
    | ExpectedCloseParenInProto // Expected ')' in prototype

  /** What reaches stderr: an error message, or one of the driver's reports. */
  datatype Diagnostic =
    | Error(error: ParseError)
    | ParsedDefinition
    | ParsedExtern
    | ParsedTopLevelExpr

  /** The outcome of a parse function: the node and the position of CurTok
      afterwards, or the error logged and the position where it was logged. */
  datatype Parsed<T> = Ok(value: T, next: nat) | Fail(error: ParseError, at: nat) {
    /** Where CurTok stands when the parse function returns. */
    function End(): nat {
      if Ok? then next else at
    }

    /** The unique_ptr the parse function returns. */
    function ToOption(): Option<T> {
      if Ok? then Some(value) else None
    }

    /** What the parse function writes to stderr: exactly one message when
        it fails, nothing when it succeeds. */
    function Logged(): seq<Diagnostic> {
      if Ok? then [] else [Error(error)]
    }
  }

  /** CurTok at position pos. */
  function Cur(toks: seq<Token>, pos: nat): Token {
    if pos < |toks| then toks[pos] else Eof
  }

  /** The position after getNextToken. */
  function Advance(toks: seq<Token>, pos: nat): nat {
    if pos < |toks| then pos + 1 else pos
  }

  // -----------------------------------------------------------------------
  // The precedence table

  /** isascii on the token tag. */
  predicate IsAscii(tag: int) {
    0 <= tag < 128
  }

  /** The table entry for c, with 0 for a character not in the table (the
      value std::map::operator[] inserts). */
  function Lookup(table: map<char, int>, c: char): int {
    if c in table then table[c] else 0
  }

  /** The table after GetTokPrecedence has looked up the current token. */
  function AfterLookup(table: map<char, int>, t: Token): (r: map<char, int>)
    ensures table.Keys <= r.Keys
  {
    if IsAscii(Tag(t)) && t.c !in table then table[t.c := 0] else table
  }

  /** The declared binary operators: the entries with a positive precedence. */
  function Declared(table: map<char, int>): (r: map<char, int>)
    ensures forall c :: c in r <==> c in table && table[c] > 0
    ensures forall c :: c in r ==> r[c] == table[c]
  {
    map c | c in table && table[c] > 0 :: table[c]
  }

  /** A table realizes a map of declared operators when the two agree
      wherever either has a positive entry. */
  ghost predicate Realizes(table: map<char, int>, declared: map<char, int>) {
    forall c {:trigger Lookup(table, c)} ::
      Lookup(table, c) > 0 || Lookup(declared, c) > 0 ==> Lookup(table, c) == Lookup(declared, c)
  }

  /** GetTokPrecedence: -1 unless the token is an ASCII character with a
      positive entry, whose entry it then returns; never 0. */
  function TokPrecedence(table: map<char, int>, t: Token): (p: int)
    ensures p == -1 || p > 0
    ensures p > 0 <==> t.Char? && IsAscii(t.c as int) && Lookup(table, t.c) > 0
    ensures p > 0 ==> p == Lookup(table, t.c)
  {
    if !IsAscii(Tag(t)) then -1
    else
      var tokPrec := Lookup(table, t.c);
      if tokPrec <= 0 then -1 else tokPrec
  }

  /** Looking a token up inserts at most a 0 entry, which reads as the
      missing key did, so the table goes on realizing the same declared
      operators. */
  lemma LookupKeepsRealizes(table: map<char, int>, declared: map<char, int>, t: Token)
    requires Realizes(table, declared)
    ensures Realizes(AfterLookup(table, t), declared)
    ensures forall c :: c in table ==> AfterLookup(table, t)[c] == table[c]
  {
    var after := AfterLookup(table, t);
    forall c | Lookup(after, c) > 0 || Lookup(declared, c) > 0
      ensures Lookup(after, c) == Lookup(declared, c)
    {
      assert Lookup(after, c) == Lookup(table, c);
    }
  }

  /** An assignment to the table that is also made to the declared
      operators keeps the two in step. */
  lemma AssignKeepsRealizes(table: map<char, int>, declared: map<char, int>, c: char, prec: int)
    requires Realizes(table, declared)
    ensures Realizes(table[c := prec], declared[c := prec])
  {
    var table', declared' := table[c := prec], declared[c := prec];
    forall d | Lookup(table', d) > 0 || Lookup(declared', d) > 0
      ensures Lookup(table', d) == Lookup(declared', d)
    {
      if d != c {
        assert Lookup(table', d) == Lookup(table, d);
      }
    }
  }

  /** Precedences depend on the declared operators only. */
  lemma RealizedPrecedence(table: map<char, int>, declared: map<char, int>, t: Token)
    requires Realizes(table, declared)
    ensures TokPrecedence(table, t) == TokPrecedence(declared, t)
  {
  }

  // -----------------------------------------------------------------------
  // Expressions

  /** numberexpr ::= number */
  function ParseNumberExpr(fam: Family, toks: seq<Token>, pos: nat): (r: Parsed<Expr>)
    requires pos <= |toks| && Cur(toks, pos).Number?
    ensures r == Ok(NumberExpr(fam, toks[pos].lexeme), pos + 1)
  {
    Ok(NumberExpr(fam, toks[pos].lexeme), Advance(toks, pos))
  }

  /** parenexpr ::= '(' expression ')' */
  function ParseParenExpr(fam: Family, ops: map<char, int>, toks: seq<Token>, pos: nat): (r: Parsed<Expr>)
    requires pos <= |toks| && Cur(toks, pos) == Char('(')
    ensures pos <= r.End() <= |toks|
    ensures r.Ok? ==> pos < r.next
    decreases |toks| - pos, 2
  {
    var v := ParseExpression(fam, ops, toks, pos + 1);
    if v.Fail? then v
    else if Cur(toks, v.next) != Char(')') then Fail(ExpectedCloseParen, v.next)
    else Ok(v.value, v.next + 1)
  }

  /** identifierexpr ::= identifier | identifier '(' expression* ')'
      where the arguments are separated by commas. */
  function ParseIdentifierExpr(fam: Family, ops: map<char, int>, toks: seq<Token>, pos: nat): (r: Parsed<Expr>)
    requires pos <= |toks| && Cur(toks, pos).Identifier?
    ensures pos <= r.End() <= |toks|
    ensures r.Ok? ==> pos < r.next
    decreases |toks| - pos, 2
  {
    var name := toks[pos].name;
    if Cur(toks, pos + 1) != Char('(') then Ok(VariableExpr(fam, name), pos + 1)
    else if Cur(toks, pos + 2) == Char(')') then Ok(CallExpr(fam, name, []), pos + 3)
    else
      var a := ParseArgs(fam, ops, toks, pos + 2, []);
      if a.Fail? then Fail(a.error, a.at) else Ok(CallExpr(fam, name, a.value), a.next + 1)
  }

  /** The argument loop of ParseIdentifierExpr: acc holds the arguments
      already parsed; the result stops at the closing ')'. */
  function ParseArgs(fam: Family, ops: map<char, int>, toks: seq<Token>, pos: nat, acc: seq<Expr>): (r: Parsed<seq<Expr>>)
    requires pos <= |toks|
    ensures pos <= r.End() <= |toks|
    ensures r.Ok? ==> pos < r.next < |toks| && toks[r.next] == Char(')')
    ensures r.Ok? ==> |acc| < |r.value| && r.value[..|acc|] == acc
    decreases |toks| - pos, 5
  {
    var arg := ParseExpression(fam, ops, toks, pos);
    if arg.Fail? then Fail(arg.error, arg.at)
    else if Cur(toks, arg.next) == Char(')') then Ok(acc + [arg.value], arg.next)
    else if Cur(toks, arg.next) != Char(',') then Fail(ExpectedCloseOrComma, arg.next)
    else ParseArgs(fam, ops, toks, arg.next + 1, acc + [arg.value])
  }

  /** The tokens a primary expression can start with. */
  predicate StartsPrimary(t: Token) {
    t.Identifier? || t.Number? || t == Char('(')
  }

  /** primary ::= identifierexpr | numberexpr | parenexpr */
  function ParsePrimary(fam: Family, ops: map<char, int>, toks: seq<Token>, pos: nat): (r: Parsed<Expr>)
    requires pos <= |toks|
    ensures pos <= r.End() <= |toks|
    ensures r.Ok? ==> pos < r.next
    ensures !StartsPrimary(Cur(toks, pos)) ==> r == Fail(UnknownToken, pos)
    decreases |toks| - pos, 3
  {
    match Cur(toks, pos)
    case Identifier(_) => ParseIdentifierExpr(fam, ops, toks, pos)
    case Number(_) => ParseNumberExpr(fam, toks, pos)
    case Char(c) =>
      if c == '(' then ParseParenExpr(fam, ops, toks, pos) else Fail(UnknownToken, pos)
    case _ => Fail(UnknownToken, pos)
  }

  /** binoprhs ::= (binop primary)*
      Operator-precedence climbing: operators that bind at least as tightly
      as exprPrec are folded into lhs from the left, one round at a time. */
  function ParseBinOpRHS(fam: Family, ops: map<char, int>, toks: seq<Token>, pos: nat, exprPrec: int, lhs: Expr): (r: Parsed<Expr>)
    requires pos <= |toks| && exprPrec >= 0
    ensures pos <= r.End() <= |toks|
    ensures TokPrecedence(ops, Cur(toks, pos)) < exprPrec ==> r == Ok(lhs, pos)
    ensures r.Ok? ==> TokPrecedence(ops, Cur(toks, r.next)) < exprPrec
    decreases |toks| - pos, 1
  {
    if TokPrecedence(ops, Cur(toks, pos)) < exprPrec then Ok(lhs, pos)
    else
      var round := ClimbRound(fam, ops, toks, pos, lhs);
      if round.Fail? then round
      else ParseBinOpRHS(fam, ops, toks, round.next, exprPrec, round.value)
  }

  /** One round of the climbing loop at an operator: its right operand is
      parsed and, when the operator after it binds tighter, first extended at
      TokPrec + 1; then the operator is merged with lhs. */
  function ClimbRound(fam: Family, ops: map<char, int>, toks: seq<Token>, pos: nat, lhs: Expr): (r: Parsed<Expr>)
    requires pos <= |toks| && TokPrecedence(ops, Cur(toks, pos)) > 0
    ensures pos < |toks| && pos < r.End() <= |toks|
    decreases |toks| - pos, 0
  {
    var tokPrec := TokPrecedence(ops, Cur(toks, pos));
    var binOp := toks[pos].c;
    var rhs := ParsePrimary(fam, ops, toks, pos + 1);
    if rhs.Fail? then rhs
    else if tokPrec < TokPrecedence(ops, Cur(toks, rhs.next)) then
      var rhs2 := ParseBinOpRHS(fam, ops, toks, rhs.next, tokPrec + 1, rhs.value);
      if rhs2.Fail? then rhs2 else Ok(BinaryExpr(fam, binOp, lhs, rhs2.value), rhs2.next)
    else Ok(BinaryExpr(fam, binOp, lhs, rhs.value), rhs.next)
  }

  /** expression ::= primary binoprhs */
  function ParseExpression(fam: Family, ops: map<char, int>, toks: seq<Token>, pos: nat): (r: Parsed<Expr>)
    requires pos <= |toks|
    ensures pos <= r.End() <= |toks|
    ensures r.Ok? ==> pos < r.next && TokPrecedence(ops, Cur(toks, r.next)) == -1
    decreases |toks| - pos, 4
  {
    var lhs := ParsePrimary(fam, ops, toks, pos);
    if lhs.Fail? then lhs else ParseBinOpRHS(fam, ops, toks, lhs.next, 0, lhs.value)
  }

  // -----------------------------------------------------------------------
  // Top-level constructs

  /** The identifiers that follow position pos, up to the first other token. */
  function ArgNames(toks: seq<Token>, pos: nat): (names: seq<string>)
    requires pos <= |toks|
    ensures pos + |names| <= |toks|
    ensures !Cur(toks, pos + |names|).Identifier?
    decreases |toks| - pos
  {
    if Cur(toks, pos).Identifier? then [toks[pos].name] + ArgNames(toks, pos + 1) else []
  }

  /** prototype ::= id '(' id* ')' */
  function ParsePrototype(fam: Family, toks: seq<Token>, pos: nat): (r: Parsed<Prototype>)
    requires pos <= |toks|
    ensures pos <= r.End() <= |toks|
    ensures r.Ok? ==> r.value.family == fam && r.next == pos + 3 + |r.value.args|
  {
    if !Cur(toks, pos).Identifier? then Fail(ExpectedFunctionName, pos)
    else if Cur(toks, pos + 1) != Char('(') then Fail(ExpectedOpenParenInProto, pos + 1)
    else
      var names := ArgNames(toks, pos + 2);
      var close := pos + 2 + |names|;
      if Cur(toks, close) != Char(')') then Fail(ExpectedCloseParenInProto, close)
      else Ok(Prototype(fam, toks[pos].name, names), close + 1)
  }

  /** definition ::= 'def' prototype expression
      The keyword is eaten first, whatever it is. */
  function ParseDefinition(fam: Family, ops: map<char, int>, toks: seq<Token>, pos: nat): (r: Parsed<Function>)
    requires pos <= |toks|
    ensures pos <= r.End() <= |toks|
  {
    var proto := ParsePrototype(fam, toks, Advance(toks, pos));
    if proto.Fail? then Fail(proto.error, proto.at)
    else
      var body := ParseExpression(fam, ops, toks, proto.next);
      if body.Fail? then Fail(body.error, body.at)
      else Ok(Function(fam, proto.value, body.value), body.next)
  }

  /** The name of the prototype a top-level expression is wrapped in. */
  const AnonName: string := "__anon_expr"

  /** toplevelexpr ::= expression */
  function ParseTopLevelExpr(fam: Family, ops: map<char, int>, toks: seq<Token>, pos: nat): (r: Parsed<Function>)
    requires pos <= |toks|
    ensures pos <= r.End() <= |toks|
  {
    var e := ParseExpression(fam, ops, toks, pos);
    if e.Fail? then Fail(e.error, e.at)
    else Ok(Function(fam, Prototype(fam, AnonName, []), e.value), e.next)
  }

  /** external ::= 'extern' prototype
      The keyword is eaten first, whatever it is. */
  function ParseExtern(fam: Family, toks: seq<Token>, pos: nat): (r: Parsed<Prototype>)
    requires pos <= |toks|
    ensures pos <= r.End() <= |toks|
  {
    ParsePrototype(fam, toks, Advance(toks, pos))
  }
}
