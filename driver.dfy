/** The driver of app/kaleidoscope.cpp: main installs the standard binary
    operators and MainLoop reads top-level constructs until tok_eof,
    reporting each one parsed and skipping a token after each failure.  The
    functions say what a run of the loop writes to stderr; the methods do
    it on a ParserState and are proved to agree with them. */
module Driver {
  import opened TokenKinds
  import opened Ast
  import opened ParserSpec
  import opened ParserProperties
  import Lexer
  import Parser

  /** The operators main installs: '<' is 10, '+' and '-' are 20 and '*'
      is 40, the highest. */
  const DefaultPrecedence: map<char, int> := map['<' := 10, '+' := 20, '-' := 20, '*' := 40]

  /** Where a handler leaves CurTok and what it writes: the report when the
      parse succeeds; otherwise the parser's error message, after which one
      more token is skipped for error recovery. */
  function Handled<T>(r: Parsed<T>, report: Diagnostic, toks: seq<Token>): (nat, seq<Diagnostic>) {
    if r.Ok? then (r.next, [report]) else (Advance(toks, r.at), r.Logged())
  }

  function HandleDefinition(ops: map<char, int>, toks: seq<Token>, pos: nat): (nat, seq<Diagnostic>)
    requires pos <= |toks|
  {
    Handled(ParseDefinition(Plain, ops, toks, pos), ParsedDefinition, toks)
  }

  function HandleExtern(toks: seq<Token>, pos: nat): (nat, seq<Diagnostic>)
    requires pos <= |toks|
  {
    Handled(ParseExtern(Plain, toks, pos), ParsedExtern, toks)
  }

  function HandleTopLevelExpression(ops: map<char, int>, toks: seq<Token>, pos: nat): (nat, seq<Diagnostic>)
    requires pos <= |toks|
  {
    Handled(ParseTopLevelExpr(Plain, ops, toks, pos), ParsedTopLevelExpr, toks)
  }

  /** One iteration of MainLoop at a token that is not tok_eof: ';' is
      eaten silently, def and extern go to their handlers, and anything
      else is read as a top-level expression.  It always moves CurTok on. */
  function Step(ops: map<char, int>, toks: seq<Token>, pos: nat): (r: (nat, seq<Diagnostic>))
    requires pos <= |toks| && Cur(toks, pos) != Eof
    ensures pos < r.0 <= |toks|
  {
    var t := Cur(toks, pos);
    if t == Char(';') then (pos + 1, [])
    else if t == Def then HandleDefinition(ops, toks, pos)
    else if t == Extern then HandleExtern(toks, pos)
    else HandleTopLevelExpression(ops, toks, pos)
  }

  /** MainLoop from position pos: where it returns, which is at tok_eof,
      and everything it writes to stderr. */
  function Run(ops: map<char, int>, toks: seq<Token>, pos: nat): (r: (nat, seq<Diagnostic>))
    requires pos <= |toks|
    ensures pos <= r.0 <= |toks| && Cur(toks, r.0) == Eof
    decreases |toks| - pos
  {
    if Cur(toks, pos) == Eof then (pos, [])
    else
      var (next, out) := Step(ops, toks, pos);
      var (end, rest) := Run(ops, toks, next);
      (end, out + rest)
  }

  // -----------------------------------------------------------------------
  // The handlers and the loop

  /** HandleDefinition, HandleExtern and HandleTopLevelExpression differ
      only in the parse function they call and in their report. */
  method HandleDefinitionOn(p: Parser.ParserState)
    requires p.Valid()
    modifies p
    ensures p.Valid() && p.declared == old(p.declared)
    ensures (p.pos, p.diagnostics)
         == (HandleDefinition(p.declared, p.toks, old(p.pos)).0,
             old(p.diagnostics) + HandleDefinition(p.declared, p.toks, old(p.pos)).1)
  {
    var f := Parser.ParseDefinition(p);
    if f.Some? {
      assert p.diagnostics == old(p.diagnostics);
      p.diagnostics := p.diagnostics + [ParsedDefinition];
    } else {
      var _ := p.GetNextToken();
    }
  }

  method HandleExternOn(p: Parser.ParserState)
    requires p.Valid()
    modifies p
    ensures p.Valid() && p.declared == old(p.declared)
    ensures (p.pos, p.diagnostics)
         == (HandleExtern(p.toks, old(p.pos)).0, old(p.diagnostics) + HandleExtern(p.toks, old(p.pos)).1)
  {
    var proto := Parser.ParseExtern(p);
    if proto.Some? {
      assert p.diagnostics == old(p.diagnostics);
      p.diagnostics := p.diagnostics + [ParsedExtern];
    } else {
      var _ := p.GetNextToken();
    }
  }

  method HandleTopLevelExpressionOn(p: Parser.ParserState)
    requires p.Valid()
    modifies p
    ensures p.Valid() && p.declared == old(p.declared)
    ensures (p.pos, p.diagnostics)
         == (HandleTopLevelExpression(p.declared, p.toks, old(p.pos)).0,
             old(p.diagnostics) + HandleTopLevelExpression(p.declared, p.toks, old(p.pos)).1)
  {
    var f := Parser.ParseTopLevelExpr(p);
    if f.Some? {
      assert p.diagnostics == old(p.diagnostics);
      p.diagnostics := p.diagnostics + [ParsedTopLevelExpr];
    } else {
      var _ := p.GetNextToken();
    }
  }

  /** One iteration of the loop's switch, at a token that is not tok_eof:
      it does what Step says, so what the rest of the loop will write
      completes what has been written to what the whole loop writes. */
  method StepOn(p: Parser.ParserState)
    requires p.Valid() && p.CurTok() != Eof
    modifies p
    ensures p.Valid() && p.declared == old(p.declared) && old(p.pos) < p.pos
    ensures (p.pos, p.diagnostics)
         == (Step(p.declared, p.toks, old(p.pos)).0, old(p.diagnostics) + Step(p.declared, p.toks, old(p.pos)).1)
    ensures Run(p.declared, p.toks, p.pos).0 == Run(p.declared, p.toks, old(p.pos)).0
    ensures p.diagnostics + Run(p.declared, p.toks, p.pos).1 == old(p.diagnostics) + Run(p.declared, p.toks, old(p.pos)).1
  {
    RunAfterStep(p.declared, p.toks, p.pos, p.diagnostics);
    var t := p.CurTok();
    if t == Char(';') {
      var _ := p.GetNextToken();
      assert p.diagnostics == old(p.diagnostics) + [];
    } else if t == Def {
      HandleDefinitionOn(p);
    } else if t == Extern {
      HandleExternOn(p);
    } else {
      HandleTopLevelExpressionOn(p);
    }
  }

  /** top ::= definition | external | expression | ';'
      The loop returns exactly at tok_eof, having written what Run says. */
  method MainLoop(p: Parser.ParserState)
    requires p.Valid()
    modifies p
    ensures p.Valid() && p.declared == old(p.declared) && p.CurTok() == Eof
    ensures p.pos == Run(p.declared, p.toks, old(p.pos)).0
    ensures p.diagnostics == old(p.diagnostics) + Run(p.declared, p.toks, old(p.pos)).1
  {
    while p.CurTok() != Eof
      invariant p.Valid() && p.declared == old(p.declared)
      invariant Run(p.declared, p.toks, p.pos).0 == Run(p.declared, p.toks, old(p.pos)).0
      invariant p.diagnostics + Run(p.declared, p.toks, p.pos).1 == old(p.diagnostics) + Run(p.declared, p.toks, old(p.pos)).1
      decreases |p.toks| - p.pos
    {
      StepOn(p);
    }
  }

  /** MainLoop at a token that is not tok_eof: one iteration, then the
      rest of the loop. */
  lemma RunUnfolds(ops: map<char, int>, toks: seq<Token>, pos: nat)
    requires pos <= |toks| && Cur(toks, pos) != Eof
    ensures var step := Step(ops, toks, pos);
            Run(ops, toks, pos) == (Run(ops, toks, step.0).0, step.1 + Run(ops, toks, step.0).1)
  {
  }

  /** One iteration of the loop, then the rest of the loop: what has been
      written, then what the step writes, then what the rest writes, is
      what has been written followed by what the loop writes. */
  lemma RunAfterStep(ops: map<char, int>, toks: seq<Token>, pos: nat, before: seq<Diagnostic>)
    requires pos <= |toks| && Cur(toks, pos) != Eof
    ensures var step := Step(ops, toks, pos);
            && Run(ops, toks, step.0).0 == Run(ops, toks, pos).0
            && (before + step.1) + Run(ops, toks, step.0).1 == before + Run(ops, toks, pos).1
  {
    var step := Step(ops, toks, pos);
    RunUnfolds(ops, toks, pos);
    ConcatAssociates(before, step.1, Run(ops, toks, step.0).1);
  }


  /** main: install the standard operators, prime the first token and run
      the loop over the tokens the lexer makes of the whole input. */
  method RunMain(input: string) returns (diagnostics: seq<Diagnostic>)
    ensures diagnostics == Run(DefaultPrecedence, Lexer.TokenStream(input), 0).1
  {
    var p := new Parser.ParserState(Lexer.TokenStream(input));
    // The four standard operators, the loosest first.
    p.SetPrecedence('<', 10);
    p.SetPrecedence('+', 20);
    p.SetPrecedence('-', 20);
    p.SetPrecedence('*', 40);
    assert p.declared == DefaultPrecedence by {
      assert p.declared == map[][ '<' := 10][ '+' := 20][ '-' := 20][ '*' := 40];
    }
    MainLoop(p);
    diagnostics := p.diagnostics;
  }

  // -----------------------------------------------------------------------
  // Properties of the loop

  /** MainLoop stays where it is exactly when CurTok is tok_eof: it returns
      at once there, and anywhere else it moves on before it can return. */
  lemma RunStopsOnlyAtEof(ops: map<char, int>, toks: seq<Token>, pos: nat)
    requires pos <= |toks|
    ensures Run(ops, toks, pos).0 == pos <==> Cur(toks, pos) == Eof
    ensures Cur(toks, pos) == Eof ==> Run(ops, toks, pos).1 == []
  {
  }

  /** A top-level ';' is eaten and writes nothing. */
  lemma SemicolonIsSkipped(ops: map<char, int>, toks: seq<Token>, pos: nat)
    requires pos < |toks| && toks[pos] == Char(';')
    ensures Run(ops, toks, pos) == Run(ops, toks, pos + 1)
  {
    assert Step(ops, toks, pos) == (pos + 1, []);
    assert [] + Run(ops, toks, pos + 1).1 == Run(ops, toks, pos + 1).1;
  }

  /** def goes to HandleDefinition, extern to HandleExtern, and every other
      token but ';' and tok_eof to HandleTopLevelExpression. */
  lemma DispatchRule(ops: map<char, int>, toks: seq<Token>, pos: nat)
    requires pos < |toks| && toks[pos] != Eof && toks[pos] != Char(';')
    ensures toks[pos] == Def ==> Step(ops, toks, pos) == HandleDefinition(ops, toks, pos)
    ensures toks[pos] == Extern ==> Step(ops, toks, pos) == HandleExtern(toks, pos)
    ensures toks[pos] != Def && toks[pos] != Extern ==>
              Step(ops, toks, pos) == HandleTopLevelExpression(ops, toks, pos)
  {
  }

  /** A handler writes exactly one line: the report when its parse succeeds,
      with CurTok where the parse left it; otherwise the parser's one error,
      with exactly one more token skipped past where it was logged. */
  lemma HandlerWritesOneLine<T>(r: Parsed<T>, report: Diagnostic, toks: seq<Token>)
    requires r.End() <= |toks| && !report.Error?
    ensures var (next, out) := Handled(r, report, toks);
            && |out| == 1
            && (r.Ok? <==> out == [report])
            && (r.Ok? ==> next == r.next)
            && (r.Fail? ==> out == [Error(r.error)] && next == Advance(toks, r.at))
            && (r.Fail? && r.at < |toks| ==> next == r.at + 1)
  {
  }

  /** Every line written stands for at least one token consumed, so a run
      writes no more lines than there are tokens left. */
  lemma {:induction false} RunWritesAtMostOneLinePerToken(ops: map<char, int>, toks: seq<Token>, pos: nat)
    requires pos <= |toks|
    ensures |Run(ops, toks, pos).1| <= |toks| - pos
    decreases |toks| - pos
  {
    if Cur(toks, pos) != Eof {
      var step := Step(ops, toks, pos);
      RunWritesAtMostOneLinePerToken(ops, toks, step.0);
      if toks[pos] != Char(';') {
        DispatchRule(ops, toks, pos);
        assert |step.1| == 1;
      }
    }
  }
}
