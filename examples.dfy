/** Worked inputs: what the lexer, the parser and the driver make of a few
    small programs, with the operators main installs. */
module Examples {
  import opened TokenKinds
  import opened Lexer
  import opened LexerProperties
  import opened Ast
  import opened ParserSpec
  import opened ParserProperties
  import opened Driver

  function N(lexeme: string): Expr {
    NumberExpr(Plain, lexeme)
  }

  function V(name: string): Expr {
    VariableExpr(Plain, name)
  }

  function B(op: char, lhs: Expr, rhs: Expr): Expr {
    BinaryExpr(Plain, op, lhs, rhs)
  }

  /** The standard operators have the precedences main gives them; '/' and
      the punctuation of the grammar are no operators. */
  lemma DefaultPrecedences()
    ensures TokPrecedence(DefaultPrecedence, Char('<')) == 10
    ensures TokPrecedence(DefaultPrecedence, Char('+')) == 20
    ensures TokPrecedence(DefaultPrecedence, Char('-')) == 20
    ensures TokPrecedence(DefaultPrecedence, Char('*')) == 40
    ensures TokPrecedence(DefaultPrecedence, Char('/')) == -1
    ensures TokPrecedence(DefaultPrecedence, Char(')')) == -1
    ensures TokPrecedence(DefaultPrecedence, Char(',')) == -1
    ensures TokPrecedence(DefaultPrecedence, Char(';')) == -1
  {
  }

  /** With main's table, every character but the four standard operators is
      no operator. */
  lemma OtherCharactersAreNoOperators(c: char)
    requires c != '<' && c != '+' && c != '-' && c != '*'
    ensures TokPrecedence(DefaultPrecedence, Char(c)) == -1
  {
  }

  /** 1+2*3 is 1+(2*3). */
  lemma TighterOperatorExample()
    ensures ParseExpression(Plain, DefaultPrecedence, [Number("1"), Char('+'), Number("2"), Char('*'), Number("3")], 0)
         == Ok(B('+', N("1"), B('*', N("2"), N("3"))), 5)
  {
    DefaultPrecedences();
    TighterNestsRight(Plain, DefaultPrecedence, "1", '+', "2", '*', "3");
  }

  /** 1-2-3 is (1-2)-3. */
  lemma LeftAssociativityExample()
    ensures ParseExpression(Plain, DefaultPrecedence, [Number("1"), Char('-'), Number("2"), Char('-'), Number("3")], 0)
         == Ok(B('-', B('-', N("1"), N("2")), N("3")), 5)
  {
    DefaultPrecedences();
    LooserOrEqualAssociatesLeft(Plain, DefaultPrecedence, "1", '-', "2", '-', "3");
  }

  /** 1-2+3-4 is ((1-2)+3)-4: '+' and '-' share a precedence, so the whole
      chain is grouped from the left. */
  lemma LongChainExample()
    ensures ParseExpression(Plain, DefaultPrecedence,
              [Number("1"), Char('-'), Number("2"), Char('+'), Number("3"), Char('-'), Number("4")], 0)
         == Ok(B('-', B('+', B('-', N("1"), N("2")), N("3")), N("4")), 7)
  {
    var toks := [Number("1"), Char('-'), Number("2"), Char('+'), Number("3"), Char('-'), Number("4")];
    var os, es, ends := ['-', '+', '-'], [N("2"), N("3"), N("4")], [3, 5, 7];
    DefaultPrecedences();
    assert ParsePrimary(Plain, DefaultPrecedence, toks, 0) == Ok(N(toks[0].lexeme), 1);
    assert ParsePrimary(Plain, DefaultPrecedence, toks, 2) == Ok(N(toks[2].lexeme), 3);
    assert ParsePrimary(Plain, DefaultPrecedence, toks, 4) == Ok(N(toks[4].lexeme), 5);
    assert ParsePrimary(Plain, DefaultPrecedence, toks, 6) == Ok(N(toks[6].lexeme), 7);
    assert EqualChain(Plain, DefaultPrecedence, toks, 7, 20, os[3..], es[3..], ends[3..]);
    assert EqualChain(Plain, DefaultPrecedence, toks, 5, 20, os[2..], es[2..], ends[2..]);
    assert EqualChain(Plain, DefaultPrecedence, toks, 3, 20, os[1..], es[1..], ends[1..]);
    assert EqualChain(Plain, DefaultPrecedence, toks, 1, 20, os, es, ends);
    assert FoldLeft(Plain, N("1"), os[..1], es[..1]) == B('-', N("1"), N("2"));
    assert FoldLeft(Plain, N("1"), os[..2], es[..2]) == B('+', B('-', N("1"), N("2")), N("3"));
    assert FoldLeft(Plain, N("1"), os, es) == B('-', B('+', B('-', N("1"), N("2")), N("3")), N("4"));
    EqualPrecedenceAssociatesLeft(Plain, DefaultPrecedence, toks, 0, N("1"), 1, 20, os, es, ends);
  }

  /** The prototype foo(a b a) has three arguments, the repeated name
      kept in its place. */
  lemma DuplicateArgumentsExample()
    ensures var r := ParsePrototype(Plain, [Identifier("foo"), Char('('), Identifier("a"), Identifier("b"),
                                            Identifier("a"), Char(')')], 0);
            && r == Ok(Prototype(Plain, "foo", ["a", "b", "a"]), 6)
            && GetName(r.value) == "foo" && Arity(r.value) == 3
  {
    var toks := [Identifier("foo"), Char('('), Identifier("a"), Identifier("b"), Identifier("a"), Char(')')];
    assert ArgNames(toks, 5) == [];
    assert ArgNames(toks, 4) == ["a"];
    assert ArgNames(toks, 3) == ["b", "a"];
    assert ArgNames(toks, 2) == ["a", "b", "a"];
  }

  /** (1+2)*3: the parentheses make the sum the left operand of '*'. */
  lemma ParenthesesExample()
    ensures ParseExpression(Plain, DefaultPrecedence,
              [Char('('), Number("1"), Char('+'), Number("2"), Char(')'), Char('*'), Number("3")], 0)
         == Ok(B('*', B('+', N("1"), N("2")), N("3")), 7)
  {
    var ops := DefaultPrecedence;
    var toks := [Char('('), Number("1"), Char('+'), Number("2"), Char(')'), Char('*'), Number("3")];
    DefaultPrecedences();
    var sum := B('+', N("1"), N("2"));
    assert ParsePrimary(Plain, ops, toks, 1) == Ok(N("1"), 2);
    assert ParsePrimary(Plain, ops, toks, 3) == Ok(N("2"), 4);
    assert ClimbRound(Plain, ops, toks, 2, N("1")) == Ok(sum, 4);
    assert ParseBinOpRHS(Plain, ops, toks, 2, 0, N("1")) == Ok(sum, 4);
    assert ParseExpression(Plain, ops, toks, 1) == Ok(sum, 4);
    assert ParsePrimary(Plain, ops, toks, 0) == Ok(sum, 5);
    assert ParsePrimary(Plain, ops, toks, 6) == Ok(N("3"), 7);
    assert ClimbRound(Plain, ops, toks, 5, sum) == Ok(B('*', sum, N("3")), 7);
  }

  /** def foo(a b) a+b: a function of the two arguments a and b, in that
      order, whose body is a+b. */
  lemma DefinitionExample()
    ensures ParseDefinition(Plain, DefaultPrecedence,
              [Def, Identifier("foo"), Char('('), Identifier("a"), Identifier("b"), Char(')'),
               Identifier("a"), Char('+'), Identifier("b")], 0)
         == Ok(Function(Plain, Prototype(Plain, "foo", ["a", "b"]), B('+', V("a"), V("b"))), 9)
  {
    var ops := DefaultPrecedence;
    var toks := [Def, Identifier("foo"), Char('('), Identifier("a"), Identifier("b"), Char(')'),
                 Identifier("a"), Char('+'), Identifier("b")];
    DefaultPrecedences();
    assert ArgNames(toks, 5) == [];
    assert ArgNames(toks, 3) == ["a", "b"];
    assert ParsePrototype(Plain, toks, 1) == Ok(Prototype(Plain, "foo", ["a", "b"]), 6);
    assert ParsePrimary(Plain, ops, toks, 6) == Ok(V("a"), 7);
    assert ParsePrimary(Plain, ops, toks, 8) == Ok(V("b"), 9);
    assert ClimbRound(Plain, ops, toks, 7, V("a")) == Ok(B('+', V("a"), V("b")), 9);
    assert ParseExpression(Plain, ops, toks, 6) == Ok(B('+', V("a"), V("b")), 9);
  }

  /** foo(1,2,3 at the end of the input: after the third argument there is
      neither ',' nor ')', so the call fails there, at tok_eof. */
  lemma UnclosedCallExample()
    ensures ParseIdentifierExpr(Plain, DefaultPrecedence, UnclosedCall, 0) == Fail(ExpectedCloseOrComma, 7)
  {
    UnclosedArguments();
  }

  const UnclosedCall: seq<Token> :=
    [Identifier("foo"), Char('('), Number("1"), Char(','), Number("2"), Char(','), Number("3")]

  lemma UnclosedArguments()
    ensures ParseArgs(Plain, DefaultPrecedence, UnclosedCall, 2, []) == Fail(ExpectedCloseOrComma, 7)
  {
    LastUnclosedArgument();
    NumberAlone(Plain, DefaultPrecedence, UnclosedCall, 2);
    NumberAlone(Plain, DefaultPrecedence, UnclosedCall, 4);
    assert ParseArgs(Plain, DefaultPrecedence, UnclosedCall, 4, [N("1")]) == Fail(ExpectedCloseOrComma, 7);
  }

  lemma LastUnclosedArgument()
    ensures ParseArgs(Plain, DefaultPrecedence, UnclosedCall, 6, [N("1"), N("2")]) == Fail(ExpectedCloseOrComma, 7)
  {
    DefaultPrecedences();
    NumberAlone(Plain, DefaultPrecedence, UnclosedCall, 6);
  }

  /** extern sin(x); ) 4 : the extern is reported; the ')' cannot start an
      expression, so it is reported as an error and skipped; then 4 is a
      top-level expression. */
  lemma DriverRecoveryExample()
    ensures Run(DefaultPrecedence, Recovery, 0) == (8, [ParsedExtern, Error(UnknownToken), ParsedTopLevelExpr])
  {
    ExternStep();
    RecoveryTail();
    RunUnfolds(DefaultPrecedence, Recovery, 0);
    assert [ParsedExtern] + [Error(UnknownToken), ParsedTopLevelExpr]
        == [ParsedExtern, Error(UnknownToken), ParsedTopLevelExpr];
  }

  const Recovery: seq<Token> :=
    [Extern, Identifier("sin"), Char('('), Identifier("x"), Char(')'), Char(';'), Char(')'), Number("4")]

  lemma ExternStep()
    ensures Step(DefaultPrecedence, Recovery, 0) == (5, [ParsedExtern])
  {
    assert ArgNames(Recovery, 4) == [];
    assert ArgNames(Recovery, 3) == ["x"];
    assert ParseExtern(Plain, Recovery, 0) == Ok(Prototype(Plain, "sin", ["x"]), 5);
  }

  lemma RecoveryTail()
    ensures Run(DefaultPrecedence, Recovery, 5) == (8, [Error(UnknownToken), ParsedTopLevelExpr])
  {
    var ops := DefaultPrecedence;
    RecoveryLast();
    assert ParseExpression(Plain, ops, Recovery, 6) == Fail(UnknownToken, 6);
    assert Step(ops, Recovery, 6) == (7, [Error(UnknownToken)]);
    RunUnfolds(ops, Recovery, 6);
    assert [Error(UnknownToken)] + [ParsedTopLevelExpr] == [Error(UnknownToken), ParsedTopLevelExpr];
    assert Step(ops, Recovery, 5) == (6, []);
    RunUnfolds(ops, Recovery, 5);
    assert [] + [Error(UnknownToken), ParsedTopLevelExpr] == [Error(UnknownToken), ParsedTopLevelExpr];
  }

  lemma RecoveryLast()
    ensures Run(DefaultPrecedence, Recovery, 7) == (8, [ParsedTopLevelExpr])
  {
    LastExpressionStep();
    RunUnfolds(DefaultPrecedence, Recovery, 7);
    assert Run(DefaultPrecedence, Recovery, 8) == (8, []);
    assert [ParsedTopLevelExpr] + [] == [ParsedTopLevelExpr];
  }

  lemma LastExpressionStep()
    ensures Step(DefaultPrecedence, Recovery, 7) == (8, [ParsedTopLevelExpr])
  {
    DefaultPrecedences();
    NumberAlone(Plain, DefaultPrecedence, Recovery, 7);
  }

  const Sum: seq<Token> := [Number("1"), Char('+'), Number("2"), Char('*'), Number("3")]

  /** The text 1+2*3 from lexer to driver: five tokens, then one top-level
      expression reported. */
  lemma EndToEndExample()
    ensures TokenStream("1+2*3") == Sum
    ensures Run(DefaultPrecedence, TokenStream("1+2*3"), 0) == (5, [ParsedTopLevelExpr])
  {
    LexSumExample();
    RunSumExample();
  }

  lemma RunSumExample()
    ensures Run(DefaultPrecedence, Sum, 0) == (5, [ParsedTopLevelExpr])
  {
    TighterOperatorExample();
    assert Step(DefaultPrecedence, Sum, 0) == (5, [ParsedTopLevelExpr]);
    RunUnfolds(DefaultPrecedence, Sum, 0);
    assert Run(DefaultPrecedence, Sum, 5) == (5, []);
    assert [ParsedTopLevelExpr] + [] == [ParsedTopLevelExpr];
  }

  lemma LexSumExample()
    ensures TokenStream("1+2*3") == Sum
  {
    var s := Chars("1+2*3");
    LexSumTail();
    assert s == " 1+2*3";
    LexNumber(s, 0, 1, 2);
    assert s[1..2] == "1";
    LexRawChar(s, 2, 2);
    assert Tokens(s, 2) == [Char('+')] + Tokens(s, 3);
  }

  lemma LexSumTail()
    ensures Tokens(Chars("1+2*3"), 3) == [Number("2"), Char('*'), Number("3")]
  {
    var s := Chars("1+2*3");
    assert s == " 1+2*3";
    LexNumber(s, 3, 3, 4);
    assert s[3..4] == "2";
    LexRawChar(s, 4, 4);
    LexNumber(s, 5, 5, 6);
    assert s[5..6] == "3";
    LexAtEnd(s);
    assert Tokens(s, 5) == [Number("3")];
    assert Tokens(s, 4) == [Char('*'), Number("3")];
  }
}
