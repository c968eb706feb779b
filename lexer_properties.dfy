/** What gettok promises, stated over the index model of module Lexer. */
module LexerProperties {
  import opened TokenKinds
  import opened Lexer

  /** Every character in [from, to) satisfies the class. */
  predicate AllSpace(s: seq<char>, from: nat, to: nat) {
    forall i :: from <= i < to ==> IsSpace(At(s, i))
  }

  predicate AllAlnum(s: seq<char>, from: nat, to: nat) {
    forall i :: from <= i < to ==> IsAlnum(At(s, i))
  }

  predicate AllNumChars(s: seq<char>, from: nat, to: nat) {
    forall i :: from <= i < to ==> IsNumChar(At(s, i))
  }

  predicate AllCommentChars(s: seq<char>, from: nat, to: nat) {
    forall i :: from <= i < to ==> IsCommentChar(At(s, i))
  }

  // ---------------------------------------------------------------------
  // The four loops of gettok stop exactly at the end of a maximal run.

  lemma {:induction false} SkipSpaceIsMaximalRun(s: seq<char>, k: nat, j: nat)
    requires k <= j <= |s|
    requires AllSpace(s, k, j) && !IsSpace(At(s, j))
    ensures SkipSpace(s, k) == j
    decreases j - k
  {
    if k < j {
      SkipSpaceIsMaximalRun(s, k + 1, j);
    }
  }

  lemma {:induction false} SpanAlnumIsMaximalRun(s: seq<char>, k: nat, j: nat)
    requires k <= j <= |s|
    requires AllAlnum(s, k, j) && !IsAlnum(At(s, j))
    ensures SpanAlnum(s, k) == j
    decreases j - k
  {
    if k < j {
      SpanAlnumIsMaximalRun(s, k + 1, j);
    }
  }

  lemma {:induction false} SpanNumIsMaximalRun(s: seq<char>, k: nat, j: nat)
    requires k <= j <= |s|
    requires AllNumChars(s, k, j) && !IsNumChar(At(s, j))
    ensures SpanNum(s, k) == j
    decreases j - k
  {
    if k < j {
      SpanNumIsMaximalRun(s, k + 1, j);
    }
  }

  lemma {:induction false} SkipCommentIsMaximalRun(s: seq<char>, k: nat, j: nat)
    requires k <= j <= |s|
    requires AllCommentChars(s, k, j) && !IsCommentChar(At(s, j))
    ensures SkipComment(s, k) == j
    decreases j - k
  {
    if k < j {
      SkipCommentIsMaximalRun(s, k + 1, j);
    }
  }

  // ---------------------------------------------------------------------
  // What one call returns, case by case.

  /** All whitespace before a token is skipped: lexing from k gives what
      lexing from the first non-space does. */
  lemma {:induction false} LexSkipsSpace(s: seq<char>, k: nat, j: nat)
    requires k <= j <= |s| && AllSpace(s, k, j)
    ensures SkipSpace(s, k) == SkipSpace(s, j)
    ensures LexOne(s, k) == LexOne(s, j)
    decreases j - k
  {
    if k < j {
      LexSkipsSpace(s, k + 1, j);
    }
  }

  /** An identifier is the maximal run [a-zA-Z][a-zA-Z0-9]*; it is a keyword
      exactly when it spells "def" or "extern", and the character that ends
      the run stays buffered. */
  lemma LexIdentifier(s: seq<char>, k: nat, j: nat, e: nat)
    requires k <= j < e <= |s|
    requires AllSpace(s, k, j) && IsAlpha(At(s, j))
    requires AllAlnum(s, j, e) && !IsAlnum(At(s, e))
    ensures LexOne(s, k) == (Keyword(s[j..e]), e)
  {
    LexSkipsSpace(s, k, j);
    SpanAlnumIsMaximalRun(s, j, e);
  }

  /** A number is the maximal run of digits and dots, which may start with a
      dot and is not checked any further. */
  lemma LexNumber(s: seq<char>, k: nat, j: nat, e: nat)
    requires k <= j < e <= |s|
    requires AllSpace(s, k, j) && IsNumChar(At(s, j))
    requires AllNumChars(s, j, e) && !IsNumChar(At(s, e))
    ensures LexOne(s, k) == (Number(s[j..e]), e)
  {
    LexSkipsSpace(s, k, j);
    assert !IsAlpha(At(s, j));
    SpanNumIsMaximalRun(s, j, e);
  }

  /** A comment runs from '#' to the next line end or EOF and is invisible:
      the call returns what lexing after it returns (tok_eof at the end). */
  lemma LexComment(s: seq<char>, k: nat, j: nat, e: nat)
    requires k <= j < e <= |s|
    requires AllSpace(s, k, j) && At(s, j) == '#' as int
    requires AllCommentChars(s, j + 1, e) && !IsCommentChar(At(s, e))
    ensures LexOne(s, k) == LexOne(s, e)
    ensures e == |s| ==> LexOne(s, k) == (Eof, |s|)
  {
    LexSkipsSpace(s, k, j);
    SkipCommentIsMaximalRun(s, j + 1, e);
    LexAtEnd(s);
  }

  /** Any other character is returned as itself, and exactly that one
      character is consumed. */
  lemma LexRawChar(s: seq<char>, k: nat, j: nat)
    requires k <= j < |s|
    requires AllSpace(s, k, j) && IsRawChar(At(s, j))
    ensures LexOne(s, k) == (Char(s[j]), j + 1)
    ensures Tag(LexOne(s, k).0) == At(s, j)
  {
    LexSkipsSpace(s, k, j);
  }

  /** At EOF tok_eof is returned and nothing is consumed, so every later
      call returns tok_eof again. */
  lemma LexAtEnd(s: seq<char>)
    ensures LexOne(s, |s|) == (Eof, |s|)
    ensures Tokens(s, |s|) == []
  {
  }

  /** Whatever a call returns, the call after a tok_eof returns tok_eof. */
  lemma EofIsSticky(s: seq<char>, k: nat)
    requires k <= |s| && LexOne(s, k).0 == Eof
    ensures LexOne(s, LexOne(s, k).1) == (Eof, |s|)
  {
    LexAtEnd(s);
  }

  /** Before the first call the buffered character is a space, so the first
      call starts on the first character of the input. */
  lemma FirstCallReadsInput(input: seq<char>)
    ensures At(Chars(input), 0) == ' ' as int
    ensures LexOne(Chars(input), 0) == LexOne(Chars(input), 1)
    ensures forall i :: 0 <= i < |input| ==> At(Chars(input), i + 1) == input[i] as int
  {
    LexSkipsSpace(Chars(input), 0, 1);
  }

  // ---------------------------------------------------------------------
  // Inputs made only of whitespace and comments.

  /** From k on there is nothing but whitespace and comments. */
  predicate Blank(s: seq<char>, k: nat)
    requires k <= |s|
    decreases |s| - k
  {
    if k == |s| then true
    else if IsSpace(At(s, k)) then Blank(s, k + 1)
    else if At(s, k) == '#' as int then
      var e := SkipComment(s, k + 1);
      e == |s| || Blank(s, e)
    else false
  }

  /** On whitespace and comments alone the lexer returns tok_eof directly,
      without any other token. */
  lemma {:induction false} BlankGivesEof(s: seq<char>, k: nat)
    requires k <= |s| && Blank(s, k)
    ensures LexOne(s, k) == (Eof, |s|)
    ensures Tokens(s, k) == []
    decreases |s| - k
  {
    if k == |s| {
      LexAtEnd(s);
    } else if IsSpace(At(s, k)) {
      BlankGivesEof(s, k + 1);
      LexSkipsSpace(s, k, k + 1);
    } else {
      var e := SkipComment(s, k + 1);
      assert LexOne(s, k) == if e == |s| then (Eof, e) else LexOne(s, e);
      if e < |s| {
        BlankGivesEof(s, e);
      }
    }
  }

  // ---------------------------------------------------------------------
  // The token stream as a whole.

  /** Every raw character token of a byte input is a byte that gettok does
      not otherwise classify; its tag lies in 0..255, apart from every
      special tag. */
  lemma {:induction false} RawTokensAreBytes(s: seq<char>, k: nat)
    requires k <= |s| && IsByteString(s)
    ensures forall i :: 0 <= i < |Tokens(s, k)| && Tokens(s, k)[i].Char? ==>
      IsRawChar(Tokens(s, k)[i].c as int) && 0 <= Tag(Tokens(s, k)[i]) < 256
    decreases |s| - k
  {
    var (t, e) := LexOne(s, k);
    if t != Eof {
      RawTokensAreBytes(s, e);
      assert Tokens(s, k) == [t] + Tokens(s, e);
      if t.Char? {
        assert IsByteChar(s[e - 1]);
      }
    }
  }

  /** "def" followed by a space is the keyword; the space stays buffered. */
  lemma DefKeywordExample()
    ensures LexOne(Chars("def f"), 0) == (Def, 4)
  {
    LexIdentifier(Chars("def f"), 0, 1, 4);
  }

  /** A run that merely starts with "def" is an ordinary identifier. */
  lemma DefPrefixIsIdentifierExample()
    ensures LexOne(Chars("def1 x"), 0) == (Identifier("def1"), 5)
  {
    LexIdentifier(Chars("def1 x"), 0, 1, 5);
    assert Chars("def1 x")[1..5] == "def1";
  }

  /** A malformed numeral such as 1.2.3 is still a single number token. */
  lemma MalformedNumberExample()
    ensures LexOne(Chars("1.2.3+"), 0) == (Number("1.2.3"), 6)
  {
    LexNumber(Chars("1.2.3+"), 0, 1, 6);
    assert Chars("1.2.3+")[1..6] == "1.2.3";
  }

  /** A number may start with a dot. */
  lemma LeadingDotNumberExample()
    ensures LexOne(Chars(".5"), 0) == (Number(".5"), 3)
  {
    LexNumber(Chars(".5"), 0, 1, 3);
    assert Chars(".5")[1..3] == ".5";
  }
}
