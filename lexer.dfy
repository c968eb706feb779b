/** The Kaleidoscope lexer (gettok).
    The lexer keeps one buffered look-ahead character, LastChar, which starts
    as a space.  The characters it sees are therefore that space followed by
    the input (Chars).  An index k into Chars says where the lexer stands:
    the character at k is the one buffered in LastChar, and k == |Chars|
    means that LastChar holds EOF.  Reading past the end keeps returning EOF,
    so the index then stays at the end. */
module Lexer {
  import opened TokenKinds

  const EOF: int := -1

  // Character classes of the C library in the "C" locale, on the int that
  // getchar returns (EOF belongs to none of them).

  predicate IsSpace(c: int) {
    c == ' ' as int || '\t' as int <= c <= '\r' as int
  }

  predicate IsAlpha(c: int) {
    'a' as int <= c <= 'z' as int || 'A' as int <= c <= 'Z' as int
  }

  predicate IsDigit(c: int) {
    '0' as int <= c <= '9' as int
  }

  predicate IsAlnum(c: int) {
    IsAlpha(c) || IsDigit(c)
  }

  /** Characters that continue a number: [0-9.] */
  predicate IsNumChar(c: int) {
    IsDigit(c) || c == '.' as int
  }

  /** Characters a comment swallows: everything but EOF and a line end. */
  predicate IsCommentChar(c: int) {
    c != EOF && c != '\n' as int && c != '\r' as int
  }

  /** A character that gettok returns as its own value. */
  predicate IsRawChar(c: int) {
    c != EOF && !IsSpace(c) && !IsAlpha(c) && !IsNumChar(c) && c != '#' as int
  }

  /** getchar delivers bytes. */
  predicate IsByteString(s: seq<char>) {
    forall i :: 0 <= i < |s| ==> IsByteChar(s[i])
  }

  /** The characters the lexer reads: LastChar's initial space, then the input. */
  function Chars(input: seq<char>): seq<char> {
    [' '] + input
  }

  /** The character at k as getchar delivers it, or EOF at the end. */
  function At(s: seq<char>, k: nat): int {
    if k < |s| then s[k] as int else EOF
  }

  /** The whitespace loop: the first index at or after k that holds no space. */
  function SkipSpace(s: seq<char>, k: nat): (j: nat)
    requires k <= |s|
    ensures k <= j <= |s|
    ensures !IsSpace(At(s, j))
    decreases |s| - k
  {
    if IsSpace(At(s, k)) then SkipSpace(s, k + 1) else k
  }

  /** The comment loop: the first index at or after k holding a line end,
      or the end. */
  function SkipComment(s: seq<char>, k: nat): (j: nat)
    requires k <= |s|
    ensures k <= j <= |s|
    ensures !IsCommentChar(At(s, j))
    decreases |s| - k
  {
    if IsCommentChar(At(s, k)) then SkipComment(s, k + 1) else k
  }

  /** The end of the run of alphanumeric characters that starts at k. */
  function SpanAlnum(s: seq<char>, k: nat): (j: nat)
    requires k <= |s|
    ensures k <= j <= |s|
    ensures !IsAlnum(At(s, j))
    decreases |s| - k
  {
    if IsAlnum(At(s, k)) then SpanAlnum(s, k + 1) else k
  }

  /** The end of the run of [0-9.] characters that starts at k. */
  function SpanNum(s: seq<char>, k: nat): (j: nat)
    requires k <= |s|
    ensures k <= j <= |s|
    ensures !IsNumChar(At(s, j))
    decreases |s| - k
  {
    if IsNumChar(At(s, k)) then SpanNum(s, k + 1) else k
  }

  /** An identifier run becomes a keyword exactly when it spells one. */
  function Keyword(w: string): (t: Token)
    ensures t == Def <==> w == "def"
    ensures t == Extern <==> w == "extern"
    ensures w != "def" && w != "extern" ==> t == Identifier(w)
  {
    if w == "def" then Def else if w == "extern" then Extern else Identifier(w)
  }

  /** One call of gettok with the lexer at k: the token returned and the
      index of the character then buffered in LastChar. */
  function LexOne(s: seq<char>, k: nat): (r: (Token, nat))
    requires k <= |s|
    ensures k <= r.1 <= |s|
    ensures r.0 == Eof ==> r.1 == |s|
    ensures r.0 != Eof ==> k < r.1
    ensures r.0.Char? ==> s[r.1 - 1] == r.0.c && IsRawChar(r.0.c as int)
    decreases |s| - k
  {
    var j := SkipSpace(s, k);
    if j == |s| then (Eof, j)
    else if IsAlpha(At(s, j)) then
      var e := SpanAlnum(s, j);
      (Keyword(s[j..e]), e)
    else if IsNumChar(At(s, j)) then
      var e := SpanNum(s, j);
      (Number(s[j..e]), e)
    else if At(s, j) == '#' as int then
      var e := SkipComment(s, j + 1);
      if e == |s| then (Eof, e) else LexOne(s, e)
    else
      (Char(s[j]), j + 1)
  }

  /** The tokens that successive calls of gettok return, starting at k,
      before the first tok_eof. */
  function Tokens(s: seq<char>, k: nat): (ts: seq<Token>)
    requires k <= |s|
    ensures forall i :: 0 <= i < |ts| ==> ts[i] != Eof
    decreases |s| - k
  {
    var (t, e) := LexOne(s, k);
    if t == Eof then [] else [t] + Tokens(s, e)
  }

  /** The token stream of a whole input. */
  function TokenStream(input: seq<char>): seq<Token> {
    Tokens(Chars(input), 0)
  }

  /** IdentifierStr after a call that returned t: the run for identifiers and
      keywords, unchanged otherwise. */
  predicate IdentifierChannel(t: Token, before: string, after: string) {
    match t
    case Identifier(n) => after == n
    case Def => after == "def"
    case Extern => after == "extern"
    case _ => after == before
  }

  /** NumVal after a call that returned t (the lexeme stands for the value). */
  predicate NumberChannel(t: Token, before: string, after: string) {
    if t.Number? then after == t.lexeme else after == before
  }

  /** gettok with its static LastChar and the IdentifierStr/NumVal globals. */
  class Lexer {
    const input: seq<char>
    /** How much of the input getchar has delivered. */
    var pos: nat
    var lastChar: int
    var identifierStr: string
    /** Stands for NumVal: the lexeme that strtod would convert. */
    var numVal: string

    /** Where the lexer stands in Chars(input). */
    ghost function Index(): nat
      reads this
    {
      if lastChar == EOF then |input| + 1 else pos
    }

    ghost predicate Valid()
      reads this
    {
      && pos <= |input|
      && (lastChar == EOF ==> pos == |input|)
      && lastChar == At(Chars(input), Index())
    }

    /** Before the first call LastChar is a space. */
    constructor (input: seq<char>)
      ensures Valid() && this.input == input
      ensures Index() == 0
      ensures identifierStr == "" && numVal == ""
    {
      this.input := input;
      pos := 0;
      lastChar := ' ' as int;
      identifierStr := "";
      numVal := "";
    }

    /** LastChar = getchar(); gettok only does this while LastChar is not EOF. */
    method ReadChar()
      requires Valid() && lastChar != EOF
      modifies this`pos, this`lastChar
      ensures Valid()
      ensures Index() == old(Index()) + 1
    {
      if pos < |input| {
        lastChar := input[pos] as int;
        pos := pos + 1;
      } else {
        lastChar := EOF;
      }
    }

    /** The whitespace loop of gettok. */
    method SkipWhitespace()
      requires Valid()
      modifies this`pos, this`lastChar
      ensures Valid()
      ensures Index() == SkipSpace(Chars(input), old(Index()))
    {
      while IsSpace(lastChar)
        invariant Valid() && old(Index()) <= Index()
        invariant SkipSpace(Chars(input), Index()) == SkipSpace(Chars(input), old(Index()))
        decreases |input| + 1 - Index()
      {
        ReadChar();
      }
    }

    /** The identifier loop of gettok: IdentifierStr becomes the maximal
        alphanumeric run, and the character after it stays buffered. */
    method ReadIdentifier()
      requires Valid() && IsAlpha(lastChar)
      modifies this`pos, this`lastChar, this`identifierStr
      ensures Valid()
      ensures Index() == SpanAlnum(Chars(input), old(Index()))
      ensures identifierStr == Chars(input)[old(Index())..Index()]
    {
      ghost var k := Index();
      assert Chars(input)[k..k + 1] == [lastChar as char];
      identifierStr := [lastChar as char];
      ReadChar();
      while IsAlnum(lastChar)
        invariant Valid() && k < Index()
        invariant identifierStr == Chars(input)[k..Index()]
        invariant SpanAlnum(Chars(input), Index()) == SpanAlnum(Chars(input), k)
        decreases |input| + 1 - Index()
      {
        identifierStr := identifierStr + [lastChar as char];
        ReadChar();
      }
    }

    /** The number loop of gettok (a do-while): the maximal run of digits
        and dots, with the character after it left buffered. */
    method ReadNumber() returns (numStr: string)
      requires Valid() && IsNumChar(lastChar)
      modifies this`pos, this`lastChar
      ensures Valid()
      ensures Index() == SpanNum(Chars(input), old(Index()))
      ensures numStr == Chars(input)[old(Index())..Index()]
    {
      ghost var k := Index();
      assert Chars(input)[k..k + 1] == [lastChar as char];
      numStr := [lastChar as char];
      ReadChar();
      while IsNumChar(lastChar)
        invariant Valid() && k < Index()
        invariant numStr == Chars(input)[k..Index()]
        invariant SpanNum(Chars(input), Index()) == SpanNum(Chars(input), k)
        decreases |input| + 1 - Index()
      {
        numStr := numStr + [lastChar as char];
        ReadChar();
      }
    }

    /** The comment loop of gettok (a do-while): read past the '#' and
        everything up to the next line end, which stays buffered. */
    method SkipCommentText()
      requires Valid() && lastChar == '#' as int
      modifies this`pos, this`lastChar
      ensures Valid()
      ensures Index() == SkipComment(Chars(input), old(Index()) + 1)
    {
      ghost var k := Index();
      ReadChar();
      while IsCommentChar(lastChar)
        invariant Valid() && k < Index()
        invariant SkipComment(Chars(input), Index()) == SkipComment(Chars(input), k + 1)
        decreases |input| + 1 - Index()
      {
        ReadChar();
      }
    }

    /** Return the next token, leaving the character that ended it buffered;
        IdentifierStr and NumVal are filled in as the token requires. */
    method Gettok() returns (tok: int)
      requires Valid()
      modifies this`pos, this`lastChar, this`identifierStr, this`numVal
      decreases |input| + 1 - Index()
      ensures Valid()
      ensures tok == Tag(LexOne(Chars(input), old(Index())).0)
      ensures Index() == LexOne(Chars(input), old(Index())).1
      ensures IdentifierChannel(LexOne(Chars(input), old(Index())).0, old(identifierStr), identifierStr)
      ensures NumberChannel(LexOne(Chars(input), old(Index())).0, old(numVal), numVal)
    {
      ghost var s, k := Chars(input), Index();
      SkipWhitespace();
      ghost var j := Index();

      if IsAlpha(lastChar) {
        ReadIdentifier();
        assert LexOne(s, k) == (Keyword(identifierStr), Index());
        if identifierStr == "def" {
          return TokDef;
        }
        if identifierStr == "extern" {
          return TokExtern;
        }
        return TokIdentifier;
      }

      if IsNumChar(lastChar) {
        var numStr := ReadNumber();
        assert LexOne(s, k) == (Number(numStr), Index());
        numVal := numStr;
        return TokNumber;
      }

      if lastChar == '#' as int {
        SkipCommentText();
        if lastChar != EOF {
          assert LexOne(s, k) == LexOne(s, Index());
          tok := Gettok();
          return;
        }
      }

      if lastChar == EOF {
        return TokEof;
      }

      assert LexOne(s, k) == (Char(s[j]), j + 1);
      var thisChar := lastChar;
      ReadChar();
      return thisChar;
    }
  }
}
