/** Tokens produced by the Kaleidoscope lexer.
    The lexer's interface is an integer: a negative tag for the five special
    tokens and the character's own value for everything else.  Here a token is
    a datatype that also carries the side-channel value (IdentifierStr for
    identifiers, the number lexeme standing for NumVal) that goes with it. */
module TokenKinds {

  /** The special tags of the Token enum. */
  const TokEof: int := -1
  const TokDef: int := -2
  const TokExtern: int := -3
  const TokIdentifier: int := -4
  const TokNumber: int := -5

  datatype Token =
    | Eof
    | Def
    | Extern
    | Identifier(name: string)
    | Number(lexeme: string)
    | Char(c: char)

  /** The integer the lexer returns for a token. */
  function Tag(t: Token): (r: int)
    ensures r < 0 <==> !t.Char?
    ensures t.Char? ==> r == t.c as int
  {
    match t
    case Eof => TokEof
    case Def => TokDef
    case Extern => TokExtern
    case Identifier(_) => TokIdentifier
    case Number(_) => TokNumber
    case Char(c) => c as int
  }

  /** A special tag is one of the five negative enum values. */
  predicate IsSpecialTag(tag: int) {
    tag == TokEof || tag == TokDef || tag == TokExtern || tag == TokIdentifier || tag == TokNumber
  }

  /** The raw character tokens of a byte stream lie in 0..255. */
  predicate IsByteChar(c: char) {
    c as int < 256
  }

  /** The five special tags are distinct and negative. */
  lemma SpecialTagsDistinctNegative()
    ensures |{TokEof, TokDef, TokExtern, TokIdentifier, TokNumber}| == 5
    ensures forall tag :: IsSpecialTag(tag) ==> tag < 0
  {
  }

  /** A raw character token of a byte has a tag in 0..255, so it never
      collides with a special tag. */
  lemma RawTagNotSpecial(c: char)
    requires IsByteChar(c)
    ensures 0 <= Tag(Char(c)) < 256
    ensures !IsSpecialTag(Tag(Char(c)))
  {
  }

  /** The tag determines the kind of token; for a raw character it determines
      the character itself.  (Identifier and number payloads travel in the
      side channel, not in the tag.) */
  lemma TagDeterminesKind(a: Token, b: Token)
    requires Tag(a) == Tag(b)
    ensures a.Eof? == b.Eof? && a.Def? == b.Def? && a.Extern? == b.Extern?
    ensures a.Identifier? == b.Identifier? && a.Number? == b.Number?
    ensures a.Char? ==> a == b
  {
  }
}
