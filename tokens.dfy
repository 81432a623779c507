/** Tokens of one Markdown line: the kinds of cs/Markdown/Tokenizing/Tokens/TokenType.cs
    and the Type/Value pair every token carries. */
module Tokens {

  datatype TokenType =
    | Text
    | EscapeCharacter
    | WhiteSpace
    | Underscore
    | Hashtag
    | LeftSquareBracket
    | RightSquareBracket
    | LeftBracket
    | RightBracket

  /** `value` holds the characters of a Text token. Every other kind carries a null
      Value in the source, which is read here as the empty string (a null appended
      to a string builder or concatenated adds nothing). */
  datatype Token = Token(kind: TokenType, value: string)

  /** The one character that a token of a special kind stands for. */
  function Symbol(kind: TokenType): char
    requires kind != Text
  {
    match kind
    case EscapeCharacter => '\\'
    case WhiteSpace => ' '
    case Underscore => '_'
    case Hashtag => '#'
    case LeftSquareBracket => '['
    case RightSquareBracket => ']'
    case LeftBracket => '('
    case RightBracket => ')'
  }

  /** The characters of the line that a token stands for. */
  function Spelling(t: Token): string
  {
    if t.kind == Text then t.value else [Symbol(t.kind)]
  }

  /** Maps every token back to its characters and concatenates them. */
  function Untokenize(ts: seq<Token>): string
  {
    if ts == [] then "" else Spelling(ts[0]) + Untokenize(ts[1..])
  }

  /** Concatenation regroups freely; a separate lemma keeps this step out of the large
      proof contexts of the scanning loops. */
  lemma ConcatAssociates<T>(a: seq<T>, b: seq<T>, c: seq<T>)
    ensures (a + b) + c == a + (b + c)
  {
  }

  lemma {:induction false} UntokenizeAppend(a: seq<Token>, b: seq<Token>)
    ensures Untokenize(a + b) == Untokenize(a) + Untokenize(b)
  {
    if a == [] {
      assert a + b == b;
    } else {
      assert (a + b)[1..] == a[1..] + b;
      UntokenizeAppend(a[1..], b);
    }
  }
}
