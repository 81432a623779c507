/** The tokenizer of cs/Markdown/Tokenizer.cs: one token per special character and
    one Text token per maximal run of other characters. */
module Tokenizer {
  import opened Tokens
  import opened Cursors

  const SpecialSymbols: set<char> := {'\\', '_', '#', '[', ']', '(', ')', ' '}

  /** The token kind of a special character (the cases of the switch). */
  function KindOf(c: char): (k: TokenType)
    requires c in SpecialSymbols
    ensures k != Text && Symbol(k) == c
  {
    match c
    case '\\' => EscapeCharacter
    case '_' => Underscore
    case '#' => Hashtag
    case '[' => LeftSquareBracket
    case ']' => RightSquareBracket
    case '(' => LeftBracket
    case ')' => RightBracket
    case ' ' => WhiteSpace
  }

  /** Length of the longest prefix of `s` free of special characters. */
  function TextRun(s: string): (k: nat)
    ensures k <= |s|
    ensures forall j :: 0 <= j < k ==> s[j] !in SpecialSymbols
    ensures k == |s| || s[k] in SpecialSymbols
  {
    if s == [] || s[0] in SpecialSymbols then 0 else 1 + TextRun(s[1..])
  }

  /** The token list of a line, defined by recursion on the line. */
  function Lex(s: string): seq<Token>
    decreases |s|
  {
    if s == [] then []
    else if s[0] in SpecialSymbols then [Token(KindOf(s[0]), "")] + Lex(s[1..])
    else
      var k := TextRun(s);
      [Token(Text, s[..k])] + Lex(s[k..])
  }

  /** A token as the tokenizer makes it: a Text value is non-empty and free of special
      characters; every other kind carries no value. */
  predicate TokenWellFormed(t: Token)
  {
    if t.kind == Text then
      |t.value| > 0 && forall j :: 0 <= j < |t.value| ==> t.value[j] !in SpecialSymbols
    else t.value == ""
  }

  /** Every token is well formed and no two Text tokens are adjacent. */
  predicate WellFormed(ts: seq<Token>)
  {
    && (forall i :: 0 <= i < |ts| ==> TokenWellFormed(ts[i]))
    && (forall i :: 0 <= i < |ts| - 1 ==> ts[i].kind == Text ==> ts[i + 1].kind != Text)
  }

  /** Untokenize of a token put in front. */
  lemma UntokenizeCons(t: Token, ts: seq<Token>)
    ensures Untokenize([t] + ts) == Spelling(t) + Untokenize(ts)
  {
    assert ([t] + ts)[1..] == ts;
  }

  lemma {:induction false} LexRoundTrip(s: string)
    ensures Untokenize(Lex(s)) == s
    decreases |s|
  {
    if s == [] {
    } else if s[0] in SpecialSymbols {
      var t := Token(KindOf(s[0]), "");
      assert Lex(s) == [t] + Lex(s[1..]);
      UntokenizeCons(t, Lex(s[1..]));
      LexRoundTrip(s[1..]);
      assert [s[0]] + s[1..] == s;
    } else {
      var k := TextRun(s);
      var t := Token(Text, s[..k]);
      assert Lex(s) == [t] + Lex(s[k..]);
      UntokenizeCons(t, Lex(s[k..]));
      LexRoundTrip(s[k..]);
      assert s[..k] + s[k..] == s;
    }
  }

  /** A Text token of Lex is followed by a special token or by nothing. */
  lemma LexStartsSpecial(s: string)
    requires s == [] || s[0] in SpecialSymbols
    ensures Lex(s) == [] || Lex(s)[0].kind != Text
  {
  }

  /** The tokenizer's output is well formed. */
  lemma {:induction false} LexWellFormed(s: string)
    ensures WellFormed(Lex(s))
    decreases |s|
  {
    if s == [] {
    } else if s[0] in SpecialSymbols {
      LexWellFormed(s[1..]);
      var ts := Lex(s);
      assert ts[1..] == Lex(s[1..]);
    } else {
      var k := TextRun(s);
      LexWellFormed(s[k..]);
      LexStartsSpecial(s[k..]);
      var ts := Lex(s);
      assert ts[1..] == Lex(s[k..]);
      assert TokenWellFormed(ts[0]);
    }
  }

  /** The tokenizer never emits more tokens than the line has characters. */
  lemma {:induction false} LexLength(s: string)
    ensures |Lex(s)| <= |s|
    decreases |s|
  {
    if s == [] {
    } else if s[0] in SpecialSymbols {
      LexLength(s[1..]);
    } else {
      var k := TextRun(s);
      LexLength(s[k..]);
    }
  }

  lemma {:induction false} TextRunOfText(v: string, r: string)
    requires forall j :: 0 <= j < |v| ==> v[j] !in SpecialSymbols
    requires r == [] || r[0] in SpecialSymbols
    ensures TextRun(v + r) == |v|
  {
    if v != [] {
      assert (v + r)[1..] == v[1..] + r;
      assert (v + r)[0] == v[0];
      TextRunOfText(v[1..], r);
    } else {
      assert v + r == r;
    }
  }

  lemma WellFormedTail(ts: seq<Token>)
    requires ts != [] && WellFormed(ts)
    ensures WellFormed(ts[1..])
  {
    forall i | 0 <= i < |ts[1..]| ensures TokenWellFormed(ts[1..][i]) {
      assert ts[1..][i] == ts[i + 1];
    }
    forall i | 0 <= i < |ts[1..]| - 1 && ts[1..][i].kind == Text
      ensures ts[1..][i + 1].kind != Text
    {
      assert ts[1..][i] == ts[i + 1];
    }
  }

  /** After a Text token of a well-formed list the characters go on with a special one. */
  lemma RestStartsSpecial(ts: seq<Token>)
    requires ts != [] && WellFormed(ts) && ts[0].kind == Text
    ensures var rest := Untokenize(ts[1..]); rest == [] || rest[0] in SpecialSymbols
  {
    if ts[1..] != [] {
      assert ts[1].kind != Text;
      assert ts[1..][1..] == ts[2..];
      assert Untokenize(ts[1..]) == [Symbol(ts[1].kind)] + Untokenize(ts[2..]);
    }
  }

  lemma LexOfText(v: string, rest: string)
    requires |v| > 0 && forall j :: 0 <= j < |v| ==> v[j] !in SpecialSymbols
    requires rest == [] || rest[0] in SpecialSymbols
    ensures Lex(v + rest) == [Token(Text, v)] + Lex(rest)
  {
    var s := v + rest;
    assert s[0] == v[0];
    TextRunOfText(v, rest);
    assert s[..|v|] == v;
    assert s[|v|..] == rest;
  }

  lemma LexOfSpecial(kind: TokenType, rest: string)
    requires kind != Text
    ensures Lex([Symbol(kind)] + rest) == [Token(kind, "")] + Lex(rest)
  {
    var s := [Symbol(kind)] + rest;
    assert s[1..] == rest;
    assert KindOf(s[0]) == kind;
  }

  /** Every well-formed token list is the tokenization of its own characters, so Lex is
      the only well-formed tokenization of a line. */
  lemma {:induction false} LexUntokenize(ts: seq<Token>)
    requires WellFormed(ts)
    ensures Lex(Untokenize(ts)) == ts
    decreases |ts|
  {
    if ts != [] {
      var t := ts[0];
      var rest := Untokenize(ts[1..]);
      assert Untokenize(ts) == Spelling(t) + rest;
      WellFormedTail(ts);
      LexUntokenize(ts[1..]);
      assert TokenWellFormed(t);
      if t.kind == Text {
        RestStartsSpecial(ts);
        LexOfText(t.value, rest);
      } else {
        LexOfSpecial(t.kind, rest);
      }
      assert ts == [t] + ts[1..];
    }
  }

  /** One step of Lex at position `i` of a line. */
  lemma LexAt(text: string, i: nat)
    requires i < |text|
    ensures text[i] in SpecialSymbols ==>
      Lex(text[i..]) == [Token(KindOf(text[i]), "")] + Lex(text[i + 1..])
    ensures text[i] !in SpecialSymbols ==>
      var k := TextRun(text[i..]);
      i + k <= |text| && Lex(text[i..]) == [Token(Text, text[i..i + k])] + Lex(text[i + k..])
  {
    assert text[i..][1..] == text[i + 1..];
    var k := TextRun(text[i..]);
    assert text[i..][..k] == text[i..i + k];
    assert text[i..][k..] == text[i + k..];
  }

  /** ParseDefaultText: collects the run of non-special characters under the cursor. */
  method ParseDefaultText(cursor: Cursor) returns (token: Token)
    requires cursor.Valid()
    modifies cursor
    ensures cursor.Valid()
    ensures cursor.index == old(cursor.index) + TextRun(cursor.text[old(cursor.index)..])
    ensures token == Token(Text, cursor.text[old(cursor.index)..cursor.index])
  {
    var sb := "";
    while !cursor.IsEndOfText() && cursor.CurrentChar() !in SpecialSymbols
      invariant cursor.Valid() && old(cursor.index) <= cursor.index
      invariant sb == cursor.text[old(cursor.index)..cursor.index]
      invariant forall j :: old(cursor.index) <= j < cursor.index ==> cursor.text[j] !in SpecialSymbols
      decreases |cursor.text| - cursor.index
    {
      sb := sb + [cursor.CurrentChar()];
      cursor.MoveForward(1);
    }
    ghost var rest := cursor.text[old(cursor.index)..];
    ghost var k := cursor.index - old(cursor.index);
    assert forall j :: 0 <= j < k ==> rest[j] !in SpecialSymbols by {
      forall j | 0 <= j < k ensures rest[j] !in SpecialSymbols {
        assert rest[j] == cursor.text[old(cursor.index) + j];
      }
    }
    assert k == |rest| || rest[k] in SpecialSymbols;
    token := Token(Text, sb);
  }

  /** Tokenize: the scanning loop; its result is Lex of the line. */
  method Tokenize(text: string) returns (result: seq<Token>)
    ensures result == Lex(text)
  {
    var cursor := new Cursor(text);
    result := [];
    while !cursor.IsEndOfText()
      invariant cursor.text == text && cursor.Valid()
      invariant result + Lex(text[cursor.index..]) == Lex(text)
      decreases |text| - cursor.index
    {
      var currentChar := cursor.CurrentChar();
      ghost var before := cursor.index;
      ghost var done := result;
      var token;
      if currentChar in SpecialSymbols {
        // one token per special character: the cases of the switch, see KindOf
        token := Token(KindOf(currentChar), "");
        cursor.MoveForward(1);
        assert Lex(text[before..]) == [token] + Lex(text[cursor.index..]) by { LexAt(text, before); }
      } else {
        token := ParseDefaultText(cursor);
        assert Lex(text[before..]) == [token] + Lex(text[cursor.index..]) by { LexAt(text, before); }
      }
      result := result + [token];
      ConcatAssociates(done, [token], Lex(text[cursor.index..]));
    }
  }
}
