/** One line through the whole pipeline, as cs/Markdown/Md.cs renders each line: tokenize,
    parse, render. Lines without markup characters render as their own text. */
module LineRendering {
  import opened Tokens
  import opened Nodes
  import opened Tokenizer
  import opened NodeParsing

  /** The HTML of one line: always a single header or paragraph element. */
  function RenderLine(text: string): (r: string)
    ensures |r| >= 2 && r[0] == '<' && r[|r| - 1] == '>'
  {
    ToHtml(Line(Lex(text)))
  }

  /** The characters that start an escape, an emphasis or a link. */
  predicate Markup(c: char)
  {
    c == '\\' || c == '_' || c == '[' || c == ']' || c == '(' || c == ')'
  }

  predicate NoMarkup(text: string)
  {
    forall i :: 0 <= i < |text| ==> !Markup(text[i])
  }

  /** `n` hashes and a space open the line: the text form of a header prefix. */
  predicate HeaderText(text: string, n: nat)
  {
    && 1 <= n < |text|
    && (forall j :: 0 <= j < n ==> text[j] == '#')
    && text[n] == ' '
  }

  /** A line without markup characters tokenizes to words, spaces and hashes only. */
  lemma {:induction false} LexPlain(text: string)
    requires NoMarkup(text)
    ensures forall i :: 0 <= i < |Lex(text)| ==> Plain(Lex(text)[i])
    decreases |text|
  {
    if text != [] {
      var k := if text[0] in SpecialSymbols then 1 else TextRun(text);
      assert NoMarkup(text[k..]) by {
        forall i | 0 <= i < |text[k..]| ensures !Markup(text[k..][i]) { assert text[k..][i] == text[k + i]; }
      }
      LexPlain(text[k..]);
      assert Lex(text)[1..] == Lex(text[k..]);
    }
  }

  /** Leading hash tokens of Lex are leading `#` characters of the line, and the rest of
      the tokens is the tokenization of the rest of the line. */
  lemma {:induction false} LeadingHashes(text: string, n: nat)
    requires n <= |Lex(text)| && forall j :: 0 <= j < n ==> Lex(text)[j].kind == Hashtag
    ensures n <= |text| && (forall j :: 0 <= j < n ==> text[j] == '#')
    ensures Lex(text)[n..] == Lex(text[n..])
    decreases n
  {
    if n > 0 {
      assert Lex(text)[0].kind == Hashtag;
      assert text != [];
      assert text[0] in SpecialSymbols;
      assert Symbol(KindOf(text[0])) == text[0];
      var ts := Lex(text);
      assert ts[1..] == Lex(text[1..]);
      LeadingHashes(text[1..], n - 1);
      forall j | 0 < j < n ensures text[j] == '#' { assert text[1..][j - 1] == text[j]; }
      assert text[1..][n - 1..] == text[n..];
    }
  }

  /** The token-level header prefix is exactly the text-level one. */
  lemma HeaderPrefixOfText(text: string, n: nat)
    ensures HeaderPrefix(Lex(text), n) <==> HeaderText(text, n)
  {
    if HeaderPrefix(Lex(text), n) {
      LeadingHashes(text, n);
      assert Lex(text[n..]) != [] && Lex(text[n..])[0].kind == WhiteSpace;
      assert text[n..][0] == text[n];
    }
    if HeaderText(text, n) {
      forall j | 0 <= j <= n ensures |Lex(text[j..])| >= n + 1 - j
        && (forall i :: 0 <= i < n - j ==> Lex(text[j..])[i].kind == Hashtag)
        && Lex(text[j..])[n - j].kind == WhiteSpace
      {
        HashTail(text, n, j);
      }
      assert text[0..] == text;
    }
  }

  /** From position `j` of a header line, the tokens are the rest of the hashes, then a space. */
  lemma {:induction false} HashTail(text: string, n: nat, j: nat)
    requires HeaderText(text, n) && j <= n
    ensures |Lex(text[j..])| >= n + 1 - j
    ensures forall i :: 0 <= i < n - j ==> Lex(text[j..])[i].kind == Hashtag
    ensures Lex(text[j..])[n - j].kind == WhiteSpace
    decreases n - j
  {
    var ts := Lex(text[j..]);
    assert text[j..][1..] == text[j + 1..];
    assert text[j..][0] == text[j];
    if j < n {
      HashTail(text, n, j + 1);
      assert ts[1..] == Lex(text[j + 1..]);
      forall i | 0 < i < n - j ensures ts[i].kind == Hashtag { assert ts[i] == ts[1..][i - 1]; }
    }
  }

  /** A header line with plain text after the space renders as a header of that text,
      tagged with the number of hashes. */
  lemma PlainHeaderHtml(text: string, n: nat)
    requires HeaderText(text, n) && NoMarkup(text[n + 1..])
    ensures RenderLine(text) == "<h" + DecimalString(n) + ">" + text[n + 1..] + "</h" + DecimalString(n) + ">"
  {
    HeaderLine(text, n);
    PlainText(text[n + 1..]);
  }

  /** A line of `n` hashes and a space parses as a header of level `n` over the rest of the line. */
  lemma HeaderLine(text: string, n: nat)
    requires HeaderText(text, n)
    ensures Line(Lex(text)) == HeaderNode(n, InlineContent(Lex(text[n + 1..])))
  {
    var ts := Lex(text);
    var rest := text[n + 1..];
    HeaderPrefixOfText(text, n);
    HeaderShape(ts, n);
    assert ts[n + 1..] == Lex(rest) by {
      LeadingHashes(text, n);
      assert Lex(text[n..]) == [Token(WhiteSpace, "")] + Lex(rest) by {
        assert text[n..][0] == ' ';
        assert text[n..][1..] == rest;
      }
      assert ts[n..][1..] == ts[n + 1..];
    }
  }

  /** The inline content of a line without markup renders as the line itself. */
  lemma PlainText(text: string)
    requires NoMarkup(text)
    ensures ConcatHtml(InlineContent(Lex(text))) == text
  {
    LexPlain(text);
    PlainContent(Lex(text));
    PlainHtml(Lex(text));
    LexRoundTrip(text);
  }

  /** Any other line without markup characters renders as a paragraph of itself. */
  lemma PlainParagraphHtml(text: string)
    requires NoMarkup(text) && forall n :: !HeaderText(text, n)
    ensures RenderLine(text) == "<p>" + text + "</p>"
  {
    var ts := Lex(text);
    assert Line(ts) == ParagraphNode(InlineContent(ts)) by {
      forall n ensures !HeaderPrefix(ts, n) {
        HeaderPrefixOfText(text, n);
      }
      ParagraphOtherwise(ts);
    }
    assert ConcatHtml(InlineContent(ts)) == text by {
      PlainText(text);
    }
  }
}
