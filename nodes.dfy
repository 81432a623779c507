/** The node tree (the classes under cs/Markdown/Nodes and cs/Markdown/Parsing/Nodes/LinkNode.cs) and
    its rendering to HTML by string concatenation. */
module Nodes {

  datatype Node =
    | TextNode(content: string)
    | BoldNode(children: seq<Node>)
    | ItalicNode(children: seq<Node>)
    | HeaderNode(level: nat, children: seq<Node>)
    | ParagraphNode(children: seq<Node>)
    | LinkNode(url: string, children: seq<Node>)

  /** No link occurs anywhere in the tree below `n`, `n` included. */
  predicate LinkFree(n: Node)
  {
    match n
    case TextNode(_) => true
    case LinkNode(_, _) => false
    case BoldNode(cs) => forall i :: 0 <= i < |cs| ==> LinkFree(cs[i])
    case ItalicNode(cs) => forall i :: 0 <= i < |cs| ==> LinkFree(cs[i])
    case HeaderNode(_, cs) => forall i :: 0 <= i < |cs| ==> LinkFree(cs[i])
    case ParagraphNode(cs) => forall i :: 0 <= i < |cs| ==> LinkFree(cs[i])
  }

  predicate AllLinkFree(ns: seq<Node>)
  {
    forall i :: 0 <= i < |ns| ==> LinkFree(ns[i])
  }

  /** The HTML of one node. Text is emitted verbatim, without HTML escaping; every other
      node is one element, from its opening `<` to the `>` of its closing tag. */
  function ToHtml(n: Node): (r: string)
    ensures n.TextNode? ==> r == n.content
    ensures !n.TextNode? ==> |r| >= 2 && r[0] == '<' && r[|r| - 1] == '>'
    decreases n, 1
  {
    match n
    case TextNode(content) => content
    case BoldNode(cs) => "<strong>" + ConcatHtml(cs) + "</strong>"
    case ItalicNode(cs) => "<em>" + ConcatHtml(cs) + "</em>"
    case HeaderNode(level, cs) =>
      "<h" + DecimalString(level) + ">" + ConcatHtml(cs) + "</h" + DecimalString(level) + ">"
    case ParagraphNode(cs) => "<p>" + ConcatHtml(cs) + "</p>"
    case LinkNode(url, cs) => "<a href=\"" + url + "\">" + ConcatHtml(cs) + "</a>"
  }

  /** string.Concat of the children's HTML, in list order: no children give nothing, and
      a single child gives its own HTML, with nothing added around it. */
  function ConcatHtml(ns: seq<Node>): (r: string)
    ensures ns == [] ==> r == ""
    ensures |ns| == 1 ==> r == ToHtml(ns[0])
    decreases ns, 0
  {
    if ns == [] then "" else ToHtml(ns[0]) + ConcatHtml(ns[1..])
  }

  /** Rendering a sequence distributes over concatenation: children render in order. */
  lemma {:induction false} ConcatHtmlAppend(a: seq<Node>, b: seq<Node>)
    ensures ConcatHtml(a + b) == ConcatHtml(a) + ConcatHtml(b)
    decreases |a|
  {
    if a == [] {
      assert a + b == b;
    } else {
      assert (a + b)[1..] == a[1..] + b;
      ConcatHtmlAppend(a[1..], b);
    }
  }

  /** A list of text nodes renders as the concatenation of their contents. */
  function Contents(ns: seq<Node>): string
    requires forall i :: 0 <= i < |ns| ==> ns[i].TextNode?
  {
    if ns == [] then "" else ns[0].content + Contents(ns[1..])
  }

  lemma {:induction false} ConcatHtmlOfTexts(ns: seq<Node>)
    requires forall i :: 0 <= i < |ns| ==> ns[i].TextNode?
    ensures ConcatHtml(ns) == Contents(ns)
    decreases |ns|
  {
    if ns != [] {
      ConcatHtmlOfTexts(ns[1..]);
    }
  }

  function DigitChar(d: nat): (c: char)
    requires d < 10
    ensures '0' <= c <= '9'
  {
    ['0', '1', '2', '3', '4', '5', '6', '7', '8', '9'][d]
  }

  /** The decimal notation of the header level (C# integer-to-string). */
  function DecimalString(n: nat): (s: string)
    ensures |s| > 0
    ensures forall i :: 0 <= i < |s| ==> '0' <= s[i] <= '9'
    ensures n > 0 ==> s[0] != '0'
    decreases n
  {
    if n < 10 then [DigitChar(n)] else DecimalString(n / 10) + [DigitChar(n % 10)]
  }

  /** Reads a string of decimal digits back as a number. */
  function DecimalValue(s: string): nat
    requires forall i :: 0 <= i < |s| ==> '0' <= s[i] <= '9'
  {
    if s == [] then 0 else 10 * DecimalValue(s[..|s| - 1]) + (s[|s| - 1] - '0') as nat
  }

  lemma DigitValue(d: nat)
    requires d < 10
    ensures (DigitChar(d) - '0') as nat == d
  {
  }

  /** The level is printed as a decimal numeral that reads back as the same level. */
  lemma {:induction false} DecimalRoundTrip(n: nat)
    ensures DecimalValue(DecimalString(n)) == n
    decreases n
  {
    var s := DecimalString(n);
    if n < 10 {
      DigitValue(n);
      assert s[..|s| - 1] == [];
    } else {
      DecimalRoundTrip(n / 10);
      DigitValue(n % 10);
      assert s[..|s| - 1] == DecimalString(n / 10);
    }
  }
}
