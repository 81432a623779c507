/** The escape rule of cs/Markdown/Parsing/Rules/EscapeRule.cs. */
module EscapeRule {
  import opened Tokens
  import opened Nodes
  import opened Parsing

  /** The rule takes exactly the tokens that stand for the character `\`. */
  predicate CanHandle(t: Token)
    ensures CanHandle(t) <==> t.kind != Text && Symbol(t.kind) == '\\'
  {
    t.kind == EscapeCharacter
  }

  /** The kinds an escape turns into their literal character. */
  predicate Escapable(kind: TokenType)
  {
    kind == Underscore || kind == Hashtag || kind == EscapeCharacter
  }

  /** The escape rule on a context value. It always appends exactly one text node and
      leaves the marker stack alone: `\` at the end of the tokens stays a backslash; before
      `_`, `#` or `\` it yields that character and consumes both tokens; before anything
      else it stays a backslash and the next token is left for the next rule. */
  function Apply(s: Context): (r: Context)
    requires s.index < |s.tokens| && CanHandle(s.CurrentToken())
    ensures r.tokens == s.tokens && r.openedUnderscores == s.openedUnderscores
    ensures |r.nodes| == |s.nodes| + 1 && r.nodes[..|s.nodes|] == s.nodes
    ensures s.index + 1 == |s.tokens| ==>
      r.index == s.index + 1 && r.nodes[|s.nodes|] == TextNode("\\")
    ensures s.index + 1 < |s.tokens| && Escapable(s.tokens[s.index + 1].kind) ==>
      r.index == s.index + 2 && r.nodes[|s.nodes|] == TextNode([Symbol(s.tokens[s.index + 1].kind)])
    ensures s.index + 1 < |s.tokens| && !Escapable(s.tokens[s.index + 1].kind) ==>
      r.index == s.index + 1 && r.nodes[|s.nodes|] == TextNode("\\")
    ensures Valid(s) ==> Valid(r)
  {
    var t := s.MoveForward(1);
    if t.IsEndOfTokens() then t.(nodes := t.nodes + [TextNode("\\")])
    else
      match t.CurrentToken().kind
      case Underscore => t.(nodes := t.nodes + [TextNode("_")]).MoveForward(1)
      case Hashtag => t.(nodes := t.nodes + [TextNode("#")]).MoveForward(1)
      case EscapeCharacter => t.(nodes := t.nodes + [TextNode("\\")]).MoveForward(1)
      case _ => t.(nodes := t.nodes + [TextNode("\\")])
  }

  method Handle(ctx: ParsingContext)
    requires ctx.index < |ctx.tokens| && CanHandle(ctx.CurrentToken())
    modifies ctx
    ensures ctx.State() == Apply(old(ctx.State()))
  {
    ctx.MoveForward(1);
    if ctx.IsEndOfTokens() {
      ctx.nodes := ctx.nodes + [TextNode("\\")];
      return;
    }
    var nextToken := ctx.CurrentToken();
    var content: string;
    match nextToken.kind {
      case Underscore =>
        content := "_";
        ctx.MoveForward(1);
      case Hashtag =>
        content := "#";
        ctx.MoveForward(1);
      case EscapeCharacter =>
        content := "\\";
        ctx.MoveForward(1);
      case _ =>
        content := "\\";
    }
    ctx.nodes := ctx.nodes + [TextNode(content)];
  }
}
