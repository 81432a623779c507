/** The hashtag rule of cs/Markdown/Parsing/Rules/HashtagRule.cs: a `#` that does not
    start a header is literal text. */
module HashtagRule {
  import opened Tokens
  import opened Nodes
  import opened Parsing

  /** The rule takes exactly the tokens that stand for the character `#`. */
  predicate CanHandle(t: Token)
    ensures CanHandle(t) <==> t.kind != Text && Symbol(t.kind) == '#'
  {
    t.kind == Hashtag
  }

  /** Appends one text node holding `#` and moves one token on. */
  function Apply(s: Context): (r: Context)
    requires s.index < |s.tokens| && CanHandle(s.CurrentToken())
    ensures r.tokens == s.tokens && r.openedUnderscores == s.openedUnderscores
    ensures r.nodes == s.nodes + [TextNode([Symbol(Hashtag)])] && r.index == s.index + 1
    ensures Valid(s) ==> Valid(r)
  {
    s.(nodes := s.nodes + [TextNode("#")]).MoveForward(1)
  }

  method Handle(ctx: ParsingContext)
    requires ctx.index < |ctx.tokens| && CanHandle(ctx.CurrentToken())
    modifies ctx
    ensures ctx.State() == Apply(old(ctx.State()))
  {
    ctx.nodes := ctx.nodes + [TextNode("#")];
    ctx.MoveForward(1);
  }
}
