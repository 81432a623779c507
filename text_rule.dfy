/** The text rule of cs/Markdown/Parsing/Rules/TextRule.cs. */
module TextRule {
  import opened Tokens
  import opened Nodes
  import opened Parsing

  /** The rule takes exactly the tokens that stand for none of the special characters
      `\ _ # [ ] ( )` and the space. A token it takes spells its own value; a token it
      refuses stands for one character. */
  predicate CanHandle(t: Token)
    ensures CanHandle(t) <==> !(t.kind != Text && Symbol(t.kind) in "\\ _#[]()")
    ensures CanHandle(t) ==> Spelling(t) == t.value
    ensures !CanHandle(t) ==> |Spelling(t)| == 1
  {
    t.kind == Text
  }

  /** Appends one text node holding the token's value and moves one token on. */
  function Apply(s: Context): (r: Context)
    requires s.index < |s.tokens| && CanHandle(s.CurrentToken())
    ensures r.tokens == s.tokens && r.openedUnderscores == s.openedUnderscores
    ensures r.nodes == s.nodes + [TextNode(s.tokens[s.index].value)] && r.index == s.index + 1
    ensures Valid(s) ==> Valid(r)
  {
    s.(nodes := s.nodes + [TextNode(s.CurrentToken().value)]).MoveForward(1)
  }

  method Handle(ctx: ParsingContext)
    requires ctx.index < |ctx.tokens| && CanHandle(ctx.CurrentToken())
    modifies ctx
    ensures ctx.State() == Apply(old(ctx.State()))
  {
    ctx.nodes := ctx.nodes + [TextNode(ctx.CurrentToken().value)];
    ctx.MoveForward(1);
  }
}
