/** The line parser of cs/Markdown/Parsing/NodeParser.cs: a line is a header when it starts
    with a run of `#` followed by a space, and a paragraph otherwise; the inline content is
    parsed by a loop that hands every token to the first rule that can handle it. */
module NodeParsing {
  import opened Tokens
  import opened Nodes
  import opened Parsing
  import EscapeRule
  import WhiteSpaceRule
  import TextRule
  import HashtagRule
  import UnderscoreRule
  import LinkRule

  /** The parsing rules, one per rule class. */
  datatype Rule =
    | RuleEscape
    | RuleWhiteSpace
    | RuleText
    | RuleHashtag
    | RuleUnderscore
    | RuleLink

  /** The rule list in the order the parser consults it. */
  const Rules: seq<Rule> := [RuleEscape, RuleWhiteSpace, RuleText, RuleHashtag, RuleUnderscore, RuleLink]

  /** IParsingRule.CanHandle of each rule. */
  predicate CanHandle(r: Rule, t: Token)
  {
    match r
    case RuleEscape => EscapeRule.CanHandle(t)
    case RuleWhiteSpace => WhiteSpaceRule.CanHandle(t)
    case RuleText => TextRule.CanHandle(t)
    case RuleHashtag => HashtagRule.CanHandle(t)
    case RuleUnderscore => UnderscoreRule.CanHandle(t)
    case RuleLink => LinkRule.CanHandle(t)
  }

  /** Position `k` holds a rule that handles `t`, and no rule before it does. */
  predicate FirstHandler(rules: seq<Rule>, t: Token, k: nat)
  {
    k < |rules| && CanHandle(rules[k], t) && forall j :: 0 <= j < k ==> !CanHandle(rules[j], t)
  }

  /** FirstOrDefault(r => r.CanHandle(t)): the first rule of the list that handles `t`. */
  function FirstOrDefault(rules: seq<Rule>, t: Token): (r: Option<Rule>)
    ensures r.None? <==> forall i :: 0 <= i < |rules| ==> !CanHandle(rules[i], t)
    ensures r.Some? ==> exists k: nat :: FirstHandler(rules, t, k) && rules[k] == r.value
  {
    if rules == [] then None
    else if CanHandle(rules[0], t) then
      assert FirstHandler(rules, t, 0);
      Some(rules[0])
    else
      var r := FirstOrDefault(rules[1..], t);
      assert r.Some? ==> exists k: nat :: FirstHandler(rules, t, k) && rules[k] == r.value by {
        if r.Some? {
          var k: nat :| FirstHandler(rules[1..], t, k) && rules[1..][k] == r.value;
          assert rules[k + 1] == rules[1..][k];
          forall j | 0 < j < k + 1 ensures !CanHandle(rules[j], t) { assert rules[j] == rules[1..][j - 1]; }
          assert FirstHandler(rules, t, k + 1);
        }
      }
      assert r.None? ==> forall i :: 0 <= i < |rules| ==> !CanHandle(rules[i], t) by {
        if r.None? {
          forall i | 0 < i < |rules| ensures !CanHandle(rules[i], t) { assert rules[i] == rules[1..][i - 1]; }
        }
      }
      r
  }

  /** The one rule that handles a token of each kind. */
  function RuleFor(kind: TokenType): Rule
  {
    match kind
    case EscapeCharacter => RuleEscape
    case WhiteSpace => RuleWhiteSpace
    case Text => RuleText
    case Hashtag => RuleHashtag
    case Underscore => RuleUnderscore
    case _ => RuleLink
  }

  /** Every token kind is handled by exactly one rule, so the dispatch always finds a rule
      and the order of the list only fixes which one is asked first. */
  lemma DispatchByKind(t: Token)
    ensures CanHandle(RuleFor(t.kind), t)
    ensures forall r :: CanHandle(r, t) ==> r == RuleFor(t.kind)
    ensures FirstOrDefault(Rules, t) == Some(RuleFor(t.kind))
  {
    var r := FirstOrDefault(Rules, t);
    assert CanHandle(Rules[|Rules| - 1], t) || CanHandle(Rules[0], t) || CanHandle(Rules[1], t)
      || CanHandle(Rules[2], t) || CanHandle(Rules[3], t) || CanHandle(Rules[4], t);
  }

  /** Handle of the chosen rule on a context value: the cursor always moves forward and
      the invariant is kept. */
  function ApplyRule(r: Rule, s: Context): (s': Context)
    requires Valid(s) && s.index < |s.tokens| && CanHandle(r, s.CurrentToken())
    ensures Valid(s') && s'.tokens == s.tokens && s'.index > s.index
  {
    match r
    case RuleEscape => EscapeRule.Apply(s)
    case RuleWhiteSpace => WhiteSpaceRule.Apply(s)
    case RuleText => TextRule.Apply(s)
    case RuleHashtag => HashtagRule.Apply(s)
    case RuleUnderscore => UnderscoreRule.Apply(s)
    case RuleLink => LinkRule.Apply(s)
  }

  /** One turn of the dispatch loop of ParseInlineContent. */
  function InlineStep(s: Context): (s': Context)
    requires Valid(s) && s.index < |s.tokens|
    ensures Valid(s') && s'.tokens == s.tokens && s'.index > s.index
  {
    DispatchByKind(s.CurrentToken());
    ApplyRule(FirstOrDefault(Rules, s.CurrentToken()).value, s)
  }

  /** The dispatch loop: steps until the end of the tokens. */
  function InlineLoop(s: Context): (s': Context)
    requires Valid(s)
    ensures Valid(s') && s'.tokens == s.tokens && s'.index == |s.tokens|
    decreases |s.tokens| - s.index
  {
    if s.index >= |s.tokens| then s else InlineLoop(InlineStep(s))
  }

  /** ParseInlineContent: the nodes of a token list parsed from a fresh context, every
      marker still open at the end flattened back into literal underscores. */
  function InlineContent(ts: seq<Token>): seq<Node>
  {
    FreshContextValid(ts, 0);
    Flatten(InlineLoop(Context(ts, 0, [], [])))
  }

  /** The number of `#` tokens from position `i` on. */
  function HashRun(ts: seq<Token>, i: nat): (n: nat)
    requires i <= |ts|
    ensures i + n <= |ts|
    decreases |ts| - i
  {
    if i < |ts| && ts[i].kind == Hashtag then 1 + HashRun(ts, i + 1) else 0
  }

  /** The decision of ParseHeader: the level of the header, when the hash run is followed
      by a space. */
  function HeaderLevel(ts: seq<Token>): (r: Option<nat>)
    ensures r.Some? ==> r.value < |ts|
  {
    var level := HashRun(ts, 0);
    if level >= |ts| || ts[level].kind != WhiteSpace then None else Some(level)
  }

  /** ParseHeader: the level is the length of the hash run and the children are the inline
      content after the space. */
  function Header(ts: seq<Token>): Option<Node>
  {
    match HeaderLevel(ts)
    case None => None
    case Some(level) => Some(HeaderNode(level, InlineContent(ts[level + 1..])))
  }

  /** ParseLine: a header only when the first token is `#` and ParseHeader succeeds, a
      paragraph of the whole line otherwise. */
  function Line(ts: seq<Token>): (r: Node)
    ensures r.HeaderNode? || r.ParagraphNode?
  {
    var header := if |ts| > 0 && ts[0].kind == Hashtag then Header(ts) else None;
    if header.Some? then header.value else ParagraphNode(InlineContent(ts))
  }

  /** `n` hashes, then a space: the shape that makes a header of level `n`. */
  predicate HeaderPrefix(ts: seq<Token>, n: nat)
  {
    && 1 <= n < |ts|
    && (forall j :: 0 <= j < n ==> ts[j].kind == Hashtag)
    && ts[n].kind == WhiteSpace
  }

  /** The hash run stops at the first token that is not `#`. */
  lemma {:induction false} HashRunStops(ts: seq<Token>, i: nat, n: nat)
    requires i <= n < |ts| && ts[n].kind != Hashtag
    requires forall j :: i <= j < n ==> ts[j].kind == Hashtag
    ensures HashRun(ts, i) == n - i
    decreases n - i
  {
    if i < n {
      HashRunStops(ts, i + 1, n);
    }
  }

  /** The hash run from `i` is all hashes, and it ends at the end of the tokens or at a
      token that is not `#`. */
  lemma {:induction false} HashRunHashes(ts: seq<Token>, i: nat)
    requires i <= |ts|
    ensures forall j :: i <= j < i + HashRun(ts, i) ==> ts[j].kind == Hashtag
    ensures i + HashRun(ts, i) == |ts| || ts[i + HashRun(ts, i)].kind != Hashtag
    decreases |ts| - i
  {
    if i < |ts| && ts[i].kind == Hashtag {
      HashRunHashes(ts, i + 1);
    }
  }

  /** A line of `n` hashes and a space is a header of level `n` whose children are the
      inline content of the rest of the line. */
  lemma HeaderShape(ts: seq<Token>, n: nat)
    requires HeaderPrefix(ts, n)
    ensures Line(ts) == HeaderNode(n, InlineContent(ts[n + 1..]))
  {
    assert HeaderLevel(ts) == Some(n) by {
      HashRunStops(ts, 0, n);
    }
  }

  /** Every other line is a paragraph of the whole line. */
  lemma ParagraphOtherwise(ts: seq<Token>)
    requires forall n :: !HeaderPrefix(ts, n)
    ensures Line(ts) == ParagraphNode(InlineContent(ts))
  {
    assert |ts| > 0 && ts[0].kind == Hashtag ==> HeaderLevel(ts).None? by {
      HashRunHashes(ts, 0);
      assert !HeaderPrefix(ts, HashRun(ts, 0));
    }
  }

  /** Tokens that the parser turns into one text node each, whatever surrounds them. */
  predicate Plain(t: Token)
  {
    t.kind == Text || t.kind == WhiteSpace || t.kind == Hashtag
  }

  /** One text node of the token's own characters per token. */
  function PlainNodes(ts: seq<Token>): (ns: seq<Node>)
    ensures |ns| == |ts|
  {
    if ts == [] then [] else [TextNode(Spelling(ts[0]))] + PlainNodes(ts[1..])
  }

  /** A plain token becomes one text node of its characters, and the cursor moves one token. */
  lemma PlainStep(s: Context)
    requires Valid(s) && s.index < |s.tokens| && Plain(s.CurrentToken())
    ensures InlineStep(s) == s.(index := s.index + 1, nodes := s.nodes + [TextNode(Spelling(s.CurrentToken()))])
  {
    DispatchByKind(s.CurrentToken());
  }

  lemma {:induction false} PlainLoop(s: Context)
    requires Valid(s) && s.openedUnderscores == []
    requires forall i :: s.index <= i < |s.tokens| ==> Plain(s.tokens[i])
    ensures InlineLoop(s) == s.(index := |s.tokens|, nodes := s.nodes + PlainNodes(s.tokens[s.index..]))
    decreases |s.tokens| - s.index
  {
    if s.index < |s.tokens| {
      var t := s.tokens[s.index];
      var rest := s.tokens[s.index + 1..];
      var s' := s.(index := s.index + 1, nodes := s.nodes + [TextNode(Spelling(t))]);
      assert InlineLoop(s) == InlineLoop(s') by {
        PlainStep(s);
      }
      PlainLoop(s');
      assert PlainNodes(s.tokens[s.index..]) == [TextNode(Spelling(t))] + PlainNodes(rest) by {
        assert s.tokens[s.index..][1..] == rest;
      }
      ConcatAssociates(s.nodes, [TextNode(Spelling(t))], PlainNodes(rest));
    } else {
      assert s.tokens[s.index..] == [];
    }
  }

  /** A token list of words, spaces and hashes parses to one text node per token. */
  lemma PlainContent(ts: seq<Token>)
    requires forall i :: 0 <= i < |ts| ==> Plain(ts[i])
    ensures InlineContent(ts) == PlainNodes(ts)
  {
    var s := Context(ts, 0, [], []);
    FreshContextValid(ts, 0);
    assert ts[0..] == ts;
    PlainLoop(s);
    assert Flatten(InlineLoop(s)) == InlineLoop(s).nodes;
  }

  /** Plain text nodes render as the characters of the line. */
  lemma {:induction false} PlainHtml(ts: seq<Token>)
    ensures ConcatHtml(PlainNodes(ts)) == Untokenize(ts)
  {
    if ts != [] {
      PlainHtml(ts[1..]);
      assert PlainNodes(ts)[1..] == PlainNodes(ts[1..]);
    }
  }

  /** The check after the counting loop of ParseHeader decides the header: none when the
      hashes run to the end or no space follows them, else a header of that level over the
      rest of the line. */
  lemma HeaderDecision(ts: seq<Token>, n: nat)
    requires n == HashRun(ts, 0)
    ensures n >= |ts| || ts[n].kind != WhiteSpace ==> HeaderLevel(ts).None? && Header(ts).None?
    ensures n < |ts| && ts[n].kind == WhiteSpace ==> HeaderLevel(ts) == Some(n)
  {
  }

  /** A header of level `n` holds the inline content of the tokens after the space. */
  lemma HeaderOfLevel(ts: seq<Token>, n: nat, children: seq<Node>)
    requires HeaderLevel(ts) == Some(n) && children == InlineContent(ts[n + 1..])
    ensures Header(ts) == Some(HeaderNode(n, children))
  {
  }

  class NodeParser {
    /** The rule list, fixed at construction. */
    const rules: seq<Rule> := Rules

    /** Calls Handle of the chosen rule. */
    static method HandleRule(r: Rule, ctx: ParsingContext)
      requires Valid(ctx.State()) && ctx.index < |ctx.tokens| && CanHandle(r, ctx.CurrentToken())
      modifies ctx
      ensures ctx.State() == ApplyRule(r, old(ctx.State()))
    {
      match r {
        case RuleEscape => EscapeRule.Handle(ctx);
        case RuleWhiteSpace => WhiteSpaceRule.Handle(ctx);
        case RuleText => TextRule.Handle(ctx);
        case RuleHashtag => HashtagRule.Handle(ctx);
        case RuleUnderscore => UnderscoreRule.Handle(ctx);
        case RuleLink => LinkRule.Handle(ctx);
      }
    }

    /** CloseUnclosedUnderscores: pops every marker and inserts its literal underscores at
        its node position, so the stack ends empty. */
    static method CloseUnclosedUnderscores(context: ParsingContext)
      requires AllWithin(context.openedUnderscores, |context.nodes|)
      modifies context
      ensures context.openedUnderscores == []
      ensures context.nodes == InsertLiterals(old(context.nodes), old(context.openedUnderscores))
      ensures context.index == old(context.index)
    {
      while |context.openedUnderscores| > 0
        invariant AllWithin(context.openedUnderscores, |context.nodes|)
        invariant InsertLiterals(context.nodes, context.openedUnderscores)
          == InsertLiterals(old(context.nodes), old(context.openedUnderscores))
        invariant context.index == old(context.index)
        decreases |context.openedUnderscores|
      {
        var openedUnderscore := context.openedUnderscores[0];
        context.openedUnderscores := context.openedUnderscores[1..];
        context.nodes := Insert(context.nodes, openedUnderscore.nodeIndex, Literal(openedUnderscore.count));
      }
    }

    /** ParseInlineContent: runs the first matching rule on each token until the end, then
        puts back the markers still open. */
    method ParseInlineContent(tokens: seq<Token>) returns (nodes: seq<Node>)
      ensures nodes == InlineContent(tokens)
    {
      var context := new ParsingContext(tokens, 0);
      FreshContextValid(tokens, 0);
      ghost var start := context.State();
      while !context.IsEndOfTokens()
        invariant context.tokens == tokens && Valid(context.State())
        invariant InlineLoop(context.State()) == InlineLoop(start)
        decreases |tokens| - context.index
      {
        var token := context.CurrentToken();
        var rule := FirstOrDefault(rules, token);
        if rule.Some? {
          HandleRule(rule.value, context);
        } else {
          DispatchByKind(token);
          assert false;
        }
      }
      CloseUnclosedUnderscores(context);
      nodes := context.nodes;
    }

    /** ParseHeader: counts the leading hashes and, when a space follows them, parses the
        rest of the line as the header's content. */
    method ParseHeader(tokens: seq<Token>) returns (header: Option<Node>)
      ensures header == Header(tokens)
    {
      var level := CountHashes(tokens);
      var position := level;
      if position >= |tokens| || tokens[position].kind != WhiteSpace {
        HeaderDecision(tokens, level);
        return None;
      }
      HeaderDecision(tokens, level);
      position := position + 1;
      var children := ParseInlineContent(tokens[position..]);
      HeaderOfLevel(tokens, level, children);
      return Some(HeaderNode(level, children));
    }

    /** The counting loop of ParseHeader: the number of leading hashes. */
    static method CountHashes(tokens: seq<Token>) returns (level: nat)
      ensures level == HashRun(tokens, 0)
    {
      level := 0;
      var position := 0;
      while position < |tokens| && tokens[position].kind == Hashtag
        invariant position <= |tokens|
        invariant position == level && position + HashRun(tokens, position) == HashRun(tokens, 0)
        decreases |tokens| - position
      {
        level := level + 1;
        position := position + 1;
      }
    }

    /** ParseParagraph: the whole line as the content of one paragraph. */
    method ParseParagraph(tokens: seq<Token>) returns (paragraph: Node)
      ensures paragraph == ParagraphNode(InlineContent(tokens))
    {
      var children := ParseInlineContent(tokens);
      paragraph := ParagraphNode(children);
    }

    /** ParseLine: a header when the line starts with `#` and ParseHeader accepts it, a
        paragraph otherwise. */
    method ParseLine(tokens: seq<Token>) returns (node: Node)
      ensures node == Line(tokens)
    {
      var result: Option<Node> := None;
      if |tokens| > 0 && tokens[0].kind == Hashtag {
        result := ParseHeader(tokens);
      }
      if result.Some? {
        node := result.value;
      } else {
        node := ParseParagraph(tokens);
      }
    }
  }
}
