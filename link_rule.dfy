/** The link resolver of cs/Markdown/Parsing/Rules/LinkRule.cs: `[label](url)` becomes a
    link node; every bracket or parenthesis that does not take part in one is literal. */
module LinkRule {
  import opened Tokens
  import opened Nodes
  import opened Parsing
  import TextRule
  import WhiteSpaceRule
  import EscapeRule
  import UnderscoreRule

  /** The rule takes exactly the tokens that stand for a bracket or a parenthesis. */
  predicate CanHandle(t: Token)
    ensures CanHandle(t) <==> t.kind != Text && Symbol(t.kind) in "[]()"
  {
    t.kind == LeftSquareBracket || t.kind == RightSquareBracket || t.kind == LeftBracket || t.kind == RightBracket
  }

  /** The token that raises the nesting depth while searching for `target`. */
  predicate IsOpener(target: TokenType, kind: TokenType)
  {
    (target == RightSquareBracket && kind == LeftSquareBracket) || (target == RightBracket && kind == LeftBracket)
  }

  /** The search loop of FindToken from position `i` at nesting depth `depth`. */
  function FindFrom(ts: seq<Token>, i: nat, target: TokenType, depth: nat): (r: int)
    ensures r == -1 || (i <= r < |ts| && ts[r].kind == target)
    decreases |ts| - i
  {
    if i >= |ts| then -1
    else if IsOpener(target, ts[i].kind) then FindFrom(ts, i + 1, target, depth + 1)
    else if ts[i].kind == target then (if depth == 0 then i else FindFrom(ts, i + 1, target, depth - 1))
    else FindFrom(ts, i + 1, target, depth)
  }

  /** How one token moves the nesting depth. */
  function Change(target: TokenType, kind: TokenType): int
  {
    if IsOpener(target, kind) then 1 else if kind == target then -1 else 0
  }

  /** The nesting depth in front of position `j` when scanning from `start`: openers count
      up and targets count down. */
  function Depth(ts: seq<Token>, start: nat, j: nat, target: TokenType): int
    requires start <= j <= |ts|
    decreases j - start
  {
    if j == start then 0 else Depth(ts, start, j - 1, target) + Change(target, ts[j - 1].kind)
  }

  /** Up to `i` every target met so far closed an opener, so the depth never went negative. */
  predicate NoEarlierMatch(ts: seq<Token>, start: nat, i: nat, target: TokenType)
    requires start <= i <= |ts|
    decreases i - start
  {
    i == start ||
    (&& NoEarlierMatch(ts, start, i - 1, target)
     && Depth(ts, start, i - 1, target) >= 0
     && (ts[i - 1].kind == target ==> Depth(ts, start, i - 1, target) > 0))
  }

  /** What NoEarlierMatch says about one earlier position. */
  lemma {:induction false} NoEarlierMatchAt(ts: seq<Token>, start: nat, i: nat, j: nat, target: TokenType)
    requires start <= j < i <= |ts| && NoEarlierMatch(ts, start, i, target)
    ensures Depth(ts, start, j, target) >= 0 && (ts[j].kind == target ==> Depth(ts, start, j, target) > 0)
    decreases i - j
  {
    if j < i - 1 {
      NoEarlierMatchAt(ts, start, i - 1, j, target);
    }
  }

  /** NoEarlierMatch holds exactly when every position before `i` has a non-negative depth
      and every target before `i` sits at a positive depth. */
  lemma {:induction false} NoEarlierMatchMeans(ts: seq<Token>, start: nat, i: nat, target: TokenType)
    requires start <= i <= |ts|
    ensures NoEarlierMatch(ts, start, i, target) <==>
      forall j :: start <= j < i ==> Depth(ts, start, j, target) >= 0 && (ts[j].kind == target ==> Depth(ts, start, j, target) > 0)
    decreases i - start
  {
    if NoEarlierMatch(ts, start, i, target) {
      forall j | start <= j < i
        ensures Depth(ts, start, j, target) >= 0 && (ts[j].kind == target ==> Depth(ts, start, j, target) > 0)
      {
        NoEarlierMatchAt(ts, start, i, j, target);
      }
    } else if i > start {
      NoEarlierMatchMeans(ts, start, i - 1, target);
    }
  }

  /** One step of the search past a token that does not end it. */
  lemma FindFromStep(ts: seq<Token>, start: nat, i: nat, target: TokenType, d: nat)
    requires start <= i < |ts| && d == Depth(ts, start, i, target) && !(ts[i].kind == target && d == 0)
    requires NoEarlierMatch(ts, start, i, target)
    ensures d + Change(target, ts[i].kind) >= 0
    ensures Depth(ts, start, i + 1, target) == d + Change(target, ts[i].kind)
    ensures NoEarlierMatch(ts, start, i + 1, target)
    ensures FindFrom(ts, i, target, d) == FindFrom(ts, i + 1, target, d + Change(target, ts[i].kind))
  {
  }

  lemma {:induction false} FindFromDepth(ts: seq<Token>, start: nat, i: nat, target: TokenType, d: nat)
    requires start <= i <= |ts| && d == Depth(ts, start, i, target)
    requires NoEarlierMatch(ts, start, i, target)
    ensures var r := FindFrom(ts, i, target, d);
      && (r == -1 ==> NoEarlierMatch(ts, start, |ts|, target))
      && (r != -1 ==> Depth(ts, start, r, target) == 0 && NoEarlierMatch(ts, start, r, target))
    decreases |ts| - i
  {
    if i < |ts| && !(ts[i].kind == target && d == 0) {
      FindFromStep(ts, start, i, target, d);
      FindFromDepth(ts, start, i + 1, target, d + Change(target, ts[i].kind));
    }
  }

  /** FindToken finds the first target at depth zero: the search result is -1 exactly when
      every target after `start` closes an opener, and otherwise a target at depth zero with
      every earlier target closing an opener. */
  lemma FindTokenFirstAtDepthZero(ts: seq<Token>, start: nat, target: TokenType)
    requires start <= |ts|
    ensures var r := FindFrom(ts, start, target, 0);
      && (r == -1 <==> NoEarlierMatch(ts, start, |ts|, target))
      && (r != -1 ==>
            (start <= r < |ts| && ts[r].kind == target && Depth(ts, start, r, target) == 0
             && NoEarlierMatch(ts, start, r, target)))
  {
    FindFromDepth(ts, start, start, target, 0);
    var r := FindFrom(ts, start, target, 0);
    if r != -1 {
      assert !NoEarlierMatch(ts, start, |ts|, target) by {
        if NoEarlierMatch(ts, start, |ts|, target) {
          NoEarlierMatchAt(ts, start, |ts|, r, target);
          assert false;
        }
      }
    }
  }

  /** What one step of ParseUrl at `i` appends, and where it resumes. An escape takes the
      next token with it: `)` and `\` are written bare, anything else after the backslash
      as its value; an escape at the end is a lone backslash. */
  function UrlPiece(ts: seq<Token>, i: nat, until: nat): (r: (string, nat))
    requires i < until <= |ts|
    ensures i < r.1 <= until + 1
    ensures r.1 == until + 1 ==> ts[i].kind == EscapeCharacter && i + 1 == until
  {
    match ts[i].kind
    case EscapeCharacter =>
      if i + 1 < until then
        var next := ts[i + 1];
        (if next.kind == RightBracket then ")"
         else if next.kind == EscapeCharacter then "\\"
         else "\\" + next.value, i + 2)
      else ("\\", i + 2)
    case Text => (ts[i].value, i + 1)
    case WhiteSpace => (" ", i + 1)
    case Underscore => ("_", i + 1)
    case Hashtag => ("#", i + 1)
    case _ => ("", i + 1)
  }

  /** The URL text of the tokens in [i, until): ParseUrl. */
  function Url(ts: seq<Token>, i: nat, until: nat): string
    requires until <= |ts|
    decreases if i <= until then until - i + 1 else 0
  {
    if i >= until then "" else UrlPiece(ts, i, until).0 + Url(ts, UrlPiece(ts, i, until).1, until)
  }

  predicate IsBracket(kind: TokenType)
  {
    kind == LeftSquareBracket || kind == RightSquareBracket || kind == LeftBracket || kind == RightBracket
  }

  /** With no escapes and no brackets in the range, the URL is the range's source text. */
  lemma {:induction false} UrlIsSourceText(ts: seq<Token>, i: nat, until: nat)
    requires i <= until <= |ts|
    requires forall j :: i <= j < until ==> ts[j].kind != EscapeCharacter && !IsBracket(ts[j].kind)
    requires forall j :: i <= j < until ==> ts[j].kind == Text || ts[j].value == ""
    ensures Url(ts, i, until) == Untokenize(ts[i..until])
    decreases |ts| - i
  {
    if i < until {
      UrlIsSourceText(ts, i + 1, until);
      assert ts[i..until][1..] == ts[i + 1..until];
    }
  }

  /** Brackets and parentheses are dropped from the URL, and an escape before anything but
      `)` or `\` keeps its backslash next to the escaped token's text. */
  lemma UrlOfEscapes(ts: seq<Token>, i: nat, until: nat)
    requires i + 1 < until <= |ts| && ts[i].kind == EscapeCharacter
    ensures ts[i + 1].kind == RightBracket ==> Url(ts, i, until) == ")" + Url(ts, i + 2, until)
    ensures ts[i + 1].kind == EscapeCharacter ==> Url(ts, i, until) == "\\" + Url(ts, i + 2, until)
    ensures ts[i + 1].kind != RightBracket && ts[i + 1].kind != EscapeCharacter ==>
      Url(ts, i, until) == "\\" + ts[i + 1].value + Url(ts, i + 2, until)
  {
  }

  /** One step of ParseLabel: text, whitespace, underscores and escapes as on the line;
      every other token is literal. */
  function LabelStep(s: Context): (r: Context)
    requires Valid(s) && s.index < |s.tokens|
    ensures Valid(r) && r.tokens == s.tokens && r.index > s.index
  {
    match s.CurrentToken().kind
    case Text => TextRule.Apply(s)
    case WhiteSpace => WhiteSpaceRule.Apply(s)
    case Underscore => UnderscoreRule.Apply(s)
    case EscapeCharacter => EscapeRule.Apply(s)
    case _ => s.(nodes := s.nodes + [TextNode([Symbol(s.CurrentToken().kind)])]).MoveForward(1)
  }

  /** The loop of ParseLabel: steps until the cursor reaches `until`. */
  function LabelLoop(s: Context, until: nat): (r: Context)
    requires Valid(s) && until <= |s.tokens|
    ensures Valid(r) && r.tokens == s.tokens
    ensures s.index >= until ==> r == s
    ensures r.index >= until
    decreases |s.tokens| - s.index
  {
    if s.index >= until then s else LabelLoop(LabelStep(s), until)
  }

  /** ParseLabel: the label's nodes, leftover markers put back as literal underscores. */
  function Label(ts: seq<Token>, from: nat, until: nat): seq<Node>
    requires from <= |ts| && until <= |ts|
  {
    FreshContextValid(ts, from);
    Flatten(LabelLoop(Context(ts, from, [], []), until))
  }

  lemma LabelStepLinkFree(s: Context)
    requires Valid(s) && s.index < |s.tokens| && AllLinkFree(s.nodes)
    ensures AllLinkFree(LabelStep(s).nodes)
  {
    if s.CurrentToken().kind == Underscore {
      UnderscoreRule.ApplyKeepsLinkFree(s);
    }
  }

  lemma {:induction false} LabelLoopLinkFree(s: Context, until: nat)
    requires Valid(s) && AllLinkFree(s.nodes) && until <= |s.tokens|
    ensures AllLinkFree(LabelLoop(s, until).nodes)
    decreases |s.tokens| - s.index
  {
    if s.index < until {
      LabelStepLinkFree(s);
      LabelLoopLinkFree(LabelStep(s), until);
    }
  }

  /** Links never nest: no node of a label is or holds a link. */
  lemma LabelHasNoLinks(ts: seq<Token>, from: nat, until: nat)
    requires from <= |ts| && until <= |ts|
    ensures AllLinkFree(Label(ts, from, until))
  {
    FreshContextValid(ts, from);
    var r := LabelLoop(Context(ts, from, [], []), until);
    LabelLoopLinkFree(Context(ts, from, [], []), until);
    UnderscoreRule.InsertLiteralsLinkFree(r.nodes, r.openedUnderscores);
  }

  /** The bracket positions TryParseLink settles on: the `]` of the label and the `)` of
      the URL, or none when the search or one of its checks fails. */
  function LinkBounds(ts: seq<Token>, start: nat): (r: Option<(nat, nat)>)
    ensures r.Some? ==> start + 1 < r.value.0 && r.value.0 + 2 < r.value.1 < |ts|
  {
    var rightSquareBracketIndex := FindFrom(ts, start + 1, RightSquareBracket, 0);
    if rightSquareBracketIndex == -1 then None
    else if rightSquareBracketIndex == start + 1 then None
    else if rightSquareBracketIndex + 1 >= |ts| || ts[rightSquareBracketIndex + 1].kind != LeftBracket then None
    else
      var leftBracketIndex := rightSquareBracketIndex + 1;
      var rightBracketIndex := FindFrom(ts, leftBracketIndex + 1, RightBracket, 0);
      if rightBracketIndex == -1 then None
      else if rightBracketIndex == leftBracketIndex + 1 then None
      else Some((rightSquareBracketIndex, rightBracketIndex))
  }

  /** `c` holds the first target after `start` that closes at depth zero. */
  predicate ClosesAt(ts: seq<Token>, start: nat, c: nat, target: TokenType)
  {
    start <= c < |ts| && ts[c].kind == target && Depth(ts, start, c, target) == 0 && NoEarlierMatch(ts, start, c, target)
  }

  /** The first closer at depth zero is the one FindToken returns. */
  lemma FindTokenFindsCloser(ts: seq<Token>, start: nat, c: nat, target: TokenType)
    requires ClosesAt(ts, start, c, target)
    ensures FindFrom(ts, start, target, 0) == c
  {
    FindTokenFirstAtDepthZero(ts, start, target);
    var r := FindFrom(ts, start, target, 0);
    if r == -1 {
      NoEarlierMatchAt(ts, start, |ts|, c, target);
      assert false;
    } else if r < c {
      NoEarlierMatchAt(ts, start, c, r, target);
      assert false;
    } else if r > c {
      NoEarlierMatchAt(ts, start, r, c, target);
      assert false;
    }
  }

  /** The link shape at `start`: the `]` at `close` closes the bracket with a non-empty label,
      a `(` follows at once, and the `)` at `end` closes it around a non-empty URL. */
  predicate LinkAt(ts: seq<Token>, start: nat, close: nat, end: nat)
  {
    && start + 1 < close && close + 2 < end
    && ClosesAt(ts, start + 1, close, RightSquareBracket)
    && ClosesAt(ts, close + 2, end, RightBracket)
    && ts[close + 1].kind == LeftBracket
  }

  /** On the link shape, TryParseLink settles on exactly that `]` and `)`. */
  lemma LinkAccepted(ts: seq<Token>, start: nat, close: nat, end: nat)
    requires LinkAt(ts, start, close, end)
    ensures LinkBounds(ts, start) == Some((close, end))
  {
    FindTokenFindsCloser(ts, start + 1, close, RightSquareBracket);
    FindTokenFindsCloser(ts, close + 2, end, RightBracket);
  }

  /** TryParseLink settles only on the link shape. */
  lemma LinkOnlyOnShape(ts: seq<Token>, start: nat)
    requires LinkBounds(ts, start).Some?
    ensures LinkAt(ts, start, LinkBounds(ts, start).value.0, LinkBounds(ts, start).value.1)
  {
    var close := FindFrom(ts, start + 1, RightSquareBracket, 0);
    var end := FindFrom(ts, close + 2, RightBracket, 0);
    FindTokenFirstAtDepthZero(ts, start + 1, RightSquareBracket);
    FindTokenFirstAtDepthZero(ts, close + 2, RightBracket);
  }

  /** The link node TryParseLink builds for the brackets at `close` and `end`. */
  function LinkNodeAt(ts: seq<Token>, start: nat, close: nat, end: nat): (n: Node)
    requires start + 1 <= close && close + 2 <= end <= |ts|
    ensures n.LinkNode? && n.url == Url(ts, close + 2, end) && n.children == Label(ts, start + 1, close)
  {
    LinkNode(Url(ts, close + 2, end), Label(ts, start + 1, close))
  }

  /** LinkRule.Handle on a context value. */
  function Apply(s: Context): (r: Context)
    requires Valid(s) && s.index < |s.tokens| && CanHandle(s.CurrentToken())
    ensures r.tokens == s.tokens && r.openedUnderscores == s.openedUnderscores
    ensures |r.nodes| == |s.nodes| + 1 && r.nodes[..|s.nodes|] == s.nodes
    ensures s.index < r.index <= |s.tokens|
    ensures Valid(r)
  {
    var kind := s.CurrentToken().kind;
    if kind == LeftSquareBracket then
      match LinkBounds(s.tokens, s.index)
      case Some((close, end)) => s.(nodes := s.nodes + [LinkNodeAt(s.tokens, s.index, close, end)], index := end + 1)
      case None => s.(nodes := s.nodes + [TextNode("[")]).MoveForward(1)
    else s.(nodes := s.nodes + [TextNode([Symbol(kind)])]).MoveForward(1)
  }

  /** `]`, `(` and `)` outside a link, and a `[` that starts none, are literal: one text
      node of that character, and the cursor moves one token. */
  lemma ApplyLiteral(s: Context)
    requires Valid(s) && s.index < |s.tokens| && CanHandle(s.CurrentToken())
    requires s.CurrentToken().kind != LeftSquareBracket || LinkBounds(s.tokens, s.index).None?
    ensures Apply(s) == s.(nodes := s.nodes + [TextNode([Symbol(s.CurrentToken().kind)])], index := s.index + 1)
  {
  }

  /** A `[` on the link shape appends that link, of its label and URL, and the cursor
      moves past the `)`. */
  lemma ApplyLink(s: Context, close: nat, end: nat)
    requires Valid(s) && s.index < |s.tokens| && s.CurrentToken().kind == LeftSquareBracket
    requires LinkAt(s.tokens, s.index, close, end)
    ensures Apply(s) == s.(nodes := s.nodes + [LinkNode(Url(s.tokens, close + 2, end), Label(s.tokens, s.index + 1, close))], index := end + 1)
  {
    LinkAccepted(s.tokens, s.index, close, end);
  }

  /** FindToken: scans forward from `start`, counting nested openers of the target's
      bracket kind, and returns the first target that closes at depth zero, or -1. */
  method FindToken(ctx: ParsingContext, start: nat, target: TokenType) returns (r: int)
    ensures r == FindFrom(ctx.tokens, start, target, 0)
  {
    var depth: nat := 0;
    var i := start;
    while i < |ctx.tokens|
      invariant start <= i
      invariant target != RightSquareBracket && target != RightBracket ==> depth == 0
      invariant FindFrom(ctx.tokens, i, target, depth) == FindFrom(ctx.tokens, start, target, 0)
      decreases |ctx.tokens| - i
    {
      var token := ctx.tokens[i];
      if target == RightSquareBracket && token.kind == LeftSquareBracket {
        depth := depth + 1;
      } else if target == RightSquareBracket {
        if token.kind == RightSquareBracket {
          if depth == 0 {
            return i;
          }
          depth := depth - 1;
        }
      } else if target == RightBracket && token.kind == LeftBracket {
        depth := depth + 1;
      } else if target == RightBracket {
        if token.kind == RightBracket {
          if depth == 0 {
            return i;
          }
          depth := depth - 1;
        }
      } else {
        if token.kind == target {
          return i;
        }
      }
      i := i + 1;
    }
    return -1;
  }

  /** ParseUrl: builds the URL text of the tokens in [from, until). */
  method ParseUrl(ctx: ParsingContext, from: nat, until: nat) returns (url: string)
    requires from <= until <= |ctx.tokens|
    ensures url == Url(ctx.tokens, from, until)
  {
    ghost var ts := ctx.tokens;
    var urlBuilder := "";
    var i := from;
    while i < until
      invariant from <= i <= until + 1
      invariant urlBuilder + Url(ts, i, until) == Url(ts, from, until)
      decreases until + 1 - i
    {
      ghost var step := UrlPiece(ts, i, until);
      ghost var before := urlBuilder;
      assert Url(ts, i, until) == step.0 + Url(ts, step.1, until);
      var token := ctx.tokens[i];
      match token.kind {
        case EscapeCharacter =>
          i := i + 1;
          if i < until {
            var nextToken := ctx.tokens[i];
            if nextToken.kind == RightBracket {
              urlBuilder := urlBuilder + ")";
            } else if nextToken.kind == EscapeCharacter {
              urlBuilder := urlBuilder + "\\";
            } else {
              urlBuilder := urlBuilder + "\\";
              urlBuilder := urlBuilder + nextToken.value;
              assert urlBuilder == before + ("\\" + nextToken.value);
            }
          } else {
            urlBuilder := urlBuilder + "\\";
          }
        case Text =>
          urlBuilder := urlBuilder + token.value;
        case WhiteSpace =>
          urlBuilder := urlBuilder + " ";
        case _ =>
          var text := if token.kind == Underscore then "_" else if token.kind == Hashtag then "#" else "";
          urlBuilder := urlBuilder + text;
      }
      i := i + 1;
      assert urlBuilder == before + step.0 && i == step.1;
      ConcatAssociates(before, step.0, Url(ts, i, until));
    }
    url := urlBuilder;
  }

  /** The switch in ParseLabel's loop: one token of the label, handled as LabelStep says. */
  method LabelToken(tempContext: ParsingContext)
    requires Valid(tempContext.State()) && tempContext.index < |tempContext.tokens|
    modifies tempContext
    ensures tempContext.State() == LabelStep(old(tempContext.State()))
  {
    var token := tempContext.CurrentToken();
    match token.kind {
      case Text =>
        tempContext.nodes := tempContext.nodes + [TextNode(token.value)];
        tempContext.MoveForward(1);
      case WhiteSpace =>
        tempContext.nodes := tempContext.nodes + [TextNode(" ")];
        tempContext.MoveForward(1);
      case Underscore =>
        UnderscoreRule.Handle(tempContext);
      case EscapeCharacter =>
        EscapeRule.Handle(tempContext);
      case _ =>
        var text := [Symbol(token.kind)];
        tempContext.nodes := tempContext.nodes + [TextNode(text)];
        tempContext.MoveForward(1);
    }
  }

  /** ParseLabel: parses [from, until) in a fresh context, then pops every leftover marker
      and inserts its underscores back at its node position. */
  method ParseLabel(ctx: ParsingContext, from: nat, until: nat) returns (nodes: seq<Node>)
    requires from <= |ctx.tokens| && until <= |ctx.tokens|
    ensures nodes == Label(ctx.tokens, from, until)
  {
    var tempContext := new ParsingContext(ctx.tokens, from);
    FreshContextValid(ctx.tokens, from);
    ghost var start := tempContext.State();
    while tempContext.index < until
      invariant tempContext.tokens == ctx.tokens && Valid(tempContext.State())
      invariant LabelLoop(tempContext.State(), until) == LabelLoop(start, until)
      decreases |tempContext.tokens| - tempContext.index
    {
      LabelToken(tempContext);
    }
    ghost var final := tempContext.State();
    assert final == LabelLoop(start, until);
    while |tempContext.openedUnderscores| > 0
      invariant AllWithin(tempContext.openedUnderscores, |tempContext.nodes|)
      invariant InsertLiterals(tempContext.nodes, tempContext.openedUnderscores) == Flatten(final)
      decreases |tempContext.openedUnderscores|
    {
      var underscore := tempContext.openedUnderscores[0];
      tempContext.openedUnderscores := tempContext.openedUnderscores[1..];
      tempContext.nodes := Insert(tempContext.nodes, underscore.nodeIndex, Literal(underscore.count));
    }
    nodes := tempContext.nodes;
  }

  /** The bracket search of TryParseLink: the `]` after the label and the `)` after the
      URL, or none as soon as one of its checks fails. */
  method FindLinkBounds(ctx: ParsingContext) returns (bounds: Option<(nat, nat)>)
    requires ctx.index < |ctx.tokens|
    ensures bounds == LinkBounds(ctx.tokens, ctx.index)
  {
    var startIndex := ctx.index;
    var rightSquareBracketIndex := FindToken(ctx, startIndex + 1, RightSquareBracket);
    if rightSquareBracketIndex == -1 || rightSquareBracketIndex == startIndex + 1 {
      return None;
    }
    if rightSquareBracketIndex + 1 >= |ctx.tokens| || ctx.tokens[rightSquareBracketIndex + 1].kind != LeftBracket {
      return None;
    }
    var leftBracketIndex := rightSquareBracketIndex + 1;
    var rightBracketIndex := FindToken(ctx, leftBracketIndex + 1, RightBracket);
    if rightBracketIndex == -1 || rightBracketIndex == leftBracketIndex + 1 {
      return None;
    }
    return Some((rightSquareBracketIndex as nat, rightBracketIndex as nat));
  }

  /** TryParseLink: on success the cursor moves past the `)`; otherwise nothing changes. */
  method TryParseLinkAt(ctx: ParsingContext) returns (link: Option<Node>)
    requires ctx.index < |ctx.tokens|
    modifies ctx
    ensures ctx.nodes == old(ctx.nodes) && ctx.openedUnderscores == old(ctx.openedUnderscores)
    ensures LinkBounds(ctx.tokens, old(ctx.index)).None? ==> link.None? && ctx.index == old(ctx.index)
    ensures LinkBounds(ctx.tokens, old(ctx.index)).Some? ==>
      var b := LinkBounds(ctx.tokens, old(ctx.index)).value;
      link == Some(LinkNodeAt(ctx.tokens, old(ctx.index), b.0, b.1)) && ctx.index == b.1 + 1
  {
    var startIndex := ctx.index;
    var bounds := FindLinkBounds(ctx);
    if bounds.None? {
      return None;
    }
    var (rightSquareBracketIndex, rightBracketIndex) := bounds.value;
    var labelNodes := ParseLabel(ctx, startIndex + 1, rightSquareBracketIndex);
    var url := ParseUrl(ctx, rightSquareBracketIndex + 2, rightBracketIndex);
    ctx.index := rightBracketIndex + 1;
    return Some(LinkNode(url, labelNodes));
  }

  /** LinkRule.Handle */
  method Handle(ctx: ParsingContext)
    requires Valid(ctx.State()) && ctx.index < |ctx.tokens| && CanHandle(ctx.CurrentToken())
    modifies ctx
    ensures ctx.State() == Apply(old(ctx.State()))
  {
    var token := ctx.CurrentToken();
    ghost var s := ctx.State();
    if token.kind == LeftSquareBracket {
      var link := TryParseLinkAt(ctx);
      if link.Some? {
        ctx.nodes := ctx.nodes + [link.value];
        assert ctx.State() == Apply(s);
      } else {
        ctx.nodes := ctx.nodes + [TextNode("[")];
        ctx.MoveForward(1);
      }
    } else {
      var text := [Symbol(token.kind)];
      ctx.nodes := ctx.nodes + [TextNode(text)];
      ctx.MoveForward(1);
    }
  }
}
