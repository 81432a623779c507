/** The parsing state of cs/Markdown/Parsing/ParsingContext.cs and the open-underscore
    markers of cs/Markdown/ParsingRules/UnderscoreRule.cs. */
module Parsing {
  import opened Tokens
  import opened Nodes

  datatype Option<T> = None | Some(value: T)

  /** An open underscore marker: run length, token position of the run, and the
      position in the node list where its span starts. */
  datatype UnderscoreInfo = UnderscoreInfo(count: nat, tokenIndex: nat, nodeIndex: nat)

  /** The value of a parsing context. `openedUnderscores` is the marker stack with its top first,
      the order in which the source enumerates a Stack. */
  datatype Context = Context(tokens: seq<Token>, index: nat, nodes: seq<Node>, openedUnderscores: seq<UnderscoreInfo>)
  {
    /** CurrentToken: only readable before the end of the tokens. */
    function CurrentToken(): (t: Token)
      requires index < |tokens|
      ensures t in tokens
    {
      tokens[index]
    }

    /** PeekToken(offset): the token `offset` places ahead, or none past the end. */
    function PeekToken(offset: nat): (t: Option<Token>)
      ensures t.Some? <==> index + offset < |tokens|
      ensures t.Some? ==> t.value == tokens[index + offset]
    {
      if index + offset < |tokens| then Some(tokens[index + offset]) else None
    }

    /** PreviousToken: none at the first token, the one before the cursor otherwise. */
    function PreviousToken(): (t: Option<Token>)
      requires index <= |tokens|
      ensures t.Some? <==> index > 0
      ensures t.Some? ==> t.value == tokens[index - 1]
    {
      if index > 0 then Some(tokens[index - 1]) else None
    }

    /** IsEndOfTokens: the cursor is at or past the last token. */
    predicate IsEndOfTokens()
    {
      index >= |tokens|
    }

    /** MoveForward(count): adds `count` to the index, with no bound check. */
    function MoveForward(count: nat): (r: Context)
      ensures r.index == index + count
      ensures r.tokens == tokens && r.nodes == nodes && r.openedUnderscores == openedUnderscores
    {
      this.(index := index + count)
    }
  }

  /** The invariant every parsing step keeps: the cursor stays within the tokens, every
      open marker's span starts inside the node list, markers pushed later start strictly
      later, and a marker whose span is still empty was pushed by the last step, so the
      cursor sits on a token that is not an underscore. */
  predicate Valid(s: Context)
  {
    && s.index <= |s.tokens|
    && (forall k :: 0 <= k < |s.openedUnderscores| ==> s.openedUnderscores[k].nodeIndex <= |s.nodes|)
    && (forall j, k :: 0 <= j < k < |s.openedUnderscores| ==> s.openedUnderscores[k].nodeIndex < s.openedUnderscores[j].nodeIndex)
    && (|s.openedUnderscores| > 0 && s.openedUnderscores[0].nodeIndex == |s.nodes| ==>
          s.index == |s.tokens| || s.tokens[s.index].kind != Underscore)
  }

  /** A fresh context over `tokens` starting at `index`, as the parser and the link
      rule build it. */
  lemma FreshContextValid(tokens: seq<Token>, index: nat)
    requires index <= |tokens|
    ensures Valid(Context(tokens, index, [], []))
  {
  }

  /** `new string('_', count)` */
  function Underscores(count: nat): (s: string)
    ensures |s| == count && forall i :: 0 <= i < count ==> s[i] == '_'
  {
    seq(count, _ => '_')
  }

  /** A text node holding a literal run of `count` underscores. */
  function Literal(count: nat): Node
  {
    TextNode(Underscores(count))
  }

  /** List.Insert(position, node) */
  function Insert(ns: seq<Node>, position: nat, n: Node): (r: seq<Node>)
    requires position <= |ns|
    ensures |r| == |ns| + 1
  {
    ns[..position] + [n] + ns[position..]
  }

  /** The inserted node sits at `position`; the nodes before it stay, the ones after it
      move up by one. */
  lemma InsertPlaces(ns: seq<Node>, position: nat, n: Node)
    requires position <= |ns|
    ensures Insert(ns, position, n)[position] == n
    ensures forall i :: 0 <= i < position ==> Insert(ns, position, n)[i] == ns[i]
    ensures forall i :: position <= i < |ns| ==> Insert(ns, position, n)[i + 1] == ns[i]
  {
  }

  predicate AllWithin(ms: seq<UnderscoreInfo>, bound: nat)
  {
    forall k :: 0 <= k < |ms| ==> ms[k].nodeIndex <= bound
  }

  /** Inserts, for each marker in order, its literal underscores at its node position. */
  function InsertLiterals(ns: seq<Node>, ms: seq<UnderscoreInfo>): (r: seq<Node>)
    requires AllWithin(ms, |ns|)
    ensures |r| == |ns| + |ms|
    decreases |ms|
  {
    if ms == [] then ns
    else InsertLiterals(Insert(ns, ms[0].nodeIndex, Literal(ms[0].count)), ms[1..])
  }

  /** Inserting at positions that all lie within `a` leaves a suffix `b` in place. */
  lemma {:induction false} InsertLiteralsAppend(a: seq<Node>, b: seq<Node>, ms: seq<UnderscoreInfo>)
    requires AllWithin(ms, |a|)
    ensures AllWithin(ms, |a + b|) && InsertLiterals(a + b, ms) == InsertLiterals(a, ms) + b
    decreases |ms|
  {
    if ms != [] {
      var p := ms[0].nodeIndex;
      var x := Literal(ms[0].count);
      assert Insert(a + b, p, x) == Insert(a, p, x) + b by {
        assert (a + b)[..p] == a[..p];
        assert (a + b)[p..] == a[p..] + b;
      }
      InsertLiteralsAppend(Insert(a, p, x), b, ms[1..]);
    }
  }

  /** Inserting the literals of `xs + ys` is inserting those of `xs`, then of `ys`. */
  lemma {:induction false} InsertLiteralsConcat(ns: seq<Node>, xs: seq<UnderscoreInfo>, ys: seq<UnderscoreInfo>)
    requires AllWithin(xs + ys, |ns|)
    ensures AllWithin(xs, |ns|) && AllWithin(ys, |ns| + |xs|)
    ensures InsertLiterals(ns, xs + ys) == InsertLiterals(InsertLiterals(ns, xs), ys)
    decreases |xs|
  {
    assert AllWithin(xs, |ns|) by {
      forall k | 0 <= k < |xs| ensures xs[k].nodeIndex <= |ns| { assert (xs + ys)[k] == xs[k]; }
    }
    assert AllWithin(ys, |ns|) by {
      forall k | 0 <= k < |ys| ensures ys[k].nodeIndex <= |ns| { assert (xs + ys)[|xs| + k] == ys[k]; }
    }
    if xs == [] {
      assert xs + ys == ys;
    } else {
      assert (xs + ys)[1..] == xs[1..] + ys;
      assert (xs + ys)[0] == xs[0];
      InsertLiteralsConcat(Insert(ns, xs[0].nodeIndex, Literal(xs[0].count)), xs[1..], ys);
    }
  }

  /** The node list with the literal underscores of every open marker put back, top of
      the stack first: what CloseUnclosedUnderscores makes of a context. */
  function Flatten(s: Context): seq<Node>
    requires Valid(s)
  {
    InsertLiterals(s.nodes, s.openedUnderscores)
  }

  /** The mutable parsing context. */
  class ParsingContext {
    const tokens: seq<Token>
    var index: nat
    var nodes: seq<Node>
    var openedUnderscores: seq<UnderscoreInfo>

    constructor (tokens: seq<Token>, index: nat)
      ensures State() == Context(tokens, index, [], [])
    {
      this.tokens := tokens;
      this.index := index;
      nodes := [];
      openedUnderscores := [];
    }

    /** The value of the context. */
    function State(): Context
      reads this
    {
      Context(tokens, index, nodes, openedUnderscores)
    }

    function CurrentToken(): Token
      reads this
      requires index < |tokens|
    {
      State().CurrentToken()
    }

    function PeekToken(offset: nat): Option<Token>
      reads this
    {
      State().PeekToken(offset)
    }

    function PreviousToken(): Option<Token>
      reads this
      requires index <= |tokens|
    {
      State().PreviousToken()
    }

    predicate IsEndOfTokens()
      reads this
    {
      State().IsEndOfTokens()
    }

    /** MoveForward(count): the index grows by `count`; nothing else changes. */
    method MoveForward(count: nat)
      modifies this
      ensures State() == old(State()).MoveForward(count)
    {
      index := index + count;
    }
  }
}
