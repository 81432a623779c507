/** The emphasis resolver of cs/Markdown/ParsingRules/UnderscoreRule.cs: every run of
    underscore tokens either opens a marker, closes the nearest open marker of the same
    length (wrapping the nodes since then in one bold or italic node), or stays literal. */
module UnderscoreRule {
  import opened Tokens
  import opened Nodes
  import opened Parsing

  /** The rule takes exactly the tokens that stand for the character `_`. */
  predicate CanHandle(t: Token)
    ensures CanHandle(t) <==> t.kind != Text && Symbol(t.kind) == '_'
  {
    t.kind == Underscore
  }

  /** The number of consecutive underscore tokens starting at `i`: the run is maximal. */
  function RunLength(ts: seq<Token>, i: nat): (n: nat)
    requires i <= |ts|
    ensures i + n <= |ts|
    ensures forall j :: i <= j < i + n ==> ts[j].kind == Underscore
    ensures i + n == |ts| || ts[i + n].kind != Underscore
    decreases |ts| - i
  {
    if i < |ts| && ts[i].kind == Underscore then 1 + RunLength(ts, i + 1) else 0
  }

  /** char.IsDigit, restricted to the ASCII digits. */
  predicate IsDigit(c: char)
  {
    '0' <= c <= '9'
  }

  /** char.IsWhiteSpace, restricted to the ASCII whitespace characters. */
  predicate IsWhiteSpace(c: char)
  {
    c == ' ' || c == '\t' || c == '\n' || c == '\r' || c as int == 0x0B || c as int == 0x0C
  }

  predicate IsText(t: Option<Token>)
  {
    t.Some? && t.value.kind == Text
  }

  /** The token is Text and its last character is a digit. */
  predicate EndsWithDigit(t: Option<Token>)
  {
    IsText(t) && |t.value.value| > 0 && IsDigit(t.value.value[|t.value.value| - 1])
  }

  /** The token is Text and its first character is a digit. */
  predicate StartsWithDigit(t: Option<Token>)
  {
    IsText(t) && |t.value.value| > 0 && IsDigit(t.value.value[0])
  }

  /** IsBetweenDigits: a run squeezed between two digits is literal, as in `12_3`. */
  predicate IsBetweenDigits(previous: Option<Token>, next: Option<Token>)
    ensures IsBetweenDigits(previous, next) <==>
      && previous.Some? && next.Some?
      && |Spelling(previous.value)| > 0 && IsDigit(Spelling(previous.value)[|Spelling(previous.value)| - 1])
      && |Spelling(next.value)| > 0 && IsDigit(Spelling(next.value)[0])
  {
    EndsWithDigit(previous) && StartsWithDigit(next)
  }

  /** The position of the topmost marker of length `count`, or |ms| if there is none. */
  function IndexOfCount(ms: seq<UnderscoreInfo>, count: nat): (k: nat)
    ensures k <= |ms|
    ensures forall j :: 0 <= j < k ==> ms[j].count != count
    ensures k < |ms| ==> ms[k].count == count
  {
    if ms == [] || ms[0].count == count then 0 else 1 + IndexOfCount(ms[1..], count)
  }

  /** FindOpenedUnderscore: the first marker of the stack, from the top, of the same length. */
  function FindOpenedUnderscore(ms: seq<UnderscoreInfo>, count: nat): (r: Option<UnderscoreInfo>)
    ensures r.Some? ==> r.value in ms && r.value.count == count
    ensures r.None? ==> forall j :: 0 <= j < |ms| ==> ms[j].count != count
  {
    var k := IndexOfCount(ms, count);
    if k < |ms| then Some(ms[k]) else None
  }

  predicate HasOpenedSingle(ms: seq<UnderscoreInfo>)
  {
    exists k :: 0 <= k < |ms| && ms[k].count == 1
  }

  /** A single-underscore marker pushed after the node position `nodeIndex`. */
  predicate HasSingleAfter(ms: seq<UnderscoreInfo>, nodeIndex: nat)
  {
    exists k :: 0 <= k < |ms| && ms[k].count == 1 && ms[k].nodeIndex > nodeIndex
  }

  /** The markers opened after `nodeIndex` with a length other than `count`, in stack order. */
  function Intersecting(ms: seq<UnderscoreInfo>, nodeIndex: nat, count: nat): (r: seq<UnderscoreInfo>)
    ensures |r| <= |ms|
  {
    if ms == [] then []
    else if ms[0].nodeIndex > nodeIndex && ms[0].count != count then [ms[0]] + Intersecting(ms[1..], nodeIndex, count)
    else Intersecting(ms[1..], nodeIndex, count)
  }

  /** Intersecting keeps exactly the markers opened after `nodeIndex` whose length is not `count`. */
  lemma {:induction false} IntersectingMembers(ms: seq<UnderscoreInfo>, nodeIndex: nat, count: nat)
    ensures forall u :: u in Intersecting(ms, nodeIndex, count) <==> u in ms && u.nodeIndex > nodeIndex && u.count != count
  {
    if ms != [] {
      IntersectingMembers(ms[1..], nodeIndex, count);
      assert ms == [ms[0]] + ms[1..];
    }
  }

  predicate DescendingByNodeIndex(xs: seq<UnderscoreInfo>)
  {
    forall j, k :: 0 <= j < k < |xs| ==> xs[k].nodeIndex <= xs[j].nodeIndex
  }

  /** Puts `x` before the first element whose node index is not larger: earlier elements
      with the same key stay in front of later ones. */
  function InsertByNodeIndex(x: UnderscoreInfo, xs: seq<UnderscoreInfo>): (r: seq<UnderscoreInfo>)
    ensures |r| == |xs| + 1
  {
    if xs == [] || x.nodeIndex >= xs[0].nodeIndex then [x] + xs
    else [xs[0]] + InsertByNodeIndex(x, xs[1..])
  }

  /** OrderByDescending(u => u.NodeIndex): a stable sort, written as an insertion sort. */
  function OrderByNodeIndexDescending(xs: seq<UnderscoreInfo>): (r: seq<UnderscoreInfo>)
    ensures |r| == |xs|
  {
    if xs == [] then [] else InsertByNodeIndex(xs[0], OrderByNodeIndexDescending(xs[1..]))
  }

  lemma DescendingTail(xs: seq<UnderscoreInfo>)
    requires xs != [] && DescendingByNodeIndex(xs)
    ensures DescendingByNodeIndex(xs[1..])
  {
    forall j, k | 0 <= j < k < |xs[1..]| ensures xs[1..][k].nodeIndex <= xs[1..][j].nodeIndex {
      assert xs[1..][k] == xs[k + 1] && xs[1..][j] == xs[j + 1];
    }
  }

  lemma DescendingCons(y: UnderscoreInfo, t: seq<UnderscoreInfo>)
    requires DescendingByNodeIndex(t)
    requires forall k :: 0 <= k < |t| ==> t[k].nodeIndex <= y.nodeIndex
    ensures DescendingByNodeIndex([y] + t)
  {
    var r := [y] + t;
    forall j, k | 0 <= j < k < |r| ensures r[k].nodeIndex <= r[j].nodeIndex {
      assert r[k] == t[k - 1];
      if j > 0 { assert r[j] == t[j - 1]; }
    }
  }

  lemma {:induction false} InsertByNodeIndexSorted(x: UnderscoreInfo, xs: seq<UnderscoreInfo>)
    requires DescendingByNodeIndex(xs)
    ensures DescendingByNodeIndex(InsertByNodeIndex(x, xs))
  {
    if xs == [] || x.nodeIndex >= xs[0].nodeIndex {
      DescendingCons(x, xs);
    } else {
      var tail := InsertByNodeIndex(x, xs[1..]);
      DescendingTail(xs);
      InsertByNodeIndexSorted(x, xs[1..]);
      InsertByNodeIndexPermutes(x, xs[1..]);
      forall k | 0 <= k < |tail| ensures tail[k].nodeIndex <= xs[0].nodeIndex {
        if tail[k] != x {
          assert tail[k] in multiset(tail);
          assert tail[k] in xs[1..];
          var i :| 0 <= i < |xs[1..]| && xs[1..][i] == tail[k];
          assert xs[i + 1] == tail[k];
        }
      }
      DescendingCons(xs[0], tail);
    }
  }

  lemma {:induction false} InsertByNodeIndexPermutes(x: UnderscoreInfo, xs: seq<UnderscoreInfo>)
    ensures multiset(InsertByNodeIndex(x, xs)) == multiset(xs) + multiset{x}
  {
    if !(xs == [] || x.nodeIndex >= xs[0].nodeIndex) {
      InsertByNodeIndexPermutes(x, xs[1..]);
      assert xs == [xs[0]] + xs[1..];
    }
  }

  /** The sort yields the markers of its input, each as often, in descending node order. */
  lemma {:induction false} OrderByNodeIndexDescendingSorts(xs: seq<UnderscoreInfo>)
    ensures DescendingByNodeIndex(OrderByNodeIndexDescending(xs))
    ensures multiset(OrderByNodeIndexDescending(xs)) == multiset(xs)
  {
    if xs != [] {
      OrderByNodeIndexDescendingSorts(xs[1..]);
      InsertByNodeIndexSorted(xs[0], OrderByNodeIndexDescending(xs[1..]));
      InsertByNodeIndexPermutes(xs[0], OrderByNodeIndexDescending(xs[1..]));
      assert xs == [xs[0]] + xs[1..];
    }
  }

  /** List.Remove: drops the first element equal to `m`. */
  function Remove(ms: seq<UnderscoreInfo>, m: UnderscoreInfo): (r: seq<UnderscoreInfo>)
    ensures m !in ms ==> r == ms
  {
    if ms == [] then []
    else if ms[0] == m then ms[1..]
    else [ms[0]] + Remove(ms[1..], m)
  }

  /** Remove takes out exactly one occurrence of a marker that is on the stack. */
  lemma {:induction false} RemoveOne(ms: seq<UnderscoreInfo>, m: UnderscoreInfo)
    requires m in ms
    ensures multiset(Remove(ms, m)) == multiset(ms) - multiset{m}
  {
    assert ms == [ms[0]] + ms[1..];
    if ms[0] != m {
      RemoveOne(ms[1..], m);
    }
  }

  /** Removes each marker of `xs` in turn. */
  function RemoveEach(ms: seq<UnderscoreInfo>, xs: seq<UnderscoreInfo>): (r: seq<UnderscoreInfo>)
    decreases |xs|
  {
    if xs == [] then ms else RemoveEach(Remove(ms, xs[0]), xs[1..])
  }

  predicate HasWhiteSpace(content: string)
  {
    exists j :: 0 <= j < |content| && IsWhiteSpace(content[j])
  }

  /** Some text node at or after `start` contains whitespace. */
  predicate HasWhitespaceFrom(ns: seq<Node>, start: nat)
  {
    exists i :: start <= i < |ns| && ns[i].TextNode? && HasWhiteSpace(ns[i].content)
  }

  /** ElementAtOrDefault(index - 1): the token before `index`, none when out of range. */
  function TokenBefore(ts: seq<Token>, index: nat): Option<Token>
  {
    if 1 <= index <= |ts| then Some(ts[index - 1]) else None
  }

  /** IsInsideWords: the span holds whitespace and the run touches a word, judged by the
      token before the opening run or by the token at offset `count - 1` from the cursor. */
  predicate InsideWords(s: Context, m: UnderscoreInfo, count: nat)
    requires count >= 1
  {
    HasWhitespaceFrom(s.nodes, m.nodeIndex) && (IsText(TokenBefore(s.tokens, m.tokenIndex)) || IsText(s.PeekToken(count - 1)))
  }

  /** The node a clean close builds: bold for two or more underscores, italic for one. */
  function Wrap(count: nat, children: seq<Node>): Node
  {
    if count >= 2 then BoldNode(children) else ItalicNode(children)
  }

  function AppendLiteral(s: Context, count: nat): Context
  {
    s.(nodes := s.nodes + [Literal(count)])
  }

  /** OpenUnderscore, before the cursor moves. */
  function Open(s: Context, count: nat): Context
  {
    if count >= 2 && HasOpenedSingle(s.openedUnderscores) then AppendLiteral(s, count)
    else s.(openedUnderscores := [UnderscoreInfo(count, s.index, |s.nodes|)] + s.openedUnderscores)
  }

  lemma SortedWithin(xs: seq<UnderscoreInfo>, bound: nat)
    requires AllWithin(xs, bound)
    ensures AllWithin(OrderByNodeIndexDescending(xs), bound)
  {
    var r := OrderByNodeIndexDescending(xs);
    OrderByNodeIndexDescendingSorts(xs);
    forall k | 0 <= k < |r| ensures r[k].nodeIndex <= bound {
      assert r[k] in multiset(r);
      assert r[k] in xs;
    }
  }

  lemma IntersectingWithin(s: Context, m: UnderscoreInfo, count: nat)
    requires AllWithin(s.openedUnderscores, |s.nodes|)
    ensures AllWithin(Intersecting(s.openedUnderscores, m.nodeIndex, count), |s.nodes|)
  {
    var xs := Intersecting(s.openedUnderscores, m.nodeIndex, count);
    IntersectingMembers(s.openedUnderscores, m.nodeIndex, count);
    forall k | 0 <= k < |xs| ensures xs[k].nodeIndex <= |s.nodes| {
      assert xs[k] in s.openedUnderscores;
    }
  }

  lemma MarkerWithin(s: Context, m: UnderscoreInfo)
    requires AllWithin(s.openedUnderscores, |s.nodes|) && m in s.openedUnderscores
    ensures m.nodeIndex <= |s.nodes|
  {
  }

  /** The crossing case of CloseUnderscore: the run, every intersecting marker (in
      descending node order) and the match become literal underscores; all leave the stack. */
  function CloseCrossing(s: Context, m: UnderscoreInfo, count: nat): Context
    requires AllWithin(s.openedUnderscores, |s.nodes|) && m.nodeIndex <= |s.nodes|
  {
    var ms := s.openedUnderscores;
    var xs := Intersecting(ms, m.nodeIndex, count);
    var grown := s.nodes + [Literal(count)];
    IntersectingWithin(s, m, count);
    SortedWithin(xs, |grown|);
    var flattened := InsertLiterals(grown, OrderByNodeIndexDescending(xs));
    s.(nodes := Insert(flattened, m.nodeIndex, Literal(count)),
       openedUnderscores := RemoveEach(Remove(ms, m), xs))
  }

  /** The formatting case of CloseUnderscore: the nodes from the marker's position on are
      spliced out and wrapped, and the marker is removed. */
  function CloseClean(s: Context, m: UnderscoreInfo, count: nat): Context
    requires m.nodeIndex <= |s.nodes|
  {
    s.(nodes := s.nodes[..m.nodeIndex] + [Wrap(count, s.nodes[m.nodeIndex..])],
       openedUnderscores := Remove(s.openedUnderscores, m))
  }

  /** CloseUnderscore, before the cursor moves. */
  function Close(s: Context, m: UnderscoreInfo, count: nat): Context
    requires AllWithin(s.openedUnderscores, |s.nodes|) && m in s.openedUnderscores && count >= 1
  {
    MarkerWithin(s, m);
    if |Intersecting(s.openedUnderscores, m.nodeIndex, count)| != 0 then CloseCrossing(s, m, count)
    else if count >= 2 && HasSingleAfter(s.openedUnderscores, m.nodeIndex) then AppendLiteral(s, count)
    else if InsideWords(s, m, count) then AppendLiteral(s, count)
    else CloseClean(s, m, count)
  }

  lemma {:induction false} IntersectingPrefix(ms: seq<UnderscoreInfo>, nodeIndex: nat, count: nat, k: nat)
    requires k <= |ms|
    requires forall j :: 0 <= j < k ==> ms[j].nodeIndex > nodeIndex && ms[j].count != count
    requires forall j :: k <= j < |ms| ==> !(ms[j].nodeIndex > nodeIndex && ms[j].count != count)
    ensures Intersecting(ms, nodeIndex, count) == ms[..k]
  {
    if ms != [] {
      var t := ms[1..];
      var k' := if k == 0 then 0 else k - 1;
      forall j | 0 <= j < k' ensures t[j].nodeIndex > nodeIndex && t[j].count != count {
        assert t[j] == ms[j + 1];
      }
      forall j | k' <= j < |t| ensures !(t[j].nodeIndex > nodeIndex && t[j].count != count) {
        assert t[j] == ms[j + 1];
      }
      IntersectingPrefix(t, nodeIndex, count, k');
      if k > 0 {
        assert Intersecting(ms, nodeIndex, count) == [ms[0]] + t[..k'];
        assert ms[..k] == [ms[0]] + t[..k'];
      } else {
        assert Intersecting(ms, nodeIndex, count) == t[..0];
      }
    }
  }

  lemma {:induction false} RemoveAt(ms: seq<UnderscoreInfo>, k: nat)
    requires k < |ms|
    requires forall j :: 0 <= j < k ==> ms[j] != ms[k]
    ensures Remove(ms, ms[k]) == ms[..k] + ms[k + 1..]
  {
    if k == 0 {
      assert Remove(ms, ms[0]) == ms[1..];
      assert ms[..0] + ms[1..] == ms[1..];
    } else {
      var t := ms[1..];
      assert t[k - 1] == ms[k];
      forall j | 0 <= j < k - 1 ensures t[j] != t[k - 1] {
        assert t[j] == ms[j + 1];
      }
      RemoveAt(t, k - 1);
      assert ms[0] != ms[k];
      assert Remove(ms, ms[k]) == [ms[0]] + Remove(t, ms[k]);
      assert ms[..k] == [ms[0]] + t[..k - 1];
      assert ms[k + 1..] == t[k..];
      assert [ms[0]] + (t[..k - 1] + t[k..]) == ([ms[0]] + t[..k - 1]) + t[k..];
    }
  }

  lemma {:induction false} RemoveEachPrefix(p: seq<UnderscoreInfo>, r: seq<UnderscoreInfo>)
    ensures RemoveEach(p + r, p) == r
    decreases |p|
  {
    if p == [] {
      assert p + r == r;
    } else {
      assert (p + r)[0] == p[0];
      assert (p + r)[1..] == p[1..] + r;
      RemoveEachPrefix(p[1..], r);
    }
  }

  /** The insertion sort leaves an already descending list as it is. */
  lemma {:induction false} OrderByNodeIndexDescendingIdentity(xs: seq<UnderscoreInfo>)
    requires DescendingByNodeIndex(xs)
    ensures OrderByNodeIndexDescending(xs) == xs
  {
    if xs != [] {
      DescendingTail(xs);
      OrderByNodeIndexDescendingIdentity(xs[1..]);
      assert xs == [xs[0]] + xs[1..];
    }
  }

  /** Under the context invariant the marker a run matches is preceded on the stack only
      by markers that intersect it: those pushed later, all of another length. Removing the
      match takes out exactly its own entry. */
  lemma MatchShape(s: Context, count: nat)
    requires Valid(s)
    requires IndexOfCount(s.openedUnderscores, count) < |s.openedUnderscores|
    ensures var ms := s.openedUnderscores; var k := IndexOfCount(ms, count);
      && Intersecting(ms, ms[k].nodeIndex, count) == ms[..k]
      && Remove(ms, ms[k]) == ms[..k] + ms[k + 1..]
      && OrderByNodeIndexDescending(ms[..k]) == ms[..k]
  {
    var ms := s.openedUnderscores;
    var k := IndexOfCount(ms, count);
    IntersectingPrefix(ms, ms[k].nodeIndex, count, k);
    RemoveAt(ms, k);
    assert DescendingByNodeIndex(ms[..k]) by {
      forall i, j | 0 <= i < j < |ms[..k]| ensures ms[..k][j].nodeIndex <= ms[..k][i].nodeIndex {
        assert ms[..k][i] == ms[i] && ms[..k][j] == ms[j];
      }
    }
    OrderByNodeIndexDescendingIdentity(ms[..k]);
  }

  /** The single-underscore refusal of a bold close can never fire: a single marker
      opened after the match has another length than a run of two or more, so it is
      intersecting and the crossing branch has already been taken. */
  lemma SingleAfterNeverFires(ms: seq<UnderscoreInfo>, nodeIndex: nat, count: nat)
    requires count >= 2 && HasSingleAfter(ms, nodeIndex)
    ensures |Intersecting(ms, nodeIndex, count)| != 0
  {
    var k :| 0 <= k < |ms| && ms[k].count == 1 && ms[k].nodeIndex > nodeIndex;
    IntersectingMembers(ms, nodeIndex, count);
    assert ms[k] in Intersecting(ms, nodeIndex, count);
  }

  /** The token after the closing run is probed at offset `count - 1`, which is the run's own
      last underscore: that half of the in-word test never holds. */
  lemma AfterCloseProbeIsUnderscore(s: Context, count: nat)
    requires s.index <= |s.tokens| && count >= 1 && count <= RunLength(s.tokens, s.index)
    ensures s.PeekToken(count - 1) == Some(s.tokens[s.index + count - 1])
    ensures s.tokens[s.index + count - 1].kind == Underscore && !IsText(s.PeekToken(count - 1))
  {
  }

  /** The in-word test as it behaves: whitespace in the span and a word just before the
      opening run. */
  lemma InsideWordsMeans(s: Context, m: UnderscoreInfo, count: nat)
    requires s.index <= |s.tokens| && count >= 1 && count <= RunLength(s.tokens, s.index)
    ensures InsideWords(s, m, count) <==> HasWhitespaceFrom(s.nodes, m.nodeIndex) && IsText(TokenBefore(s.tokens, m.tokenIndex))
  {
    AfterCloseProbeIsUnderscore(s, count);
  }

  /** Handle without the final move: the digit test, then a close or an open. */
  function Step(s: Context): Context
    requires Valid(s) && s.index < |s.tokens|
  {
    var n := RunLength(s.tokens, s.index);
    var found := FindOpenedUnderscore(s.openedUnderscores, n);
    if IsBetweenDigits(s.PreviousToken(), s.PeekToken(n)) then AppendLiteral(s, n)
    else if found.Some? && n >= 1 then Close(s, found.value, n)
    else Open(s, n)
  }

  /** A step that only adds nodes and keeps the stack keeps the invariant. */
  lemma GrowValid(s: Context, r: Context)
    requires Valid(s) && r.tokens == s.tokens && r.index <= |r.tokens|
    requires r.openedUnderscores == s.openedUnderscores && |r.nodes| > |s.nodes|
    ensures Valid(r)
  {
  }

  /** A step that adds nodes and drops the top `d` markers keeps the invariant. */
  lemma GrowDropValid(s: Context, r: Context, d: nat)
    requires Valid(s) && r.tokens == s.tokens && r.index <= |r.tokens|
    requires d <= |s.openedUnderscores| && r.openedUnderscores == s.openedUnderscores[d..]
    requires |r.nodes| > |s.nodes|
    ensures Valid(r)
  {
    var ms := s.openedUnderscores;
    assert forall k :: 0 <= k < |ms[d..]| ==> ms[d..][k] == ms[d + k];
  }

  /** A clean close keeps the invariant: the markers below the popped one start strictly
      before it, so they all lie inside the shortened node list. */
  lemma WrapValid(s: Context, r: Context)
    requires Valid(s) && r.tokens == s.tokens && r.index <= |r.tokens|
    requires |s.openedUnderscores| > 0 && r.openedUnderscores == s.openedUnderscores[1..]
    requires |r.nodes| == s.openedUnderscores[0].nodeIndex + 1
    ensures Valid(r)
  {
    var ms := s.openedUnderscores;
    assert forall k :: 0 <= k < |ms[1..]| ==> ms[1..][k] == ms[k + 1];
    assert forall k :: 1 <= k < |ms| ==> ms[k].nodeIndex < ms[0].nodeIndex;
  }

  /** Pushing a marker for a run that is then skipped keeps the invariant. */
  lemma PushValid(s: Context, r: Context, n: nat)
    requires Valid(s) && s.index < |s.tokens| && s.tokens[s.index].kind == Underscore
    requires n == RunLength(s.tokens, s.index)
    requires r == s.(openedUnderscores := [UnderscoreInfo(n, s.index, |s.nodes|)] + s.openedUnderscores).MoveForward(n)
    ensures Valid(r)
  {
    var ms := s.openedUnderscores;
    var rs := r.openedUnderscores;
    forall i | 0 <= i < |ms| ensures ms[i].nodeIndex < |s.nodes| {
      if i > 0 { assert ms[i].nodeIndex < ms[0].nodeIndex; }
    }
    forall k | 0 < k < |rs| ensures rs[k] == ms[k - 1] {
    }
  }

  /** A run that matches the marker at stack position `k` keeps the invariant. */
  lemma CloseValid(s: Context, n: nat, k: nat)
    requires Valid(s) && s.index < |s.tokens| && s.tokens[s.index].kind == Underscore
    requires n == RunLength(s.tokens, s.index) && k == IndexOfCount(s.openedUnderscores, n)
    requires k < |s.openedUnderscores|
    ensures Valid(Close(s, s.openedUnderscores[k], n).MoveForward(n))
  {
    var ms := s.openedUnderscores;
    var m := ms[k];
    var r := Close(s, m, n).MoveForward(n);
    MatchShape(s, n);
    if k > 0 {
      assert Close(s, m, n) == CloseCrossing(s, m, n);
      RemoveEachPrefix(ms[..k], ms[k + 1..]);
      assert RemoveEach(Remove(ms, m), ms[..k]) == ms[k + 1..] by {
        assert Remove(ms, m) == ms[..k] + ms[k + 1..];
      }
      GrowDropValid(s, r, k + 1);
    } else if n >= 2 && HasSingleAfter(ms, m.nodeIndex) {
      GrowValid(s, r);
    } else if InsideWords(s, m, n) {
      GrowValid(s, r);
    } else {
      assert Close(s, m, n) == CloseClean(s, m, n);
      WrapValid(s, r);
    }
  }

  lemma StepValid(s: Context)
    requires Valid(s) && s.index < |s.tokens| && CanHandle(s.CurrentToken())
    ensures Valid(Step(s).MoveForward(RunLength(s.tokens, s.index)))
  {
    var n := RunLength(s.tokens, s.index);
    var ms := s.openedUnderscores;
    var k := IndexOfCount(ms, n);
    var r := Step(s).MoveForward(n);
    if IsBetweenDigits(s.PreviousToken(), s.PeekToken(n)) {
      assert Step(s) == AppendLiteral(s, n);
      GrowValid(s, r);
    } else if k < |ms| {
      assert Step(s) == Close(s, ms[k], n);
      CloseValid(s, n, k);
    } else if n >= 2 && HasOpenedSingle(ms) {
      assert Step(s) == AppendLiteral(s, n);
      GrowValid(s, r);
    } else {
      assert Step(s) == Open(s, n);
      PushValid(s, r, n);
    }
  }

  /** UnderscoreRule.Handle on a context value: the cursor moves past the whole run and the
      invariant is kept. */
  function Apply(s: Context): (r: Context)
    requires Valid(s) && s.index < |s.tokens| && CanHandle(s.CurrentToken())
    ensures r.tokens == s.tokens && r.index == s.index + RunLength(s.tokens, s.index)
    ensures RunLength(s.tokens, s.index) >= 1
    ensures Valid(r)
  {
    StepValid(s);
    Step(s).MoveForward(RunLength(s.tokens, s.index))
  }

  /** A run between two digits is literal text and the markers are untouched. */
  lemma DigitsStayLiteral(s: Context)
    requires Valid(s) && s.index < |s.tokens| && CanHandle(s.CurrentToken())
    requires IsBetweenDigits(s.PreviousToken(), s.PeekToken(RunLength(s.tokens, s.index)))
    ensures Apply(s).nodes == s.nodes + [Literal(RunLength(s.tokens, s.index))]
    ensures Apply(s).openedUnderscores == s.openedUnderscores
  {
  }

  /** With no open marker of its length, a run opens a new marker on top of the stack,
      recording itself and the current end of the node list, and adds no node. */
  lemma UnmatchedRunOpens(s: Context)
    requires Valid(s) && s.index < |s.tokens| && CanHandle(s.CurrentToken())
    requires var n := RunLength(s.tokens, s.index);
      && !IsBetweenDigits(s.PreviousToken(), s.PeekToken(n))
      && FindOpenedUnderscore(s.openedUnderscores, n).None?
      && !(n >= 2 && HasOpenedSingle(s.openedUnderscores))
    ensures Apply(s).nodes == s.nodes
    ensures Apply(s).openedUnderscores ==
      [UnderscoreInfo(RunLength(s.tokens, s.index), s.index, |s.nodes|)] + s.openedUnderscores
  {
  }

  /** Bold may not open inside an open italic: the run stays literal. */
  lemma BoldInsideItalicStaysLiteral(s: Context)
    requires Valid(s) && s.index < |s.tokens| && CanHandle(s.CurrentToken())
    requires var n := RunLength(s.tokens, s.index);
      && !IsBetweenDigits(s.PreviousToken(), s.PeekToken(n))
      && FindOpenedUnderscore(s.openedUnderscores, n).None?
      && n >= 2 && HasOpenedSingle(s.openedUnderscores)
    ensures Apply(s).nodes == s.nodes + [Literal(RunLength(s.tokens, s.index))]
    ensures Apply(s).openedUnderscores == s.openedUnderscores
  {
  }

  /** A clean close: the match is the top marker, the nodes before its position stay, the
      nodes from its position on become the children of one bold (two or more underscores)
      or italic (one) node, and the marker is popped. */
  lemma CleanClose(s: Context)
    requires Valid(s) && s.index < |s.tokens| && CanHandle(s.CurrentToken())
    requires var n := RunLength(s.tokens, s.index);
      && !IsBetweenDigits(s.PreviousToken(), s.PeekToken(n))
      && |s.openedUnderscores| > 0 && s.openedUnderscores[0].count == n
      && !InsideWords(s, s.openedUnderscores[0], n)
    ensures var ni := s.openedUnderscores[0].nodeIndex; var r := Apply(s);
      && ni <= |s.nodes|
      && |r.nodes| == ni + 1
      && r.nodes[..ni] == s.nodes[..ni]
      && r.nodes[ni] == Wrap(RunLength(s.tokens, s.index), s.nodes[ni..])
      && r.openedUnderscores == s.openedUnderscores[1..]
  {
    var n := RunLength(s.tokens, s.index);
    var m := s.openedUnderscores[0];
    assert IndexOfCount(s.openedUnderscores, n) == 0;
    MatchShape(s, n);
    assert Step(s) == Close(s, m, n);
    assert Step(s) == CloseClean(s, m, n);
  }

  /** Literal runs inserted for a prefix of the stack, then for the match, after a literal
      was appended: the same as inserting them all first and appending the literal. */
  lemma CrossingLiterals(ns: seq<Node>, p: seq<UnderscoreInfo>, m: UnderscoreInfo, x: Node)
    requires AllWithin(p, |ns|) && m.nodeIndex <= |ns|
    ensures AllWithin(p, |ns + [x]|) && m.nodeIndex <= |InsertLiterals(ns + [x], p)|
    ensures AllWithin(p + [m], |ns|)
    ensures Insert(InsertLiterals(ns + [x], p), m.nodeIndex, Literal(m.count)) == InsertLiterals(ns, p + [m]) + [x]
  {
    InsertLiteralsAppend(ns, [x], p);
    var y := InsertLiterals(ns, p);
    var l := Literal(m.count);
    assert AllWithin(p + [m], |ns|) by {
      forall j | 0 <= j < |p + [m]| ensures (p + [m])[j].nodeIndex <= |ns| {
        if j < |p| { assert (p + [m])[j] == p[j]; }
      }
    }
    assert InsertLiterals(ns, p + [m]) == InsertLiterals(y, [m]) by {
      InsertLiteralsConcat(ns, p, [m]);
    }
    assert Insert(y + [x], m.nodeIndex, l) == Insert(y, m.nodeIndex, l) + [x] by {
      assert (y + [x])[..m.nodeIndex] == y[..m.nodeIndex];
      assert (y + [x])[m.nodeIndex..] == y[m.nodeIndex..] + [x];
    }
    assert InsertLiterals(y, [m]) == Insert(y, m.nodeIndex, l) by {
      assert [m][1..] == [];
    }
  }

  lemma CrossingNodes(ns: seq<Node>, ms: seq<UnderscoreInfo>, k: nat, x: Node)
    requires k < |ms| && AllWithin(ms, |ns|)
    ensures AllWithin(ms[..k], |ns + [x]|) && ms[k].nodeIndex <= |InsertLiterals(ns + [x], ms[..k])|
    ensures AllWithin(ms[..k + 1], |ns|)
    ensures Insert(InsertLiterals(ns + [x], ms[..k]), ms[k].nodeIndex, Literal(ms[k].count))
         == InsertLiterals(ns, ms[..k + 1]) + [x]
  {
    var p := ms[..k];
    assert AllWithin(p, |ns|) by {
      forall j | 0 <= j < |p| ensures p[j].nodeIndex <= |ns| {
        assert p[j] == ms[j];
      }
    }
    assert ms[..k + 1] == p + [ms[k]];
    CrossingLiterals(ns, p, ms[k], x);
  }

  /** Crossing markers: when the match is not on top, every marker above it intersects it.
      No formatting node is made; the run, the match and every marker above it become
      literal underscores at their own positions, and all of them leave the stack. */
  lemma IntersectionFlattens(s: Context)
    requires Valid(s) && s.index < |s.tokens| && CanHandle(s.CurrentToken())
    requires var n := RunLength(s.tokens, s.index);
      && !IsBetweenDigits(s.PreviousToken(), s.PeekToken(n))
      && 0 < IndexOfCount(s.openedUnderscores, n) < |s.openedUnderscores|
    ensures var n := RunLength(s.tokens, s.index); var ms := s.openedUnderscores;
      var k := IndexOfCount(ms, n); var r := Apply(s);
      && AllWithin(ms[..k + 1], |s.nodes|)
      && r.nodes == InsertLiterals(s.nodes, ms[..k + 1]) + [Literal(n)]
      && r.openedUnderscores == ms[k + 1..]
  {
    var n := RunLength(s.tokens, s.index);
    var ms := s.openedUnderscores;
    var k := IndexOfCount(ms, n);
    var m := ms[k];
    MatchShape(s, n);
    assert Step(s) == Close(s, m, n);
    assert Step(s) == CloseCrossing(s, m, n);
    RemoveEachPrefix(ms[..k], ms[k + 1..]);
    CrossingNodes(s.nodes, ms, k, Literal(n));
  }

  /** A close refused because the run splits words across whitespace leaves it literal and
      the marker open. */
  lemma InsideWordsStaysLiteral(s: Context)
    requires Valid(s) && s.index < |s.tokens| && CanHandle(s.CurrentToken())
    requires var n := RunLength(s.tokens, s.index);
      && !IsBetweenDigits(s.PreviousToken(), s.PeekToken(n))
      && |s.openedUnderscores| > 0 && s.openedUnderscores[0].count == n
      && InsideWords(s, s.openedUnderscores[0], n)
    ensures Apply(s).nodes == s.nodes + [Literal(RunLength(s.tokens, s.index))]
    ensures Apply(s).openedUnderscores == s.openedUnderscores
  {
    var n := RunLength(s.tokens, s.index);
    assert IndexOfCount(s.openedUnderscores, n) == 0;
    MatchShape(s, n);
    assert Step(s) == Close(s, s.openedUnderscores[0], n);
  }

  /** CountConsecutiveUnderscores: counts the underscore tokens from the cursor on. */
  method CountConsecutiveUnderscores(ctx: ParsingContext) returns (count: nat)
    requires ctx.index <= |ctx.tokens|
    ensures count == RunLength(ctx.tokens, ctx.index)
  {
    count := 0;
    var offset := 0;
    while ctx.index + offset < |ctx.tokens| && ctx.tokens[ctx.index + offset].kind == Underscore
      invariant count == offset && ctx.index + offset <= |ctx.tokens|
      invariant RunLength(ctx.tokens, ctx.index) == offset + RunLength(ctx.tokens, ctx.index + offset)
      decreases |ctx.tokens| - ctx.index - offset
    {
      count := count + 1;
      offset := offset + 1;
    }
  }

  /** OpenUnderscore: pushes a marker, or appends a literal run for a bold inside an italic. */
  method OpenUnderscore(ctx: ParsingContext, count: nat)
    modifies ctx
    ensures ctx.State() == Open(old(ctx.State()), count)
  {
    if count >= 2 {
      var hasOpenedSingle := HasOpenedSingle(ctx.openedUnderscores);
      if hasOpenedSingle {
        ctx.nodes := ctx.nodes + [Literal(count)];
        return;
      }
    }
    ctx.openedUnderscores := [UnderscoreInfo(count, ctx.index, |ctx.nodes|)] + ctx.openedUnderscores;
  }

  /** RemoveUnderscoreFromStack: copies the stack to a list, removes the marker from the
      list and pushes the rest back from the bottom up. */
  method RemoveUnderscoreFromStack(ctx: ParsingContext, toRemove: UnderscoreInfo)
    modifies ctx
    ensures ctx.State() == old(ctx.State()).(openedUnderscores := Remove(old(ctx.openedUnderscores), toRemove))
  {
    var tempList := Remove(ctx.openedUnderscores, toRemove);
    ctx.openedUnderscores := [];
    var i := |tempList| - 1;
    while i >= 0
      invariant -1 <= i < |tempList|
      invariant ctx.openedUnderscores == tempList[i + 1..]
      invariant ctx.index == old(ctx.index) && ctx.nodes == old(ctx.nodes)
    {
      ctx.openedUnderscores := [tempList[i]] + ctx.openedUnderscores;
      i := i - 1;
    }
  }

  /** HasWhitespaceBetween: scans the nodes from `startNodeIndex` for a text node holding
      whitespace. */
  method HasWhitespaceBetween(ctx: ParsingContext, startNodeIndex: nat) returns (b: bool)
    ensures b == HasWhitespaceFrom(ctx.nodes, startNodeIndex)
  {
    var i := startNodeIndex;
    while i < |ctx.nodes|
      invariant startNodeIndex <= i
      invariant forall j :: startNodeIndex <= j < i && j < |ctx.nodes| ==>
        !(ctx.nodes[j].TextNode? && HasWhiteSpace(ctx.nodes[j].content))
      decreases |ctx.nodes| - i
    {
      if ctx.nodes[i].TextNode? && HasWhiteSpace(ctx.nodes[i].content) {
        return true;
      }
      i := i + 1;
    }
    return false;
  }

  /** IsInsideWords: the match is inside words when there is whitespace between the markers
      and a Text token stands before the opener or, as probed, after the closer. */
  method IsInsideWords(ctx: ParsingContext, openedUnderscore: UnderscoreInfo, count: nat) returns (b: bool)
    requires count >= 1
    ensures b == InsideWords(ctx.State(), openedUnderscore, count)
  {
    var tokenBeforeOpen := TokenBefore(ctx.tokens, openedUnderscore.tokenIndex);
    var hasTextBeforeOpen := IsText(tokenBeforeOpen);
    var tokenAfterClose := ctx.PeekToken(count - 1);
    var hasTextAfterClose := IsText(tokenAfterClose);
    var hasWhitespaceInside := HasWhitespaceBetween(ctx, openedUnderscore.nodeIndex);
    b := hasWhitespaceInside && (hasTextBeforeOpen || hasTextAfterClose);
  }

  /** The first foreach of the crossing branch: a literal run at each intersecting marker's
      node position, in the given order. */
  method InsertIntersectingLiterals(ctx: ParsingContext, ordered: seq<UnderscoreInfo>)
    requires AllWithin(ordered, |ctx.nodes|)
    modifies ctx
    ensures ctx.State() == old(ctx.State()).(nodes := InsertLiterals(old(ctx.nodes), ordered))
  {
    var i := 0;
    while i < |ordered|
      invariant 0 <= i <= |ordered| && |ctx.nodes| == |old(ctx.nodes)| + i
      invariant AllWithin(ordered[i..], |ctx.nodes|)
      invariant InsertLiterals(ctx.nodes, ordered[i..]) == InsertLiterals(old(ctx.nodes), ordered)
      invariant ctx.index == old(ctx.index) && ctx.openedUnderscores == old(ctx.openedUnderscores)
    {
      var intersecting := ordered[i];
      assert ordered[i..][1..] == ordered[i + 1..];
      ctx.nodes := Insert(ctx.nodes, intersecting.nodeIndex, Literal(intersecting.count));
      i := i + 1;
    }
  }

  /** The second foreach of the crossing branch: each intersecting marker leaves the stack. */
  method RemoveEachFromStack(ctx: ParsingContext, markers: seq<UnderscoreInfo>)
    modifies ctx
    ensures ctx.State() == old(ctx.State()).(openedUnderscores := RemoveEach(old(ctx.openedUnderscores), markers))
  {
    var j := 0;
    while j < |markers|
      invariant 0 <= j <= |markers|
      invariant RemoveEach(ctx.openedUnderscores, markers[j..]) == RemoveEach(old(ctx.openedUnderscores), markers)
      invariant ctx.index == old(ctx.index) && ctx.nodes == old(ctx.nodes)
    {
      assert markers[j..][1..] == markers[j + 1..];
      RemoveUnderscoreFromStack(ctx, markers[j]);
      j := j + 1;
    }
  }

  /** The crossing branch of CloseUnderscore (the body of its first `if`). */
  method FlattenCrossing(ctx: ParsingContext, openedUnderscore: UnderscoreInfo, count: nat,
                         intersectingUnderscores: seq<UnderscoreInfo>)
    requires AllWithin(ctx.openedUnderscores, |ctx.nodes|) && openedUnderscore.nodeIndex <= |ctx.nodes|
    requires intersectingUnderscores == Intersecting(ctx.openedUnderscores, openedUnderscore.nodeIndex, count)
    modifies ctx
    ensures ctx.State() == CloseCrossing(old(ctx.State()), openedUnderscore, count)
  {
    ghost var s := ctx.State();
    ctx.nodes := ctx.nodes + [Literal(count)];
    IntersectingWithin(s, openedUnderscore, count);
    SortedWithin(intersectingUnderscores, |ctx.nodes|);
    InsertIntersectingLiterals(ctx, OrderByNodeIndexDescending(intersectingUnderscores));
    ctx.nodes := Insert(ctx.nodes, openedUnderscore.nodeIndex, Literal(count));
    RemoveUnderscoreFromStack(ctx, openedUnderscore);
    RemoveEachFromStack(ctx, intersectingUnderscores);
  }

  /** The formatting tail of CloseUnderscore: GetRange, RemoveRange, Add, then removal of
      the marker. */
  method WrapInnerNodes(ctx: ParsingContext, openedUnderscore: UnderscoreInfo, count: nat)
    requires openedUnderscore.nodeIndex <= |ctx.nodes|
    modifies ctx
    ensures ctx.State() == CloseClean(old(ctx.State()), openedUnderscore, count)
  {
    var startIndex := openedUnderscore.nodeIndex;
    var innerNodesCount := |ctx.nodes| - startIndex;
    var innerNodes := ctx.nodes[startIndex..startIndex + innerNodesCount];
    assert innerNodes == old(ctx.nodes)[startIndex..];
    ctx.nodes := ctx.nodes[..startIndex];
    var formattedNode := if count >= 2 then BoldNode(innerNodes) else ItalicNode(innerNodes);
    assert formattedNode == Wrap(count, old(ctx.nodes)[startIndex..]);
    ctx.nodes := ctx.nodes + [formattedNode];
    RemoveUnderscoreFromStack(ctx, openedUnderscore);
  }

  /** CloseUnderscore: the four ways a matching run ends its marker. */
  method CloseUnderscore(ctx: ParsingContext, openedUnderscore: UnderscoreInfo, count: nat)
    requires AllWithin(ctx.openedUnderscores, |ctx.nodes|) && openedUnderscore in ctx.openedUnderscores && count >= 1
    modifies ctx
    ensures ctx.State() == Close(old(ctx.State()), openedUnderscore, count)
  {
    MarkerWithin(ctx.State(), openedUnderscore);
    var intersectingUnderscores := Intersecting(ctx.openedUnderscores, openedUnderscore.nodeIndex, count);
    if |intersectingUnderscores| != 0 {
      FlattenCrossing(ctx, openedUnderscore, count, intersectingUnderscores);
      return;
    }
    if count >= 2 {
      var hasSingleAfter := HasSingleAfter(ctx.openedUnderscores, openedUnderscore.nodeIndex);
      if hasSingleAfter {
        // a single marker opened after the match has another length, so it intersects
        SingleAfterNeverFires(ctx.openedUnderscores, openedUnderscore.nodeIndex, count);
        assert false;
      }
    }
    var insideWords := IsInsideWords(ctx, openedUnderscore, count);
    if insideWords {
      ctx.nodes := ctx.nodes + [Literal(count)];
      return;
    }
    WrapInnerNodes(ctx, openedUnderscore, count);
  }

  /** UnderscoreRule.Handle */
  method Handle(ctx: ParsingContext)
    requires Valid(ctx.State()) && ctx.index < |ctx.tokens| && CanHandle(ctx.CurrentToken())
    modifies ctx
    ensures ctx.State() == Apply(old(ctx.State()))
  {
    var underscoreCount := CountConsecutiveUnderscores(ctx);
    var previousToken := ctx.PreviousToken();
    var nextToken := ctx.PeekToken(underscoreCount);
    if IsBetweenDigits(previousToken, nextToken) {
      ctx.nodes := ctx.nodes + [Literal(underscoreCount)];
      ctx.MoveForward(underscoreCount);
      return;
    }
    var existingUnderscore := FindOpenedUnderscore(ctx.openedUnderscores, underscoreCount);
    if existingUnderscore.Some? {
      CloseUnderscore(ctx, existingUnderscore.value, underscoreCount);
    } else {
      OpenUnderscore(ctx, underscoreCount);
    }
    ctx.MoveForward(underscoreCount);
  }

  lemma {:induction false} InsertLiteralsLinkFree(ns: seq<Node>, ms: seq<UnderscoreInfo>)
    requires AllWithin(ms, |ns|) && AllLinkFree(ns)
    ensures AllLinkFree(InsertLiterals(ns, ms))
    decreases |ms|
  {
    if ms != [] {
      var ns' := Insert(ns, ms[0].nodeIndex, Literal(ms[0].count));
      assert AllLinkFree(ns') by {
        forall i | 0 <= i < |ns'| ensures LinkFree(ns'[i]) {
          if i < ms[0].nodeIndex {
            assert ns'[i] == ns[i];
          } else if i > ms[0].nodeIndex {
            assert ns'[i] == ns'[ms[0].nodeIndex + 1..][i - ms[0].nodeIndex - 1] == ns[i - 1];
          }
        }
      }
      InsertLiteralsLinkFree(ns', ms[1..]);
    }
  }

  lemma CrossingLinkFree(s: Context, m: UnderscoreInfo, n: nat)
    requires AllWithin(s.openedUnderscores, |s.nodes|) && m.nodeIndex <= |s.nodes| && AllLinkFree(s.nodes)
    ensures AllLinkFree(CloseCrossing(s, m, n).nodes)
  {
    var xs := Intersecting(s.openedUnderscores, m.nodeIndex, n);
    var grown := s.nodes + [Literal(n)];
    IntersectingWithin(s, m, n);
    SortedWithin(xs, |grown|);
    InsertLiteralsLinkFree(grown, OrderByNodeIndexDescending(xs));
    var flattened := InsertLiterals(grown, OrderByNodeIndexDescending(xs));
    var m' := m.(count := n);
    InsertLiteralsLinkFree(flattened, [m']);
    assert InsertLiterals(flattened, [m']) == Insert(flattened, m.nodeIndex, Literal(n)) by {
      assert [m'][1..] == [];
    }
  }

  lemma CleanLinkFree(s: Context, m: UnderscoreInfo, n: nat)
    requires m.nodeIndex <= |s.nodes| && AllLinkFree(s.nodes)
    ensures AllLinkFree(CloseClean(s, m, n).nodes)
  {
    var w := Wrap(n, s.nodes[m.nodeIndex..]);
    assert LinkFree(w) by {
      assert forall i :: 0 <= i < |w.children| ==> w.children[i] == s.nodes[m.nodeIndex + i];
    }
    var r := CloseClean(s, m, n).nodes;
    assert forall i :: 0 <= i < m.nodeIndex ==> r[i] == s.nodes[i];
  }

  /** The underscore rule makes no links: every node it adds is a literal run or a bold or
      italic wrapper around nodes that were already there. */
  lemma ApplyKeepsLinkFree(s: Context)
    requires Valid(s) && s.index < |s.tokens| && CanHandle(s.CurrentToken())
    requires AllLinkFree(s.nodes)
    ensures AllLinkFree(Apply(s).nodes)
  {
    var n := RunLength(s.tokens, s.index);
    var ms := s.openedUnderscores;
    var found := FindOpenedUnderscore(ms, n);
    if IsBetweenDigits(s.PreviousToken(), s.PeekToken(n)) {
    } else if found.Some? {
      var m := found.value;
      assert Step(s) == Close(s, m, n);
      MarkerWithin(s, m);
      if |Intersecting(ms, m.nodeIndex, n)| != 0 {
        CrossingLinkFree(s, m, n);
      } else if n >= 2 && HasSingleAfter(ms, m.nodeIndex) {
      } else if InsideWords(s, m, n) {
      } else {
        CleanLinkFree(s, m, n);
      }
    }
  }
}
