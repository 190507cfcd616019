/**
 * The token array turned into a tree (`tokens32.AST` of profiler/policy.peg.go).
 */
module PolicyTree {
  import opened PolicyGrammar

  /** `node32`: a token and its children, the first one first.  The Go node keeps
      the first child in `up` and the next sibling in `next`. */
  datatype Node = Node(token: Token, children: seq<Node>)

  /** `t` covers the span of `u`: the test that pops `u` off the stack. */
  predicate Covers(t: Token, u: Token)
  {
    u.begin >= t.begin && u.end <= t.end
  }

  /** Every child's span lies inside its parent's, all the way down. */
  predicate Nested(n: Node)
    decreases n
  {
    forall i :: 0 <= i < |n.children| ==> Covers(n.token, n.children[i].token) && Nested(n.children[i])
  }

  /** The tokens of a tree, children before their parent, in order. */
  function PostOrder(n: Node): (ts: seq<Token>)
    ensures |ts| > 0 && ts[|ts| - 1] == n.token
    decreases n, 1
  {
    Flatten(n.children) + [n.token]
  }

  /** The tokens of a sequence of trees, one tree after the other. */
  function Flatten(ns: seq<Node>): seq<Token>
    decreases ns, 0
  {
    if ns == [] then [] else Flatten(ns[..|ns| - 1]) + PostOrder(ns[|ns| - 1])
  }

  lemma {:induction false} FlattenAppend(a: seq<Node>, b: seq<Node>)
    ensures Flatten(a + b) == Flatten(a) + Flatten(b)
    decreases |b|
  {
    if b == [] {
      assert a + b == a;
    } else {
      var m := |b| - 1;
      assert (a + b)[..|a + b| - 1] == a + b[..m];
      FlattenAppend(a, b[..m]);
    }
  }

  /** The tokens `AST` turns into nodes: those with a non-empty span. */
  function NonEmpty(ts: seq<Token>): (r: seq<Token>)
    ensures |r| <= |ts| && forall i :: 0 <= i < |r| ==> r[i].begin != r[i].end
    decreases |ts|
  {
    if ts == [] then []
    else
      var t := ts[|ts| - 1];
      NonEmpty(ts[..|ts| - 1]) + if t.begin == t.end then [] else [t]
  }

  /** The first token, which becomes the bottom of the stack whatever its span: the
      zero token when the channel is empty. */
  function First(ts: seq<Token>): Token
  {
    if ts == [] then ZERO_TOKEN else ts[0]
  }

  /** The tokens the nodes come from: the first token, then the non-empty ones. */
  function AstTokens(ts: seq<Token>): (r: seq<Token>)
    ensures |r| > 0
  {
    [First(ts)] + NonEmpty(if ts == [] then [] else ts[1..])
  }

  /** The node tokens of the first `i` tokens read. */
  function AstPrefix(tree: seq<Token>, i: nat): seq<Token>
    requires 1 <= i <= |tree|
  {
    [First(tree)] + NonEmpty(tree[1..i])
  }

  /** One step of `AST`'s walk over the tokens read so far. */
  lemma AstPrefixStep(tree: seq<Token>, i: nat)
    requires 1 <= i < |tree|
    ensures AstPrefix(tree, i + 1) ==
      AstPrefix(tree, i) + if tree[i].begin == tree[i].end then [] else [tree[i]]
  {
    assert tree[1..i + 1][..i - 1] == tree[1..i];
  }

  /** The number of trees on top of the stack whose span `token` covers: the run of
      covered trees that ends at the top, which the inner loop of `AST` pops. */
  function CoveredCount(stack: seq<Node>, token: Token): (n: nat)
    ensures n <= |stack|
    ensures forall k :: |stack| - n <= k < |stack| ==> Covers(token, stack[k].token)
    ensures n < |stack| ==> !Covers(token, stack[|stack| - n - 1].token)
    decreases |stack|
  {
    if |stack| > 0 && Covers(token, stack[|stack| - 1].token) then
      CoveredCount(stack[..|stack| - 1], token) + 1
    else 0
  }

  /** The stack after one non-empty token: the trees it covers on top of the stack
      become its children, in stack order, and its node goes on top of what is left.
      `ReducedMeaning` says which split that is. */
  function Reduced(stack: seq<Node>, token: Token): (next: seq<Node>)
    ensures |next| > 0 && next[|next| - 1].token == token
  {
    var m := |stack| - CoveredCount(stack, token);
    stack[..m] + [Node(token, stack[m..])]
  }

  /** The covered run is `stack[j..]` when the token covers every tree there and not
      the one below it. */
  lemma {:induction false} CoveredExactly(stack: seq<Node>, token: Token, j: nat)
    requires j <= |stack|
    requires forall k :: j <= k < |stack| ==> Covers(token, stack[k].token)
    requires j > 0 ==> !Covers(token, stack[j - 1].token)
    ensures CoveredCount(stack, token) == |stack| - j
    decreases |stack|
  {
    if j < |stack| {
      var m := |stack| - 1;
      assert forall k :: j <= k < m ==> stack[..m][k] == stack[k];
      CoveredExactly(stack[..m], token, j);
    }
  }

  /** The reduction is the one split of the stack into `rest + kids` where the token
      covers every tree of `kids` and not the top of `rest`. */
  lemma ReducedMeaning(stack: seq<Node>, token: Token, rest: seq<Node>, kids: seq<Node>)
    requires stack == rest + kids
    requires forall k :: 0 <= k < |kids| ==> Covers(token, kids[k].token)
    requires |rest| > 0 ==> !Covers(token, rest[|rest| - 1].token)
    ensures Reduced(stack, token) == rest + [Node(token, kids)]
  {
    CoveredExactly(stack, token, |rest|);
    var n := CoveredCount(stack, token);
    assert rest == stack[..|stack| - n] && kids == stack[|stack| - n..];
  }

  /** The stack `AST` has built from the node tokens `ts`: the first token alone,
      then each later token reduced onto it. */
  function Built(ts: seq<Token>): (stack: seq<Node>)
    requires |ts| > 0
    ensures |stack| > 0 && stack[|stack| - 1].token == ts[|ts| - 1]
    decreases |ts|
  {
    if |ts| == 1 then [Node(ts[0], [])] else Reduced(Built(ts[..|ts| - 1]), ts[|ts| - 1])
  }

  /** The tree `AST` returns for the node tokens `ts`: the top of the stack. */
  function AstRoot(ts: seq<Token>): (root: Node)
    requires |ts| > 0
    ensures root.token == ts[|ts| - 1]
  {
    var stack := Built(ts);
    stack[|stack| - 1]
  }

  lemma BuiltSnoc(ts: seq<Token>, t: Token)
    requires |ts| > 0
    ensures Built(ts + [t]) == Reduced(Built(ts), t)
  {
    assert (ts + [t])[..|ts|] == ts;
  }

  /** One more token read: an empty one leaves the stack alone, a non-empty one is
      reduced onto it. */
  lemma BuiltPrefixStep(tree: seq<Token>, i: nat)
    requires 1 <= i < |tree|
    ensures Built(AstPrefix(tree, i + 1)) ==
      if tree[i].begin == tree[i].end then Built(AstPrefix(tree, i))
      else Reduced(Built(AstPrefix(tree, i)), tree[i])
  {
    AstPrefixStep(tree, i);
    if tree[i].begin == tree[i].end {
      assert AstPrefix(tree, i + 1) == AstPrefix(tree, i);
    } else {
      BuiltSnoc(AstPrefix(tree, i), tree[i]);
    }
  }

  /** The inner loop of `AST`: the trees on top of the stack whose span `token`
      covers are taken off, in stack order, and the first tree left, if any, is not
      covered. */
  method PopCovered(stack: seq<Node>, token: Token) returns (rest: seq<Node>, kids: seq<Node>)
    ensures stack == rest + kids
    ensures forall k :: 0 <= k < |kids| ==> Covers(token, kids[k].token)
    ensures |rest| > 0 ==> !Covers(token, rest[|rest| - 1].token)
  {
    rest, kids := stack, [];
    while |rest| > 0 && Covers(token, rest[|rest| - 1].token)
      invariant stack == rest + kids
      invariant forall k :: 0 <= k < |kids| ==> Covers(token, kids[k].token)
      decreases |rest|
    {
      kids := [rest[|rest| - 1]] + kids;
      rest := rest[..|rest| - 1];
    }
  }

  /** One non-empty token of `AST`: the stack becomes `Reduced(stack, token)`. */
  method Reduce(stack: seq<Node>, token: Token) returns (next: seq<Node>)
    ensures next == Reduced(stack, token)
  {
    var rest, kids := PopCovered(stack, token);
    ReducedMeaning(stack, token, rest, kids);
    next := rest + [Node(token, kids)];
  }

  /** All the trees on the stack nest. */
  predicate AllNested(stack: seq<Node>)
  {
    forall k :: 0 <= k < |stack| ==> Nested(stack[k])
  }

  /** The two parts of a stack of nested trees are stacks of nested trees. */
  lemma SplitNested(rest: seq<Node>, kids: seq<Node>)
    requires AllNested(rest + kids)
    ensures AllNested(rest) && AllNested(kids)
  {
    assert forall k :: 0 <= k < |kids| ==> kids[k] == (rest + kids)[|rest| + k];
    assert forall k :: 0 <= k < |rest| ==> rest[k] == (rest + kids)[k];
  }

  /** The tokens of `rest` followed by a tree over `kids` are those of `rest + kids`
      followed by the tree's token. */
  lemma FlattenReduced(rest: seq<Node>, kids: seq<Node>, token: Token)
    ensures Flatten(rest + [Node(token, kids)]) == Flatten(rest + kids) + [token]
  {
    var node := Node(token, kids);
    FlattenAppend(rest, [node]);
    FlattenAppend(rest, kids);
    assert [node][..0] == [];
    assert Flatten([node]) == PostOrder(node);
  }

  /** A reduction keeps the spans nested and puts the token after the stack's tokens. */
  lemma ReducedNested(stack: seq<Node>, token: Token)
    requires AllNested(stack)
    ensures AllNested(Reduced(stack, token))
    ensures Flatten(Reduced(stack, token)) == Flatten(stack) + [token]
  {
    var m := |stack| - CoveredCount(stack, token);
    var rest, kids := stack[..m], stack[m..];
    assert stack == rest + kids;
    var node := Node(token, kids);
    assert Reduced(stack, token) == rest + [node];
    SplitNested(rest, kids);
    assert Nested(node);
    assert forall k :: 0 <= k < |rest| ==> (rest + [node])[k] == rest[k];
    FlattenReduced(rest, kids, token);
  }

  lemma SnocLast<T>(s: seq<T>)
    requires |s| > 0
    ensures s[..|s| - 1] + [s[|s| - 1]] == s
  {
  }

  /** The trees `AST` builds nest, and their tokens, children first, are the node
      tokens in their order. */
  lemma {:induction false} BuiltNested(ts: seq<Token>)
    requires |ts| > 0
    ensures AllNested(Built(ts)) && Flatten(Built(ts)) == ts
    decreases |ts|
  {
    var m := |ts| - 1;
    if m == 0 {
      var leaf := Node(ts[0], []);
      assert Built(ts) == [leaf];
      assert Flatten([leaf]) == Flatten([]) + PostOrder(leaf);
    } else {
      var prefix := ts[..m];
      SnocLast(ts);
      var stack := Built(prefix);
      assert Built(ts) == Reduced(stack, ts[m]);
      BuiltNested(prefix);
      ReducedNested(stack, ts[m]);
    }
  }

  /** The tokens of the stack end with those of its top tree. */
  lemma FlattenLast(stack: seq<Node>)
    requires |stack| > 0
    ensures var post := PostOrder(stack[|stack| - 1]); var all := Flatten(stack);
      |post| <= |all| && post == all[|all| - |post|..]
  {
  }

  /** The token of every tree on the stack is among the stack's tokens. */
  lemma {:induction false} RootsInFlatten(stack: seq<Node>)
    ensures forall k :: 0 <= k < |stack| ==> stack[k].token in Flatten(stack)
    decreases |stack|
  {
    if stack != [] {
      var m := |stack| - 1;
      RootsInFlatten(stack[..m]);
      assert Flatten(stack) == Flatten(stack[..m]) + PostOrder(stack[m]);
      assert forall k :: 0 <= k < m ==> stack[k] == stack[..m][k];
    }
  }

  /** When the last token covers every token, as the Policy token does, `AST` ends
      with that token's tree alone on the stack, and the tree holds every node
      token: its tokens, children first, are exactly the node tokens. */
  lemma CoveringTokenTakesAll(ts: seq<Token>)
    requires |ts| > 0
    requires forall k :: 0 <= k < |ts| ==> Covers(ts[|ts| - 1], ts[k])
    ensures |Built(ts)| == 1 && PostOrder(AstRoot(ts)) == ts
  {
    var m := |ts| - 1;
    var t := ts[m];
    SnocLast(ts);
    if m == 0 {
      var leaf := Node(t, []);
      assert Built(ts) == [leaf];
      assert PostOrder(leaf) == Flatten([]) + [t];
    } else {
      var prefix := ts[..m];
      var stack := Built(prefix);
      assert Built(ts) == Reduced(stack, t);
      BuiltNested(prefix);
      RootsInFlatten(stack);
      forall k | 0 <= k < |stack|
        ensures Covers(t, stack[k].token)
      {
        var j :| 0 <= j < m && prefix[j] == stack[k].token;
      }
      ReducedMeaning(stack, t, [], stack);
      assert [] + stack == stack;
      var node := Node(t, stack);
      assert Built(ts) == [] + [node];
      assert PostOrder(node) == Flatten(stack) + [t];
    }
  }

  /** A first token that no later token covers stays at the bottom of the stack, a
      tree without children. */
  lemma {:induction false} UncoveredBottom(ts: seq<Token>)
    requires |ts| > 0
    requires forall k :: 0 < k < |ts| ==> !Covers(ts[k], ts[0])
    ensures Built(ts)[0] == Node(ts[0], [])
    decreases |ts|
  {
    if |ts| > 1 {
      var prefix := ts[..|ts| - 1];
      var t := ts[|ts| - 1];
      assert forall k :: 0 < k < |prefix| ==> prefix[k] == ts[k];
      UncoveredBottom(prefix);
      var stack := Built(prefix);
      assert !Covers(t, stack[0].token);
      var m := |stack| - CoveredCount(stack, t);
      assert m > 0;
      assert Built(ts) == stack[..m] + [Node(t, stack[m..])];
    }
  }

  /** When the last token gathers the whole stack, the root's children are the stack
      before it, so a first token no later one covers is its first child. */
  lemma RootFirstChild(front: seq<Token>, t: Token)
    requires |front| > 0 && |Built(front + [t])| == 1
    requires forall k :: 0 < k < |front| ==> !Covers(front[k], front[0])
    ensures AstRoot(front + [t]).children == Built(front)
    ensures Built(front)[0] == Node(front[0], [])
  {
    BuiltSnoc(front, t);
    UncoveredBottom(front);
  }

  /** After the last token, the tokens read are all the node tokens. */
  lemma AstPrefixAll(tree: seq<Token>)
    requires |tree| > 0
    ensures AstTokens(tree) == AstPrefix(tree, |tree|)
  {
    assert tree[1..|tree|] == tree[1..];
  }

  /** The tree on top of the built stack nests, belongs to the last token, and its
      tokens, children first, are the tail of the node tokens. */
  lemma AstRootFacts(ts: seq<Token>)
    requires |ts| > 0
    ensures Nested(AstRoot(ts))
    ensures var post := PostOrder(AstRoot(ts)); |post| <= |ts| && post == ts[|ts| - |post|..]
  {
    BuiltNested(ts);
    FlattenLast(Built(ts));
  }

  /** `tokens32.AST`: the stack holds the trees built so far, the top last.  Each
      non-empty token pops the trees whose span it covers and becomes their parent.
      The tree on top of the stack is returned: `AstRoot` of the node tokens, so it
      belongs to the last token, all its spans nest, and its tokens, children first,
      are the tail of the node tokens, in their order. */
  method Ast(tree: seq<Token>) returns (root: Node)
    ensures root == AstRoot(AstTokens(tree))
    ensures root.token == AstTokens(tree)[|AstTokens(tree)| - 1]
    ensures Nested(root)
    ensures var ts := AstTokens(tree); var post := PostOrder(root);
      |post| <= |ts| && post == ts[|ts| - |post|..]
  {
    var stack := [Node(First(tree), [])];
    if tree == [] {
      root := stack[0];
      assert AstTokens(tree) == [First(tree)];
    } else {
      var i := 1;
      while i < |tree|
        invariant 1 <= i <= |tree| && stack == Built(AstPrefix(tree, i))
      {
        var token := tree[i];
        BuiltPrefixStep(tree, i);
        if token.begin != token.end {
          stack := Reduce(stack, token);
        }
        i := i + 1;
      }
      AstPrefixAll(tree);
      root := stack[|stack| - 1];
    }
    AstRootFacts(AstTokens(tree));
  }
}
