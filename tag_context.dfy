/**
 * The tag context of a client: a persistent singly-linked stack of tags.
 * A node records the tag it introduced and the node that was current when it
 * was pushed; nodes are never changed after they are built, so a node is a value.
 */
module TagContext {
  import opened Wrappers

  datatype TagNode = TagNode(underlying: Option<TagNode>, tag: string)

  /** The number of tags on the chain ending at `n`. */
  function Depth(n: TagNode): (d: nat)
    ensures d >= 1
  {
    match n.underlying
    case None => 1
    case Some(u) => Depth(u) + 1
  }

  /** The node `k` steps towards the root from `n`. */
  function Ancestor(n: TagNode, k: nat): (a: TagNode)
    requires k < Depth(n)
    decreases k
  {
    if k == 0 then n else Ancestor(n.underlying.value, k - 1)
  }

  /** The enumeration of a node: its ancestors' tags first, then its own. */
  function Tags(n: TagNode): (r: seq<string>)
    ensures |r| == Depth(n)
    ensures r[|r| - 1] == n.tag
  {
    match n.underlying
    case None => [n.tag]
    case Some(u) => Tags(u) + [n.tag]
  }

  /** The tags active on a client whose current node is `current`; empty when no tag is active. */
  function Current(current: Option<TagNode>): (r: seq<string>)
    ensures current.None? <==> r == []
    ensures current.Some? ==> |r| == Depth(current.value) && r[|r| - 1] == current.value.tag
  {
    match current
    case None => []
    case Some(n) => Tags(n)
  }

  /**
   * The node that `Tag(t)` makes current: its parent is the node that was
   * current, and it enumerates the tags that were active followed by `t`.
   */
  function Push(current: Option<TagNode>, t: string): (n: TagNode)
    ensures n.underlying == current
    ensures Current(Some(n)) == Current(current) + [t]
  {
    TagNode(current, t)
  }

  /** Disposing the scope of a push restores exactly the tags active before it. */
  lemma DisposeRestores(current: Option<TagNode>, t: string)
    ensures Current(Push(current, t).underlying) == Current(current)
  {
  }

  /**
   * Enumeration order: position `Depth(n) - 1 - k` holds the tag of the
   * ancestor `k` steps up, so the outermost tag comes first and the
   * innermost last.
   */
  lemma {:induction false} TagsOuterToInner(n: TagNode, k: nat)
    requires k < Depth(n)
    ensures Tags(n)[Depth(n) - 1 - k] == Ancestor(n, k).tag
    decreases k
  {
    if k > 0 {
      var u := n.underlying.value;
      TagsOuterToInner(u, k - 1);
      assert Tags(n) == Tags(u) + [n.tag];
    }
  }

  /** A step of a client that pushes tags and disposes their scopes. */
  datatype ScopeOp = PushTag(tag: string) | DisposeLatest

  /**
   * The concrete mechanism: `current` is the client's node, `scopes` the
   * handles not yet disposed, most recent last. Disposing a handle sets the
   * client's node to the handle's parent, as the handle's `Dispose` does.
   * A dispose with no open handle is not a strictly nested use and does nothing.
   */
  function RunScopes(current: Option<TagNode>, scopes: seq<TagNode>, ops: seq<ScopeOp>)
    : (Option<TagNode>, seq<TagNode>)
    decreases |ops|
  {
    if ops == [] then (current, scopes)
    else match ops[0]
      case PushTag(t) =>
        var n := Push(current, t);
        RunScopes(Some(n), scopes + [n], ops[1..])
      case DisposeLatest =>
        if scopes == [] then RunScopes(current, scopes, ops[1..])
        else RunScopes(scopes[|scopes| - 1].underlying, scopes[..|scopes| - 1], ops[1..])
  }

  /** The reference meaning of the same steps: a plain stack of the tags pushed and not yet released. */
  function RunStack(stack: seq<string>, ops: seq<ScopeOp>): seq<string>
    decreases |ops|
  {
    if ops == [] then stack
    else match ops[0]
      case PushTag(t) => RunStack(stack + [t], ops[1..])
      case DisposeLatest =>
        if stack == [] then RunStack(stack, ops[1..])
        else RunStack(stack[..|stack| - 1], ops[1..])
  }

  /** The node that is current once the first `n` handles have been pushed on top of `root`. */
  function Top(root: Option<TagNode>, scopes: seq<TagNode>, n: nat): Option<TagNode>
    requires n <= |scopes|
  {
    if n == 0 then root else Some(scopes[n - 1])
  }

  /**
   * The handles form a chain on top of `root`: handle `i` introduced
   * `stack[i]` and its parent is the handle before it (the root for the
   * first), and the client's current node is the last handle.
   */
  ghost predicate ScopesMatch(root: Option<TagNode>, current: Option<TagNode>, scopes: seq<TagNode>, stack: seq<string>) {
    Chain(root, scopes, stack) && current == Top(root, scopes, |scopes|)
  }

  /** Handle `i` introduced `stack[i]`, and its parent is the handle before it (the root for the first). */
  ghost predicate Chain(root: Option<TagNode>, scopes: seq<TagNode>, stack: seq<string>) {
    && |scopes| == |stack|
    && forall i {:trigger stack[i]} :: 0 <= i < |stack| ==> scopes[i] == TagNode(Top(root, scopes, i), stack[i])
  }

  /** A chain of handles enumerates the root's tags followed by the tags of the handles, in push order. */
  lemma {:induction false} ChainTags(root: Option<TagNode>, current: Option<TagNode>, scopes: seq<TagNode>,
                                     stack: seq<string>, n: nat)
    requires ScopesMatch(root, current, scopes, stack) && n <= |scopes|
    ensures Current(Top(root, scopes, n)) == Current(root) + stack[..n]
    decreases n
  {
    if n > 0 {
      var h := scopes[n - 1];
      ChainTags(root, current, scopes, stack, n - 1);
      assert h == TagNode(Top(root, scopes, n - 1), stack[n - 1]);
      TagsSplit(h);
      AppendNext(Current(root), stack, n);
    }
  }

  /** Extending a prefix by the next element. */
  lemma AppendNext<T>(a: seq<T>, s: seq<T>, n: nat)
    requires 0 < n <= |s|
    ensures a + s[..n] == (a + s[..n - 1]) + [s[n - 1]]
  {
    assert s[..n] == s[..n - 1] + [s[n - 1]];
  }

  /** A node enumerates its parent's tags followed by its own. */
  lemma TagsSplit(n: TagNode)
    ensures Tags(n) == Current(n.underlying) + [n.tag]
  {
  }

  /** A push extends the chain by one handle. */
  lemma PushKeepsMatch(root: Option<TagNode>, current: Option<TagNode>, scopes: seq<TagNode>, stack: seq<string>, t: string)
    requires ScopesMatch(root, current, scopes, stack)
    ensures ScopesMatch(root, Some(Push(current, t)), scopes + [Push(current, t)], stack + [t])
  {
    var scopes' := scopes + [Push(current, t)];
    forall i | 0 <= i < |scopes|
      ensures Top(root, scopes', i) == Top(root, scopes, i)
    {
    }
  }

  /** Disposing the latest handle shortens the chain by one and makes its parent current. */
  lemma DisposeKeepsMatch(root: Option<TagNode>, current: Option<TagNode>, scopes: seq<TagNode>, stack: seq<string>)
    requires ScopesMatch(root, current, scopes, stack)
    requires scopes != []
    ensures ScopesMatch(root, scopes[|scopes| - 1].underlying, scopes[..|scopes| - 1], stack[..|stack| - 1])
  {
    var k := |scopes| - 1;
    ChainPrefix(root, scopes, stack, k);
    assert scopes[k] == TagNode(Top(root, scopes, k), stack[k]);
    TopOfPrefix(root, scopes, k, k);
  }

  /** The first `k` handles of a chain are a chain of the first `k` tags. */
  lemma ChainPrefix(root: Option<TagNode>, scopes: seq<TagNode>, stack: seq<string>, k: nat)
    requires Chain(root, scopes, stack) && k <= |scopes|
    ensures Chain(root, scopes[..k], stack[..k])
  {
    forall i | 0 <= i < k
      ensures scopes[..k][i] == TagNode(Top(root, scopes[..k], i), stack[..k][i])
    {
      assert scopes[i] == TagNode(Top(root, scopes, i), stack[i]);
      TopOfPrefix(root, scopes, k, i);
    }
  }

  /** The first `k` handles give the same nodes as the whole chain does up to `k`. */
  lemma TopOfPrefix(root: Option<TagNode>, scopes: seq<TagNode>, k: nat, i: nat)
    requires i <= k <= |scopes|
    ensures Top(root, scopes[..k], i) == Top(root, scopes, i)
  {
  }

  /**
   * For every sequence of pushes and strictly nested disposes, the tags the
   * client enumerates are the tags of the context it started from followed by
   * the tags pushed and not yet disposed, outer to inner.
   */
  lemma {:induction false} NestedScopesTrackStack(root: Option<TagNode>, current: Option<TagNode>,
                                                  scopes: seq<TagNode>, stack: seq<string>, ops: seq<ScopeOp>)
    requires ScopesMatch(root, current, scopes, stack)
    ensures Current(RunScopes(current, scopes, ops).0) == Current(root) + RunStack(stack, ops)
    decreases |ops|
  {
    if ops == [] {
      ChainTags(root, current, scopes, stack, |scopes|);
      assert stack[..|scopes|] == stack;
    } else {
      match ops[0]
      case PushTag(t) =>
        PushKeepsMatch(root, current, scopes, stack, t);
        NestedScopesTrackStack(root, Some(Push(current, t)), scopes + [Push(current, t)], stack + [t], ops[1..]);
      case DisposeLatest =>
        if scopes == [] {
          NestedScopesTrackStack(root, current, scopes, stack, ops[1..]);
        } else {
          var k := |scopes| - 1;
          DisposeKeepsMatch(root, current, scopes, stack);
          NestedScopesTrackStack(root, scopes[k].underlying, scopes[..k], stack[..k], ops[1..]);
        }
    }
  }

  /** Starting from a client with no tag, the enumeration is exactly the reference stack. */
  lemma NestedScopesFromEmpty(ops: seq<ScopeOp>)
    ensures Current(RunScopes(None, [], ops).0) == RunStack([], ops)
  {
    NestedScopesTrackStack(None, None, [], [], ops);
  }

  /**
   * Disposing is not a pop: it sets the context to the handle's parent
   * whatever is current. With an outer and an inner scope open, disposing the
   * outer one drops the inner tag as well; disposing the inner one after that
   * brings the outer tag back; disposing the outer one again drops it again.
   */
  lemma {:induction false} OuterDisposeDropsInner(current: Option<TagNode>, outer: string, inner: string)
    ensures var o := Push(current, outer);
            var i := Push(Some(o), inner);
            && Current(Some(i)) == Current(current) + [outer, inner]
            && Current(o.underlying) == Current(current)
            && Current(i.underlying) == Current(current) + [outer]
  {
    var o := Push(current, outer);
    var i := Push(Some(o), inner);
    assert Current(current) + [outer] + [inner] == Current(current) + [outer, inner];
  }
}
