/**
 Level-order codec for binary trees, as every language wrapper implements it.

 A tree argument arrives as an array of optional values.  Four builders turn it
 into linked heap nodes: a deque of remaining children (Python), an array cursor
 (Go), a queue of created nodes (C++) and a queue that also holds nulls (Java).
 A breadth-first serializer turns the nodes back into an array.

 The common specification is arithmetic: the left child of the node at index `i`
 sits at index `1 + 2 * (number of non-null items before i)`.
 */
module TreeCodec {
  import opened Wrappers

  type Item = Option<int>

  datatype Tree = Leaf | Node(val: int, left: Tree, right: Tree)

  class TreeNode {
    const val: int  // no builder or serializer reassigns it
    var left: TreeNode?
    var right: TreeNode?
    ghost const slot: nat  // index of the array item it was made for

    constructor (val: int, ghost slot: nat)
      ensures this.val == val && this.slot == slot && left == null && right == null
    {
      this.val := val;
      this.slot := slot;
      left, right := null, null;
    }
  }

  /** `n` is the root of a finite structure inside `nodes` that unfolds to `t`. */
  ghost predicate Represents(n: TreeNode?, t: Tree, nodes: set<TreeNode>)
    reads nodes
    decreases t
  {
    match t
    case Leaf => n == null
    case Node(v, l, r) =>
      n != null && n in nodes && n.val == v && Represents(n.left, l, nodes) && Represents(n.right, r, nodes)
  }

  /** A heap structure unfolds to at most one tree. */
  lemma {:induction false} RepresentsIsFunctional(n: TreeNode?, t: Tree, u: Tree, nodes: set<TreeNode>, others: set<TreeNode>)
    requires Represents(n, t, nodes) && Represents(n, u, others)
    ensures t == u
    decreases t
  {
    if t.Node? && u.Node? {
      RepresentsIsFunctional(n.left, t.left, u.left, nodes, others);
      RepresentsIsFunctional(n.right, t.right, u.right, nodes, others);
    }
  }

  // ------------------------------------------------------------------
  // The array's meaning
  // ------------------------------------------------------------------

  /** Number of non-null items before index `i`. */
  function Count(vs: seq<Item>, i: nat): nat
    requires i <= |vs|
  {
    if i == 0 then 0 else Count(vs, i - 1) + if vs[i - 1].Some? then 1 else 0
  }

  lemma {:induction false} CountMonotone(vs: seq<Item>, i: nat, j: nat)
    requires i <= j <= |vs|
    ensures Count(vs, i) <= Count(vs, j)
    ensures i < j && vs[i].Some? ==> Count(vs, i) < Count(vs, j)
    decreases j
  {
    if i < j {
      CountMonotone(vs, i, j - 1);
    }
  }

  /** Index of the left child of the item at `i`; the right child follows it. */
  function Slot(vs: seq<Item>, i: nat): nat
    requires i <= |vs|
  {
    1 + 2 * Count(vs, i)
  }

  /** The tree hanging at index `i`.  Items that no earlier node claims have no
      well-founded reading (a cursor builder links them to themselves) and are
      given none. */
  function TreeAt(vs: seq<Item>, i: nat): Tree
    decreases |vs| - i
  {
    if i >= |vs| || vs[i].None? || Slot(vs, i) <= i then Leaf
    else Node(vs[i].value, TreeAt(vs, Slot(vs, i)), TreeAt(vs, Slot(vs, i) + 1))
  }

  /** What a level-order array denotes. */
  function Denote(vs: seq<Item>): Tree { TreeAt(vs, 0) }

  /** The nodes below `n` are those made for index `i` and the slots below it. */
  ghost predicate Placed(n: TreeNode?, vs: seq<Item>, i: nat, nodes: set<TreeNode>)
    reads nodes
    decreases |vs| - i
  {
    if TreeAt(vs, i).Leaf? then n == null
    else
      && n != null && n in nodes && n.slot == i
      && Placed(n.left, vs, Slot(vs, i), nodes) && Placed(n.right, vs, Slot(vs, i) + 1, nodes)
  }

  // ------------------------------------------------------------------
  // Heap layout shared by all builders
  // ------------------------------------------------------------------

  /** The node at position `k` of `made`, null beyond its end. */
  function NodeOrNull(made: seq<TreeNode?>, k: nat): TreeNode? {
    if k < |made| then made[k] else null
  }

  ghost function NodesOf(made: seq<TreeNode?>): set<TreeNode> {
    set n: TreeNode | n in made
  }

  /** `made` holds one fresh node per non-null item of a prefix of `vs`. */
  ghost predicate Cells(made: seq<TreeNode?>, vs: seq<Item>) {
    && |made| <= |vs|
    && (forall k :: 0 <= k < |made| ==> (made[k] == null <==> vs[k].None?))
    && (forall k :: 0 <= k < |made| && made[k] != null ==> made[k].val == vs[k].value && made[k].slot == k)
  }

  /** The two child pointers of a node. */
  datatype Link = Link(left: TreeNode?, right: TreeNode?)

  /** `links` are the child pointers of the nodes, as the heap has them. */
  ghost predicate Agree(made: seq<TreeNode?>, links: seq<Link>)
    reads made
  {
    |links| == |made| &&
    forall k :: 0 <= k < |made| && made[k] != null ==> links[k] == Link(made[k].left, made[k].right)
  }

  /** Node `k` points at its slots, and its slots are inside `made` unless the array ends first. */
  ghost predicate LinkedAt(made: seq<TreeNode?>, links: seq<Link>, vs: seq<Item>, k: nat)
    requires k < |made| <= |vs| && |links| == |made|
  {
    made[k] != null ==>
      && links[k] == Link(NodeOrNull(made, Slot(vs, k)), NodeOrNull(made, Slot(vs, k) + 1))
      && (Slot(vs, k) < |vs| ==> Slot(vs, k) < |made|)
      && (Slot(vs, k) + 1 < |vs| ==> Slot(vs, k) + 1 < |made|)
  }

  /** The first `done` nodes are linked; the later ones are still detached. */
  ghost predicate Progress(made: seq<TreeNode?>, links: seq<Link>, vs: seq<Item>, done: nat) {
    && done <= |made| <= |vs| && |links| == |made|
    && (forall k :: 0 <= k < done ==> LinkedAt(made, links, vs, k))
    && (forall k :: done <= k < |made| && made[k] != null ==> links[k] == Link(null, null))
  }

  /** Linking node `p`, and possibly creating its children, makes one step of progress. */
  lemma LinkOne(made: seq<TreeNode?>, links: seq<Link>, grown: seq<TreeNode?>, links': seq<Link>, vs: seq<Item>, p: nat)
    requires Progress(made, links, vs, p) && p < |made| && made <= grown && |links'| == |grown| <= |vs|
    requires forall k :: 0 <= k < |made| && k != p && made[k] != null ==> links'[k] == links[k]
    requires forall k :: |made| <= k < |grown| && grown[k] != null ==> links'[k] == Link(null, null)
    requires LinkedAt(grown, links', vs, p)
    ensures Progress(grown, links', vs, p + 1)
  {
    forall k | 0 <= k < p ensures LinkedAt(grown, links', vs, k) { assert LinkedAt(made, links, vs, k); }
  }

  /** Linked nodes unfold to the tree the array denotes, from any claimed index. */
  lemma {:induction false} LinkedRepresents(made: seq<TreeNode?>, links: seq<Link>, vs: seq<Item>, i: nat)
    requires Cells(made, vs) && Agree(made, links) && Progress(made, links, vs, |made|)
    requires i < |vs| ==> i < |made| && i < Slot(vs, i)
    ensures Represents(NodeOrNull(made, i), TreeAt(vs, i), NodesOf(made)) && Placed(NodeOrNull(made, i), vs, i, NodesOf(made))
    decreases |vs| - i
  {
    if i < |vs| && vs[i].Some? {
      var s := Slot(vs, i);
      assert LinkedAt(made, links, vs, i);
      SlotsAdvance(vs, i);
      LinkedRepresents(made, links, vs, s);
      LinkedRepresents(made, links, vs, s + 1);
    }
  }

  /** A builder that linked the first `done` nodes to the first `i` items may stop when the
      items run out or when every claimed node is linked. */
  lemma StoppedRepresents(made: seq<TreeNode?>, links: seq<Link>, vs: seq<Item>, done: nat, i: nat)
    requires Cells(made, vs) && Agree(made, links) && Progress(made, links, vs, done) && 0 < i <= |made| && done <= i
    requires i == |vs| || forall k :: done <= k < i ==> made[k] == null
    requires Min(Slot(vs, done), |vs|) == i
    ensures Represents(made[0], Denote(vs), NodesOf(made[..i])) && Placed(made[0], vs, 0, NodesOf(made[..i]))
  {
    var claimed := made[..i];
    forall k | 0 <= k < i ensures LinkedAt(claimed, links[..i], vs, k) {
      if done <= k {
        CountMonotone(vs, done, k);
      } else {
        assert LinkedAt(made, links, vs, k);
        CountMonotone(vs, k, done);
      }
    }
    LinkedRepresents(claimed, links[..i], vs, 0);
  }

  /** The slots of a claimed node lie strictly before their own slots. */
  lemma SlotsAdvance(vs: seq<Item>, i: nat)
    requires i < |vs| && vs[i].Some? && i < Slot(vs, i)
    ensures Slot(vs, i) < |vs| ==> Slot(vs, i) < Slot(vs, Slot(vs, i))
    ensures Slot(vs, i) + 1 < |vs| ==> Slot(vs, i) + 1 < Slot(vs, Slot(vs, i) + 1)
  {
    var s := Slot(vs, i);
    if s < |vs| { CountMonotone(vs, i, s); }
    if s + 1 < |vs| { CountMonotone(vs, i, s + 1); }
  }

  // ------------------------------------------------------------------
  // Builders
  // ------------------------------------------------------------------

  /** One detached node per non-null item: the first pass of the Python, Go and Java builders. */
  method MakeNodes(vs: seq<Item>) returns (nodes: seq<TreeNode?>)
    ensures |nodes| == |vs| && Cells(nodes, vs)
    ensures forall k :: 0 <= k < |nodes| && nodes[k] != null ==>
              fresh(nodes[k]) && nodes[k].left == null && nodes[k].right == null
  {
    nodes := [];
    for i := 0 to |vs|
      invariant |nodes| == i && Cells(nodes, vs)
      invariant forall k :: 0 <= k < |nodes| && nodes[k] != null ==>
                  fresh(nodes[k]) && nodes[k].left == null && nodes[k].right == null
    {
      if vs[i].Some? {
        var n := new TreeNode(vs[i].value, i);
        nodes := nodes + [n];
      } else {
        nodes := nodes + [null];
      }
    }
  }

  function Min(a: nat, b: nat): nat { if a < b then a else b }

  /** Python: the children are taken from the front of the deque. */
  method AttachFront(node: TreeNode, kids: seq<TreeNode?>, ghost made: seq<TreeNode?>, ghost links: seq<Link>,
                     ghost vs: seq<Item>, ghost k: nat)
    returns (rest: seq<TreeNode?>, ghost links': seq<Link>)
    requires k < |made| == |vs| && made[k] == node && kids == made[Min(Slot(vs, k), |made|)..]
    requires Cells(made, vs) && Agree(made, links) && Progress(made, links, vs, k)
    modifies node
    ensures rest == made[Min(Slot(vs, k + 1), |made|)..]
    ensures Agree(made, links') && Progress(made, links', vs, k + 1)
  {
    rest := kids;
    if |rest| > 0 {
      node.left := rest[0];
      rest := rest[1..];
    }
    if |rest| > 0 {
      node.right := rest[0];
      rest := rest[1..];
    }
    links' := links[k := Link(node.left, node.right)];
    LinkOne(made, links, made, links', vs, k);
  }

  /** Python: children are taken from the front of a deque. */
  method BuildFromDeque(vs: seq<Item>) returns (root: TreeNode?, ghost nodes: set<TreeNode>)
    ensures fresh(nodes) && Represents(root, Denote(vs), nodes) && Placed(root, vs, 0, nodes)
  {
    if |vs| == 0 {
      return null, {};
    }
    var made := MakeNodes(vs);
    ghost var links := seq(|made|, _ => Link(null, null));
    var kids := made[1..];
    for i := 0 to |made|
      invariant kids == made[Min(Slot(vs, i), |made|)..]
      invariant Agree(made, links) && Progress(made, links, vs, i)
    {
      if made[i] != null {
        kids, links := AttachFront(made[i], kids, made, links, vs, i);
      }
    }
    LinkedRepresents(made, links, vs, 0);
    return made[0], NodesOf(made);
  }

  /** Go and Java: the children are the next items at a cursor. */
  method AttachAt(node: TreeNode, made: seq<TreeNode?>, pos: nat, ghost links: seq<Link>, ghost vs: seq<Item>, ghost k: nat)
    returns (pos': nat, ghost links': seq<Link>)
    requires k < |made| == |vs| && made[k] == node && pos == Min(Slot(vs, k), |made|)
    requires Cells(made, vs) && Agree(made, links) && Progress(made, links, vs, k)
    modifies node
    ensures pos' == Min(Slot(vs, k + 1), |made|)
    ensures node.left == NodeOrNull(made, pos) && node.right == NodeOrNull(made, pos + 1)
    ensures Agree(made, links') && Progress(made, links', vs, k + 1)
  {
    pos' := pos;
    if pos' < |made| {
      node.left := made[pos'];
      pos' := pos' + 1;
    }
    if pos' < |made| {
      node.right := made[pos'];
      pos' := pos' + 1;
    }
    links' := links[k := Link(node.left, node.right)];
    LinkOne(made, links, made, links', vs, k);
  }

  /** Go: a cursor walks the node array. */
  method BuildWithCursor(vs: seq<Item>) returns (root: TreeNode?, ghost nodes: set<TreeNode>)
    ensures fresh(nodes) && Represents(root, Denote(vs), nodes) && Placed(root, vs, 0, nodes)
  {
    if |vs| == 0 || vs[0].None? {
      return null, {};
    }
    var made := MakeNodes(vs);
    ghost var links := seq(|made|, _ => Link(null, null));
    var pos, i := 1, 0;
    while i < |made| && pos < |made|
      invariant 0 <= i <= |made|
      invariant pos == Min(Slot(vs, i), |made|)
      invariant Agree(made, links) && Progress(made, links, vs, i)
    {
      if made[i] != null {
        pos, links := AttachAt(made[i], made, pos, links, vs, i);
      }
      i := i + 1;
    }
    if i < |made| { StoppedRepresents(made, links, vs, i, |made|); } else { LinkedRepresents(made, links, vs, 0); }
    assert made[..|made|] == made;
    return made[0], NodesOf(made);
  }

  /** Java: the queue holds nulls as well, and nodes exist before they are linked. */
  method BuildWithNullQueue(vs: seq<Item>) returns (root: TreeNode?, ghost nodes: set<TreeNode>)
    ensures fresh(nodes) && Represents(root, Denote(vs), nodes) && Placed(root, vs, 0, nodes)
  {
    if |vs| == 0 {
      return null, {};
    }
    hide Represents, Placed, LinkedAt;
    var made := MakeNodes(vs);
    ghost var links := seq(|made|, _ => Link(null, null));
    root := made[0];
    var queue := [root];
    var i := 1;
    ghost var done := 0;
    while |queue| > 0 && i < |made|
      invariant done <= i <= |made| && i == Min(Slot(vs, done), |made|)
      invariant i < |made| ==> queue == made[done..i]
      invariant Agree(made, links) && Progress(made, links, vs, done)
      decreases |made| - done
    {
      var current := queue[0];
      queue := queue[1..];
      assert queue == made[done + 1..i];
      if current != null {
        ghost var at := i;
        i, links := AttachAt(current, made, i, links, vs, done);
        queue := queue + [current.left, current.right];
        if i < |made| {
          assert current.left == made[at] && current.right == made[at + 1];
          assert made[done + 1..at] + [made[at], made[at + 1]] == made[done + 1..at + 2];
        }
      }
      done := done + 1;
    }
    StoppedRepresents(made, links, vs, done, i);
    return root, NodesOf(made[..i]);
  }

  /** The non-null nodes from index `lo` on, in order. */
  ghost function NonNull(made: seq<TreeNode?>, lo: nat): seq<TreeNode?>
    requires lo <= |made|
    decreases |made| - lo
  {
    if lo == |made| then [] else (if made[lo] == null then [] else [made[lo]]) + NonNull(made, lo + 1)
  }

  lemma {:induction false} NonNullAppend(made: seq<TreeNode?>, lo: nat, x: TreeNode?)
    requires lo <= |made|
    ensures NonNull(made + [x], lo) == NonNull(made, lo) + if x == null then [] else [x]
    decreases |made| - lo
  {
    if lo < |made| {
      NonNullAppend(made, lo + 1, x);
    }
  }

  /** The queue's head is the first non-null node at or after `done`. */
  lemma {:induction false} NextNonNull(made: seq<TreeNode?>, vs: seq<Item>, done: nat) returns (p: nat)
    requires Cells(made, vs) && done <= |made| && NonNull(made, done) != []
    ensures done <= p < |made| && made[p] != null && Slot(vs, p) == Slot(vs, done)
    ensures NonNull(made, done) == [made[p]] + NonNull(made, p + 1)
    ensures forall k :: done <= k < p ==> made[k] == null
    decreases |made| - done
  {
    if made[done] != null { return done; }
    p := NextNonNull(made, vs, done + 1);
  }

  lemma {:induction false} NoneNonNull(made: seq<TreeNode?>, done: nat)
    requires done <= |made| && NonNull(made, done) == []
    ensures forall k :: done <= k < |made| ==> made[k] == null
    decreases |made| - done
  {
    if done < |made| {
        NoneNonNull(made, done + 1);
    }
  }

  /** The node for item `i`, if the array has a non-null one. */
  method NewNode(vs: seq<Item>, i: nat) returns (child: TreeNode?)
    ensures child == null <==> i >= |vs| || vs[i].None?
    ensures child != null ==> fresh(child) && child.val == vs[i].value && child.slot == i && child.left == null && child.right == null
  {
    child := null;
    if i < |vs| && vs[i].Some? {
      child := new TreeNode(vs[i].value, i);
    }
  }

  function Present(child: TreeNode?): seq<TreeNode?> { if child == null then [] else [child] }

  /** The nodes made once the two children of the node being dequeued exist. */
  ghost function Grown(made: seq<TreeNode?>, left: TreeNode?, right: TreeNode?, vs: seq<Item>): seq<TreeNode?> {
    made + [left] + if |made| + 1 < |vs| then [right] else []
  }

  lemma GrownCells(made: seq<TreeNode?>, left: TreeNode?, right: TreeNode?, vs: seq<Item>, lo: nat)
    requires Cells(made, vs) && lo <= |made| < |vs|
    requires left == null <==> vs[|made|].None?
    requires right == null <==> |made| + 1 == |vs| || vs[|made| + 1].None?
    requires left != null ==> left.val == vs[|made|].value && left.slot == |made|
    requires right != null ==> right.val == vs[|made| + 1].value && right.slot == |made| + 1
    ensures Cells(Grown(made, left, right, vs), vs)
    ensures NonNull(Grown(made, left, right, vs), lo) == NonNull(made, lo) + (Present(left) + Present(right))
  {
    NonNullAppend(made, lo, left);
    if |made| + 1 < |vs| {
      NonNullAppend(made + [left], lo, right);
    } else {
      assert Grown(made, left, right, vs) == made + [left];
    }
  }

  /** The child pointers once the node at `p` has its children. */
  ghost function GrownLinks(made: seq<TreeNode?>, links: seq<Link>, left: TreeNode?, right: TreeNode?, vs: seq<Item>, p: nat): seq<Link>
    requires p < |links|
  {
    links[p := Link(left, right)] + seq(|Grown(made, left, right, vs)| - |made|, _ => Link(null, null))
  }

  lemma GrownProgress(made: seq<TreeNode?>, links: seq<Link>, left: TreeNode?, right: TreeNode?, vs: seq<Item>, p: nat)
    requires p < |made| < |vs| && |made| == Slot(vs, p) && Progress(made, links, vs, p) && made[p] != null
    requires |made| + 1 == |vs| ==> right == null
    ensures Progress(Grown(made, left, right, vs), GrownLinks(made, links, left, right, vs, p), vs, p + 1)
  {
    LinkOne(made, links, Grown(made, left, right, vs), GrownLinks(made, links, left, right, vs, p), vs, p);
  }

  lemma GrownAgree(made: seq<TreeNode?>, links: seq<Link>, left: TreeNode?, right: TreeNode?, vs: seq<Item>, p: nat)
    requires p < |made| == |links| && made[p] != null
    requires forall k :: 0 <= k < |made| && k != p && made[k] != null ==> links[k] == Link(made[k].left, made[k].right)
    requires made[p].left == left && made[p].right == right
    requires left != null ==> left.left == null && left.right == null
    requires right != null ==> right.left == null && right.right == null
    requires forall k :: 0 <= k < |made| && k != p ==> made[k] != made[p]
    ensures Agree(Grown(made, left, right, vs), GrownLinks(made, links, left, right, vs, p))
  {
  }

  /** Creates the children of a dequeued node; `kids` are the ones to queue. */
  method CreateChildren(vs: seq<Item>, i: nat, ghost made: seq<TreeNode?>, ghost lo: nat)
    returns (left: TreeNode?, right: TreeNode?, kids: seq<TreeNode?>, ghost grown: seq<TreeNode?>)
    requires Cells(made, vs) && lo <= |made| == i < |vs|
    ensures grown == Grown(made, left, right, vs) && Cells(grown, vs)
    ensures forall k :: i <= k < |grown| && grown[k] != null ==> fresh(grown[k])
    ensures forall kid <- {left, right} :: kid != null ==> fresh(kid) && kid.left == null && kid.right == null
    ensures i + 1 == |vs| ==> right == null
    ensures NonNull(grown, lo) == NonNull(made, lo) + kids
  {
    left := NewNode(vs, i);
    right := NewNode(vs, i + 1);
    GrownCells(made, left, right, vs, lo);
    kids := Present(left) + Present(right);
    grown := Grown(made, left, right, vs);
  }

  /** Links a dequeued node to its children. */
  method LinkChildren(current: TreeNode, left: TreeNode?, right: TreeNode?, ghost vs: seq<Item>,
                      ghost made: seq<TreeNode?>, ghost links: seq<Link>, ghost p: nat)
    requires p < |made| < |vs| && |made| == Slot(vs, p) && made[p] == current
    requires Cells(made, vs) && Agree(made, links) && Progress(made, links, vs, p)
    requires forall kid <- {left, right} :: kid != null ==> kid !in made && kid.left == null && kid.right == null
    requires |made| + 1 == |vs| ==> right == null
    modifies current
    ensures var links' := GrownLinks(made, links, left, right, vs, p);
      Agree(Grown(made, left, right, vs), links') && Progress(Grown(made, left, right, vs), links', vs, p + 1)
  {
    GrownProgress(made, links, left, right, vs, p);
    assert forall k :: 0 <= k < |made| && k != p && made[k] != null ==> made[k] != current;
    if left != null { current.left := left; }
    if right != null { current.right := right; }
    GrownAgree(made, links, left, right, vs, p);
  }

  /** C++: a node is created when its parent is dequeued, and only nodes are queued. */
  method BuildWithQueue(vs: seq<Item>) returns (root: TreeNode?, ghost nodes: set<TreeNode>)
    ensures fresh(nodes) && Represents(root, Denote(vs), nodes) && Placed(root, vs, 0, nodes)
  {
    if |vs| == 0 || vs[0].None? {
      return null, {};
    }
    root := new TreeNode(vs[0].value, 0);
    var queue := [root];
    var i := 1;
    ghost var made: seq<TreeNode?>, links, done := [root], [Link(null, null)], 0;
    while |queue| > 0 && i < |vs|
      invariant done <= |made| == Min(i, |vs|) && 0 < i == Slot(vs, done) && made[0] == root
      invariant queue == NonNull(made, done)
      invariant Cells(made, vs) && Agree(made, links) && Progress(made, links, vs, done)
      invariant forall k :: 0 <= k < |made| && made[k] != null ==> fresh(made[k])
      decreases |vs| - i
    {
      ghost var p := NextNonNull(made, vs, done);
      var left, right, kids, grown := CreateChildren(vs, i, made, p + 1);
      LinkChildren(queue[0], left, right, vs, made, links, p);
      made, links := grown, GrownLinks(made, links, left, right, vs, p);
      queue := queue[1..] + kids;
      i := i + 2;
      done := p + 1;
    }
    if i < |vs| { NoneNonNull(made, done); }
    StoppedRepresents(made, links, vs, done, |made|);
    assert made[..|made|] == made;
    return root, NodesOf(made);
  }
}
