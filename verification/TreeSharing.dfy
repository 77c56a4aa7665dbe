/**
 Built trees share no nodes: two different paths from the root never meet, so a submission
 that changes one node of its argument changes one place of the tree.
 */
module TreeSharing {
  import opened TreeCodec
  import opened Wrappers

  /** The node reached from `root`: false goes left, true goes right. */
  ghost function Follow(root: TreeNode?, path: seq<bool>, nodes: set<TreeNode>): TreeNode?
    reads nodes
  {
    if path == [] then root else
      var k := |path| - 1;
      var n := Follow(root, path[..k], nodes);
      if n == null || n !in nodes then null else if path[k] then n.right else n.left
  }

  /** The array index the path leads to, -1 when it leaves the tree. */
  function IndexAt(vs: seq<Item>, path: seq<bool>): (i: int)
    ensures i >= 0 ==> TreeAt(vs, i).Node?
    ensures i >= -1
  {
    if path == [] then (if TreeAt(vs, 0).Node? then 0 else -1) else
      var k := |path| - 1;
      var a := IndexAt(vs, path[..k]);
      if a == -1 then -1 else
        var c := Slot(vs, a) + if path[k] then 1 else 0;
        if TreeAt(vs, c).Node? then c else -1
  }

  /** The node a path reaches was made for the index the path leads to. */
  lemma {:induction false} FollowIsPlaced(root: TreeNode?, vs: seq<Item>, nodes: set<TreeNode>, path: seq<bool>)
    requires Placed(root, vs, 0, nodes)
    ensures var n, i := Follow(root, path, nodes), IndexAt(vs, path);
      if i == -1 then n == null else Placed(n, vs, i, nodes)
  {
    if path != [] {
      FollowIsPlaced(root, vs, nodes, path[..|path| - 1]);
    }
  }

  /** Different paths lead to different indices. */
  lemma {:induction false} IndicesDiffer(vs: seq<Item>, p: seq<bool>, q: seq<bool>)
    requires IndexAt(vs, p) == IndexAt(vs, q) != -1
    ensures p == q
  {
    if p != [] && q != [] {
      var j, k := |p| - 1, |q| - 1;
      var a, b := IndexAt(vs, p[..j]), IndexAt(vs, q[..k]);
      assert Slot(vs, a) + (if p[j] then 1 else 0) == Slot(vs, b) + (if q[k] then 1 else 0);
      assert Count(vs, a) == Count(vs, b) && p[j] == q[k];
      if a <= b { CountMonotone(vs, a, b); } else { CountMonotone(vs, b, a); }
      IndicesDiffer(vs, p[..j], q[..k]);
      assert p == p[..j] + [p[j]] && q == q[..k] + [q[k]];
    }
  }

  /** No node of a built tree is reached in two ways. */
  lemma NothingShared(root: TreeNode?, vs: seq<Item>, nodes: set<TreeNode>, p: seq<bool>, q: seq<bool>)
    requires Placed(root, vs, 0, nodes) && Follow(root, p, nodes) != null
    ensures Follow(root, p, nodes) == Follow(root, q, nodes) ==> p == q
  {
    FollowIsPlaced(root, vs, nodes, p);
    FollowIsPlaced(root, vs, nodes, q);
    if Follow(root, p, nodes) == Follow(root, q, nodes) {
      IndicesDiffer(vs, p, q);
    }
  }
}
