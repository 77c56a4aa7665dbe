/**
 The breadth-first serializer, and the laws that tie it to the builders:
 building undoes serializing for every tree, and serializing undoes building for
 exactly the arrays in which every non-null item is claimed by an earlier node.
 */
module TreeRoundTrip {
  import opened TreeCodec
  import opened Wrappers

  function Kids(t: Tree): seq<Tree> {
    if t.Leaf? then [] else [t.left, t.right]
  }

  function Label(t: Tree): Item {
    if t.Leaf? then None else Some(t.val)
  }

  function Labels(ts: seq<Tree>): (vs: seq<Item>)
    ensures |vs| == |ts|
  {
    seq(|ts|, i requires 0 <= i < |ts| => Label(ts[i]))
  }

  function Weight(t: Tree): nat {
    match t
    case Leaf => 1
    case Node(_, l, r) => 1 + Weight(l) + Weight(r)
  }

  function TotalWeight(q: seq<Tree>): nat {
    if q == [] then 0 else Weight(q[0]) + TotalWeight(q[1..])
  }

  lemma {:induction false} WeightAppend(p: seq<Tree>, q: seq<Tree>)
    ensures TotalWeight(p + q) == TotalWeight(p) + TotalWeight(q)
  {
    if p == [] {
      assert p + q == q;
    } else {
      assert (p + q)[1..] == p[1..] + q;
      WeightAppend(p[1..], q);
    }
  }

  lemma WeightKids(t: Tree)
    ensures TotalWeight(Kids(t)) == Weight(t) - 1
  {
    if t.Node? {
      var one := [t.right];
      assert one[1..] == [] && TotalWeight(one) == Weight(t.right);
      assert Kids(t)[1..] == one;
    }
  }

  /** The queue after its head is expanded; it weighs one less. */
  function Next(q: seq<Tree>): (q': seq<Tree>)
    requires q != []
    ensures TotalWeight(q') == TotalWeight(q) - 1
  {
    WeightAppend(q[1..], Kids(q[0]));
    WeightKids(q[0]);
    q[1..] + Kids(q[0])
  }

  /** All subtrees, in the order a breadth-first queue starting as `q` hands them out. */
  function Order(q: seq<Tree>): seq<Tree>
    decreases TotalWeight(q)
  {
    if q == [] then [] else [q[0]] + Order(Next(q))
  }

  lemma LabelsOrder(q: seq<Tree>)
    requires q != []
    ensures Labels(Order(q)) == [Label(q[0])] + Labels(Order(Next(q)))
  {
  }

  /** Drops trailing nulls. */
  function Trim(vs: seq<Item>): seq<Item> {
    if vs != [] && vs[|vs| - 1].None? then Trim(vs[..|vs| - 1]) else vs
  }

  /** The level-order array of a tree. */
  function LevelOrder(t: Tree): seq<Item> {
    Trim(Labels(Order([t])))
  }

  /** Every non-null item is claimed by an earlier node (the first one by the root). */
  ghost predicate NoOrphans(vs: seq<Item>) {
    forall i :: 0 <= i < |vs| && vs[i].Some? ==> i < Slot(vs, i)
  }

  // ------------------------------------------------------------------
  // The serializer
  // ------------------------------------------------------------------

  method Serialize(root: TreeNode?, ghost t: Tree, ghost nodes: set<TreeNode>) returns (result: seq<Item>)
    requires Represents(root, t, nodes)
    ensures result == LevelOrder(t)
  {
    result := [];
    if root == null {
      assert Order([Leaf]) == [Leaf] + Order([]);
      return;
    }
    var queue := [root];
    ghost var trees := [t];
    while |queue| > 0
      invariant |queue| == |trees|
      invariant forall k :: 0 <= k < |queue| ==> Represents(queue[k], trees[k], nodes)
      invariant result + Labels(Order(trees)) == Labels(Order([t]))
      decreases TotalWeight(trees)
    {
      var node := queue[0];
      assert Represents(queue[0], trees[0], nodes);
      LabelsOrder(trees);
      queue := queue[1..];
      if node != null {
        result := result + [Some(node.val)];
        queue := queue + [node.left, node.right];
      } else {
        result := result + [None];
      }
      trees := Next(trees);
    }
    assert trees == [] && Labels(Order([])) == [];
    assert result == Labels(Order([t]));
    while |result| > 0 && result[|result| - 1].None?
      invariant Trim(result) == LevelOrder(t)
    {
      result := result[..|result| - 1];
    }
  }

  // ------------------------------------------------------------------
  // Building undoes serializing
  // ------------------------------------------------------------------

  lemma {:induction false} CountPrefix(a: seq<Item>, b: seq<Item>, i: nat)
    requires i <= |a| && i <= |b| && a[..i] == b[..i]
    ensures Count(a, i) == Count(b, i)
  {
    if i > 0 {
      assert a[i - 1] == a[..i][i - 1] == b[i - 1];
      assert a[..i - 1] == a[..i][..i - 1] == b[..i - 1];
      CountPrefix(a, b, i - 1);
    }
  }

  lemma {:induction false} CountCons(x: Item, vs: seq<Item>, i: nat)
    requires i <= |vs|
    ensures Count([x] + vs, i + 1) == Count(vs, i) + if x.Some? then 1 else 0
  {
    if i > 0 {
      CountCons(x, vs, i - 1);
      assert ([x] + vs)[i] == vs[i - 1];
    }
  }

  /** Breadth-first order puts the children of item `i` where `Slot` says, shifted by the queue. */
  ghost predicate ShapedAt(o: seq<Tree>, n: nat, i: nat)
    requires i < |o|
  {
    var s := n + 2 * Count(Labels(o), i);
    i < s && (o[i].Node? ==> s + 1 < |o| && o[s] == o[i].left && o[s + 1] == o[i].right)
  }

  lemma ShapedHead(q: seq<Tree>, rest: seq<Tree>)
    requires q != [] && Next(q) <= rest
    ensures ShapedAt([q[0]] + rest, |q|, 0)
  {
    if q[0].Node? {
      assert Next(q)[|q| - 1] == q[0].left && Next(q)[|q|] == q[0].right;
    }
  }

  lemma ShapedTail(t: Tree, rest: seq<Tree>, n: nat, i: nat)
    requires n > 0 && i < |rest| && ShapedAt(rest, n - 1 + |Kids(t)|, i)
    ensures ShapedAt([t] + rest, n, i + 1)
  {
    assert Labels([t] + rest) == [Label(t)] + Labels(rest);
    CountCons(Label(t), Labels(rest), i);
  }

  lemma {:induction false} OrderShape(q: seq<Tree>, i: nat)
    requires i < |Order(q)|
    ensures ShapedAt(Order(q), |q|, i)
    decreases TotalWeight(q)
  {
    if i == 0 {
      OrderPrefix(Next(q));
      ShapedHead(q, Order(Next(q)));
    } else {
      OrderShape(Next(q), i - 1);
      ShapedTail(q[0], Order(Next(q)), |q|, i - 1);
    }
  }

  lemma {:induction false} OrderPrefix(q: seq<Tree>)
    ensures q <= Order(q)
    decreases TotalWeight(q)
  {
    if q != [] {
      OrderPrefix(Next(q));
      assert q == [q[0]] + q[1..];
    }
  }

  /** The untrimmed array denotes, at each index, the subtree visited at that index. */
  lemma {:induction false} DenoteOrder(t: Tree, i: nat)
    requires i < |Order([t])|
    ensures TreeAt(Labels(Order([t])), i) == Order([t])[i]
    decreases |Order([t])| - i
  {
    var o := Order([t]);
    OrderShape([t], i);
    if o[i].Node? {
      DenoteOrder(t, Slot(Labels(o), i));
      DenoteOrder(t, Slot(Labels(o), i) + 1);
    }
  }

  lemma {:induction false} TrimShape(vs: seq<Item>)
    ensures Trim(vs) <= vs
    ensures forall i :: |Trim(vs)| <= i < |vs| ==> vs[i].None?
    ensures Trim(vs) != [] ==> Trim(vs)[|Trim(vs)| - 1].Some?
  {
    if vs != [] && vs[|vs| - 1].None? {
      TrimShape(vs[..|vs| - 1]);
    }
  }

  /** Trailing nulls do not change what an array denotes. */
  lemma {:induction false} DenoteTrim(vs: seq<Item>, i: nat)
    ensures TreeAt(Trim(vs), i) == TreeAt(vs, i)
    decreases |vs| - i
  {
    TrimShape(vs);
    var w := Trim(vs);
    if i < |w| {
      CountPrefix(w, vs, i);
      if i < Slot(vs, i) {
        DenoteTrim(vs, Slot(vs, i));
        DenoteTrim(vs, Slot(vs, i) + 1);
      }
    }
  }

  /** Every tree survives serializing and building. */
  lemma BuildAfterSerialize(t: Tree)
    ensures Denote(LevelOrder(t)) == t
  {
    OrderPrefix([t]);
    DenoteOrder(t, 0);
    DenoteTrim(Labels(Order([t])), 0);
  }

  // ------------------------------------------------------------------
  // Serializing undoes building, exactly without orphans
  // ------------------------------------------------------------------

  /** In a trimmed array without orphans even the nulls are claimed. */
  lemma {:induction false} AllClaimed(w: seq<Item>, i: nat)
    requires NoOrphans(w) && i <= |w| && w != [] && w[|w| - 1].Some?
    ensures i < Slot(w, i)
    decreases |w| - i
  {
    if i < |w| && w[i].None? {
      AllClaimed(w, i + 1);
    } else if i == |w| {
      assert |w| - 1 < Slot(w, |w| - 1);
    }
  }

  /** The queue just before item `i` is visited. */
  function Frontier(w: seq<Item>, i: nat): seq<Tree>
    requires i <= |w| && i <= Slot(w, i)
  {
    seq(Slot(w, i) - i, k requires 0 <= k => TreeAt(w, i + k))
  }

  lemma {:induction false} OrderLeaves(q: seq<Tree>)
    requires forall t <- q :: t.Leaf?
    ensures Order(q) == q
  {
    if q != [] {
      assert Next(q) == q[1..];
      OrderLeaves(q[1..]);
    }
  }

  lemma FrontierNext(w: seq<Item>, i: nat)
    requires i < |w| && i < Slot(w, i)
    ensures i + 1 <= Slot(w, i + 1) && Next(Frontier(w, i)) == Frontier(w, i + 1)
    ensures Label(Frontier(w, i)[0]) == w[i]
  {
    var q, q' := Frontier(w, i), Frontier(w, i + 1);
    assert q[0] == TreeAt(w, i);
    assert |q'| == |Next(q)|;
    forall k | 0 <= k < |q'| ensures Next(q)[k] == q'[k] {
      if k < |q| - 1 {
        assert Next(q)[k] == q[k + 1] == TreeAt(w, i + (k + 1));
      } else {
        assert Next(q)[k] == Kids(q[0])[k - (|q| - 1)];
      }
    }
  }

  /** `vs` is `w` from index `i` on, followed by nulls. */
  ghost predicate Padded(w: seq<Item>, i: nat, vs: seq<Item>) {
    && i <= |w| && |w| - i <= |vs|
    && (forall k :: i <= k < |w| ==> vs[k - i] == w[k])
    && (forall k :: |w| - i <= k < |vs| ==> vs[k].None?)
  }

  lemma PaddedCons(w: seq<Item>, i: nat, vs: seq<Item>)
    requires i < |w| && Padded(w, i + 1, vs)
    ensures Padded(w, i, [w[i]] + vs)
  {
    forall k | i <= k < |w| ensures ([w[i]] + vs)[k - i] == w[k] {
      if k > i { assert vs[k - (i + 1)] == w[k]; }
    }
  }

  lemma FrontierEnd(w: seq<Item>)
    requires |w| <= Slot(w, |w|)
    ensures Padded(w, |w|, Labels(Order(Frontier(w, |w|))))
  {
    var q := Frontier(w, |w|);
    forall k | 0 <= k < |q| ensures q[k].Leaf? { assert q[k] == TreeAt(w, |w| + k); }
    OrderLeaves(q);
  }

  lemma {:induction false} FrontierOrder(w: seq<Item>, i: nat)
    requires NoOrphans(w) && i <= |w| && w != [] && w[|w| - 1].Some?
    ensures i < Slot(w, i)
    ensures Padded(w, i, Labels(Order(Frontier(w, i))))
    decreases |w| - i
  {
    AllClaimed(w, i);
    if i == |w| {
      FrontierEnd(w);
    } else {
      FrontierNext(w, i);
      FrontierOrder(w, i + 1);
      LabelsOrder(Frontier(w, i));
      PaddedCons(w, i, Labels(Order(Frontier(w, i + 1))));
    }
  }

  /** A trimmed array without orphans comes back unchanged. */
  lemma SerializeTrimmed(w: seq<Item>)
    requires NoOrphans(w) && (w != [] ==> w[|w| - 1].Some?)
    ensures LevelOrder(Denote(w)) == w
  {
    if w == [] {
      OrderLeaves([Leaf]);
      assert Trim(Labels([Leaf])[..0]) == [];
    } else {
      FrontierOrder(w, 0);
      assert Frontier(w, 0) == [Denote(w)];
      var vs := Labels(Order([Denote(w)]));
      assert forall k :: 0 <= k < |w| ==> w[k] == vs[k - 0];
      TrimUnique(vs, w);
    }
  }

  lemma {:induction false} TrimUnique(vs: seq<Item>, w: seq<Item>)
    requires w <= vs && forall k :: |w| <= k < |vs| ==> vs[k].None?
    requires w != [] ==> w[|w| - 1].Some?
    ensures Trim(vs) == w
  {
    if |w| < |vs| {
      TrimUnique(vs[..|vs| - 1], w);
    } else {
      assert vs == w;
    }
  }

  lemma NoOrphansTrim(vs: seq<Item>)
    ensures NoOrphans(vs) <==> NoOrphans(Trim(vs))
  {
    TrimShape(vs);
    forall i | 0 <= i < |Trim(vs)| ensures Slot(vs, i) == Slot(Trim(vs), i) { CountPrefix(vs, Trim(vs), i); }
  }

  /** Serialized trees never have orphans. */
  lemma LevelOrderHasNoOrphans(t: Tree)
    ensures NoOrphans(LevelOrder(t))
  {
    var vs := Labels(Order([t]));
    forall i | 0 <= i < |vs| ensures i < Slot(vs, i) { OrderShape([t], i); }
    NoOrphansTrim(vs);
  }

  /** An array survives building and serializing, up to trailing nulls, iff it has no orphans. */
  lemma SerializeAfterBuild(vs: seq<Item>)
    ensures LevelOrder(Denote(vs)) == Trim(vs) <==> NoOrphans(vs)
  {
    var w := Trim(vs);
    TrimShape(vs);
    DenoteTrim(vs, 0);
    NoOrphansTrim(vs);
    LevelOrderHasNoOrphans(Denote(vs));
    if NoOrphans(w) {
      SerializeTrimmed(w);
    }
  }

  /** Overlong arrays really lose items: the last item below has no parent. */
  lemma OrphanExample()
    ensures var vs := [Some(1), None, None, Some(4)];
      LevelOrder(Denote(vs)) == [Some(1)] && Trim(vs) == vs
  {
    var vs := [Some(1), None, None, Some(4)];
    assert Slot(vs, 0) == 1;
    assert Denote(vs) == Node(1, Leaf, Leaf);
    SerializeAfterBuild([Some(1)]);
    assert Slot([Some(1)], 0) == 1;
    assert Denote([Some(1)]) == Node(1, Leaf, Leaf);
  }

  /** A null holds its place among the children: 2 is the right child of 1, and 3 the left child of 2. */
  lemma ReadingExample()
    ensures Denote([Some(1), None, Some(2), Some(3)]) == Node(1, Leaf, Node(2, Node(3, Leaf, Leaf), Leaf))
  {
    var vs := [Some(1), None, Some(2), Some(3)];
    assert Count(vs, 1) == 1 && Count(vs, 2) == 1 && Count(vs, 3) == 2;
    assert Slot(vs, 0) == 1 && Slot(vs, 2) == 3 && Slot(vs, 3) == 5;
    assert TreeAt(vs, 3) == Node(3, Leaf, Leaf);
    assert TreeAt(vs, 2) == Node(2, TreeAt(vs, 3), Leaf);
  }

  /** All builders are interchangeable, whatever the array: the serialized results coincide. */
  method BuildAndSerialize(vs: seq<Item>)
    returns (python: seq<Item>, go: seq<Item>, java: seq<Item>, cpp: seq<Item>)
    ensures python == go == java == cpp == LevelOrder(Denote(vs))
    ensures python == Trim(vs) <==> NoOrphans(vs)
  {
    var root, nodes := BuildFromDeque(vs);
    python := Serialize(root, Denote(vs), nodes);
    root, nodes := BuildWithCursor(vs);
    go := Serialize(root, Denote(vs), nodes);
    root, nodes := BuildWithNullQueue(vs);
    java := Serialize(root, Denote(vs), nodes);
    root, nodes := BuildWithQueue(vs);
    cpp := Serialize(root, Denote(vs), nodes);
    SerializeAfterBuild(vs);
  }
}
