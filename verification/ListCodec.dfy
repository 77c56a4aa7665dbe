/**
 Linked-list codec with the optional cycle of LeetCode's `pos`.

 The builder chains one node per value and may link the tail back to node `pos`;
 the serializer walks the chain until it ends or meets a node again.
 */
module ListCodec {

  class ListNode {
    const val: int  // neither builder nor serializer reassigns it
    var next: ListNode?
    ghost const index: nat  // position it was built for

    constructor (val: int, ghost index: nat)
      ensures this.val == val && this.index == index && next == null
    {
      this.val := val;
      this.index := index;
      next := null;
    }
  }

  ghost predicate Cells(nodes: seq<ListNode>, values: seq<int>) {
    |nodes| == |values| && forall i :: 0 <= i < |nodes| ==> nodes[i].val == values[i] && nodes[i].index == i
  }

  /** Every node but the last points at the next one, the last at `tail`. */
  ghost predicate Chained(nodes: seq<ListNode>, tail: ListNode?)
    reads nodes
  {
    && (forall i :: 0 <= i < |nodes| - 1 ==> nodes[i].next == nodes[i + 1])
    && (nodes != [] ==> nodes[|nodes| - 1].next == tail)
  }

  /** What the tail of a list of `nodes` must point at. */
  ghost function TailTarget(nodes: seq<ListNode>, pos: int): ListNode? {
    if 0 <= pos < |nodes| then nodes[pos] else null
  }

  method Build(values: seq<int>, pos: int) returns (head: ListNode?, ghost nodes: seq<ListNode>)
    ensures Cells(nodes, values) && Chained(nodes, TailTarget(nodes, pos)) && fresh(set n | n in nodes)
    ensures if values == [] then head == null else head == nodes[0]
  {
    if |values| == 0 { return null, []; }
    var dummy := new ListNode(0, 0);
    var curr := dummy;
    var made: seq<ListNode> := [];
    for i := 0 to |values|
      invariant Cells(made, values[..i]) && Chained(made, null)
      invariant forall k :: 0 <= k < |made| ==> fresh(made[k]) && made[k] != dummy
      invariant fresh(dummy) && curr == if made == [] then dummy else made[|made| - 1]
      invariant dummy.next == if made == [] then null else made[0]
    {
      curr.next := new ListNode(values[i], i);
      curr := curr.next;
      made := made + [curr];
    }
    assert values[..|values|] == values;
    if pos != -1 && 0 <= pos < |made| {
      made[|made| - 1].next := made[pos];
    }
    return made[0], made;
  }

  /** The nodes a walk from `head` meets before it ends or meets one again. */
  ghost predicate IsWalk(head: ListNode?, path: seq<ListNode>)
    reads path
  {
    && (forall i, j :: 0 <= i < j < |path| ==> path[i] != path[j])
    && (if path == [] then head == null else path[0] == head)
    && (forall i :: 0 <= i < |path| - 1 ==> path[i].next == path[i + 1])
    && (path != [] ==> var end := path[|path| - 1].next; end == null || end in path)
  }

  /** Works on any finite heap, cyclic or not. */
  method Serialize(head: ListNode?, ghost region: set<ListNode>) returns (result: seq<int>, ghost path: seq<ListNode>)
    requires head != null ==> head in region
    requires forall n <- region :: n.next != null ==> n.next in region
    ensures IsWalk(head, path)
    ensures |result| == |path| && forall i :: 0 <= i < |path| ==> result[i] == path[i].val
  {
    result, path := [], [];
    var visited: set<ListNode> := {};
    var curr := head;
    while curr != null && curr !in visited
      invariant curr != null ==> curr in region
      invariant forall n :: n in visited <==> n in path
      invariant forall i, j :: 0 <= i < j < |path| ==> path[i] != path[j]
      invariant forall n <- path :: n in region
      invariant if path == [] then curr == head else path[0] == head && path[|path| - 1].next == curr
      invariant forall i :: 0 <= i < |path| - 1 ==> path[i].next == path[i + 1]
      invariant |result| == |path| && forall i :: 0 <= i < |path| ==> result[i] == path[i].val
      decreases region - visited
    {
      visited := visited + {curr};
      result := result + [curr.val];
      path := path + [curr];
      curr := curr.next;
    }
  }

  lemma WalkGoesOn(head: ListNode?, path: seq<ListNode>, k: nat)
    requires IsWalk(head, path) && 0 < k <= |path|
    ensures k < |path| ==> path[k - 1].next != null && path[k - 1].next !in path[..k]
  {
    if k < |path| {
      assert path[k - 1].next == path[k - 1 + 1];
    }
  }

  /** A built list is walked exactly once round, whatever `pos` is. */
  lemma {:induction false} WalkIsWholeList(nodes: seq<ListNode>, values: seq<int>, pos: int, path: seq<ListNode>, k: nat)
    requires Cells(nodes, values) && nodes != [] && Chained(nodes, TailTarget(nodes, pos))
    requires IsWalk(nodes[0], path) && k <= |nodes|
    ensures k <= |path| && forall i :: 0 <= i < k ==> path[i] == nodes[i]
    ensures k == |nodes| ==> path == nodes
  {
    if k > 0 {
      WalkIsWholeList(nodes, values, pos, path, k - 1);
      if k > 1 {
        assert path[k - 2] == nodes[k - 2] && nodes[k - 2].next == nodes[k - 2 + 1];
        assert forall j :: 0 <= j < k - 1 ==> path[j].index == j;
        assert |path| > k - 1 ==> path[k - 2].next == path[k - 2 + 1];
      }
    }
    if k == |nodes| {
      assert path[k - 1] == nodes[k - 1] && (0 <= pos < k ==> path[pos] == nodes[pos]);
      WalkGoesOn(nodes[0], path, k);
      assert 0 <= pos < k ==> path[..k][pos] == nodes[pos];
    }
  }

  /** The values come back for every `pos`: valid, out of range or absent. */
  method BuildAndSerialize(values: seq<int>, pos: int) returns (result: seq<int>)
    ensures result == values
  {
    var head, nodes := Build(values, pos);
    ghost var region := set n: ListNode | n in nodes;
    forall n | n in region && n.next != null ensures n.next in region {
      var i :| 0 <= i < |nodes| && n == nodes[i];
      if i < |nodes| - 1 { assert n.next == nodes[i + 1]; } else { assert n.next == nodes[pos]; }
    }
    ghost var path;
    result, path := Serialize(head, region);
    if values != [] {
      WalkIsWholeList(nodes, values, pos, path, |nodes|);
    }
  }
}
