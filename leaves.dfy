/** Collection of the pending leaves of a policy-evaluation result tree: the
    rules that still need reviewers. */
module LeafCollector {
  import opened Wrappers
  import opened Seqs
  import opened Common

  /** A node that gets reviewers requested: childless, pending, no error. */
  predicate IsReviewableLeaf(r: ResultNode) {
    |r.children| == 0 && r.status == Pending && r.error.None?
  }

  /** The reviewable leaves under `r`, depth-first and left to right. A nil
      child is skipped and only pending children are descended into; the
      status of `r` itself matters only when it has no children. */
  function FindLeafChildren(r: ResultNode): (leaves: seq<ResultNode>)
    ensures forall k :: 0 <= k < |leaves| ==> IsReviewableLeaf(leaves[k])
    decreases r, 1
  {
    if |r.children| == 0 then
      if r.status == Pending && r.error.None? then [r] else []
    else
      ChildLeaves(r, 0)
  }

  /** The leaves collected from the children of `r` at index `i` and after. */
  function ChildLeaves(r: ResultNode, i: nat): (leaves: seq<ResultNode>)
    requires i <= |r.children|
    ensures forall k :: 0 <= k < |leaves| ==> IsReviewableLeaf(leaves[k])
    decreases r, 0, |r.children| - i
  {
    if i == |r.children| then []
    else
      match r.children[i]
      case None => ChildLeaves(r, i + 1)
      case Some(c) =>
        if c.status == Pending then FindLeafChildren(c) + ChildLeaves(r, i + 1)
        else ChildLeaves(r, i + 1)
  }

  /** `p` is a list of child indices leading from `r` through non-nil, pending
      children only. */
  ghost predicate PendingPath(r: ResultNode, p: seq<nat>)
    decreases |p|
  {
    |p| == 0 ||
    (p[0] < |r.children| && r.children[p[0]].Some? &&
     r.children[p[0]].value.status == Pending &&
     PendingPath(r.children[p[0]].value, p[1..]))
  }

  /** The node that a pending path leads to. */
  ghost function NodeAt(r: ResultNode, p: seq<nat>): ResultNode
    requires PendingPath(r, p)
    decreases |p|
  {
    if |p| == 0 then r else NodeAt(r.children[p[0]].value, p[1..])
  }

  /** Soundness: every collected leaf is reached from `r` along a path of
      non-nil pending children. */
  lemma {:induction false} CollectedLeafHasPendingPath(r: ResultNode, x: ResultNode) returns (p: seq<nat>)
    requires x in FindLeafChildren(r)
    ensures PendingPath(r, p) && NodeAt(r, p) == x
    decreases r, 1
  {
    if |r.children| == 0 {
      p := [];
    } else {
      p := ChildLeafHasPendingPath(r, 0, x);
    }
  }

  lemma {:induction false} ChildLeafHasPendingPath(r: ResultNode, i: nat, x: ResultNode) returns (p: seq<nat>)
    requires i <= |r.children| && x in ChildLeaves(r, i)
    ensures |p| > 0 && PendingPath(r, p) && NodeAt(r, p) == x
    decreases r, 0, |r.children| - i
  {
    var c := r.children[i];
    if c.Some? && c.value.status == Pending && x in FindLeafChildren(c.value) {
      var q := CollectedLeafHasPendingPath(c.value, x);
      p := [i] + q;
      assert p[1..] == q;
    } else {
      p := ChildLeafHasPendingPath(r, i + 1, x);
    }
  }

  /** Completeness: every reviewable leaf reached along a path of non-nil
      pending children is collected. */
  lemma {:induction false} PendingPathLeafIsCollected(r: ResultNode, p: seq<nat>)
    requires PendingPath(r, p) && IsReviewableLeaf(NodeAt(r, p))
    ensures NodeAt(r, p) in FindLeafChildren(r)
    decreases |p|
  {
    if |p| > 0 {
      var c := r.children[p[0]].value;
      PendingPathLeafIsCollected(c, p[1..]);
      ChildLeavesInclude(r, 0, p[0], NodeAt(r, p));
    }
  }

  lemma {:induction false} ChildLeavesInclude(r: ResultNode, i: nat, j: nat, x: ResultNode)
    requires i <= j < |r.children|
    requires r.children[j].Some? && r.children[j].value.status == Pending
    requires x in FindLeafChildren(r.children[j].value)
    ensures x in ChildLeaves(r, i)
    decreases j - i
  {
    if i < j {
      ChildLeavesInclude(r, i + 1, j, x);
    }
  }

  /** The collected leaves are exactly the reviewable leaves reachable along
      non-nil pending children. */
  lemma CollectedIffReachable(r: ResultNode, x: ResultNode)
    ensures x in FindLeafChildren(r) <==>
            exists p :: PendingPath(r, p) && NodeAt(r, p) == x && IsReviewableLeaf(x)
  {
    if x in FindLeafChildren(r) {
      var p := CollectedLeafHasPendingPath(r, x);
      assert PendingPath(r, p) && NodeAt(r, p) == x && IsReviewableLeaf(x);
    }
    if exists p :: PendingPath(r, p) && NodeAt(r, p) == x && IsReviewableLeaf(x) {
      var p :| PendingPath(r, p) && NodeAt(r, p) == x && IsReviewableLeaf(x);
      PendingPathLeafIsCollected(r, p);
    }
  }
  /** What each child contributes, child by child: the leaves under a non-nil
      pending child, nothing for any other. */
  ghost function ChildContributions(r: ResultNode): (cs: seq<seq<ResultNode>>)
    ensures |cs| == |r.children|
  {
    seq(|r.children|, i requires 0 <= i < |r.children| =>
      if r.children[i].Some? && r.children[i].value.status == Pending
      then FindLeafChildren(r.children[i].value) else [])
  }

  /** Depth-first, left-to-right order: a node with children yields the
      contributions of its children concatenated in child order. */
  lemma LeavesInChildOrder(r: ResultNode)
    requires |r.children| > 0
    ensures FindLeafChildren(r) == Flatten(ChildContributions(r))
  {
    ChildLeavesInOrder(r, 0);
    assert ChildContributions(r)[0..] == ChildContributions(r);
  }

  lemma {:induction false} ChildLeavesInOrder(r: ResultNode, i: nat)
    requires i <= |r.children|
    ensures ChildLeaves(r, i) == Flatten(ChildContributions(r)[i..])
    decreases |r.children| - i
  {
    var cs := ChildContributions(r);
    if i < |r.children| {
      ChildLeavesInOrder(r, i + 1);
      FlattenCons(cs[i], cs[i + 1..]);
      assert cs[i..] == [cs[i]] + cs[i + 1..];
    }
  }
}
