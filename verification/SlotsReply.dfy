/** The reply to CLUSTER SLOTS, computed in two ways: node by node from the bitmaps, and in a single pass
    over the slot table. */
module SlotsReply {
  import opened Basics
  import opened ClusterModel

  datatype Run = Run(node: NodeId, first: int, last: int)

  type Owners = seq<Option<NodeId>>

  /** A range of slots of one node that cannot be made longer. */
  predicate IsRun(owner: Owners, r: Run) {
    && 0 <= r.first <= r.last < |owner|
    && (forall j | r.first <= j <= r.last :: owner[j] == Some(r.node))
    && (r.first == 0 || owner[r.first - 1] != Some(r.node))
    && (r.last + 1 == |owner| || owner[r.last + 1] != Some(r.node))
  }

  lemma RunsMeet(owner: Owners, r: Run, s: Run, j: int)
    requires IsRun(owner, r) && IsRun(owner, s) && r.first <= j <= r.last && s.first <= j <= s.last
    ensures r == s
  {
    assert owner[j] == Some(r.node) && owner[j] == Some(s.node);
  }

  /** A run under way: it has started and has not ended before slot i. */
  predicate Under(owner: Owners, node: NodeId, start: int, i: int) {
    && 0 <= start < i <= |owner|
    && (forall j | start <= j < i :: owner[j] == Some(node))
    && (start == 0 || owner[start - 1] != Some(node))
  }

  /** Exactly the runs, of the given nodes, that end before `bound`. */
  ghost predicate Exactly(owner: Owners, nodes: set<NodeId>, runs: seq<Run>, bound: int) {
    forall r :: r in runs <==> IsRun(owner, r) && r.node in nodes && r.last < bound
  }

  lemma EndRun(owner: Owners, nodes: set<NodeId>, runs: seq<Run>, node: NodeId, start: int, i: int)
    requires Exactly(owner, nodes, runs, start) && Under(owner, node, start, i) && node in nodes
    requires i == |owner| || owner[i] != Some(node)
    requires forall r | IsRun(owner, r) && r.node in nodes && start <= r.last < i :: r.node == node
    ensures Exactly(owner, nodes, runs + [Run(node, start, i - 1)], i)
  {
    var last := Run(node, start, i - 1);
    assert IsRun(owner, last);
    forall r ensures r in runs + [last] <==> IsRun(owner, r) && r.node in nodes && r.last < i {
      if IsRun(owner, r) && r.node in nodes && start <= r.last < i { RunsMeet(owner, r, last, r.last); }
    }
  }

  predicate InOrder(runs: seq<Run>) {
    forall a, b | 0 <= a < b < |runs| :: runs[a].last < runs[b].first
  }

  ghost function Owning(owner: Owners): set<NodeId> {
    set j | 0 <= j < |owner| && owner[j].Some? :: owner[j].value
  }

  /** The single pass. */
  method ReplyV2(owner: Owners) returns (runs: seq<Run>)
    ensures Exactly(owner, Owning(owner), runs, |owner|) && InOrder(runs)
  {
    runs := [];
    var node: Option<NodeId>, start := None, -1;
    ghost var nodes := Owning(owner);
    for i := 0 to |owner| + 1
      invariant node.None? ==> i <= |owner| && Exactly(owner, nodes, runs, i) && (i > 0 ==> owner[i - 1].None?)
      invariant node.Some? ==> Under(owner, node.value, start, i) && Exactly(owner, nodes, runs, start)
      invariant InOrder(runs) && forall r | r in runs :: r.last < if node.None? then i else start
    {
      if node.None? {
        if i == |owner| { break; }
        NoRunEnds(owner, nodes, runs, i);
        node, start := owner[i], i;
        continue;
      }
      if i == |owner| || node != owner[i] {
        assert node.value in nodes by { assert owner[start] == node; }
        forall r | IsRun(owner, r) && r.node in nodes && start <= r.last < i ensures r.node == node.value {
          assert owner[r.last] == Some(r.node) && owner[r.last] == node;
        }
        EndRun(owner, nodes, runs, node.value, start, i);
        runs := runs + [Run(node.value, start, i - 1)];
        if i == |owner| { break; }
        NoRunEnds(owner, nodes, runs, i);
        node, start := owner[i], i;
      }
    }
  }

  /** An unassigned slot ends no run. */
  lemma NoRunEnds(owner: Owners, nodes: set<NodeId>, runs: seq<Run>, i: int)
    requires Exactly(owner, nodes, runs, i) && 0 <= i < |owner|
    ensures owner[i].None? ==> Exactly(owner, nodes, runs, i + 1)
  {
    if owner[i].None? {
      forall r | IsRun(owner, r) ensures r.last != i { assert owner[r.last] == Some(r.node); }
    }
  }

  /** The runs of one node, from its bitmap. The end of the table closes a run one slot later. */
  method NodeRuns(owner: Owners, node: NodeId, bits: set<nat>) returns (runs: seq<Run>)
    requires bits == SlotsOf(owner, node)
    ensures Exactly(owner, {node}, runs, |owner|) && InOrder(runs)
  {
    runs := [];
    var start, j := -1, 0;
    while j < |owner|
      invariant 0 <= j <= |owner|
      invariant start == -1 ==> Exactly(owner, {node}, runs, j) && (0 < j < |owner| ==> owner[j - 1] != Some(node))
      invariant start != -1 ==> j < |owner| && Under(owner, node, start, j) && Exactly(owner, {node}, runs, start)
      invariant InOrder(runs) && forall r | r in runs :: r.last < if start == -1 then j else start
    {
      var bit := j in bits;
      if !bit && start == -1 { NoRunOfEnds(owner, node, runs, j); }
      if bit && start == -1 { start := j; }
      if start != -1 && (!bit || j == |owner| - 1) {
        var end := if bit then j + 1 else j;
        EndRun(owner, {node}, runs, node, start, end);
        runs := runs + [Run(node, start, end - 1)];
        start := -1;
        if !bit { NoRunOfEnds(owner, node, runs, j); }
      }
      j := j + 1;
    }
  }

  lemma NoRunOfEnds(owner: Owners, node: NodeId, runs: seq<Run>, i: int)
    requires Exactly(owner, {node}, runs, i) && 0 <= i < |owner| && owner[i] != Some(node)
    ensures Exactly(owner, {node}, runs, i + 1)
  {
    forall r | IsRun(owner, r) && r.node == node ensures r.last != i { assert owner[r.last] == Some(r.node); }
  }

  /** Node by node: masters without slots are passed over. The bitmaps say what the table says. */
  method ReplyV1(owner: Owners, bitmaps: map<NodeId, set<nat>>, masters: set<NodeId>) returns (runs: seq<Run>)
    requires masters <= bitmaps.Keys && forall n | n in bitmaps :: bitmaps[n] == SlotsOf(owner, n)
    ensures Exactly(owner, masters, runs, |owner|)
  {
    runs := [];
    var rest := masters;
    while rest != {}
      invariant rest <= masters && Exactly(owner, masters - rest, runs, |owner|)
    {
      var n :| n in rest;
      ghost var before := runs;
      if bitmaps[n] != {} {
        var more := NodeRuns(owner, n, bitmaps[n]);
        runs := runs + more;
      } else {
        NoSlotsNoRuns(owner, n);
      }
      assert forall r :: r in runs <==> r in before || (IsRun(owner, r) && r.node in {n} && r.last < |owner|);
      assert masters - (rest - {n}) == (masters - rest) + {n};
      rest := rest - {n};
    }
  }

  lemma NoSlotsNoRuns(owner: Owners, n: NodeId)
    requires SlotsOf(owner, n) == {}
    ensures forall r | IsRun(owner, r) :: r.node != n
  {
    forall r | IsRun(owner, r) ensures r.node != n {
      assert owner[r.first] == Some(r.node) && r.first in SlotsOf(owner, r.node);
    }
  }

  /** Both replies hold the same triples when every owner is a master. */
  lemma SameReply(owner: Owners, masters: set<NodeId>, v1: seq<Run>, v2: seq<Run>)
    requires Exactly(owner, masters, v1, |owner|) && Exactly(owner, Owning(owner), v2, |owner|)
             && Owning(owner) <= masters
    ensures forall r :: r in v1 <==> r in v2
  {
    forall r ensures r in v1 <==> r in v2 {
      if IsRun(owner, r) { assert owner[r.first] == Some(r.node) && r.node in Owning(owner); }
    }
  }

  /** A reply expands to the slot table. */
  lemma Expands(owner: Owners, runs: seq<Run>, j: int, n: NodeId)
    requires Exactly(owner, Owning(owner), runs, |owner|) && 0 <= j < |owner|
    ensures owner[j] == Some(n) <==> exists r :: r in runs && r.node == n && r.first <= j <= r.last
  {
    if r :| r in runs && r.node == n && r.first <= j <= r.last { assert IsRun(owner, r); }
    if owner[j] == Some(n) {
      var a, b := j, j;
      while a > 0 && owner[a - 1] == Some(n)
        invariant 0 <= a <= j && forall k | a <= k <= j :: owner[k] == Some(n)
      { a := a - 1; }
      while b + 1 < |owner| && owner[b + 1] == Some(n)
        invariant j <= b < |owner| && forall k | a <= k <= b :: owner[k] == Some(n)
      { b := b + 1; }
      assert IsRun(owner, Run(n, a, b));
      assert Run(n, a, b) in runs;
    }
  }
}
