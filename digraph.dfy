/**
 * Directed graphs given as edge lists, and the acyclicity check the debugger
 * asks of a control-flow graph. A graph has a cycle when some closed walk of at
 * least one edge exists; `IsAcyclic` decides this by repeatedly deleting a
 * sink (a node no remaining edge leaves) together with the edges into it.
 */
module Digraph {

  /** Consecutive nodes of `w` are joined by edges of `edges`. */
  ghost predicate IsWalk<N(!new)>(edges: seq<(N, N)>, w: seq<N>) {
    forall k | 0 <= k < |w| - 1 :: (w[k], w[k + 1]) in edges
  }

  /** `w` is a closed walk of at least one edge. */
  ghost predicate IsCycle<N(!new)>(edges: seq<(N, N)>, w: seq<N>) {
    |w| >= 2 && w[0] == w[|w| - 1] && IsWalk(edges, w)
  }

  ghost predicate HasCycle<N(!new)>(edges: seq<(N, N)>) {
    exists w :: IsCycle(edges, w)
  }

  /** Some edge leaves `v`. */
  predicate HasOutEdge<N(==,!new)>(edges: seq<(N, N)>, v: N) {
    exists k | 0 <= k < |edges| :: edges[k].0 == v
  }

  /** The first index at or after `k` of an edge whose head is a sink, or `|edges|`. */
  function FirstSinkEdge<N(==,!new)>(edges: seq<(N, N)>, k: nat): (r: nat)
    requires k <= |edges|
    ensures k <= r <= |edges|
    ensures r < |edges| ==> !HasOutEdge(edges, edges[r].1)
    ensures forall m | k <= m < r :: HasOutEdge(edges, edges[m].1)
    decreases |edges| - k
  {
    if k == |edges| then k
    else if !HasOutEdge(edges, edges[k].1) then k
    else FirstSinkEdge(edges, k + 1)
  }

  /** The edges whose head is not `v`, in their original order. */
  function RemoveInto<N(==,!new)>(edges: seq<(N, N)>, v: N): (r: seq<(N, N)>)
    ensures forall e :: e in r <==> e in edges && e.1 != v
    ensures |r| <= |edges|
    ensures (exists k | 0 <= k < |edges| :: edges[k].1 == v) ==> |r| < |edges|
  {
    if edges == [] then []
    else
      var rest := RemoveInto(edges[1..], v);
      assert forall e :: e in edges <==> e == edges[0] || e in edges[1..];
      assert (exists k | 0 <= k < |edges| :: edges[k].1 == v) && edges[0].1 != v ==>
               exists k | 0 <= k < |edges[1..]| :: edges[1..][k].1 == v by {
        if (exists k | 0 <= k < |edges| :: edges[k].1 == v) && edges[0].1 != v {
          var k :| 0 <= k < |edges| && edges[k].1 == v;
          assert edges[1..][k - 1].1 == v;
        }
      }
      if edges[0].1 == v then rest else [edges[0]] + rest
  }

  /**
   * The acyclicity check: true exactly when the graph has no cycle.
   */
  function IsAcyclic<N(==,!new)>(edges: seq<(N, N)>): (r: bool)
    ensures r <==> !HasCycle(edges)
    decreases |edges|
  {
    if |edges| == 0 then
      RankedIsAcyclic(edges, (v: N) => 0);
      true
    else
      var k := FirstSinkEdge(edges, 0);
      if k == |edges| then
        StuckGraphHasCycle(edges);
        false
      else
        var sink := edges[k].1;
        SinkRemovalKeepsCycles(edges, sink);
        IsAcyclic(RemoveInto(edges, sink))
  }

  /** A walk over a sub-list of edges is a walk over the whole list. */
  lemma WalkInSuperset<N(!new)>(small: seq<(N, N)>, big: seq<(N, N)>, w: seq<N>)
    requires forall e :: e in small ==> e in big
    requires IsWalk(small, w)
    ensures IsWalk(big, w)
  {
  }

  /** Deleting a sink and the edges into it neither creates nor destroys a cycle. */
  lemma SinkRemovalKeepsCycles<N(!new)>(edges: seq<(N, N)>, v: N)
    requires !HasOutEdge(edges, v)
    ensures HasCycle(edges) <==> HasCycle(RemoveInto(edges, v))
  {
    var rest := RemoveInto(edges, v);
    if w :| IsCycle(edges, w) {
      forall k | 0 <= k < |w| ensures w[k] != v {
        var j := if k < |w| - 1 then k else 0;
        assert (w[j], w[j + 1]) in edges;
        var m :| 0 <= m < |edges| && edges[m] == (w[j], w[j + 1]);
        assert edges[m].0 == w[k];
      }
      forall k | 0 <= k < |w| - 1 ensures (w[k], w[k + 1]) in rest {
        assert (w[k], w[k + 1]) in edges && w[k + 1] != v;
      }
      assert IsCycle(rest, w);
    }
    if w :| IsCycle(rest, w) {
      WalkInSuperset(rest, edges, w);
      assert IsCycle(edges, w);
    }
  }

  /** The set of the heads of the edges. */
  ghost function Heads<N(!new)>(edges: seq<(N, N)>): set<N> {
    set k | 0 <= k < |edges| :: edges[k].1
  }

  /** Every head of an edge that has an out-edge is the tail of some edge. */
  lemma StepFromHead<N(!new)>(edges: seq<(N, N)>, v: N) returns (m: nat)
    requires forall m | 0 <= m < |edges| :: HasOutEdge(edges, edges[m].1)
    requires v in Heads(edges)
    ensures m < |edges| && edges[m].0 == v && edges[m].1 in Heads(edges)
  {
    var i :| 0 <= i < |edges| && edges[i].1 == v;
    assert HasOutEdge(edges, edges[i].1);
    m :| 0 <= m < |edges| && edges[m].0 == v;
  }

  /** Appending the head of an edge leaving the last node extends a walk. */
  lemma ExtendWalk<N(!new)>(edges: seq<(N, N)>, u: seq<N>, m: nat)
    requires IsWalk(edges, u) && u != [] && m < |edges| && edges[m].0 == u[|u| - 1]
    ensures IsWalk(edges, u + [edges[m].1])
  {
    var w := u + [edges[m].1];
    forall k | 0 <= k < |w| - 1 ensures (w[k], w[k + 1]) in edges {
      if k < |u| - 1 {
        assert w[k] == u[k] && w[k + 1] == u[k + 1];
      } else {
        assert (w[k], w[k + 1]) == edges[m];
      }
    }
  }

  /**
   * When every head of an edge has an edge leaving it, there is a walk of any
   * length through heads only.
   */
  lemma {:induction false} LongWalk<N(!new)>(edges: seq<(N, N)>, n: nat) returns (w: seq<N>)
    requires |edges| > 0
    requires forall m | 0 <= m < |edges| :: HasOutEdge(edges, edges[m].1)
    ensures |w| == n + 1 && IsWalk(edges, w)
    ensures forall k | 0 <= k < |w| :: w[k] in Heads(edges)
  {
    if n == 0 {
      w := [edges[0].1];
    } else {
      var u := LongWalk(edges, n - 1);
      var m := StepFromHead(edges, u[n - 1]);
      ExtendWalk(edges, u, m);
      w := u + [edges[m].1];
      assert forall k | 0 <= k < n :: w[k] == u[k];
    }
  }

  /** A sequence longer than the set it draws from repeats an element. */
  lemma {:induction false} Pigeonhole<N(!new)>(w: seq<N>, s: set<N>) returns (i: nat, j: nat)
    requires forall k | 0 <= k < |w| :: w[k] in s
    requires |w| > |s|
    ensures i < j < |w| && w[i] == w[j]
  {
    var last := w[|w| - 1];
    if k :| 0 <= k < |w| - 1 && w[k] == last {
      i, j := k, |w| - 1;
    } else {
      var prefix := w[..|w| - 1];
      assert forall k | 0 <= k < |prefix| :: prefix[k] in s - {last};
      i, j := Pigeonhole(prefix, s - {last});
    }
  }

  /** When every head of an edge has an edge leaving it (and some edge exists), there is a cycle. */
  lemma StuckGraphHasCycle<N(!new)>(edges: seq<(N, N)>)
    requires |edges| > 0
    requires forall m | 0 <= m < |edges| :: HasOutEdge(edges, edges[m].1)
    ensures HasCycle(edges)
  {
    var w := LongWalk(edges, |Heads(edges)|);
    var i, j := Pigeonhole(w, Heads(edges));
    var c := w[i..j + 1];
    forall k | 0 <= k < |c| - 1 ensures (c[k], c[k + 1]) in edges {
      assert c[k] == w[i + k] && c[k + 1] == w[i + k + 1];
    }
    assert IsCycle(edges, c);
  }

  /**
   * A graph whose every edge strictly increases a rank is acyclic; the
   * control-flow graph of a program that only jumps forward is one.
   */
  lemma RankedIsAcyclic<N(!new)>(edges: seq<(N, N)>, rank: N -> nat)
    requires forall k | 0 <= k < |edges| :: rank(edges[k].0) < rank(edges[k].1)
    ensures !HasCycle(edges)
  {
    if w :| IsCycle(edges, w) {
      RankIncreasesAlongWalk(edges, rank, w, |w| - 1);
    }
  }

  lemma {:induction false} RankIncreasesAlongWalk<N(!new)>(edges: seq<(N, N)>, rank: N -> nat, w: seq<N>, k: nat)
    requires forall m | 0 <= m < |edges| :: rank(edges[m].0) < rank(edges[m].1)
    requires IsWalk(edges, w)
    requires 0 < k < |w|
    ensures rank(w[0]) < rank(w[k])
  {
    assert (w[k - 1], w[k]) in edges;
    if k > 1 {
      RankIncreasesAlongWalk(edges, rank, w, k - 1);
    }
  }
}
