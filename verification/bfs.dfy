/**
 * The breadth-first searches of the scraper (scripts/fetch-characters.mjs):
 * `findMatchingNode` and `traverse`. Both run a queue loop that skips
 * primitives and already-seen nodes, marks a node as seen, and then queues
 * its children; the `seen` set is what makes them stop on cyclic graphs.
 */
module BreadthFirst {
  import opened JsonValues
  import opened ObjectGraph
  import opened ShapeTests

  /**
   * The nodes the queue loop expands, in the order it expands them, from
   * `queue` with `seen` already marked. Every node is expanded at most once,
   * and never one that was already seen.
   */
  function Visits(h: Heap, queue: seq<Val>, seen: set<nat>): (r: seq<nat>)
    ensures forall i :: 0 <= i < |r| ==> r[i] in h && r[i] !in seen
    ensures forall i, j :: 0 <= i < j < |r| ==> r[i] != r[j]
    decreases h.Keys - seen, |queue|
  {
    if queue == [] then []
    else
      var v := queue[0];
      if !IsObject(h, v) || v.r in seen then Visits(h, queue[1..], seen)
      else [v.r] + Visits(h, queue[1..] + Children(h[v.r]), seen + {v.r})
  }

  /** `findMatchingNode` from `queue` with `seen` already marked; `None` is `null`. */
  function FindFrom(h: Heap, t: Target, queue: seq<Val>, seen: set<nat>): (r: Option<nat>)
    ensures r.Some? ==> r.value in h && Matches(h, t, r.value)
    decreases h.Keys - seen, |queue|
  {
    if queue == [] then None
    else
      var v := queue[0];
      if !IsObject(h, v) || v.r in seen then FindFrom(h, t, queue[1..], seen)
      else if Matches(h, t, v.r) then Some(v.r)
      else FindFrom(h, t, queue[1..] + Children(h[v.r]), seen + {v.r})
  }

  /** `vs[k]` passes the test and no node before it does. */
  predicate FirstPassAt(h: Heap, t: Target, vs: seq<nat>, k: int)
    requires forall i :: 0 <= i < |vs| ==> vs[i] in h
  {
    0 <= k < |vs| && Matches(h, t, vs[k]) && forall j :: 0 <= j < k ==> !Matches(h, t, vs[j])
  }

  /** The first node of `vs` that passes the test. */
  function FirstMatching(h: Heap, t: Target, vs: seq<nat>): (r: Option<nat>)
    requires forall i :: 0 <= i < |vs| ==> vs[i] in h
    ensures r.Some? ==> r.value in h && Matches(h, t, r.value)
    ensures r.Some? ==> exists k :: FirstPassAt(h, t, vs, k) && vs[k] == r.value
    ensures r.None? ==> forall j :: 0 <= j < |vs| ==> !Matches(h, t, vs[j])
  {
    if vs == [] then None
    else if Matches(h, t, vs[0]) then
      assert FirstPassAt(h, t, vs, 0);
      Some(vs[0])
    else
      var r := FirstMatching(h, t, vs[1..]);
      assert r.Some? ==> exists k :: FirstPassAt(h, t, vs, k) && vs[k] == r.value by {
        if r.Some? {
          var k :| FirstPassAt(h, t, vs[1..], k) && vs[1..][k] == r.value;
          assert FirstPassAt(h, t, vs, k + 1);
        }
      }
      r
  }

  /**
   * `findMatchingNode` returns the first node, in the order the queue loop
   * expands nodes, that passes the test, or `null` when none does.
   */
  lemma {:induction false} FindIsFirstVisit(h: Heap, t: Target, queue: seq<Val>, seen: set<nat>)
    ensures FindFrom(h, t, queue, seen) == FirstMatching(h, t, Visits(h, queue, seen))
    decreases h.Keys - seen, |queue|
  {
    if queue != [] {
      var v := queue[0];
      if !IsObject(h, v) || v.r in seen {
        FindIsFirstVisit(h, t, queue[1..], seen);
      } else {
        FindIsFirstVisit(h, t, queue[1..] + Children(h[v.r]), seen + {v.r});
      }
    }
  }

  /** `findMatchingNode(root, test)`. */
  method FindMatchingNode(h: Heap, root: Val, t: Target) returns (r: Option<nat>)
    ensures r == FindFrom(h, t, [root], {})
  {
    var queue := [root];
    var seen: set<nat> := {};
    while queue != []
      invariant FindFrom(h, t, queue, seen) == FindFrom(h, t, [root], {})
      decreases h.Keys - seen, |queue|
    {
      var node := queue[0];
      queue := queue[1..];
      if !IsObject(h, node) || node.r in seen {
        continue;
      }
      seen := seen + {node.r};
      if Matches(h, t, node.r) {
        return Some(node.r);
      }
      queue := queue + Children(h[node.r]);
    }
    return None;
  }

  /** `traverse(root, visitor)`: the nodes the visitor is called on, in call order. */
  method Traverse(h: Heap, root: Val) returns (visited: seq<nat>)
    ensures visited == Visits(h, [root], {})
  {
    visited := [];
    var queue := [root];
    var seen: set<nat> := {};
    while queue != []
      invariant visited + Visits(h, queue, seen) == Visits(h, [root], {})
      decreases h.Keys - seen, |queue|
    {
      var node := queue[0];
      queue := queue[1..];
      if !IsObject(h, node) || node.r in seen {
        continue;
      }
      seen := seen + {node.r};
      visited := visited + [node.r];
      queue := queue + Children(h[node.r]);
    }
  }

  /** A node's children that are themselves nodes. */
  lemma {:induction false} DistinctInHeap(vs: seq<nat>, h: Heap)
    requires forall i :: 0 <= i < |vs| ==> vs[i] in h
    requires forall i, j :: 0 <= i < j < |vs| ==> vs[i] != vs[j]
    ensures |vs| <= |h.Keys|
  {
    var s := set i | 0 <= i < |vs| :: vs[i];
    DistinctCard(vs);
    SubsetCard(s, h.Keys);
  }

  lemma {:induction false} SubsetCard(a: set<nat>, b: set<nat>)
    requires a <= b
    ensures |a| <= |b|
    decreases |a|
  {
    if a != {} {
      var x :| x in a;
      SubsetCard(a - {x}, b - {x});
    }
  }

  lemma {:induction false} DistinctCard(vs: seq<nat>)
    requires forall i, j :: 0 <= i < j < |vs| ==> vs[i] != vs[j]
    ensures |set i | 0 <= i < |vs| :: vs[i]| == |vs|
  {
    if vs != [] {
      var init := vs[..|vs| - 1];
      DistinctCard(init);
      var s := set i | 0 <= i < |init| :: init[i];
      assert (set i | 0 <= i < |vs| :: vs[i]) == s + {vs[|vs| - 1]};
      assert vs[|vs| - 1] !in s;
    }
  }

  /**
   * `traverse` calls its visitor at most once per node of the graph, so it
   * stops even when the graph has cycles.
   */
  lemma TraverseBounded(h: Heap, root: Val)
    ensures |Visits(h, [root], {})| <= |h.Keys|
  {
    DistinctInHeap(Visits(h, [root], {}), h);
  }

  /** Only nodes already seen, or values that are not nodes, are queued. */
  predicate AllSeen(h: Heap, q: seq<Val>, seen: set<nat>)
  {
    forall i :: 0 <= i < |q| ==> !IsObject(h, q[i]) || q[i].r in seen
  }

  lemma {:induction false} NothingNew(h: Heap, q: seq<Val>, seen: set<nat>)
    requires AllSeen(h, q, seen)
    ensures Visits(h, q, seen) == []
    decreases |q|
  {
    if q != [] {
      assert AllSeen(h, q[1..], seen) by {
        forall i | 0 <= i < |q| - 1 ensures q[1..][i] == q[i + 1] { }
      }
      NothingNew(h, q[1..], seen);
    }
  }

  /**
   * An object whose only children that are nodes are itself is visited
   * exactly once: its reference to itself is found in `seen`.
   */
  lemma SelfLoopVisitedOnce(h: Heap, r: nat)
    requires r in h
    requires forall i :: 0 <= i < |Children(h[r])| ==> Children(h[r])[i] == VRef(r) || !IsObject(h, Children(h[r])[i])
    ensures Visits(h, [VRef(r)], {}) == [r]
  {
    var none: set<nat> := {};
    assert none + {r} == {r};
    assert [VRef(r)][1..] + Children(h[r]) == Children(h[r]);
    NothingNew(h, Children(h[r]), {r});
  }
}
