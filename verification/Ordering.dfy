/** Deletion order: children before parents, or a refusal that names why there is none. */
module Ordering {

  type Edge = (string, string)  // (child, parent)

  datatype Outcome = Order(tables: seq<string>) | OutsideEdge(edge: Edge) | CyclicEdges

  // --- what an order and a cycle are -------------------------------------

  predicate Distinct(s: seq<string>) {
    forall i, j :: 0 <= i < j < |s| ==> s[i] != s[j]
  }

  /** A parent never comes before one of its children; self-edges impose nothing. */
  predicate ChildrenFirst(order: seq<string>, edges: seq<Edge>) {
    forall e, i, j | e in edges && 0 <= i < |order| && 0 <= j < |order| ::
      e.0 != e.1 && order[i] == e.0 && order[j] == e.1 ==> i < j
  }

  /** A walk along edges between two different tables that ends where it began. */
  ghost predicate Cycle(walk: seq<string>, edges: seq<Edge>) {
    && |walk| > 1
    && walk[0] == walk[|walk| - 1]
    && Walk(walk, edges)
  }

  ghost predicate Walk(walk: seq<string>, edges: seq<Edge>) {
    forall i {:trigger walk[i]} :: 0 <= i < |walk| - 1 ==> walk[i] != walk[i + 1] && (walk[i], walk[i + 1]) in edges
  }

  ghost predicate HasCycle(edges: seq<Edge>) {
    exists walk :: Cycle(walk, edges)
  }

  predicate Outside(tables: seq<string>, e: Edge) {
    e.0 !in tables || e.1 !in tables
  }

  // --- the sort ----------------------------------------------------------

  /** Whether every child of `table` among `edges` has already been placed. */
  predicate Ready(table: string, remaining: seq<string>, edges: seq<Edge>) {
    forall e :: e in edges && e.0 != e.1 && e.1 == table ==> e.0 !in remaining
  }

  /** Orders the tables, each once, with every child before its parent. It refuses an edge that
      leaves the table set, and otherwise fails exactly when the edges between different tables
      contain a cycle. */
  method FkSafeDeletionOrder(tables: seq<string>, foreignKeys: seq<Edge>) returns (r: Outcome)
    ensures r.Order? ==>
              && Distinct(r.tables)
              && (forall t :: t in r.tables <==> t in tables)
              && ChildrenFirst(r.tables, foreignKeys)
    ensures r.OutsideEdge? <==> exists e :: e in foreignKeys && Outside(tables, e)
    ensures r.OutsideEdge? ==> r.edge in foreignKeys && Outside(tables, r.edge)
    ensures r.CyclicEdges? <==> (forall e :: e in foreignKeys ==> !Outside(tables, e)) && HasCycle(foreignKeys)
  {
    var nodes := Deduplicate(tables);
    for i := 0 to |foreignKeys|
      invariant forall k :: 0 <= k < i ==> !Outside(tables, foreignKeys[k])
    {
      if Outside(tables, foreignKeys[i]) {
        return OutsideEdge(foreignKeys[i]);
      }
    }
    var order: seq<string>, remaining := [], nodes;
    while remaining != []
      invariant Partial(tables, order, remaining, foreignKeys)
      decreases |remaining|
    {
      var batch, rest := Split(remaining, foreignKeys);
      if batch == [] {
        StuckMeansCycle(remaining, foreignKeys);
        return CyclicEdges;
      }
      BatchExtends(tables, order, batch, remaining, rest, foreignKeys);
      order, remaining := order + batch, rest;
    }
    OrderExcludesCycle(order, foreignKeys);
    r := Order(order);
  }

  method Deduplicate(tables: seq<string>) returns (nodes: seq<string>)
    ensures Distinct(nodes)
    ensures forall t :: t in nodes <==> t in tables
  {
    nodes := [];
    for i := 0 to |tables|
      invariant Distinct(nodes)
      invariant forall t :: t in nodes <==> t in tables[..i]
    {
      if tables[i] !in nodes {
        nodes := nodes + [tables[i]];
      }
    }
    assert tables[..|tables|] == tables;
  }

  /** Separates the tables that may go now from those that must wait. */
  method Split(remaining: seq<string>, edges: seq<Edge>) returns (batch: seq<string>, rest: seq<string>)
    requires Distinct(remaining)
    ensures Distinct(batch) && Distinct(rest)
    ensures |batch| + |rest| == |remaining|
    ensures forall t :: t in batch <==> t in remaining && Ready(t, remaining, edges)
    ensures forall t :: t in rest <==> t in remaining && !Ready(t, remaining, edges)
  {
    batch, rest := [], [];
    for i := 0 to |remaining|
      invariant Distinct(batch) && Distinct(rest) && |batch| + |rest| == i
      invariant forall t :: t in batch <==> t in remaining[..i] && Ready(t, remaining, edges)
      invariant forall t :: t in rest <==> t in remaining[..i] && !Ready(t, remaining, edges)
    {
      if Ready(remaining[i], remaining, edges) {
        batch := batch + [remaining[i]];
      } else {
        rest := rest + [remaining[i]];
      }
    }
    assert remaining[..|remaining|] == remaining;
  }

  /** The sort part-way: the placed tables are ordered and every child of one is placed. */
  ghost predicate Partial(tables: seq<string>, order: seq<string>, remaining: seq<string>, edges: seq<Edge>) {
    && Distinct(order)
    && Distinct(remaining)
    && (forall t :: t in tables <==> t in order || t in remaining)
    && (forall t :: t in order ==> t !in remaining)
    && ChildrenFirst(order, edges)
    && (forall e :: e in edges && e.0 != e.1 && e.1 in order ==> e.0 in order)
  }

  lemma BatchExtends(tables: seq<string>, order: seq<string>, batch: seq<string>, remaining: seq<string>,
                     rest: seq<string>, edges: seq<Edge>)
    requires Partial(tables, order, remaining, edges)
    requires forall e :: e in edges ==> !Outside(tables, e)
    requires Distinct(batch) && Distinct(rest)
    requires forall t :: t in batch <==> t in remaining && Ready(t, remaining, edges)
    requires forall t :: t in rest <==> t in remaining && !Ready(t, remaining, edges)
    ensures Partial(tables, order + batch, rest, edges)
  {
    var all := order + batch;
    forall e | e in edges && e.0 != e.1 && e.1 in batch
      ensures e.0 in order
    {
      assert Ready(e.1, remaining, edges);
      assert !Outside(tables, e);
    }
    forall e, i, j | e in edges && 0 <= i < |all| && 0 <= j < |all| && e.0 != e.1 && all[i] == e.0 && all[j] == e.1
      ensures i < j
    {
      assert e.1 in order || e.1 in batch;
      assert e.0 in order;
      assert forall k :: 0 <= k < |batch| ==> batch[k] in remaining;
    }
    forall i, j | 0 <= i < j < |all| ensures all[i] != all[j] {
      if i < |order| <= j {
        assert order[i] in order && batch[j - |order|] in remaining;
      }
    }
  }

  // --- a complete order leaves no room for a cycle ------------------------

  lemma {:induction false} WalkClimbs(order: seq<string>, edges: seq<Edge>, walk: seq<string>, n: nat, first: nat,
                                      last: nat)
    requires ChildrenFirst(order, edges) && Walk(walk, edges) && 0 < n < |walk|
    requires forall e :: e in edges ==> e.0 in order && e.1 in order
    requires first < |order| && last < |order| && order[first] == walk[0] && order[last] == walk[n]
    ensures first < last
    decreases n
  {
    assert walk[n - 1] != walk[n - 1 + 1] && (walk[n - 1], walk[n]) in edges;
    var e := (walk[n - 1], walk[n]);
    var mid :| 0 <= mid < |order| && order[mid] == e.0;
    assert e.0 != e.1 && order[last] == e.1;
    if n > 1 {
      WalkClimbs(order, edges, walk, n - 1, first, mid);
    } else {
      assert order[first] == e.0;
    }
  }

  lemma OrderExcludesCycle(order: seq<string>, edges: seq<Edge>)
    requires ChildrenFirst(order, edges)
    requires forall e :: e in edges ==> e.0 in order && e.1 in order
    ensures !HasCycle(edges)
  {
    forall walk | Cycle(walk, edges) ensures false {
      assert walk[0] != walk[0 + 1] && (walk[0], walk[1]) in edges;
      var e := (walk[0], walk[1]);
      var p :| 0 <= p < |order| && order[p] == e.0;
      WalkClimbs(order, edges, walk, |walk| - 1, p, p);
    }
  }

  // --- getting stuck means there is a cycle --------------------------------

  lemma StuckMeansCycle(remaining: seq<string>, edges: seq<Edge>)
    requires remaining != []
    requires forall t :: t in remaining ==> !Ready(t, remaining, edges)
    ensures HasCycle(edges)
  {
    var walk := LongWalk(remaining, edges, |remaining|);
    var i, j := Repeats(walk, remaining);
    var loop := walk[i..j + 1];
    assert Walk(loop, edges) by {
      forall k {:trigger loop[k]} | 0 <= k < |loop| - 1
        ensures loop[k] != loop[k + 1] && (loop[k], loop[k + 1]) in edges
      {
        assert loop[k] == walk[i + k] && loop[k + 1] == walk[i + k + 1];
      }
    }
    assert Cycle(loop, edges);
  }

  lemma LongWalk(remaining: seq<string>, edges: seq<Edge>, n: nat) returns (walk: seq<string>)
    requires remaining != []
    requires forall t :: t in remaining ==> !Ready(t, remaining, edges)
    ensures |walk| == n + 1 && Walk(walk, edges)
    ensures forall t :: t in walk ==> t in remaining
  {
    if n == 0 {
      walk := [remaining[0]];
    } else {
      var w := LongWalk(remaining, edges, n - 1);
      assert w[0] in remaining;
      var e :| e in edges && e.0 != e.1 && e.1 == w[0] && e.0 in remaining;
      walk := [e.0] + w;
      forall k {:trigger walk[k]} | 0 <= k < |walk| - 1
        ensures walk[k] != walk[k + 1] && (walk[k], walk[k + 1]) in edges
      {
        if k > 0 { assert walk[k] == w[k - 1] && walk[k + 1] == w[k - 1 + 1]; }
      }
    }
  }

  /** Pigeonhole: a sequence longer than the pool its elements come from repeats one of them. */
  lemma Repeats(s: seq<string>, pool: seq<string>) returns (i: nat, j: nat)
    requires |s| > |pool| && forall x :: x in s ==> x in pool
    ensures i < j < |s| && s[i] == s[j]
  {
    assert !Distinct(s) by {
      if Distinct(s) {
        DistinctCardinality(s);
        PoolCardinality(pool);
        CardinalityMonotone(set x | x in s, set x | x in pool);
      }
    }
    i, j :| 0 <= i < j < |s| && s[i] == s[j];
  }

  lemma DistinctCardinality(s: seq<string>)
    requires Distinct(s)
    ensures |set x | x in s| == |s|
  {
    if s != [] {
      DistinctCardinality(s[1..]);
      assert (set x | x in s) == (set x | x in s[1..]) + {s[0]};
    }
  }

  lemma PoolCardinality(s: seq<string>)
    ensures |set x | x in s| <= |s|
  {
    if s != [] {
      PoolCardinality(s[1..]);
      assert (set x | x in s) == (set x | x in s[1..]) + {s[0]};
    }
  }

  lemma CardinalityMonotone<T>(a: set<T>, b: set<T>)
    requires a <= b
    ensures |a| <= |b|
  {
    if a != {} {
      var x :| x in a;
      CardinalityMonotone(a - {x}, b - {x});
    }
  }

  lemma CardinalitySmaller<T>(a: set<T>, b: set<T>, x: T)
    requires a <= b && x in b && x !in a
    ensures |a| < |b|
  {
    assert a <= b - {x};
    CardinalityMonotone(a, b - {x});
  }
}
