/** A snapshot of the power graph as plain values: the component at each
    node index, the parent of every non-root node, and a bound on the node
    indices. The views the solver consumes (children, descendants, a
    topological order) are functions of the snapshot. */
module PowerGraph {
  import opened Components

  datatype Graph = Graph(comps: map<nat, Component>, parent: map<nat, nat>, size: nat)

  /** Every node index is below `size` and holds a constructed component;
      every edge joins two nodes, and a parent's index is below its child's
      (so the graph is a forest and ascending index order is topological). */
  predicate WellFormedGraph(g: Graph) {
    && (forall n :: n in g.comps ==> n < g.size && WellFormed(g.comps[n]))
    && (forall c :: c in g.parent ==> c in g.comps && g.parent[c] in g.comps && g.parent[c] < c)
  }

  predicate ParentsBelow(parent: map<nat, nat>) {
    forall c :: c in parent ==> parent[c] < c
  }

  /** The children of `n` among the indices below `k`, in ascending order. */
  function ChildrenBelow(parent: map<nat, nat>, n: nat, k: nat): (cs: seq<nat>)
    ensures forall c :: c in cs <==> c < k && c in parent && parent[c] == n
    ensures forall a, b :: 0 <= a < b < |cs| ==> cs[a] < cs[b]
    decreases k
  {
    if k == 0 then []
    else
      var rest := ChildrenBelow(parent, n, k - 1);
      assert forall a :: 0 <= a < |rest| ==> rest[a] in rest;
      if k - 1 in parent && parent[k - 1] == n then rest + [k - 1] else rest
  }

  /** The children of a node (the successor list of the graph). */
  function Children(g: Graph, n: nat): (cs: seq<nat>)
    requires WellFormedGraph(g)
    ensures forall c :: c in cs <==> c in g.parent && g.parent[c] == n
    ensures forall a, b :: 0 <= a < b < |cs| ==> cs[a] < cs[b]
    ensures forall k :: 0 <= k < |cs| ==> cs[k] in g.comps && cs[k] < g.size
  {
    var cs := ChildrenBelow(g.parent, n, g.size);
    assert forall k :: 0 <= k < |cs| ==> cs[k] in cs;
    cs
  }

  /** `a` lies on the path from `n` up to its root (and is not `n`). */
  predicate IsAncestor(g: Graph, a: nat, n: nat)
    requires ParentsBelow(g.parent)
    decreases n
  {
    n in g.parent && (g.parent[n] == a || IsAncestor(g, a, g.parent[n]))
  }

  lemma {:induction false} AncestorBelow(g: Graph, a: nat, n: nat)
    requires ParentsBelow(g.parent)
    requires IsAncestor(g, a, n)
    ensures a < n
    decreases n
  {
    if g.parent[n] != a {
      AncestorBelow(g, a, g.parent[n]);
    }
  }

  /** Every node that has `e` as an ancestor. */
  function Descendants(g: Graph, e: nat): (ds: set<nat>)
    requires WellFormedGraph(g)
    ensures forall n :: n in ds ==> n in g.comps && e < n
  {
    assert ParentsBelow(g.parent);
    forall n | n in g.comps && IsAncestor(g, e, n) ensures e < n {
      AncestorBelow(g, e, n);
    }
    set n | n in g.comps && IsAncestor(g, e, n)
  }

  /** A node whose parent is `e` or a descendant of `e` is a descendant of `e`. */
  lemma DescendantsClosed(g: Graph, e: nat, c: nat)
    requires WellFormedGraph(g)
    requires c in g.parent && (g.parent[c] == e || g.parent[c] in Descendants(g, e))
    ensures c in Descendants(g, e)
  {
  }

  /** The node indices below `k`, in ascending order. */
  function NodesBelow(comps: map<nat, Component>, k: nat): (ns: seq<nat>)
    ensures forall n :: n in ns <==> n < k && n in comps
    ensures forall a, b :: 0 <= a < b < |ns| ==> ns[a] < ns[b]
    decreases k
  {
    if k == 0 then []
    else
      var rest := NodesBelow(comps, k - 1);
      assert forall a :: 0 <= a < |rest| ==> rest[a] in rest;
      if k - 1 in comps then rest + [k - 1] else rest
  }

  /** Each node exactly once, every parent before its children. */
  predicate IsTopoOrder(g: Graph, order: seq<nat>) {
    && (forall n :: n in order ==> n in g.comps)
    && (forall n :: n in g.comps ==> n in order)
    && (forall a, b :: 0 <= a < b < |order| ==> order[a] != order[b])
    && (forall a, b ::
          (0 <= a < |order| && 0 <= b < |order| && order[b] in g.parent
           && g.parent[order[b]] == order[a]) ==> a < b)
  }

  /** In a strictly ascending sequence, a smaller element sits earlier. */
  lemma AscendingPositions(s: seq<nat>, a: int, b: int)
    requires forall x, y :: 0 <= x < y < |s| ==> s[x] < s[y]
    requires 0 <= a < |s| && 0 <= b < |s| && s[a] < s[b]
    ensures a < b
  {
  }

  /** The topological order the solver uses: ascending node index. */
  function TopoOrder(g: Graph): (order: seq<nat>)
    requires WellFormedGraph(g)
    ensures IsTopoOrder(g, order)
  {
    var order := NodesBelow(g.comps, g.size);
    assert forall n :: n in order ==> n in g.comps;
    assert forall n :: n in g.comps ==> n in order;
    forall a, b | 0 <= a < |order| && 0 <= b < |order| && order[b] in g.parent
                  && g.parent[order[b]] == order[a]
      ensures a < b
    {
      AscendingPositions(order, a, b);
    }
    order
  }
}
