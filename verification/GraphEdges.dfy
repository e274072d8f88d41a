/** Edges of the runtime graph as data: adding one, removing one, and what remains. */
module GraphEdges {
  import opened Common
  import opened Bytes
  import opened GraphState
  import opened GraphFrames

  /** The members of a list that are still edges. */
  ghost function Keep(es: seq<nat>, left: set<nat>): (r: seq<nat>)
    ensures forall x :: x in r <==> x in es && x in left
    ensures |r| <= |es| && ((exists x :: x in es && x !in left) ==> |r| < |es|)
    ensures (forall x :: x in es ==> x in left) ==> r == es
  {
    if es == [] then []
    else
      assert forall x :: x in es <==> x == es[0] || x in es[1..];
      if es[0] in left then [es[0]] + Keep(es[1..], left) else Keep(es[1..], left)
  }

  lemma {:induction false} DropKeeps(es: seq<nat>, left: set<nat>, e: nat)
    ensures Without(Keep(es, left), e) == Keep(es, left - {e})
  {
    if es != [] {
      DropKeeps(es[1..], left, e);
    }
  }

  function RemoveEdge(s: State, e: nat): (r: State)
    requires e in s.edges && s.edges[e].from in s.nodes && s.edges[e].to in s.nodes
  {
    var f, t := s.edges[e].from, s.edges[e].to;
    var n1 := s.nodes[f := s.nodes[f].(out := Without(s.nodes[f].out, e))];
    State(n1[t := n1[t].(inn := Without(n1[t].inn, e))], s.edges - {e}, s.next)
  }

  function AddEdge(s: State, e: nat, f: nat, t: nat, kind: u64): (r: State)
    requires f in s.nodes && t in s.nodes
  {
    var n1 := s.nodes[f := s.nodes[f].(out := s.nodes[f].out + [e])];
    State(n1[t := n1[t].(inn := n1[t].inn + [e])], s.edges[e := Edge(f, t, kind)], s.next)
  }

  lemma EdgeEnds(s: State, root: nat, e: nat)
    requires Tree(s, root) && e in s.edges
    ensures s.edges[e].from in s.nodes && s.edges[e].to in s.nodes
  {
    assert EdgeOk(s, e);
  }

  lemma RemoveEdgeTree(s: State, root: nat, e: nat)
    requires Tree(s, root) && e in s.edges && s.edges[e].from in s.nodes && s.edges[e].to in s.nodes
    ensures Tree(RemoveEdge(s, e), root)
  {
    hide NodeOk, EdgeOk;
    var s1 := RemoveEdge(s, e);
    assert s1.nodes.Keys == s.nodes.Keys && s1.edges.Keys == s.edges.Keys - {e};
    hide RemoveEdge;
    forall x | x in s1.nodes
      ensures NodeOk(s1, root, x)
    {
      RemoveNodeOk(s, root, e, x);
    }
    forall k | k in s1.edges
      ensures EdgeOk(s1, k)
    {
      RemoveEdgeOk(s, e, k);
    }
  }

  lemma RemoveNodeOk(s: State, root: nat, e: nat, x: nat)
    requires e in s.edges && s.edges[e].from in s.nodes && s.edges[e].to in s.nodes
    requires x in s.nodes && NodeOk(s, root, x)
    ensures NodeOk(RemoveEdge(s, e), root, x)
  {
    hide Distinct;
  }

  lemma RemoveEdgeOk(s: State, e: nat, k: nat)
    requires e in s.edges && s.edges[e].from in s.nodes && s.edges[e].to in s.nodes
    requires k in s.edges && k != e && EdgeOk(s, k)
    ensures EdgeOk(RemoveEdge(s, e), k)
  {
  }

  lemma AddEdgeTree(s: State, root: nat, e: nat, f: nat, t: nat, kind: u64)
    requires Tree(s, root) && e !in s.edges && f in s.nodes && t in s.nodes
    ensures Tree(AddEdge(s, e, f, t, kind), root)
  {
    hide NodeOk, EdgeOk;
    var s1 := AddEdge(s, e, f, t, kind);
    assert s1.nodes.Keys == s.nodes.Keys && s1.edges.Keys == s.edges.Keys + {e};
    hide AddEdge;
    forall x | x in s1.nodes
      ensures NodeOk(s1, root, x)
    {
      AddNodeOk(s, root, e, f, t, kind, x);
    }
    forall k | k in s1.edges
      ensures EdgeOk(s1, k)
    {
      AddEdgeOk(s, e, f, t, kind, k);
    }
  }

  lemma AddNodeOk(s: State, root: nat, e: nat, f: nat, t: nat, kind: u64, x: nat)
    requires e !in s.edges && f in s.nodes && t in s.nodes && x in s.nodes && NodeOk(s, root, x)
    ensures NodeOk(AddEdge(s, e, f, t, kind), root, x)
  {
    DistinctMore(s.nodes[x].out, e);
    DistinctMore(s.nodes[x].inn, e);
    hide Distinct;
  }

  lemma AddEdgeOk(s: State, e: nat, f: nat, t: nat, kind: u64, k: nat)
    requires e !in s.edges && f in s.nodes && t in s.nodes
    requires k == e || (k in s.edges && EdgeOk(s, k))
    ensures EdgeOk(AddEdge(s, e, f, t, kind), k)
  {
  }

  /** The graphs differ in edges from `f` and in the lists they are on. */
  ghost predicate EdgesFrom(s: State, s1: State, f: nat) {
    && s1.next == s.next && s1.nodes.Keys == s.nodes.Keys
    && (forall x :: x in s.nodes ==>
          && s1.nodes[x] == s.nodes[x].(out := s1.nodes[x].out, inn := s1.nodes[x].inn)
          && (x != f ==> s1.nodes[x].out == s.nodes[x].out))
    && (forall e :: e in s.edges && s.edges[e].from != f ==> e in s1.edges && s1.edges[e] == s.edges[e])
  }

  /** Adding or removing an edge shows only at its source. */
  lemma EdgeCarried(s: State, s1: State, root: nat, f: nat)
    requires Tree(s, root) && f in s1.nodes && EdgesFrom(s, s1, f)
    ensures forall x :: x in s1.nodes && s1.nodes[x].valid && !OnPathOf(s1, x, Some(f)) ==> Carried(s, s1, x)
  {
    hide Carried, OnPath;
    PathSelf(s1, f);
    forall x | x in s1.nodes && s1.nodes[x].valid && !OnPathOf(s1, x, Some(f))
      ensures Carried(s, s1, x)
    {
      ChildrenBound(s, root, x);
      assert NodeOk(s, root, x);
      CarriedIf(s, s1, x);
    }
  }

  lemma RemoveCarried(s: State, root: nat, e: nat)
    requires Tree(s, root) && e in s.edges && s.edges[e].from in s.nodes && s.edges[e].to in s.nodes
    ensures var f, s1 := s.edges[e].from, RemoveEdge(s, e);
            forall x :: x in s1.nodes && s1.nodes[x].valid && !OnPathOf(s1, x, Some(f)) ==> Carried(s, s1, x)
  {
    hide Carried, OnPath, Tree, Without;
    assert EdgesFrom(s, RemoveEdge(s, e), s.edges[e].from);
    hide EdgesFrom;
    EdgeCarried(s, RemoveEdge(s, e), root, s.edges[e].from);
  }

  lemma AddCarried(s: State, root: nat, e: nat, f: nat, t: nat, kind: u64)
    requires Tree(s, root) && e !in s.edges && f in s.nodes && t in s.nodes
    ensures var s1 := AddEdge(s, e, f, t, kind);
            forall x :: x in s1.nodes && s1.nodes[x].valid && !OnPathOf(s1, x, Some(f)) ==> Carried(s, s1, x)
  {
    hide Carried, OnPath, Tree;
    assert EdgesFrom(s, AddEdge(s, e, f, t, kind), f);
    hide EdgesFrom;
    EdgeCarried(s, AddEdge(s, e, f, t, kind), root, f);
  }
}
