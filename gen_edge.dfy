/**
 * `gtpo::GenEdge`: a directed edge of a GTpo graph, or a restricted
 * hyperedge whose destination is another edge.
 *
 * An edge is a Dafny object, and object identity stands for the identity the
 * C++ code shares through `std::weak_ptr`; a null `GenEdge?` is an empty
 * `std::weak_ptr`. Nodes and graphs are not part of this model, so they are plain
 * identities, optional where the C++ reference may be empty.
 */
module Edge {

  import opened Wrappers
  import opened Containers

  type NodeId = nat
  type GraphId = nat

  /** `static_cast<int>` of a container size on a 32-bit `int`: the size
      taken modulo 2^32 and read as a two's-complement value. */
  function SizeToInt(n: nat): (r: int)
    ensures -0x8000_0000 <= r <= 0x7fff_ffff
    ensures (n - r) % 0x1_0000_0000 == 0
    ensures n <= 0x7fff_ffff ==> r == n
  {
    var m := n % 0x1_0000_0000;
    if m <= 0x7fff_ffff then m else m - 0x1_0000_0000
  }

  /** The source node of each edge of `es`, in the same order. */
  function Sources(es: seq<GenEdge>): (r: seq<Option<NodeId>>)
    reads es`src
    ensures |r| == |es|
    ensures forall i :: 0 <= i < |es| ==> r[i] == es[i].src
  {
    if es == [] then [] else [es[0].src] + Sources(es[1..])
  }

  /** Taking sources commutes with concatenation. */
  lemma {:induction false} SourcesConcat(a: seq<GenEdge>, b: seq<GenEdge>)
    ensures Sources(a + b) == Sources(a) + Sources(b)
  {
    var l, r := Sources(a + b), Sources(a) + Sources(b);
    assert |l| == |r|;
    forall i | 0 <= i < |l| ensures l[i] == r[i] {
      if i < |a| { assert (a + b)[i] == a[i]; } else { assert (a + b)[i] == b[i - |a|]; }
    }
  }

  /** Unregistering one occurrence of `e` takes exactly one copy of its
      source out of the sources of the remaining edges. */
  lemma {:induction false} SourcesRemoveFirst(es: seq<GenEdge>, e: GenEdge)
    requires e in es
    ensures multiset(Sources(RemoveFirst(es, e))) == multiset(Sources(es)) - multiset{e.src}
  {
    var i := IndexOf(es, e);
    assert es == es[..i] + [e] + es[i + 1..];
    assert RemoveFirst(es, e) == es[..i] + es[i + 1..];
    SourcesConcat(es[..i], es[i + 1..]);
    SourcesConcat(es[..i] + [e], es[i + 1..]);
    SourcesConcat(es[..i], [e]);
    assert Sources([e]) == [e.src];
  }

  /** Appending `e` appends its source. */
  lemma {:induction false} SourcesAppend(es: seq<GenEdge>, e: GenEdge)
    ensures multiset(Sources(es + [e])) == multiset(Sources(es)) + multiset{e.src}
  {
    SourcesConcat(es, [e]);
    assert Sources([e]) == [e.src];
  }

  /** Removing `e` from the edges and its source from the nodes keeps the
      nodes equal, as a multiset, to the sources of the edges. */
  lemma RemovePreservesSources(es: seq<GenEdge>, ns: seq<Option<NodeId>>, e: GenEdge)
    requires multiset(ns) == multiset(Sources(es))
    requires e in es
    ensures e.src in ns
    ensures multiset(RemoveFirst(ns, e.src)) == multiset(Sources(RemoveFirst(es, e)))
  {
    var i := IndexOf(es, e);
    assert Sources(es)[i] == e.src;
    assert e.src in multiset(ns);
    SourcesRemoveFirst(es, e);
  }

  class GenEdge {
    /** `_graph`: the owning graph, null (None) until the graph sets it. */
    var graph: Option<GraphId>
    /** `_serializable`: persistence metadata, true by default. */
    var serializable: bool
    /** `_src` and `_dst`: the endpoints of an ordinary edge. */
    var src: Option<NodeId>
    var dst: Option<NodeId>
    /** `_hDst`: the destination edge of a restricted hyperedge. */
    var hDst: GenEdge?
    /** `_inHEdges`: the hyperedges that have this edge as destination. */
    var inHEdges: seq<GenEdge>
    /** `_inHNodes`: the source nodes of those hyperedges. */
    var inHNodes: seq<Option<NodeId>>

    /** The documented relation between the two hyperedge containers:
        `inHNodes` holds the source node of every edge of `inHEdges`, once
        per registration. */
    ghost predicate InHNodesAreSources()
      reads this`inHEdges, this`inHNodes, inHEdges`src
    {
      multiset(inHNodes) == multiset(Sources(inHEdges))
    }

    /** `GenEdge()`: no endpoints, serializable, not owned by any graph. */
    constructor ()
      ensures GetSrc() == None && GetDst() == None && GetHDst() == null
      ensures GetInHEdges() == [] && GetInHNodes() == []
      ensures GetSerializable() && IsSerializable() && GetGraph() == None
      ensures InHNodesAreSources()
    {
      graph := None;
      serializable := true;
      src, dst, hDst := None, None, null;
      inHEdges, inHNodes := [], [];
    }

    /** `GenEdge(src, dst)`: an ordinary edge; no destination edge. */
    constructor WithDst(src: Option<NodeId>, dst: Option<NodeId>)
      ensures GetSrc() == src && GetDst() == dst && GetHDst() == null
      ensures GetInHEdges() == [] && GetInHNodes() == []
      ensures GetSerializable() && IsSerializable() && GetGraph() == None
      ensures InHNodesAreSources()
    {
      graph := None;
      serializable := true;
      this.src, this.dst, hDst := src, dst, null;
      inHEdges, inHNodes := [], [];
    }

    /** `GenEdge(src, hDst)`: a restricted hyperedge; no destination node. */
    constructor WithHDst(src: Option<NodeId>, hDst: GenEdge?)
      ensures GetSrc() == src && GetDst() == None && GetHDst() == hDst
      ensures GetInHEdges() == [] && GetInHNodes() == []
      ensures GetSerializable() && IsSerializable() && GetGraph() == None
      ensures InHNodesAreSources()
    {
      graph := None;
      serializable := true;
      this.src, dst, this.hDst := src, None, hDst;
      inHEdges, inHNodes := [], [];
    }

    /** The destructor's check: it warns exactly when the edge is still
        owned by a graph, and clears the back-reference in every case. */
    method Teardown() returns (warned: bool)
      modifies this`graph
      ensures warned <==> old(GetGraph()).Some?
      ensures GetGraph() == None
    {
      warned := graph != None;
      graph := None;
    }

    function GetGraph(): Option<GraphId>
      reads this
    {
      graph
    }

    /** The only method besides `Teardown` whose frame includes `graph`; the
        frame leaves every other field as it was. */
    method SetGraph(g: Option<GraphId>)
      modifies this`graph
      ensures GetGraph() == g
    {
      graph := g;
    }

    function GetSerializable(): bool
      reads this
    {
      serializable
    }

    /** Defined as `GetSerializable()`; the constructors and `SetSerializable`
        state the value both return. */
    function IsSerializable(): bool
      reads this
    {
      GetSerializable()
    }

    /** Changes the flag and nothing else (so nothing a graph could be
        notified of). */
    method SetSerializable(b: bool)
      modifies this`serializable
      ensures GetSerializable() == b && IsSerializable() == b
    {
      serializable := b;
    }

    function GetSrc(): Option<NodeId>
      reads this
    {
      src
    }

    function GetDst(): Option<NodeId>
      reads this
    {
      dst
    }

    /** Stores `n` as the source without re-validating it; no other field
        changes. */
    method SetSrc(n: Option<NodeId>)
      modifies this`src
      ensures GetSrc() == n
    {
      src := n;
    }

    /** Stores `n` as the destination node; no other field changes. */
    method SetDst(n: Option<NodeId>)
      modifies this`dst
      ensures GetDst() == n
    {
      dst := n;
    }

    function GetHDst(): GenEdge?
      reads this
    {
      hDst
    }

    /** Stores `e` as the destination edge; no other field changes. */
    method SetHDst(e: GenEdge?)
      modifies this`hDst
      ensures GetHDst() == e
    {
      hDst := e;
    }

    function GetInHEdges(): seq<GenEdge>
      reads this
    {
      inHEdges
    }

    function GetInHNodes(): seq<Option<NodeId>>
      reads this
    {
      inHNodes
    }

    /** The number of in-hyperedges, as a C++ `int`. */
    function GetInHDegree(): (d: int)
      reads this
      ensures -0x8000_0000 <= d <= 0x7fff_ffff
      ensures |GetInHEdges()| <= 0x7fff_ffff ==> 0 <= d && d == |GetInHEdges()|
    {
      SizeToInt(|inHEdges|)
    }

    /** Registers `inHEdge` as a hyperedge targeting this edge and records its
        source node. */
    method AddInHEdge(inHEdge: GenEdge)
      modifies this`inHEdges, this`inHNodes
      ensures GetInHEdges() == old(GetInHEdges()) + [inHEdge]
      ensures GetInHNodes() == old(GetInHNodes()) + [inHEdge.src]
      ensures inHEdge in GetInHEdges() && inHEdge.GetSrc() in GetInHNodes()
      ensures |old(GetInHEdges())| < 0x7fff_ffff ==> GetInHDegree() == old(GetInHDegree()) + 1
      ensures old(InHNodesAreSources()) ==> InHNodesAreSources()
    {
      ghost var edges, nodes := inHEdges, inHNodes;
      inHEdges := inHEdges + [inHEdge];
      inHNodes := inHNodes + [inHEdge.src];
      assert old(InHNodesAreSources()) ==> InHNodesAreSources() by {
        if old(InHNodesAreSources()) {
          assert Sources(edges) == old(Sources(inHEdges));
          SourcesAppend(edges, inHEdge);
        }
      }
    }

    /** Unregisters one occurrence of `inHEdge` and one occurrence of its
        source node; an edge that is not registered leaves both containers
        as they were. */
    method RemoveInHEdge(inHEdge: GenEdge)
      modifies this`inHEdges, this`inHNodes
      ensures GetInHEdges() == RemoveFirst(old(GetInHEdges()), inHEdge)
      ensures inHEdge in old(GetInHEdges()) ==> GetInHNodes() == RemoveFirst(old(GetInHNodes()), inHEdge.GetSrc())
      ensures inHEdge !in old(GetInHEdges()) ==> GetInHNodes() == old(GetInHNodes())
      ensures inHEdge in old(GetInHEdges()) && |old(GetInHEdges())| <= 0x7fff_ffff ==>
        GetInHDegree() == old(GetInHDegree()) - 1
      ensures old(InHNodesAreSources()) ==> InHNodesAreSources()
    {
      if inHEdge in inHEdges {
        ghost var edges, nodes := inHEdges, inHNodes;
        inHEdges := RemoveFirst(inHEdges, inHEdge);
        inHNodes := RemoveFirst(inHNodes, inHEdge.src);
        assert old(InHNodesAreSources()) ==> InHNodesAreSources() by {
          if old(InHNodesAreSources()) {
            assert Sources(edges) == old(Sources(inHEdges));
            RemovePreservesSources(edges, nodes, inHEdge);
          }
        }
      }
    }
  }

  /** Read as a set, the invariant says what the documentation says: a node
      is an in-hyper node exactly when it is the source of an in-hyperedge. */
  lemma InHNodesAreSourcesMembership(h: GenEdge, n: Option<NodeId>)
    requires h.InHNodesAreSources()
    ensures n in h.GetInHNodes() <==> exists e :: e in h.GetInHEdges() && e.src == n
  {
    var s := Sources(h.inHEdges);
    assert n in h.inHNodes <==> n in multiset(s);
    if n in s {
      var i :| 0 <= i < |s| && s[i] == n;
      assert h.inHEdges[i] in h.inHEdges;
    }
  }

  /** The degree is a C++ `int`: an edge with 2^31 in-hyperedges reports a
      negative degree. */
  lemma InHDegreeWrapsAtIntMax(h: GenEdge)
    requires |h.GetInHEdges()| == 0x8000_0000
    ensures h.GetInHDegree() == -0x8000_0000
  {
  }
}
