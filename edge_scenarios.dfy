/**
 * Client code that uses `GenEdge` only through its contracts, the way a
 * graph drives it: what a caller can rely on after each step.
 */
module EdgeScenarios {

  import opened Wrappers
  import opened Edge

  /** A hyperedge from `c` onto the edge `a -> b`: registering it raises the
      host's in-hyper degree to one and lists `c` among its in-hyper nodes;
      unregistering it reverts both. */
  method HyperEdgeRoundTrip(a: NodeId, b: NodeId, c: NodeId)
    returns (before: int, afterAdd: int, afterRemove: int, listedAfterAdd: bool, listedAfterRemove: bool)
    ensures before == 0 && afterAdd == 1 && afterRemove == 0
    ensures listedAfterAdd && !listedAfterRemove
  {
    var host := new GenEdge.WithDst(Some(a), Some(b));
    var hyper := new GenEdge.WithHDst(Some(c), host);
    assert hyper.GetDst() == None && hyper.GetHDst() == host;
    before := host.GetInHDegree();
    host.AddInHEdge(hyper);
    afterAdd := host.GetInHDegree();
    listedAfterAdd := Some(c) in host.GetInHNodes();
    host.RemoveInHEdge(hyper);
    afterRemove := host.GetInHDegree();
    listedAfterRemove := Some(c) in host.GetInHNodes();
  }

  /** Tearing down an edge that a graph still owns is reported; one that the
      graph detached first is torn down silently. Changing the serializable
      flag in between does not touch the back-reference. */
  method TeardownReportsOwnedEdges(g: GraphId, a: NodeId, b: NodeId)
    returns (warnedOwned: bool, warnedDetached: bool, serializable: bool)
    ensures warnedOwned && !warnedDetached && !serializable
  {
    var owned := new GenEdge.WithDst(Some(a), Some(b));
    owned.SetGraph(Some(g));
    owned.SetSerializable(false);
    serializable := owned.IsSerializable();
    warnedOwned := owned.Teardown();

    var detached := new GenEdge.WithDst(Some(a), Some(b));
    detached.SetGraph(Some(g));
    detached.SetGraph(None);
    warnedDetached := detached.Teardown();
  }
}
