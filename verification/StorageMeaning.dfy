module StorageMeaning {

  /** What a whole run of propagation establishes, for one block and then for every level. */

  import opened StoragePropagation
  import opened StorageConsistency
  import opened StorageRuns

  lemma InvStart(c: Code, ins: seq<Slot>, init: seq<Slot>)
    requires c.Block? && |ins| == c.nIn && |init| == c.nInit && WellFormed(c)
    ensures Inv(c, Progress(Started(c, ins, init), {}), [], c.inEdges + c.edges)
  {
    forall j | 0 <= j < |c.nodes|
      ensures Waiting(c.nodes[j], Blank(c.nodes[j]))
    {
    }
  }

  /** When filling succeeds, every edge has been processed and no node is left half known. */
  lemma FillInv(c: Code, ins: seq<Slot>, init: seq<Slot>)
    requires c.Block? && |ins| == c.nIn && |init| == c.nInit && WellFormed(c)
    requires Fill(c, Started(c, ins, init)).Some?
    ensures Inv(c, Progress(Fill(c, Started(c, ins, init)).value, {}), c.inEdges + c.edges, [])
  {
    InvStart(c, ins, init);
    var s := Progress(Started(c, ins, init), {});
    assert forall e :: e in c.inEdges ==> e in c.inEdges + c.edges;
    RunInInv(c, s, [], c.inEdges, c.edges);
    assert [] + c.inEdges == c.inEdges;
    LaterDistinct(c.inEdges, c.edges);
    RunInternalInv(c, RunIn(c, s, c.inEdges).value, c.inEdges, c.edges);
  }

  lemma LaterDistinct(xs: seq<Edge>, ys: seq<Edge>)
    requires DistinctTips(xs + ys)
    ensures DistinctTips(ys)
  {
    var all := xs + ys;
    forall i, j | 0 <= i < j < |ys|
      ensures ys[i].tip != ys[j].tip
    {
      assert all[|xs| + i].tip != all[|xs| + j].tip;
    }
  }

  /** A port no remaining out-edge flows into keeps its storage. */
  lemma {:induction false} RunOutKeeps(c: Code, p: Ports, es: seq<Edge>, e: Edge)
    requires c.Block? && RunOut(c, p, es).Some? && OutJoins(c, p, e) && e.tail.Inner?
    requires e.tip.Own? && (if c.kind == Plain then e.tip.port.Out? else e.tip.port.BodyOut?)
    requires forall d :: d in es ==> d.tip != e.tip
    ensures OutJoins(c, RunOut(c, p, es).value, e)
    decreases |es|
  {
    if es != [] {
      assert es[0] in es;
      RunOutKeeps(c, OutStep(c, p, es[0]).value, es[1..], e);
    }
  }

  lemma {:induction false} RunOutJoins(c: Code, p: Ports, es: seq<Edge>)
    requires c.Block? && RunOut(c, p, es).Some? && DistinctTips(es)
    ensures forall e :: e in es ==> OutJoins(c, RunOut(c, p, es).value, e)
    decreases |es|
  {
    if es != [] {
      var e, next := es[0], OutStep(c, p, es[0]).value;
      assert es == [e] + es[1..];
      TodoDistinct(e, es[1..]);
      RunOutJoins(c, next, es[1..]);
      RunOutKeeps(c, next, es[1..], e);
    }
  }

  /** Inside a block that has been propagated: every edge joins, and each nested node is done or
      was never reached. */
  lemma BlockSettles(c: Code, ins: seq<Slot>, init: seq<Slot>)
    requires c.Block? && |ins| == c.nIn && |init| == c.nInit && WellFormed(c)
    requires Propagate(c, Started(c, ins, init)).Some?
    ensures var q := Propagate(c, Started(c, ins, init)).value;
            && q.ins == ins && q.init == init && q.state == StateOf(init, c.nState)
            && |q.inner| == |c.nodes|
            && (forall e :: e in c.inEdges + c.edges ==> Joins(q, e))
            && (forall e :: e in c.outEdges ==> OutJoins(c, q, e))
            && forall j :: 0 <= j < |c.nodes| ==>
                 if Touched(c, j) then Done(c.nodes[j], q.inner[j])
                 else q.inner[j] == Blank(c.nodes[j])
  {
    var mid := Fill(c, Started(c, ins, init)).value;
    FillInv(c, ins, init);
    FillShell(c, Started(c, ins, init));
    RunOutInside(c, mid, c.outEdges);
    RunOutJoins(c, mid, c.outEdges);
    AllProcessed(c, mid, RunOut(c, mid, c.outEdges).value);
  }

  /** What the invariant says once no edge is left and no node partial; the out-edges that follow
      change nothing inside. */
  lemma AllProcessed(c: Code, mid: Ports, q: Ports)
    requires c.Block? && Inv(c, Progress(mid, {}), c.inEdges + c.edges, [])
    requires q.inner == mid.inner && q.ins == mid.ins && q.state == mid.state && q.bodyIn == mid.bodyIn
    ensures |q.inner| == |c.nodes| && forall e :: e in c.inEdges + c.edges ==> Joins(q, e)
    ensures forall j :: 0 <= j < |c.nodes| ==>
              if Touched(c, j) then Done(c.nodes[j], q.inner[j]) else q.inner[j] == Blank(c.nodes[j])
  {
    forall e | e in c.inEdges + c.edges
      ensures Joins(q, e)
    {
      assert Joined(c, mid, e);
    }
    forall j | 0 <= j < |c.nodes| && Touched(c, j)
      ensures Done(c.nodes[j], q.inner[j])
    {
      var e :| e in c.inEdges + c.edges && Touches(e, j);
      assert Joined(c, mid, e) && DoneAt(c, mid, e.tip.node);
    }
  }

  /** Propagation is consistent: when it returns normally on a graph in which every tip port has
      one incoming edge, all edges of the block and of every nested map and scan join equal
      storages, every operation output is its rule applied to its inputs, and states equal their
      initialisers. */
  lemma {:induction false} PropagationIsConsistent(c: Code, ins: seq<Slot>, init: seq<Slot>)
    requires WellFormed(c) && |ins| == NIn(c) && |init| == NInit(c)
    requires Propagate(c, Started(c, ins, init)).Some?
    ensures Consistent(c, Propagate(c, Started(c, ins, init)).value)
    decreases c
  {
    if c.Block? {
      BlockSettles(c, ins, init);
      var q := Propagate(c, Started(c, ins, init)).value;
      forall j | 0 <= j < |c.nodes| && Touched(c, j)
        ensures Consistent(c.nodes[j], q.inner[j])
      {
        PropagationIsConsistent(c.nodes[j], q.inner[j].ins, q.inner[j].init);
      }
    }
  }
}
