module StorageSuccess {

  /** Which orders of the edges propagation accepts. The loops run over the edges as they are kept,
      tail by tail in the order in which the tails were first used, and do not sort them. On a graph
      that some order propagates, exactly those orders do in which, at every level that is reached,
      an edge out of a nested node comes after all edges into that node. */

  import opened Common
  import opened StoragePropagation
  import opened StorageConsistency
  import opened StorageRuns
  import opened StorageMeaning
  import opened StorageOrder

  predicate FlowsInto(e: Edge, k: nat) {
    e.tip.Inner? && e.tip.node == k
  }

  /** Neither an edge out of a nested node nor any edge after it flows into that node. */
  predicate InputsFirst(es: seq<Edge>) {
    forall i, j :: 0 <= i <= j < |es| && es[i].tail.Inner? ==> !FlowsInto(es[j], es[i].tail.node)
  }

  /** In-edges always come before internal ones, so only these have to be in order. */
  predicate Orderly(c: Code)
    decreases c
  {
    c.Block? ==>
      && InputsFirst(c.edges)
      && forall j :: 0 <= j < |c.nodes| && Touched(c, j) ==> Orderly(c.nodes[j])
  }

  // ---------------------------------------------------------------- success needs the order

  lemma ReadNeedsInputs(c: Code, p: Ports, tail: End)
    requires c.Block? && ReadTail(c, p, tail).Some? && tail.Inner?
    ensures tail.port.Out? && tail.node < |c.nodes| && tail.node < |p.inner|
    ensures Inferred(p.inner[tail.node]) && tail.port.i < |p.inner[tail.node].outs|
  {
  }

  /** All inputs of the node are known, so none of them is still to be stored. */
  lemma NoneIntoInferred(c: Code, s: Progress, done: seq<Edge>, todo: seq<Edge>, end: Ports, k: nat)
    requires c.Block? && Inv(c, s, done, todo) && k < |c.nodes| && Inferred(s.ports.inner[k])
    requires NodesOk(c, end) && forall x :: x in todo ==> EndSlot(end, x.tip).Some?
    ensures forall x :: x in todo ==> !FlowsInto(x, k)
  {
    assert NodeOk(c.nodes[k], s.ports.inner[k]) && NodeOk(c.nodes[k], end.inner[k]);
    forall x | x in todo
      ensures !FlowsInto(x, k)
    {
      assert Fills(x) && EndSlot(s.ports, x.tip) == None && EndSlot(end, x.tip).Some?;
    }
  }

  lemma FirstThenRest(e: Edge, todo: seq<Edge>)
    requires InputsFirst(todo)
    requires e.tail.Inner? ==> forall x :: x in [e] + todo ==> !FlowsInto(x, e.tail.node)
    ensures InputsFirst([e] + todo)
  {
    var es := [e] + todo;
    forall i, j | 0 <= i <= j < |es| && es[i].tail.Inner?
      ensures !FlowsInto(es[j], es[i].tail.node)
    {
      assert es[j] in es;
      if i > 0 {
        assert es[i] == todo[i - 1] && es[j] == todo[j - 1];
      }
    }
  }

  lemma {:induction false} RunReadsKnown(c: Code, s: Progress, done: seq<Edge>, es: seq<Edge>, end: Ports)
    requires c.Block? && Inv(c, s, done, es) && DistinctTips(es) && RunInternal(c, s, es).Some?
    requires NodesOk(c, end) && forall x :: x in es ==> EndSlot(end, x.tip).Some?
    ensures InputsFirst(es)
    decreases |es|
  {
    if es != [] {
      var e, todo := es[0], es[1..];
      HeadOf(done, es);
      if e.tail.Inner? {
        ReadNeedsInputs(c, s.ports, e.tail);
        NoneIntoInferred(c, s, done, es, end, e.tail.node);
      }
      OneInternal(c, s, done, e, todo);
      RunReadsKnown(c, InternalStep(c, s, e).value, done + [e], todo, end);
      FirstThenRest(e, todo);
    }
  }

  /** The state between the two loops of a run that returns normally. */
  lemma BetweenLoops(c: Code, ins: seq<Slot>, init: seq<Slot>)
    requires c.Block? && WellFormed(c) && |ins| == c.nIn && |init| == c.nInit
    requires Propagate(c, Started(c, ins, init)).Some?
    ensures var s := Progress(Started(c, ins, init), {});
            && Inv(c, s, [], c.inEdges + c.edges) && RunIn(c, s, c.inEdges).Some?
            && Inv(c, RunIn(c, s, c.inEdges).value, c.inEdges, c.edges) && DistinctTips(c.edges)
            && RunInternal(c, RunIn(c, s, c.inEdges).value, c.edges).Some?
            && SameShell(s.ports, RunIn(c, s, c.inEdges).value.ports)
    ensures c.kind == Plain ==> forall e :: e in c.inEdges ==> e.tip.port.In?
  {
    var s := Progress(Started(c, ins, init), {});
    InvStart(c, ins, init);
    assert Fill(c, s.ports).Some?;
    assert forall e :: e in c.inEdges ==> e in c.inEdges + c.edges;
    RunInInv(c, s, [], c.inEdges, c.edges);
    assert [] + c.inEdges == c.inEdges;
    RunInShell(c, s, c.inEdges);
    LaterDistinct(c.inEdges, c.edges);
  }

  lemma {:induction false} SuccessIsOrderly(c: Code, ins: seq<Slot>, init: seq<Slot>)
    requires WellFormed(c) && |ins| == NIn(c) && |init| == NInit(c)
    requires Propagate(c, Started(c, ins, init)).Some?
    ensures Orderly(c)
    decreases c
  {
    if c.Block? {
      BlockIsOrdered(c, ins, init);
      BlockSettles(c, ins, init);
      var end := Propagate(c, Started(c, ins, init)).value;
      forall j | 0 <= j < |c.nodes| && Touched(c, j)
        ensures Orderly(c.nodes[j])
      {
        SuccessIsOrderly(c.nodes[j], end.inner[j].ins, end.inner[j].init);
      }
    }
  }

  lemma BlockIsOrdered(c: Code, ins: seq<Slot>, init: seq<Slot>)
    requires c.Block? && WellFormed(c) && |ins| == c.nIn && |init| == c.nInit
    requires Propagate(c, Started(c, ins, init)).Some?
    ensures InputsFirst(c.edges)
  {
    var end := Propagate(c, Started(c, ins, init)).value;
    BlockSettles(c, ins, init);
    BetweenLoops(c, ins, init);
    assert forall e :: e in c.edges ==> e in c.inEdges + c.edges && Joins(end, e);
    RunReadsKnown(c, RunIn(c, Progress(Started(c, ins, init), {}), c.inEdges).value, c.inEdges, c.edges, end);
  }

  // ---------------------------------------------------------------- what a finished run leaves behind

  /** The tip is an input port the node has, or a state-init port with a state to go with it. */
  predicate TipFits(c: Code, e: Edge)
    requires c.Block?
  {
    && e.tip.Inner? && e.tip.node < |c.nodes| && Nestable(c.nodes[e.tip.node])
    && match e.tip.port
       case In(i) => i < NIn(c.nodes[e.tip.node])
       case Init(i) => i < NInit(c.nodes[e.tip.node]) && i < NState(c.nodes[e.tip.node])
       case _ => false
  }

  predicate InFits(c: Code, p: Ports, e: Edge)
    requires c.Block?
  {
    e.tail.Own? && OwnTail(c, p, e.tail.port).Some? && TipFits(c, e)
  }

  predicate InternalFits(c: Code, p: Ports, e: Edge)
    requires c.Block?
  {
    TipFits(c, e) && match e.tail
      case Own(In(i)) => Read(p.ins, i).Some?
      case Own(State(i)) => Read(p.state, i).Some?
      case Inner(k, Out(_)) => k < |c.nodes| && Nestable(c.nodes[k])
      case _ => false
  }

  lemma NodeSizes(c: Code, p: Ports)
    requires NodeOk(c, p)
    ensures |p.state| == NState(c) && |p.outs| == c.nOut
  {
    if Done(c, p) {
      PropagateKeepsInputs(c, Started(c, p.ins, p.init));
    }
  }

  lemma InStepFits(c: Code, s: Progress, e: Edge)
    requires c.Block? && NodesOk(c, s.ports) && Fills(e) && InStep(c, s, e).Some?
    requires c.kind == Plain ==> e.tip.port.In?
    ensures InFits(c, s.ports, e)
  {
    assert NodeOk(c.nodes[e.tip.node], s.ports.inner[e.tip.node]);
    NodeSizes(c.nodes[e.tip.node], s.ports.inner[e.tip.node]);
  }

  lemma InternalStepFits(c: Code, s: Progress, e: Edge)
    requires c.Block? && NodesOk(c, s.ports) && BodyInOk(c, s.ports) && Fills(e)
    requires InternalStep(c, s, e).Some?
    ensures InternalFits(c, s.ports, e)
  {
    ReadEffect(c, s.ports, e);
    var p := ReadTail(c, s.ports, e.tail).value.0;
    assert NodeOk(c.nodes[e.tip.node], p.inner[e.tip.node]);
    NodeSizes(c.nodes[e.tip.node], p.inner[e.tip.node]);
  }

  lemma FitsBefore(c: Code, p: Ports, q: Ports, es: seq<Edge>)
    requires c.Block? && SameShell(p, q) && es != []
    ensures InFits(c, p, es[0]) && (forall e :: e in es[1..] ==> InFits(c, q, e)) ==>
              forall e :: e in es ==> InFits(c, p, e)
    ensures InternalFits(c, p, es[0]) && (forall e :: e in es[1..] ==> InternalFits(c, q, e)) ==>
              forall e :: e in es ==> InternalFits(c, p, e)
  {
    assert es == [es[0]] + es[1..];
    assert forall e :: InFits(c, q, e) ==> InFits(c, p, e);
    assert forall e :: InternalFits(c, q, e) ==> InternalFits(c, p, e);
  }

  lemma {:induction false} RunInFits(c: Code, s: Progress, done: seq<Edge>, es: seq<Edge>, rest: seq<Edge>)
    requires c.Block? && Inv(c, s, done, es + rest) && DistinctTips(es + rest) && RunIn(c, s, es).Some?
    requires c.kind == Plain ==> forall e :: e in es ==> e.tip.port.In?
    ensures forall e :: e in es ==> InFits(c, s.ports, e)
    decreases |es|
  {
    if es != [] {
      var next := InStep(c, s, es[0]).value;
      FirstOf(done, es, rest);
      OneIn(c, s, done, es[0], es[1..] + rest);
      assert es[0] in es + rest && Fills(es[0]);
      InStepFits(c, s, es[0]);
      InShell(c, s, es[0]);
      RunInFits(c, next, done + [es[0]], es[1..], rest);
      FitsBefore(c, s.ports, next.ports, es);
    }
  }

  lemma {:induction false} RunInternalFits(c: Code, s: Progress, done: seq<Edge>, es: seq<Edge>)
    requires c.Block? && Inv(c, s, done, es) && DistinctTips(es) && RunInternal(c, s, es).Some?
    ensures forall e :: e in es ==> InternalFits(c, s.ports, e)
    decreases |es|
  {
    if es != [] {
      var next := InternalStep(c, s, es[0]).value;
      HeadOf(done, es);
      OneInternal(c, s, done, es[0], es[1..]);
      assert es[0] in es && Fills(es[0]);
      InternalStepFits(c, s, es[0]);
      InternalShell(c, s, es[0]);
      RunInternalFits(c, next, done + [es[0]], es[1..]);
      FitsBefore(c, s.ports, next.ports, es);
    }
  }

  /** An input of a nested node. */
  predicate IsInput(x: End) {
    x.Inner? && (x.port.In? || x.port.Init?)
  }

  predicate Fed(es: seq<Edge>, x: End) {
    exists e :: e in es && e.tip == x
  }

  lemma {:induction false} RunInFeeds(c: Code, s: Progress, done: seq<Edge>, es: seq<Edge>,
                                      rest: seq<Edge>, x: End)
    requires c.Block? && Inv(c, s, done, es + rest) && DistinctTips(es + rest) && RunIn(c, s, es).Some?
    requires c.kind == Plain ==> forall e :: e in es ==> e.tip.port.In?
    requires IsInput(x) && !Fed(es, x)
    ensures EndSlot(RunIn(c, s, es).value.ports, x) == EndSlot(s.ports, x)
    decreases |es|
  {
    if es != [] {
      FirstOf(done, es, rest);
      assert es[0] in es && forall e :: e in es[1..] ==> e in es;
      InvIn(c, s, done, es[0], es[1..] + rest);
      RunInFeeds(c, InStep(c, s, es[0]).value, done + [es[0]], es[1..], rest, x);
    }
  }

  lemma {:induction false} RunInternalFeeds(c: Code, s: Progress, done: seq<Edge>, es: seq<Edge>, x: End)
    requires c.Block? && Inv(c, s, done, es) && DistinctTips(es) && RunInternal(c, s, es).Some?
    requires IsInput(x) && !Fed(es, x)
    ensures EndSlot(RunInternal(c, s, es).value.ports, x) == EndSlot(s.ports, x)
    decreases |es|
  {
    if es != [] {
      HeadOf(done, es);
      assert es[0] in es && forall e :: e in es[1..] ==> e in es;
      InvInternal(c, s, done, es[0], es[1..]);
      RunInternalFeeds(c, InternalStep(c, s, es[0]).value, done + [es[0]], es[1..], x);
    }
  }

  /** Nested nodes as a run that returned normally leaves them: the edges join, nodes they reach are
      done, no input is known without an edge into it, and every edge end exists. */
  ghost predicate Settled(c: Code, end: Ports)
    requires c.Block?
  {
    && |end.inner| == |c.nodes|
    && (forall e :: e in c.inEdges + c.edges ==> Joins(end, e))
    && (forall j :: 0 <= j < |c.nodes| ==>
          if Touched(c, j) then Done(c.nodes[j], end.inner[j]) else end.inner[j] == Blank(c.nodes[j]))
    && (forall x :: IsInput(x) && EndSlot(end, x).Some? ==> Fed(c.inEdges + c.edges, x))
    && (forall e :: e in c.inEdges ==> InFits(c, end, e))
    && forall e :: e in c.edges ==> InternalFits(c, end, e)
  }

  lemma RanFits(c: Code, ins: seq<Slot>, init: seq<Slot>, end: Ports)
    requires c.Block? && Ran(c, ins, init, end)
    ensures forall e :: e in c.inEdges ==> InFits(c, end, e)
    ensures forall e :: e in c.edges ==> InternalFits(c, end, e)
  {
    var s := Progress(Started(c, ins, init), {});
    BetweenLoops(c, ins, init);
    RunInFits(c, s, [], c.inEdges, c.edges);
    RunInternalFits(c, RunIn(c, s, c.inEdges).value, c.inEdges, c.edges);
    ShellOutcome(c, ins, init, end);
    FitsElsewhere(c, s.ports, end);
    FitsElsewhere(c, RunIn(c, s, c.inEdges).value.ports, end);
  }

  /** Only the ports of the block itself matter. */
  lemma FitsElsewhere(c: Code, p: Ports, q: Ports)
    requires c.Block? && q.ins == p.ins && q.state == p.state
    ensures forall e :: InFits(c, p, e) ==> InFits(c, q, e)
    ensures forall e :: InternalFits(c, p, e) ==> InternalFits(c, q, e)
  {
  }

  lemma RanFeeds(c: Code, ins: seq<Slot>, init: seq<Slot>, end: Ports, x: End)
    requires c.Block? && Ran(c, ins, init, end) && IsInput(x) && EndSlot(end, x).Some?
    ensures Fed(c.inEdges + c.edges, x)
  {
    if !Fed(c.inEdges + c.edges, x) {
      var s := Progress(Started(c, ins, init), {});
      var all := c.inEdges + c.edges;
      assert forall e :: e in c.inEdges || e in c.edges ==> e in all;
      BetweenLoops(c, ins, init);
      RunInFeeds(c, s, [], c.inEdges, c.edges, x);
      RunInternalFeeds(c, RunIn(c, s, c.inEdges).value, c.inEdges, c.edges, x);
      FilledThenOut(c, ins, init, end);
      RunOutInside(c, Fill(c, s.ports).value, c.outEdges);
      StartsUnknown(c, ins, init, x);
      assert false;
    }
  }

  lemma StartsUnknown(c: Code, ins: seq<Slot>, init: seq<Slot>, x: End)
    requires c.Block? && IsInput(x)
    ensures EndSlot(Started(c, ins, init), x) == None
  {
  }

  lemma RanSettles(c: Code, ins: seq<Slot>, init: seq<Slot>, end: Ports)
    requires c.Block? && Ran(c, ins, init, end)
    ensures Settled(c, end)
  {
    BlockSettles(c, ins, init);
    RanFits(c, ins, init, end);
    forall x | IsInput(x) && EndSlot(end, x).Some?
      ensures Fed(c.inEdges + c.edges, x)
    {
      RanFeeds(c, ins, init, end, x);
    }
  }

  // ---------------------------------------------------------------- the order suffices

  lemma {:induction false} ReorderedSelf(c: Code)
    ensures Reordered(c, c)
    decreases c
  {
    if c.Block? {
      forall j | 0 <= j < |c.nodes|
        ensures Reordered(c.nodes[j], c.nodes[j])
      {
        ReorderedSelf(c.nodes[j]);
      }
    }
  }

  /** A run on the way to `end`. */
  ghost predicate OnTrack(c: Code, s: Progress, done: seq<Edge>, todo: seq<Edge>, end: Ports)
    requires c.Block?
  {
    && Inv(c, s, done, todo) && Agrees(s.ports, end)
    && s.ports.ins == end.ins && s.ports.state == end.state
    && (forall e :: e in c.inEdges + c.edges ==> e in done || e in todo)
    && forall j :: j in s.partial ==>
         j < |c.nodes| && Touched(c, j) && !Inferred(s.ports.inner[j])
  }

  /** An input of node k that is known at the end is known once no edge into k is left. */
  lemma KnownInput(c: Code, s: Progress, done: seq<Edge>, todo: seq<Edge>, end: Ports, k: nat, r: PortRef)
    requires c.Block? && Settled(c, end) && OnTrack(c, s, done, todo, end) && k < |c.nodes|
    requires forall e :: e in todo ==> !FlowsInto(e, k)
    requires (r.In? || r.Init?) && PortSlot(end.inner[k], r).Some?
    ensures PortSlot(s.ports.inner[k], r) == PortSlot(end.inner[k], r)
  {
    var x := Inner(k, r);
    assert IsInput(x) && EndSlot(end, x).Some?;
    var e :| e in c.inEdges + c.edges && e.tip == x;
    assert e in done && Joined(c, s.ports, e);
    assert EndSlot(s.ports, x).Some?;
  }

  lemma KnownInputs(c: Code, s: Progress, done: seq<Edge>, todo: seq<Edge>, end: Ports, k: nat)
    requires c.Block? && Settled(c, end) && OnTrack(c, s, done, todo, end)
    requires k < |c.nodes| && Touched(c, k) && forall e :: e in todo ==> !FlowsInto(e, k)
    ensures s.ports.inner[k].ins == end.inner[k].ins && s.ports.inner[k].init == end.inner[k].init
    ensures Inferred(s.ports.inner[k])
  {
    assert NodeOk(c.nodes[k], s.ports.inner[k]) && Done(c.nodes[k], end.inner[k]);
    forall r: PortRef | (r.In? || r.Init?) && PortSlot(end.inner[k], r).Some?
      ensures PortSlot(s.ports.inner[k], r) == PortSlot(end.inner[k], r)
    {
      KnownInput(c, s, done, todo, end, k, r);
    }
    SameInputs(s.ports.inner[k], end.inner[k]);
  }

  /** Reading the output of a node all of whose inputs are known. */
  lemma WakeSucceeds(c: Code, p: Ports, end: Ports, k: nat, i: nat)
    requires c.Block? && NodesOk(c, p) && k < |c.nodes| && k < |end.inner| && Nestable(c.nodes[k])
    requires Done(c.nodes[k], end.inner[k]) && Inferred(p.inner[k])
    requires p.inner[k].ins == end.inner[k].ins && p.inner[k].init == end.inner[k].init
    requires Read(end.inner[k].outs, i).Some?
    ensures ReadTail(c, p, Inner(k, Out(i))).Some?
    ensures ReadTail(c, p, Inner(k, Out(i))).value.1 == end.inner[k].outs[i].value
  {
    assert NodeOk(c.nodes[k], p.inner[k]);
    NodeSizes(c.nodes[k], p.inner[k]);
    NodeSizes(c.nodes[k], end.inner[k]);
    if Done(c.nodes[k], p.inner[k]) {
      assert p.inner[k] == end.inner[k];
    } else {
      assert p.inner[k].outs[i] == None;
      assert Propagate(c.nodes[k], p.inner[k]) == Some(end.inner[k]);
    }
  }

  lemma ReadSucceeds(c: Code, s: Progress, done: seq<Edge>, e: Edge, todo: seq<Edge>, end: Ports)
    requires c.Block? && Settled(c, end) && OnTrack(c, s, done, [e] + todo, end) && e in c.edges
    requires e.tail.Inner? ==> forall x :: x in [e] + todo ==> !FlowsInto(x, e.tail.node)
    ensures ReadTail(c, s.ports, e.tail).Some?
    ensures EndSlot(end, e.tip) == Some(ReadTail(c, s.ports, e.tail).value.1)
  {
    assert e in c.inEdges + c.edges && InternalFits(c, end, e) && Joins(end, e);
    if e.tail.Inner? {
      var k := e.tail.node;
      assert Touches(e, k) && Touched(c, k);
      KnownInputs(c, s, done, [e] + todo, end, k);
      WakeSucceeds(c, s.ports, end, k, e.tail.port.i);
    }
  }

  /** A node whose last input arrives holds the inputs it has at the end. */
  lemma LastInput(p: Ports, q: Ports, r: PortRef, end: Ports)
    requires |q.ins| == |end.ins| && |q.init| == |end.init| && Inferred(q)
    requires PortSlot(q, r) == PortSlot(end, r)
    requires forall x: PortRef :: (x.In? || x.Init?) && x != r ==> PortSlot(q, x) == PortSlot(p, x)
    requires forall x: PortRef :: (x.In? || x.Init?) && PortSlot(p, x).Some? ==>
               PortSlot(p, x) == PortSlot(end, x)
    ensures q.ins == end.ins && q.init == end.init
  {
    SameInputs(end, q);
  }

  lemma TipWaits(c: Code, p: Ports, e: Edge, v: Storage)
    requires c.Block? && NodesOk(c, p) && TipFits(c, e) && EndSlot(p, e.tip) == None
    ensures Waiting(c.nodes[e.tip.node], p.inner[e.tip.node])
    ensures WriteTip(p.inner[e.tip.node], e.tip.port, v).Some?
  {
    assert NodeOk(c.nodes[e.tip.node], p.inner[e.tip.node]);
    NodeSizes(c.nodes[e.tip.node], p.inner[e.tip.node]);
  }

  lemma NodeAgrees(p: Ports, end: Ports, k: nat)
    requires Agrees(p, end) && k < |p.inner|
    ensures forall x: PortRef :: (x.In? || x.Init?) && PortSlot(p.inner[k], x).Some? ==>
              PortSlot(p.inner[k], x) == PortSlot(end.inner[k], x)
  {
    forall x: PortRef | (x.In? || x.Init?) && PortSlot(p.inner[k], x).Some?
      ensures PortSlot(p.inner[k], x) == PortSlot(end.inner[k], x)
    {
      assert EndSlot(p, Inner(k, x)) == EndSlot(end, Inner(k, x));
    }
  }

  lemma VisitSucceeds(c: Code, s: Progress, e: Edge, v: Storage, end: Ports)
    requires c.Block? && NodesOk(c, s.ports) && TipFits(c, e) && EndSlot(s.ports, e.tip) == None
    requires |end.inner| == |c.nodes| && Done(c.nodes[e.tip.node], end.inner[e.tip.node])
    requires Agrees(s.ports, end) && EndSlot(end, e.tip) == Some(v)
    ensures WriteTip(s.ports.inner[e.tip.node], e.tip.port, v).Some?
    ensures Visit(c, s, e.tip.node, WriteTip(s.ports.inner[e.tip.node], e.tip.port, v).value).Some?
  {
    var j := e.tip.node;
    var p := s.ports.inner[j];
    TipWaits(c, s.ports, e, v);
    var q := WriteTip(p, e.tip.port, v).value;
    WaitingAfterWrite(c.nodes[j], p, e.tip.port, v);
    if Inferred(q) {
      NodeAgrees(s.ports, end, j);
      LastInput(p, q, e.tip.port, end.inner[j]);
      assert Propagate(c.nodes[j], q) == Some(end.inner[j]);
    }
  }

  lemma StillAgrees(p: Ports, q: Ports, end: Ports)
    requires Agrees(p, end) && |q.inner| == |p.inner|
    requires forall x: End :: x.Inner? && (x.port.In? || x.port.Init?) ==> EndSlot(q, x) == EndSlot(p, x)
    ensures Agrees(q, end)
  {
  }

  /** The storage an in-edge carries is the one its tip has at the end. */
  lemma CarriesFinal(c: Code, p: Ports, e: Edge, end: Ports)
    requires c.Block? && InFits(c, end, e) && Joins(end, e) && p.ins == end.ins && p.state == end.state
    ensures OwnTail(c, p, e.tail.port).Some? && OwnTail(c, p, e.tail.port) == EndSlot(end, e.tip)
  {
  }

  lemma InSucceeds(c: Code, s: Progress, done: seq<Edge>, e: Edge, todo: seq<Edge>, end: Ports)
    requires c.Block? && Settled(c, end) && OnTrack(c, s, done, [e] + todo, end) && e in c.inEdges
    requires c.kind == Plain ==> e.tip.port.In?
    ensures InStep(c, s, e).Some?
  {
    assert e in [e] + todo && e in c.inEdges + c.edges && Joins(end, e) && InFits(c, end, e);
    assert Touches(e, e.tip.node) && Touched(c, e.tip.node);
    CarriesFinal(c, s.ports, e, end);
    var v := OwnTail(c, s.ports, e.tail.port).value;
    InVisits(c, s, e, v, end);
  }

  lemma InVisits(c: Code, s: Progress, e: Edge, v: Storage, end: Ports)
    requires c.Block? && NodesOk(c, s.ports) && BodyInOk(c, s.ports) && InFits(c, end, e)
    requires EndSlot(s.ports, e.tip) == None && OwnTail(c, s.ports, e.tail.port) == Some(v)
    requires |end.inner| == |c.nodes| && Done(c.nodes[e.tip.node], end.inner[e.tip.node])
    requires Agrees(s.ports, end) && EndSlot(end, e.tip) == Some(v)
    requires c.kind == Plain ==> e.tip.port.In?
    ensures InStep(c, s, e).Some?
  {
    var noted := s.(ports := NoteBodyIn(s.ports, e.tail.port, v));
    assert noted.ports.inner == s.ports.inner;
    StillAgrees(s.ports, noted.ports, end);
    VisitSucceeds(c, noted, e, v, end);
  }

  lemma InternalSucceeds(c: Code, s: Progress, done: seq<Edge>, e: Edge, todo: seq<Edge>, end: Ports)
    requires c.Block? && Settled(c, end) && OnTrack(c, s, done, [e] + todo, end) && e in c.edges
    requires e.tail.Inner? ==> forall x :: x in [e] + todo ==> !FlowsInto(x, e.tail.node)
    ensures InternalStep(c, s, e).Some?
  {
    assert e in [e] + todo && e in c.inEdges + c.edges && InternalFits(c, end, e);
    assert Touches(e, e.tip.node) && Touched(c, e.tip.node);
    ReadSucceeds(c, s, done, e, todo, end);
    var (p, v) := ReadTail(c, s.ports, e.tail).value;
    ReadEffect(c, s.ports, e);
    StillAgrees(s.ports, p, end);
    VisitSucceeds(c, s.(ports := p), e, v, end);
  }

  // ---------------------------------------------------------------- staying on the way

  /** A node is partial after a visit only if it was or is the one visited, and lacks an input. */
  lemma VisitPartial(c: Code, s: Progress, j: nat, q: Ports)
    requires c.Block? && j < |c.nodes| && j < |s.ports.inner| && Visit(c, s, j, q).Some?
    requires forall k :: k in s.partial ==> k < |s.ports.inner| && !Inferred(s.ports.inner[k])
    ensures var t := Visit(c, s, j, q).value;
            && |t.ports.inner| == |s.ports.inner|
            && forall k :: k in t.partial ==>
                 (k in s.partial || k == j) && k < |t.ports.inner| && !Inferred(t.ports.inner[k])
  {
    VisitStores(c, s, j, q);
  }

  lemma InPartial(c: Code, s: Progress, e: Edge)
    requires c.Block? && InStep(c, s, e).Some?
    requires forall k :: k in s.partial ==> k < |s.ports.inner| && !Inferred(s.ports.inner[k])
    ensures var t := InStep(c, s, e).value;
            forall k :: k in t.partial ==>
              (k in s.partial || k == e.tip.node) && k < |t.ports.inner| && !Inferred(t.ports.inner[k])
  {
    var v := OwnTail(c, s.ports, e.tail.port).value;
    var noted := s.(ports := NoteBodyIn(s.ports, e.tail.port, v));
    VisitPartial(c, noted, e.tip.node, WriteInTip(c, noted.ports.inner[e.tip.node], e.tip.port, v).value);
  }

  lemma ReadKeepsInputs(c: Code, p: Ports, tail: End)
    requires c.Block? && ReadTail(c, p, tail).Some?
    ensures var q := ReadTail(c, p, tail).value.0;
            && |q.inner| == |p.inner|
            && forall k :: 0 <= k < |p.inner| ==>
                 q.inner[k].ins == p.inner[k].ins && q.inner[k].init == p.inner[k].init
  {
    if tail.Inner? {
      ReadNeedsInputs(c, p, tail);
      if p.inner[tail.node].outs[tail.port.i].None? {
        PropagateKeepsInputs(c.nodes[tail.node], p.inner[tail.node]);
      }
    }
  }

  lemma InternalPartial(c: Code, s: Progress, e: Edge)
    requires c.Block? && InternalStep(c, s, e).Some?
    requires forall k :: k in s.partial ==> k < |s.ports.inner| && !Inferred(s.ports.inner[k])
    ensures var t := InternalStep(c, s, e).value;
            forall k :: k in t.partial ==>
              (k in s.partial || k == e.tip.node) && k < |t.ports.inner| && !Inferred(t.ports.inner[k])
  {
    var (p, v) := ReadTail(c, s.ports, e.tail).value;
    ReadKeepsInputs(c, s.ports, e.tail);
    VisitPartial(c, s.(ports := p), e.tip.node, WriteTip(p.inner[e.tip.node], e.tip.port, v).value);
  }

  lemma StaysOnTrack(c: Code, s: Progress, t: Progress, done: seq<Edge>, e: Edge, todo: seq<Edge>, end: Ports)
    requires c.Block? && Settled(c, end) && OnTrack(c, s, done, [e] + todo, end)
    requires e in c.inEdges + c.edges && Fills(e) && Effect(c, s, t, e) && Inv(c, t, done + [e], todo)
    requires forall k :: k in t.partial ==>
               (k in s.partial || k == e.tip.node) && k < |t.ports.inner| && !Inferred(t.ports.inner[k])
    ensures OnTrack(c, t, done + [e], todo, end)
  {
    ReorderedSelf(c);
    assert Finished(c, end);
    AgreesStep(c, c, s, t, e, end);
    assert Touches(e, e.tip.node) && TouchedBy(c.inEdges + c.edges, e.tip.node);
  }

  lemma {:induction false} RunInSucceeds(c: Code, s: Progress, done: seq<Edge>, es: seq<Edge>,
                                         rest: seq<Edge>, end: Ports)
    requires c.Block? && Settled(c, end) && OnTrack(c, s, done, es + rest, end) && DistinctTips(es + rest)
    requires forall e :: e in es ==> e in c.inEdges && (c.kind == Plain ==> e.tip.port.In?)
    ensures RunIn(c, s, es).Some? && OnTrack(c, RunIn(c, s, es).value, done + es, rest, end)
    decreases |es|
  {
    if es == [] {
      assert es + rest == rest && done + es == done;
    } else {
      FirstOf(done, es, rest);
      var e, todo := es[0], es[1..] + rest;
      InSucceeds(c, s, done, e, todo, end);
      InvIn(c, s, done, e, todo);
      InPartial(c, s, e);
      StaysOnTrack(c, s, InStep(c, s, e).value, done, e, todo, end);
      RunInSucceeds(c, InStep(c, s, e).value, done + [e], es[1..], rest, end);
    }
  }

  lemma {:induction false} RunInternalSucceeds(c: Code, s: Progress, done: seq<Edge>, es: seq<Edge>, end: Ports)
    requires c.Block? && Settled(c, end) && OnTrack(c, s, done, es, end) && DistinctTips(es)
    requires InputsFirst(es) && forall e :: e in es ==> e in c.edges
    ensures RunInternal(c, s, es).Some? && OnTrack(c, RunInternal(c, s, es).value, done + es, [], end)
    decreases |es|
  {
    if es == [] {
      assert done + es == done;
    } else {
      HeadOf(done, es);
      var e, todo := es[0], es[1..];
      FirstReads(e, todo);
      InternalSucceeds(c, s, done, e, todo, end);
      InvInternal(c, s, done, e, todo);
      InternalPartial(c, s, e);
      StaysOnTrack(c, s, InternalStep(c, s, e).value, done, e, todo, end);
      RunInternalSucceeds(c, InternalStep(c, s, e).value, done + [e], todo, end);
    }
  }

  lemma FirstReads(e: Edge, todo: seq<Edge>)
    requires InputsFirst([e] + todo)
    ensures InputsFirst(todo)
    ensures e.tail.Inner? ==> forall x :: x in [e] + todo ==> !FlowsInto(x, e.tail.node)
  {
    var es := [e] + todo;
    assert es[0] == e && forall i :: 0 <= i < |todo| ==> todo[i] == es[i + 1];
    forall i, j | 0 <= i <= j < |todo| && todo[i].tail.Inner?
      ensures !FlowsInto(todo[j], todo[i].tail.node)
    {
      assert !FlowsInto(es[j + 1], es[i + 1].tail.node);
    }
  }

  // ---------------------------------------------------------------- one block

  /** Both loops run through; where they end, every edge is processed. */
  lemma LoopsSucceed(c: Code, ins: seq<Slot>, init: seq<Slot>, end: Ports) returns (last: Progress)
    requires c.Block? && WellFormed(c) && |ins| == c.nIn && |init| == c.nInit
    requires Settled(c, end) && InputsFirst(c.edges)
    requires end.ins == ins && end.state == StateOf(init, c.nState)
    ensures OnTrack(c, last, c.inEdges + c.edges, [], end)
    ensures var s := Progress(Started(c, ins, init), {});
            && RunIn(c, s, c.inEdges).Some?
            && RunInternal(c, RunIn(c, s, c.inEdges).value, c.edges) == Some(last)
  {
    var s := Progress(Started(c, ins, init), {});
    InvStart(c, ins, init);
    StartAgrees(c, ins, init, end);
    assert forall e :: e in c.inEdges ==> e in c.inEdges + c.edges;
    RunInSucceeds(c, s, [], c.inEdges, c.edges, end);
    assert [] + c.inEdges == c.inEdges;
    LaterDistinct(c.inEdges, c.edges);
    RunInternalSucceeds(c, RunIn(c, s, c.inEdges).value, c.inEdges, c.edges, end);
    last := RunInternal(c, RunIn(c, s, c.inEdges).value, c.edges).value;
  }

  lemma FillSucceeds(c: Code, ins: seq<Slot>, init: seq<Slot>, end: Ports)
    requires c.Block? && WellFormed(c) && |ins| == c.nIn && |init| == c.nInit
    requires Settled(c, end) && InputsFirst(c.edges)
    requires end.ins == ins && end.state == StateOf(init, c.nState)
    ensures Fill(c, Started(c, ins, init)).Some?
    ensures Fill(c, Started(c, ins, init)).value.inner == end.inner
  {
    var last := LoopsSucceed(c, ins, init, end);
    NothingPartial(c, last, c.inEdges + c.edges, end);
    EndsSettled(c, last, c.inEdges + c.edges, end);
  }

  lemma EndsSettled(c: Code, s: Progress, done: seq<Edge>, end: Ports)
    requires c.Block? && Settled(c, end) && OnTrack(c, s, done, [], end)
    requires done == c.inEdges + c.edges && s.partial == {}
    ensures s.ports.inner == end.inner
  {
    AllProcessed(c, s.ports, s.ports);
    forall k | 0 <= k < |c.nodes|
      ensures s.ports.inner[k] == end.inner[k]
    {
      if Touched(c, k) {
        KnownInputs(c, s, done, [], end, k);
      }
    }
  }

  lemma NothingPartial(c: Code, s: Progress, done: seq<Edge>, end: Ports)
    requires c.Block? && Settled(c, end) && OnTrack(c, s, done, [], end)
    ensures s.partial == {}
  {
    forall k | k in s.partial
      ensures false
    {
      KnownInputs(c, s, done, [], end, k);
    }
  }

  /** Whether an out-edge can be processed depends on the nested nodes alone. */
  lemma OutStepAlike(c: Code, d: Code, p: Ports, q: Ports, e: Edge)
    requires c.Block? && d.Block? && c.kind == d.kind && q.inner == p.inner
    requires |q.outs| == |p.outs| && |q.bodyOut| == |p.bodyOut|
    ensures OutStep(c, p, e).Some? == OutStep(d, q, e).Some?
    ensures OutStep(c, p, e).Some? ==>
              var r := OutStep(c, p, e).value;
              r.inner == p.inner && |r.outs| == |p.outs| && |r.bodyOut| == |p.bodyOut|
  {
  }

  lemma {:induction false} RunOutSucceeds(d: Code, q: Ports, es: seq<Edge>)
    requires d.Block? && forall e :: e in es ==> OutStep(d, q, e).Some?
    ensures RunOut(d, q, es).Some?
    decreases |es|
  {
    if es != [] {
      var next := OutStep(d, q, es[0]).value;
      forall e | e in es[1..]
        ensures OutStep(d, next, e).Some?
      {
        OutStepAlike(d, d, q, q, es[0]);
        OutStepAlike(d, d, q, next, e);
      }
      RunOutSucceeds(d, next, es[1..]);
    }
  }

  lemma {:induction false} RunOutSteps(c: Code, p: Ports, es: seq<Edge>)
    requires c.Block? && RunOut(c, p, es).Some?
    ensures forall e :: e in es ==> OutStep(c, p, e).Some?
    decreases |es|
  {
    if es != [] {
      var next := OutStep(c, p, es[0]).value;
      RunOutSteps(c, next, es[1..]);
      assert es == [es[0]] + es[1..];
      forall e | e in es[1..]
        ensures OutStep(c, p, e).Some?
      {
        OutStepAlike(c, c, p, p, es[0]);
        OutStepAlike(c, c, p, next, e);
      }
    }
  }

  lemma SameFits(c: Code, d: Code, end: Ports)
    requires c.Block? && Reordered(c, d) && Settled(c, end)
    ensures forall e :: e in d.inEdges ==> InFits(d, end, e)
    ensures forall e :: e in d.edges ==> InternalFits(d, end, e)
  {
    SameMembers(c.inEdges, d.inEdges);
    SameMembers(c.edges, d.edges);
    forall j | 0 <= j < |c.nodes|
      ensures NIn(c.nodes[j]) == NIn(d.nodes[j]) && NInit(c.nodes[j]) == NInit(d.nodes[j])
      ensures NState(c.nodes[j]) == NState(d.nodes[j]) && Nestable(c.nodes[j]) == Nestable(d.nodes[j])
    {
      assert Reordered(c.nodes[j], d.nodes[j]);
    }
    forall e | e in d.inEdges
      ensures InFits(d, end, e)
    {
      assert InFits(c, end, e);
    }
    forall e | e in d.edges
      ensures InternalFits(d, end, e)
    {
      assert InternalFits(c, end, e);
    }
  }

  lemma SettledReordered(c: Code, d: Code, end: Ports)
    requires c.Block? && Reordered(c, d) && Settled(c, end)
    requires forall j :: 0 <= j < |d.nodes| && Touched(d, j) ==> Done(d.nodes[j], end.inner[j])
    ensures Settled(d, end)
  {
    SameEdges(c, d);
    SameFits(c, d, end);
    forall j | 0 <= j < |d.nodes| && !Touched(d, j)
      ensures end.inner[j] == Blank(d.nodes[j])
    {
      assert !Touched(c, j) && Reordered(c.nodes[j], d.nodes[j]);
      SameStart(c.nodes[j], d.nodes[j], Blanks(NIn(c.nodes[j])), Blanks(NInit(c.nodes[j])));
    }
    forall x | IsInput(x) && EndSlot(end, x).Some?
      ensures Fed(d.inEdges + d.edges, x)
    {
      var e :| e in c.inEdges + c.edges && e.tip == x;
      assert e in d.inEdges + d.edges;
    }
  }

  /** One block, given that its nested nodes behave alike for both orders. */
  lemma BlockSucceeds(c: Code, d: Code, ins: seq<Slot>, init: seq<Slot>, end: Ports)
    requires c.Block? && Reordered(c, d) && Ran(c, ins, init, end) && WellFormed(d) && Orderly(d)
    requires |end.inner| == |d.nodes|
    requires forall j :: 0 <= j < |d.nodes| && Touched(d, j) ==> Done(d.nodes[j], end.inner[j])
    ensures Propagate(d, Started(d, ins, init)).Some?
  {
    var startC, startD := Started(c, ins, init), Started(d, ins, init);
    RanSettles(c, ins, init, end);
    SettledReordered(c, d, end);
    ShellOutcome(c, ins, init, end);
    FillSucceeds(d, ins, init, end);
    FilledThenOut(c, ins, init, end);
    var p, q := Fill(c, startC).value, Fill(d, startD).value;
    FillShell(c, startC);
    FillShell(d, startD);
    RunOutInside(c, p, c.outEdges);
    RunOutSteps(c, p, c.outEdges);
    SameEdges(c, d);
    forall e | e in d.outEdges
      ensures OutStep(d, q, e).Some?
    {
      OutStepAlike(c, d, p, q, e);
    }
    RunOutSucceeds(d, q, d.outEdges);
  }

  // ---------------------------------------------------------------- the theorem

  /** If c propagates, then exactly those other orders d of its edges propagate that are orderly,
      and they fill every port as c does. */
  lemma {:induction false} PropagatesIffOrderly(c: Code, d: Code, ins: seq<Slot>, init: seq<Slot>)
    requires Reordered(c, d) && WellFormed(c) && WellFormed(d)
    requires |ins| == NIn(c) && |init| == NInit(c) && Propagate(c, Started(c, ins, init)).Some?
    ensures Propagate(d, Started(d, ins, init)).Some? <==> Orderly(d)
    ensures Orderly(d) ==> Propagate(d, Started(d, ins, init)) == Propagate(c, Started(c, ins, init))
    decreases c
  {
    SameStart(c, d, ins, init);
    if Propagate(d, Started(d, ins, init)).Some? {
      SuccessIsOrderly(d, ins, init);
    } else if c.Block? && Orderly(d) {
      var end := Propagate(c, Started(c, ins, init)).value;
      BlockSettles(c, ins, init);
      SameEdges(c, d);
      forall j | 0 <= j < |d.nodes| && Touched(d, j)
        ensures Done(d.nodes[j], end.inner[j])
      {
        assert Touched(c, j) && Done(c.nodes[j], end.inner[j]) && Reordered(c.nodes[j], d.nodes[j]);
        SameStart(c.nodes[j], d.nodes[j], end.inner[j].ins, end.inner[j].init);
        PropagatesIffOrderly(c.nodes[j], d.nodes[j], end.inner[j].ins, end.inner[j].init);
      }
      BlockSucceeds(c, d, ins, init, end);
    }
    if Orderly(d) {
      EdgeOrderIsIrrelevant(c, d, ins, init);
    }
  }
}
