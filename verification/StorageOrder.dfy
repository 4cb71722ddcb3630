module StorageOrder {

  /** The outcome of propagation does not depend on the order in which edges were added to the
      blocks of a graph: any two orders that both succeed fill every port alike. */

  import opened Common
  import opened StoragePropagation
  import opened StorageConsistency
  import opened StorageRuns
  import opened StorageMeaning

  /** The same graph with the edges of each block, at every level, in some other order. */
  predicate Reordered(c: Code, d: Code)
    decreases c
  {
    if c.Operation? then d == c
    else
      && d.Block? && d.kind == c.kind && d.nIn == c.nIn && d.nOut == c.nOut
      && d.nInit == c.nInit && d.nState == c.nState && |d.nodes| == |c.nodes|
      && multiset(d.inEdges) == multiset(c.inEdges) && multiset(d.edges) == multiset(c.edges)
      && multiset(d.outEdges) == multiset(c.outEdges)
      && forall j :: 0 <= j < |c.nodes| ==> Reordered(c.nodes[j], d.nodes[j])
  }

  lemma {:induction false} SameStart(c: Code, d: Code, ins: seq<Slot>, init: seq<Slot>)
    requires Reordered(c, d)
    ensures Started(c, ins, init) == Started(d, ins, init)
    ensures NIn(c) == NIn(d) && NInit(c) == NInit(d)
    decreases c
  {
    if c.Block? {
      forall j | 0 <= j < |c.nodes|
        ensures Blank(c.nodes[j]) == Blank(d.nodes[j])
      {
        SameStart(c.nodes[j], d.nodes[j], Blanks(NIn(c.nodes[j])), Blanks(NInit(c.nodes[j])));
      }
    }
  }

  lemma SameMembers(xs: seq<Edge>, ys: seq<Edge>)
    requires multiset(xs) == multiset(ys)
    ensures forall e :: e in xs <==> e in ys
  {
    assert forall e :: e in xs <==> e in multiset(xs);
    assert forall e :: e in ys <==> e in multiset(ys);
  }

  lemma SameEdges(c: Code, d: Code)
    requires c.Block? && Reordered(c, d)
    ensures forall e :: e in c.inEdges <==> e in d.inEdges
    ensures forall e :: e in c.inEdges + c.edges <==> e in d.inEdges + d.edges
    ensures forall e :: e in c.outEdges <==> e in d.outEdges
  {
    SameMembers(c.inEdges, d.inEdges);
    SameMembers(c.edges, d.edges);
    SameMembers(c.outEdges, d.outEdges);
  }

  /** Two nodes that give equal ports for equal inputs. */
  ghost predicate SameOutcome(c: Code, d: Code) {
    forall p, q :: Done(c, p) && Done(d, q) && p.ins == q.ins && p.init == q.init ==> p == q
  }

  // ---------------------------------------------------------------- agreement with a finished run

  /** Every input known so far has the storage it has in `end`. */
  ghost predicate Agrees(p: Ports, end: Ports) {
    |p.inner| == |end.inner| && forall x: End ::
      x.Inner? && (x.port.In? || x.port.Init?) && EndSlot(p, x).Some? ==> EndSlot(p, x) == EndSlot(end, x)
  }

  /** `end` is the outcome of a run of d, on the inputs that c is being run on. */
  ghost predicate Finished(d: Code, end: Ports)
    requires d.Block?
  {
    |end.inner| == |d.nodes|
    && (forall e :: e in d.inEdges + d.edges ==> Joins(end, e))
    && forall j :: 0 <= j < |d.nodes| && Touched(d, j) ==> DoneAt(d, end, j)
  }

  /** Two nodes that agree where one of them knows an input, and it knows all, have the same inputs. */
  lemma SameInputs(p: Ports, q: Ports)
    requires |p.ins| == |q.ins| && |p.init| == |q.init| && Inferred(q)
    requires forall r: PortRef :: (r.In? || r.Init?) && PortSlot(q, r).Some? ==> PortSlot(p, r) == PortSlot(q, r)
    ensures p.ins == q.ins && p.init == q.init
  {
    forall i | 0 <= i < |p.ins|
      ensures p.ins[i] == q.ins[i]
    {
      assert PortSlot(q, In(i)) == q.ins[i] && PortSlot(p, In(i)) == p.ins[i];
    }
    forall i | 0 <= i < |p.init|
      ensures p.init[i] == q.init[i]
    {
      assert PortSlot(q, Init(i)) == q.init[i] && PortSlot(p, Init(i)) == p.init[i];
    }
  }

  /** A node done in both runs whose known inputs agree is the same in both. */
  lemma DoneAgree(c: Code, d: Code, p: Ports, end: Ports, k: nat)
    requires c.Block? && Reordered(c, d) && DoneAt(c, p, k) && DoneAt(d, end, k)
    requires SameOutcome(c.nodes[k], d.nodes[k])
    requires forall r: PortRef :: (r.In? || r.Init?) && PortSlot(p.inner[k], r).Some? ==>
               PortSlot(p.inner[k], r) == PortSlot(end.inner[k], r)
    ensures p.inner[k] == end.inner[k]
  {
    SameStart(c.nodes[k], d.nodes[k], [], []);
    SameInputs(end.inner[k], p.inner[k]);
  }

  lemma AgreesStep(c: Code, d: Code, s: Progress, t: Progress, e: Edge, end: Ports)
    requires c.Block? && Reordered(c, d) && Finished(d, end) && e in d.inEdges + d.edges
    requires s.ports.ins == end.ins && s.ports.state == end.state
    requires forall k :: 0 <= k < |c.nodes| ==> SameOutcome(c.nodes[k], d.nodes[k])
    requires NodesOk(c, s.ports) && Fills(e)
    requires Effect(c, s, t, e) && Agrees(s.ports, end)
    ensures Agrees(t.ports, end)
  {
    assert Joins(t.ports, e) && Joins(end, e);
    if e.tail.Inner? {
      TailAgrees(c, d, s, t, e, end);
    }
    assert EndSlot(t.ports, e.tip) == EndSlot(end, e.tip);
  }

  /** The tail node of a processed edge is as in the finished run. */
  lemma TailAgrees(c: Code, d: Code, s: Progress, t: Progress, e: Edge, end: Ports)
    requires c.Block? && Reordered(c, d) && Finished(d, end) && e in d.inEdges + d.edges
    requires forall k :: 0 <= k < |c.nodes| ==> SameOutcome(c.nodes[k], d.nodes[k])
    requires NodesOk(c, s.ports) && e.tip.Inner? && e.tail.Inner?
    requires Effect(c, s, t, e) && Agrees(s.ports, end)
    ensures EndSlot(t.ports, e.tail) == EndSlot(end, e.tail)
  {
    var k := e.tail.node;
    assert Joined(c, t.ports, e) && DoneAt(c, t.ports, k);
    assert Touches(e, k) && Touched(d, k) && DoneAt(d, end, k);
    forall r: PortRef | (r.In? || r.Init?) && PortSlot(t.ports.inner[k], r).Some?
      ensures PortSlot(t.ports.inner[k], r) == PortSlot(end.inner[k], r)
    {
      var x := Inner(k, r);
      assert EndSlot(t.ports, x) == EndSlot(s.ports, x) && EndSlot(s.ports, x) == EndSlot(end, x);
    }
    DoneAgree(c, d, t.ports, end, k);
  }

  lemma AgreesOne(c: Code, d: Code, s: Progress, done: seq<Edge>, e: Edge, todo: seq<Edge>, end: Ports)
    requires c.Block? && Reordered(c, d) && Finished(d, end) && e in d.inEdges + d.edges
    requires s.ports.ins == end.ins && s.ports.state == end.state
    requires forall k :: 0 <= k < |c.nodes| ==> SameOutcome(c.nodes[k], d.nodes[k])
    requires Inv(c, s, done, [e] + todo) && DistinctTips([e] + todo) && InStep(c, s, e).Some?
    requires c.kind == Plain ==> e.tip.port.In?
    requires Agrees(s.ports, end)
    ensures Agrees(InStep(c, s, e).value.ports, end)
  {
    InvIn(c, s, done, e, todo);
    AgreesStep(c, d, s, InStep(c, s, e).value, e, end);
  }

  lemma {:induction false} AgreesIn(c: Code, d: Code, s: Progress, done: seq<Edge>,
                                    es: seq<Edge>, rest: seq<Edge>, end: Ports)
    requires c.Block? && Reordered(c, d) && Finished(d, end)
    requires forall e :: e in es ==> e in d.inEdges + d.edges
    requires s.ports.ins == end.ins && s.ports.state == end.state
    requires forall k :: 0 <= k < |c.nodes| ==> SameOutcome(c.nodes[k], d.nodes[k])
    requires Inv(c, s, done, es + rest) && DistinctTips(es + rest) && RunIn(c, s, es).Some?
    requires c.kind == Plain ==> forall e :: e in es ==> e.tip.port.In?
    requires Agrees(s.ports, end)
    ensures Agrees(RunIn(c, s, es).value.ports, end)
    decreases |es|
  {
    if es != [] {
      FirstOf(done, es, rest);
      AgreesOne(c, d, s, done, es[0], es[1..] + rest, end);
      OneIn(c, s, done, es[0], es[1..] + rest);
      InShell(c, s, es[0]);
      AgreesIn(c, d, InStep(c, s, es[0]).value, done + [es[0]], es[1..], rest, end);
    }
  }

  lemma {:induction false} AgreesInternal(c: Code, d: Code, s: Progress, done: seq<Edge>,
                                          es: seq<Edge>, end: Ports)
    requires c.Block? && Reordered(c, d) && Finished(d, end)
    requires forall e :: e in es ==> e in d.inEdges + d.edges
    requires s.ports.ins == end.ins && s.ports.state == end.state
    requires forall k :: 0 <= k < |c.nodes| ==> SameOutcome(c.nodes[k], d.nodes[k])
    requires Inv(c, s, done, es) && DistinctTips(es) && RunInternal(c, s, es).Some?
    requires Agrees(s.ports, end)
    ensures Agrees(RunInternal(c, s, es).value.ports, end)
    decreases |es|
  {
    if es != [] {
      assert es == [es[0]] + es[1..];
      InvInternal(c, s, done, es[0], es[1..]);
      AgreesStep(c, d, s, InternalStep(c, s, es[0]).value, es[0], end);
      AgreesInternal(c, d, InternalStep(c, s, es[0]).value, done + [es[0]], es[1..], end);
    }
  }

  // ---------------------------------------------------------------- the ports of the block itself

  /** The body-in ports after the in-edges: known exactly where some edge reads them. */
  lemma {:induction false} BodyInExact(c: Code, s: Progress, es: seq<Edge>, i: nat)
    requires c.Block? && RunIn(c, s, es).Some? && |s.ports.bodyIn| == |s.ports.ins| && i < |s.ports.ins|
    ensures var t := RunIn(c, s, es).value.ports;
            && |t.bodyIn| == |s.ports.ins|
            && (if exists e :: e in es && e.tail == Own(BodyIn(i))
                then s.ports.ins[i].Some? && t.bodyIn[i] == ElementOf(s.ports.ins[i].value)
                else t.bodyIn[i] == s.ports.bodyIn[i])
    decreases |es|
  {
    if es != [] {
      InShell(c, s, es[0]);
      StepBodyIn(c, s, es[0], i);
      BodyInExact(c, InStep(c, s, es[0]).value, es[1..], i);
      assert es == [es[0]] + es[1..];
    }
  }

  lemma StepBodyIn(c: Code, s: Progress, e: Edge, i: nat)
    requires c.Block? && InStep(c, s, e).Some? && |s.ports.bodyIn| == |s.ports.ins| && i < |s.ports.ins|
    ensures var t := InStep(c, s, e).value.ports;
            && |t.bodyIn| == |s.ports.ins|
            && (if e.tail == Own(BodyIn(i))
                then s.ports.ins[i].Some? && t.bodyIn[i] == ElementOf(s.ports.ins[i].value)
                else t.bodyIn[i] == s.ports.bodyIn[i])
  {
    var v := OwnTail(c, s.ports, e.tail.port).value;
    var noted := s.(ports := NoteBodyIn(s.ports, e.tail.port, v));
    VisitStores(c, noted, e.tip.node, WriteInTip(c, noted.ports.inner[e.tip.node], e.tip.port, v).value);
  }

  function OutTip(c: Code, i: nat): End
    requires c.Block?
  {
    if c.kind == Plain then Own(Out(i)) else Own(BodyOut(i))
  }

  /** The tail of an out-edge is an output port of a nested node. */
  predicate OutTail(p: Ports, e: Edge) {
    e.tail.Inner? && e.tail.port.Out? && e.tail.node < |p.inner|
    && e.tail.port.i < |p.inner[e.tail.node].outs|
  }

  /** Output port i after the out-edges: changed only by an edge into it. */
  lemma {:induction false} OutUntouched(c: Code, p: Ports, es: seq<Edge>, i: nat)
    requires c.Block? && RunOut(c, p, es).Some?
    ensures forall e :: e in es ==> OutTail(p, e)
    ensures c.kind == Plain ==> RunOut(c, p, es).value.bodyOut == p.bodyOut
    ensures (forall e :: e in es ==> e.tip != OutTip(c, i)) ==>
              Read(RunOut(c, p, es).value.outs, i) == Read(p.outs, i)
              && Read(RunOut(c, p, es).value.bodyOut, i) == Read(p.bodyOut, i)
    decreases |es|
  {
    if es != [] {
      OutUntouched(c, OutStep(c, p, es[0]).value, es[1..], i);
      assert es == [es[0]] + es[1..];
    }
  }

  /** p is the outcome of propagating c on these inputs. */
  ghost predicate Ran(c: Code, ins: seq<Slot>, init: seq<Slot>, p: Ports) {
    WellFormed(c) && |ins| == NIn(c) && |init| == NInit(c)
    && Propagate(c, Started(c, ins, init)) == Some(p)
  }

  lemma FilledThenOut(c: Code, ins: seq<Slot>, init: seq<Slot>, p: Ports)
    requires c.Block? && Ran(c, ins, init, p)
    ensures Fill(c, Started(c, ins, init)).Some?
    ensures RunOut(c, Fill(c, Started(c, ins, init)).value, c.outEdges) == Some(p)
  {
  }

  ghost predicate OutExact(c: Code, p: Ports, i: nat)
    requires c.Block?
  {
    && |p.outs| == |p.bodyOut| == c.nOut
    && (forall e :: e in c.outEdges ==> OutTail(p, e) && OutJoins(c, p, e))
    && (c.kind == Plain ==> Read(p.bodyOut, i) == None)
    && ((forall e :: e in c.outEdges ==> e.tip != OutTip(c, i)) ==>
          Read(p.outs, i) == None && Read(p.bodyOut, i) == None)
  }

  lemma OutOutcome(c: Code, ins: seq<Slot>, init: seq<Slot>, p: Ports, i: nat)
    requires c.Block? && Ran(c, ins, init, p)
    ensures OutExact(c, p, i)
  {
    var start := Started(c, ins, init);
    FillShell(c, start);
    RunOutInside(c, Fill(c, start).value, c.outEdges);
    OutUntouched(c, Fill(c, start).value, c.outEdges, i);
    RunOutJoins(c, Fill(c, start).value, c.outEdges);
  }

  lemma OutsAgree(c: Code, d: Code, p: Ports, q: Ports, i: nat)
    requires c.Block? && Reordered(c, d) && p.inner == q.inner && OutExact(c, p, i) && OutExact(d, q, i)
    ensures Read(p.outs, i) == Read(q.outs, i) && Read(p.bodyOut, i) == Read(q.bodyOut, i)
  {
    SameEdges(c, d);
    if e :| e in c.outEdges && e.tip == OutTip(c, i) {
      assert OutJoins(c, p, e) && OutJoins(d, q, e);
    }
  }

  ghost predicate BodyInExactly(c: Code, ins: seq<Slot>, p: Ports, i: nat)
    requires c.Block?
  {
    |p.bodyIn| == c.nIn &&
    if exists e :: e in c.inEdges && e.tail == Own(BodyIn(i))
    then Read(ins, i).Some? && Read(p.bodyIn, i) == ElementOf(Read(ins, i).value)
    else Read(p.bodyIn, i) == None
  }

  lemma BodyInOutcome(c: Code, ins: seq<Slot>, init: seq<Slot>, p: Ports, i: nat)
    requires c.Block? && Ran(c, ins, init, p) && i < c.nIn
    ensures BodyInExactly(c, ins, p, i)
  {
    var s := Progress(Started(c, ins, init), {});
    FilledThenOut(c, ins, init, p);
    assert Fill(c, s.ports).Some? && RunIn(c, s, c.inEdges).Some?;
    assert RunInternal(c, RunIn(c, s, c.inEdges).value, c.edges).Some?;
    BodyInExact(c, s, c.inEdges, i);
    RunInternalShell(c, RunIn(c, s, c.inEdges).value, c.edges);
    RunOutInside(c, Fill(c, s.ports).value, c.outEdges);
  }

  lemma ShellOutcome(c: Code, ins: seq<Slot>, init: seq<Slot>, p: Ports)
    requires c.Block? && Ran(c, ins, init, p)
    ensures p.ins == ins && p.init == init && p.state == StateOf(init, c.nState)
    ensures Finished(c, p) && |p.bodyIn| == c.nIn && |p.outs| == |p.bodyOut| == c.nOut
    ensures forall j :: 0 <= j < |c.nodes| && !Touched(c, j) ==> p.inner[j] == Blank(c.nodes[j])
  {
    BlockSettles(c, ins, init);
    FillShell(c, Started(c, ins, init));
    RunOutInside(c, Fill(c, Started(c, ins, init)).value, c.outEdges);
  }

  // ---------------------------------------------------------------- the theorem

  /** After the in-edges and after all edges, the known inputs of nested nodes are those of `end`. */
  lemma FillAgrees(c: Code, d: Code, start: Ports, end: Ports)
    requires c.Block? && WellFormed(c) && Reordered(c, d) && Finished(d, end)
    requires Inv(c, Progress(start, {}), [], c.inEdges + c.edges) && Agrees(start, end)
    requires start.ins == end.ins && start.state == end.state && Fill(c, start).Some?
    requires forall k :: 0 <= k < |c.nodes| ==> SameOutcome(c.nodes[k], d.nodes[k])
    ensures Agrees(Fill(c, start).value, end)
  {
    var s := Progress(start, {});
    SameEdges(c, d);
    assert forall e :: e in c.inEdges || e in c.edges ==> e in c.inEdges + c.edges;
    AgreesIn(c, d, s, [], c.inEdges, c.edges, end);
    RunInInv(c, s, [], c.inEdges, c.edges);
    assert [] + c.inEdges == c.inEdges;
    RunInShell(c, s, c.inEdges);
    LaterDistinct(c.inEdges, c.edges);
    AgreesInternal(c, d, RunIn(c, s, c.inEdges).value, c.inEdges, c.edges, end);
  }

  lemma StartAgrees(c: Code, ins: seq<Slot>, init: seq<Slot>, end: Ports)
    requires c.Block? && |end.inner| == |c.nodes|
    ensures Agrees(Started(c, ins, init), end)
  {
  }

  lemma InnerAgree(c: Code, d: Code, ins: seq<Slot>, init: seq<Slot>, p: Ports, q: Ports)
    requires c.Block? && Reordered(c, d) && Ran(c, ins, init, p) && Ran(d, ins, init, q)
    requires forall k :: 0 <= k < |c.nodes| ==> SameOutcome(c.nodes[k], d.nodes[k])
    ensures Agrees(p, q)
  {
    var start := Started(c, ins, init);
    FilledThenOut(c, ins, init, p);
    FilledAgrees(c, d, ins, init, start, q);
    RunOutInside(c, Fill(c, start).value, c.outEdges);
  }

  lemma FilledAgrees(c: Code, d: Code, ins: seq<Slot>, init: seq<Slot>, start: Ports, q: Ports)
    requires c.Block? && Reordered(c, d) && WellFormed(c) && |ins| == c.nIn && |init| == c.nInit
    requires start == Started(c, ins, init) && Fill(c, start).Some? && Ran(d, ins, init, q)
    requires forall k :: 0 <= k < |c.nodes| ==> SameOutcome(c.nodes[k], d.nodes[k])
    ensures Agrees(Fill(c, start).value, q)
  {
    ShellOutcome(d, ins, init, q);
    InvStart(c, ins, init);
    StartAgrees(c, ins, init, q);
    FillAgrees(c, d, start, q);
  }

  lemma InnerEqual(c: Code, d: Code, p: Ports, q: Ports, k: nat)
    requires c.Block? && Reordered(c, d) && k < |c.nodes|
    requires Finished(c, p) && Finished(d, q) && Agrees(p, q) && SameOutcome(c.nodes[k], d.nodes[k])
    requires !Touched(c, k) ==> p.inner[k] == Blank(c.nodes[k])
    requires !Touched(d, k) ==> q.inner[k] == Blank(d.nodes[k])
    ensures p.inner[k] == q.inner[k]
  {
    SameEdges(c, d);
    if Touched(c, k) {
      assert Touched(d, k);
      forall r: PortRef | (r.In? || r.Init?) && PortSlot(p.inner[k], r).Some?
        ensures PortSlot(p.inner[k], r) == PortSlot(q.inner[k], r)
      {
        assert EndSlot(p, Inner(k, r)) == EndSlot(q, Inner(k, r));
      }
      DoneAgree(c, d, p, q, k);
    } else {
      assert !Touched(d, k);
      SameStart(c.nodes[k], d.nodes[k], Blanks(NIn(c.nodes[k])), Blanks(NInit(c.nodes[k])));
    }
  }

  lemma BlockEqual(c: Code, d: Code, ins: seq<Slot>, init: seq<Slot>, p: Ports, q: Ports)
    requires c.Block? && Reordered(c, d) && Ran(c, ins, init, p) && Ran(d, ins, init, q)
    requires p.inner == q.inner
    ensures p == q
  {
    ShellOutcome(c, ins, init, p);
    ShellOutcome(d, ins, init, q);
    SameEdges(c, d);
    forall i | 0 <= i < c.nIn
      ensures p.bodyIn[i] == q.bodyIn[i]
    {
      BodyInOutcome(c, ins, init, p, i);
      BodyInOutcome(d, ins, init, q, i);
    }
    forall i | 0 <= i < c.nOut
      ensures p.outs[i] == q.outs[i] && p.bodyOut[i] == q.bodyOut[i]
    {
      OutOutcome(c, ins, init, p, i);
      OutOutcome(d, ins, init, q, i);
      OutsAgree(c, d, p, q, i);
    }
  }

  /** One block, given that its nested nodes do not depend on the order either. */
  lemma BlockOrder(c: Code, d: Code, ins: seq<Slot>, init: seq<Slot>, p: Ports, q: Ports)
    requires c.Block? && Reordered(c, d) && Ran(c, ins, init, p) && Ran(d, ins, init, q)
    requires forall k :: 0 <= k < |c.nodes| ==> SameOutcome(c.nodes[k], d.nodes[k])
    ensures p == q
  {
    ShellOutcome(c, ins, init, p);
    ShellOutcome(d, ins, init, q);
    InnerAgree(c, d, ins, init, p, q);
    forall k | 0 <= k < |c.nodes|
      ensures p.inner[k] == q.inner[k]
    {
      InnerEqual(c, d, p, q, k);
    }
    BlockEqual(c, d, ins, init, p, q);
  }

  /** Any two edge orders for which propagation returns normally fill every port of the program,
      at every level, with the same storage. */
  lemma {:induction false} EdgeOrderIsIrrelevant(c: Code, d: Code, ins: seq<Slot>, init: seq<Slot>)
    requires Reordered(c, d) && WellFormed(c) && WellFormed(d)
    requires |ins| == NIn(c) && |init| == NInit(c)
    requires Propagate(c, Started(c, ins, init)).Some? && Propagate(d, Started(d, ins, init)).Some?
    ensures Propagate(c, Started(c, ins, init)) == Propagate(d, Started(d, ins, init))
    decreases c, 0
  {
    SameStart(c, d, ins, init);
    if c.Block? {
      forall k | 0 <= k < |c.nodes|
        ensures SameOutcome(c.nodes[k], d.nodes[k])
      {
        SameOutcomes(c.nodes[k], d.nodes[k]);
      }
      BlockOrder(c, d, ins, init, Propagate(c, Started(c, ins, init)).value,
                 Propagate(d, Started(d, ins, init)).value);
    }
  }

  lemma {:induction false} SameOutcomes(c: Code, d: Code)
    requires Reordered(c, d) && WellFormed(c) && WellFormed(d)
    ensures SameOutcome(c, d)
    decreases c, 1
  {
    forall p, q | Done(c, p) && Done(d, q) && p.ins == q.ins && p.init == q.init
      ensures p == q
    {
      EdgeOrderIsIrrelevant(c, d, p.ins, p.init);
    }
  }
}
