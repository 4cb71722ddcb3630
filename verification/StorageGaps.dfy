module StorageGaps {

  /** Two places where propagation, as written, does less than its callers may expect, each with
      the exact condition. */

  import opened Common
  import opened StoragePropagation
  import opened StorageConsistency
  import opened StorageMeaning
  import opened StorageOrder

  // ---------------------------------------------------------------- unread constants

  /** Does node c give its output i a storage when it is propagated? */
  predicate Produces(c: Code, i: nat) {
    c.Operation? || exists e :: e in c.outEdges && e.tip == OutTip(c, i)
  }

  lemma DoneProduces(c: Code, p: Ports, i: nat)
    requires WellFormed(c) && Nestable(c) && Done(c, p) && i < |p.outs|
    ensures p.outs[i].Some? <==> Produces(c, i)
  {
    if c.Block? {
      OutOutcome(c, p.ins, p.init, p, i);
      if e :| e in c.outEdges && e.tip == OutTip(c, i) {
        assert OutJoins(c, p, e);
      }
    }
  }

  /** A block that is propagated leaves an output without a storage, and reports nothing, exactly
      when the output's source is a node no edge reaches (a constant that nothing else reads) or a
      nested block that does not connect that result. */
  lemma OutputKnownIffProduced(c: Code, ins: seq<Slot>, p: Ports, e: Edge)
    requires c.Block? && c.kind == Plain && Ran(c, ins, Blanks(c.nInit), p) && e in c.outEdges
    requires e.tail.Inner? && e.tail.node < |c.nodes| ==> Nestable(c.nodes[e.tail.node])
    ensures && e.tail.Inner? && e.tail.port.Out? && e.tail.node < |c.nodes|
            && (EndSlot(p, e.tip).Some? <==>
                  Touched(c, e.tail.node) && Produces(c.nodes[e.tail.node], e.tail.port.i))
  {
    BlockSettles(c, ins, Blanks(c.nInit));
    OutOutcome(c, ins, Blanks(c.nInit), p, 0);
    assert OutTail(p, e) && OutJoins(c, p, e);
    var k, i := e.tail.node, e.tail.port.i;
    if Touched(c, k) {
      DoneProduces(c.nodes[k], p.inner[k], i);
    }
  }

  /** Such a program: its result is a constant. Propagation returns normally. */
  lemma UnreadConstantIsSilent()
    ensures var zeros := Operation(Zeros([2, 2], "float", "cpu"), 0, 1);
            var c := Block(Plain, 0, 1, 0, 0, [zeros], [], [], [Edge(Inner(0, Out(0)), Own(Out(0)))]);
            WellFormed(c) && Propagate(c, Blank(c)).Some? && Propagate(c, Blank(c)).value.outs == [None]
  {
    var zeros := Operation(Zeros([2, 2], "float", "cpu"), 0, 1);
    var e := Edge(Inner(0, Out(0)), Own(Out(0)));
    var c := Block(Plain, 0, 1, 0, 0, [zeros], [], [], [e]);
    var p := Blank(c);
    assert p.inner == [Blank(zeros)] && p.inner[0].outs == [None];
    assert RunIn(c, Progress(p, {}), []) == Some(Progress(p, {}));
    assert RunInternal(c, Progress(p, {}), []) == Some(Progress(p, {}));
    assert [e][1..] == [] && RunOut(c, p.(outs := [None]), []) == Some(p.(outs := [None]));
    assert p.outs[0 := None] == [None];
    assert OutStep(c, p, e) == Some(p.(outs := [None]));
    assert RunOut(c, p, [e]) == Some(p.(outs := [None]));
  }

  // ---------------------------------------------------------------- seeding a state from a block input

  /** Node j still waits for its initialiser i. */
  ghost predicate Unseeded(p: Ports, j: nat, i: nat) {
    j < |p.inner| && i < |p.inner[j].init| && p.inner[j].init[i] == None
  }

  /** A visited node keeps a missing initialiser, and is then partial. */
  lemma VisitUnseeded(c: Code, s: Progress, t: nat, q: Ports, j: nat, i: nat)
    requires c.Block? && t < |c.nodes| && t < |s.ports.inner| && Visit(c, s, t, q).Some?
    requires Unseeded(s.ports, j, i) && (t == j ==> i < |q.init| && q.init[i] == None)
    ensures var n := Visit(c, s, t, q).value;
            Unseeded(n.ports, j, i) && (j in s.partial || t == j ==> j in n.partial)
  {
    VisitStores(c, s, t, q);
  }

  lemma WriteUnseeded(p: Ports, r: PortRef, v: Storage, i: nat)
    requires WriteTip(p, r, v).Some? && i < |p.init| && p.init[i] == None && r != Init(i)
    ensures var q := WriteTip(p, r, v).value; i < |q.init| && q.init[i] == None
  {
  }

  lemma InUnseeded(c: Code, s: Progress, e: Edge, j: nat, i: nat)
    requires c.Block? && c.kind == Plain && InStep(c, s, e).Some? && Unseeded(s.ports, j, i)
    ensures var n := InStep(c, s, e).value;
            Unseeded(n.ports, j, i)
            && (j in s.partial || e.tip == Inner(j, Init(i)) ==> j in n.partial)
  {
    var v := OwnTail(c, s.ports, e.tail.port).value;
    var noted := s.(ports := NoteBodyIn(s.ports, e.tail.port, v));
    var p := noted.ports.inner[e.tip.node];
    var q := WriteInTip(c, p, e.tip.port, v).value;
    if e.tip.node == j && e.tip.port.In? {
      WriteUnseeded(p, e.tip.port, v, i);
    }
    VisitUnseeded(c, noted, e.tip.node, q, j, i);
  }

  lemma {:induction false} RunInUnseeded(c: Code, s: Progress, es: seq<Edge>, j: nat, i: nat)
    requires c.Block? && c.kind == Plain && RunIn(c, s, es).Some? && Unseeded(s.ports, j, i)
    ensures var n := RunIn(c, s, es).value;
            Unseeded(n.ports, j, i)
            && (j in s.partial || (exists e :: e in es && e.tip == Inner(j, Init(i))) ==> j in n.partial)
    decreases |es|
  {
    if es != [] {
      InUnseeded(c, s, es[0], j, i);
      RunInUnseeded(c, InStep(c, s, es[0]).value, es[1..], j, i);
      assert es == [es[0]] + es[1..];
    }
  }

  lemma ReadUnseeded(c: Code, p: Ports, tail: End, j: nat, i: nat)
    requires c.Block? && ReadTail(c, p, tail).Some? && Unseeded(p, j, i)
    ensures Unseeded(ReadTail(c, p, tail).value.0, j, i)
  {
    if tail.Inner? && p.inner[tail.node].outs[tail.port.i].None? {
      PropagateKeepsInputs(c.nodes[tail.node], p.inner[tail.node]);
    }
  }

  lemma {:induction false} RunInternalUnseeded(c: Code, s: Progress, es: seq<Edge>, j: nat, i: nat)
    requires c.Block? && RunInternal(c, s, es).Some? && Unseeded(s.ports, j, i) && j in s.partial
    requires forall e :: e in es ==> e.tip != Inner(j, Init(i))
    ensures j in RunInternal(c, s, es).value.partial
    decreases |es|
  {
    if es != [] {
      var e := es[0];
      var (p, v) := ReadTail(c, s.ports, e.tail).value;
      ReadUnseeded(c, s.ports, e.tail, j, i);
      if e.tip.node == j {
        WriteUnseeded(p.inner[j], e.tip.port, v, i);
      }
      VisitUnseeded(c, s.(ports := p), e.tip.node, WriteTip(p.inner[e.tip.node], e.tip.port, v).value, j, i);
      RunInternalUnseeded(c, InternalStep(c, s, e).value, es[1..], j, i);
    }
  }

  /** A plain block cannot initialise the state of a nested scan from one of its own inputs by an
      in-edge, although add_input_node accepts such an edge: the storage lands under a stray input
      port and propagation always raises. */
  lemma BlockInputCannotSeedState(c: Code, ins: seq<Slot>, e: Edge, j: nat, i: nat)
    requires c.Block? && c.kind == Plain && DistinctTips(c.inEdges + c.edges)
    requires |ins| == c.nIn && j < |c.nodes| && i < NInit(c.nodes[j])
    requires e in c.inEdges && e.tip == Inner(j, Init(i))
    ensures Propagate(c, Started(c, ins, Blanks(c.nInit))).None?
  {
    var start := Started(c, ins, Blanks(c.nInit));
    assert start.inner[j] == Blank(c.nodes[j]);
    StarvedAfterFill(c, start, e, j, i);
  }

  lemma StarvedAfterFill(c: Code, p: Ports, e: Edge, j: nat, i: nat)
    requires c.Block? && c.kind == Plain && DistinctTips(c.inEdges + c.edges)
    requires Unseeded(p, j, i) && e in c.inEdges && e.tip == Inner(j, Init(i))
    ensures Fill(c, p).None?
  {
    var s := Progress(p, {});
    if RunIn(c, s, c.inEdges).Some? && RunInternal(c, RunIn(c, s, c.inEdges).value, c.edges).Some? {
      RunInUnseeded(c, s, c.inEdges, j, i);
      LaterTips(c.inEdges, c.edges, e);
      RunInternalUnseeded(c, RunIn(c, s, c.inEdges).value, c.edges, j, i);
    }
  }

  lemma LaterTips(xs: seq<Edge>, ys: seq<Edge>, e: Edge)
    requires DistinctTips(xs + ys) && e in xs
    ensures forall d :: d in ys ==> d.tip != e.tip
  {
    var all := xs + ys;
    var m :| 0 <= m < |xs| && xs[m] == e;
    forall d | d in ys
      ensures d.tip != e.tip
    {
      var n :| 0 <= n < |ys| && ys[n] == d;
      assert all[m].tip != all[|xs| + n].tip;
    }
  }
}
