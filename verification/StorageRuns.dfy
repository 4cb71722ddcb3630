/** The invariant of the two loops that fill in the nodes of a block, and what one edge does to it.
    A node waits for its inputs, is propagated once when the last one arrives, and then never
    changes; every processed edge joins two equal storages. */
module StorageRuns {

  import opened Common
  import opened StoragePropagation
  import opened StorageConsistency

  // ---------------------------------------------------------------- one nested node

  /** Storing an input that was unknown leaves a waiting node waiting. */
  lemma WaitingAfterWrite(c: Code, p: Ports, r: PortRef, v: Storage)
    requires Waiting(c, p) && (r.In? || r.Init?) && WriteTip(p, r, v).Some?
    ensures var q := WriteTip(p, r, v).value;
            Waiting(c, q) && PortSlot(q, r) == Some(v)
            && forall s: PortRef :: (s.In? || s.Init?) && s != r ==> PortSlot(q, s) == PortSlot(p, s)
  {
    var q := WriteTip(p, r, v).value;
    assert q.state == StateOf(q.init, NState(c));
  }

  lemma DoneAfterPropagate(c: Code, p: Ports)
    requires Waiting(c, p) && Inferred(p) && Propagate(c, p).Some?
    ensures var q := Propagate(c, p).value;
            Done(c, q) && q.ins == p.ins && q.init == p.init
  {
    PropagateKeepsInputs(c, p);
  }

  lemma {:induction false} RunOutWrites(c: Code, p: Ports, es: seq<Edge>, i: nat)
    requires c.Block? && c.kind != Plain && RunOut(c, p, es).Some?
    ensures var q := RunOut(c, p, es).value;
            if exists e :: e in es && e.tip == Own(BodyOut(i)) then Read(q.outs, i).Some?
            else Read(q.outs, i) == Read(p.outs, i)
    decreases |es|
  {
    if es != [] {
      var next := OutStep(c, p, es[0]).value;
      RunOutWrites(c, next, es[1..], i);
      assert es == [es[0]] + es[1..];
      assert es[0].tip == Own(BodyOut(i)) ==> Read(next.outs, i).Some?;
    }
  }

  /** Propagating a second time cannot make an output known that the first time left unknown. */
  lemma OutputStaysUnknown(c: Code, p: Ports, i: nat)
    requires Done(c, p) && Nestable(c) && Read(p.outs, i) == None && Propagate(c, p).Some?
    ensures Read(Propagate(c, p).value.outs, i) == None
  {
    var start := Started(c, p.ins, p.init);
    if c.Block? {
      FillShell(c, start);
      FillShell(c, p);
      if i < |p.outs| {
        RunOutInside(c, Fill(c, start).value, c.outEdges);
        RunOutWrites(c, Fill(c, start).value, c.outEdges, i);
        RunOutWrites(c, Fill(c, p).value, c.outEdges, i);
      } else {
        PropagateKeepsInputs(c, p);
      }
    }
  }

  // ---------------------------------------------------------------- growth

  /** A node only gains storages, and no more once it is done. */
  ghost predicate NodeGrows(c: Code, p: Ports, q: Ports) {
    && (Done(c, p) ==> q == p)
    && (forall r: PortRef :: (r.In? || r.Init?) && PortSlot(p, r).Some? ==> PortSlot(q, r) == PortSlot(p, r))
  }

  ghost predicate NodesOk(c: Code, p: Ports)
    requires c.Block?
  {
    |p.inner| == |c.nodes| && forall j :: 0 <= j < |c.nodes| ==> NodeOk(c.nodes[j], p.inner[j])
  }

  ghost predicate Grows(c: Code, p: Ports, q: Ports)
    requires c.Block?
  {
    && |p.inner| == |q.inner| == |c.nodes|
    && q.ins == p.ins && q.state == p.state && |q.bodyIn| == |p.bodyIn|
    && (forall i :: 0 <= i < |p.bodyIn| && p.bodyIn[i].Some? ==> q.bodyIn[i] == p.bodyIn[i])
    && forall j :: 0 <= j < |c.nodes| ==> NodeGrows(c.nodes[j], p.inner[j], q.inner[j])
  }

  ghost predicate DoneAt(c: Code, p: Ports, j: nat)
    requires c.Block?
  {
    j < |c.nodes| && j < |p.inner| && Done(c.nodes[j], p.inner[j])
  }

  /** An edge that has been processed: it joins equal storages and its tail is settled. */
  ghost predicate Joined(c: Code, p: Ports, e: Edge)
    requires c.Block?
  {
    && Joins(p, e)
    && (e.tail.Own? ==> e.tail.port.In? || e.tail.port.BodyIn? || e.tail.port.State?)
    && (e.tail.Inner? ==> DoneAt(c, p, e.tail.node))
  }

  lemma JoinedGrows(c: Code, p: Ports, q: Ports, e: Edge)
    requires c.Block? && Fills(e) && Joined(c, p, e) && Grows(c, p, q)
    ensures Joined(c, q, e)
  {
    assert NodeGrows(c.nodes[e.tip.node], p.inner[e.tip.node], q.inner[e.tip.node]);
    if e.tail.Inner? {
      assert NodeGrows(c.nodes[e.tail.node], p.inner[e.tail.node], q.inner[e.tail.node]);
    }
  }

  /** Replacing one node that was not done. */
  lemma GrowsAt(c: Code, p: Ports, j: nat, q: Ports)
    requires c.Block? && NodesOk(c, p) && j < |c.nodes|
    requires NodeGrows(c.nodes[j], p.inner[j], q) && NodeOk(c.nodes[j], q)
    ensures NodesOk(c, p.(inner := p.inner[j := q])) && Grows(c, p, p.(inner := p.inner[j := q]))
  {
  }

  // ---------------------------------------------------------------- reading a tail

  lemma WakeSettles(c: Code, p: Ports, k: nat, i: nat)
    requires c.Block? && NodesOk(c, p) && Wake(c, p, k, i).Some?
    requires k < |p.inner| && Read(Wake(c, p, k, i).value.inner[k].outs, i).Some?
    ensures var q := Wake(c, p, k, i).value;
            && NodesOk(c, q) && Grows(c, p, q) && Done(c.nodes[k], q.inner[k])
            && q == p.(inner := p.inner[k := q.inner[k]])
            && q.inner[k].ins == p.inner[k].ins && q.inner[k].init == p.inner[k].init
  {
    var q := Wake(c, p, k, i).value;
    assert NodeOk(c.nodes[k], p.inner[k]);
    if Done(c.nodes[k], p.inner[k]) {
      if p.inner[k].outs[i].None? {
        OutputStaysUnknown(c.nodes[k], p.inner[k], i);
      }
      assert q == p.(inner := p.inner[k := p.inner[k]]);
    } else {
      assert p.inner[k].outs[i].None? by {
        assert p.inner[k] == Started(c.nodes[k], p.inner[k].ins, p.inner[k].init);
      }
      DoneAfterPropagate(c.nodes[k], p.inner[k]);
    }
    GrowsAt(c, p, k, q.inner[k]);
  }

  // ---------------------------------------------------------------- storing at a tip

  lemma GrowsTrans(c: Code, p: Ports, q: Ports, r: Ports)
    requires c.Block? && Grows(c, p, q) && Grows(c, q, r)
    ensures Grows(c, p, r)
  {
    forall j | 0 <= j < |c.nodes|
      ensures NodeGrows(c.nodes[j], p.inner[j], r.inner[j])
    {
      assert NodeGrows(c.nodes[j], p.inner[j], q.inner[j]);
      assert NodeGrows(c.nodes[j], q.inner[j], r.inner[j]);
    }
  }

  /** Storing an unknown input and visiting its node: the node is inferred exactly when that was
      the last unknown input. */
  lemma StoreAndVisit(c: Code, s: Progress, j: nat, r: PortRef, v: Storage)
    requires c.Block? && NodesOk(c, s.ports) && j < |c.nodes| && (r.In? || r.Init?)
    requires PortSlot(s.ports.inner[j], r) == None && WriteTip(s.ports.inner[j], r, v).Some?
    requires Visit(c, s, j, WriteTip(s.ports.inner[j], r, v).value).Some?
    ensures var t := Visit(c, s, j, WriteTip(s.ports.inner[j], r, v).value).value;
            && NodesOk(c, t.ports) && Grows(c, s.ports, t.ports)
            && t.ports == s.ports.(inner := s.ports.inner[j := t.ports.inner[j]])
            && PortSlot(t.ports.inner[j], r) == Some(v)
            && (forall x: PortRef :: (x.In? || x.Init?) && x != r ==>
                  PortSlot(t.ports.inner[j], x) == PortSlot(s.ports.inner[j], x))
            && (if Done(c.nodes[j], t.ports.inner[j]) then t.partial == s.partial - {j}
                else t.partial == s.partial + {j})
  {
    var p := s.ports.inner[j];
    var q := WriteTip(p, r, v).value;
    assert NodeOk(c.nodes[j], p);
    WaitingAfterWrite(c.nodes[j], p, r, v);
    VisitStores(c, s, j, q);
    if Inferred(q) {
      DoneAfterPropagate(c.nodes[j], q);
      GrowsAt(c, s.ports, j, Propagate(c.nodes[j], q).value);
    } else {
      GrowsAt(c, s.ports, j, q);
    }
  }

  // ---------------------------------------------------------------- one edge

  ghost predicate BodyInOk(c: Code, p: Ports)
    requires c.Block?
  {
    |p.bodyIn| == |p.ins| == c.nIn
    && forall i :: 0 <= i < |p.bodyIn| && p.bodyIn[i].Some? ==>
         p.ins[i].Some? && p.bodyIn[i] == ElementOf(p.ins[i].value)
  }

  /** What processing edge e does to the loop state. */
  ghost predicate Effect(c: Code, s: Progress, t: Progress, e: Edge)
    requires c.Block? && e.tip.Inner?
  {
    && NodesOk(c, t.ports) && BodyInOk(c, t.ports) && Grows(c, s.ports, t.ports)
    && Joined(c, t.ports, e) && e.tail != Inner(e.tip.node, e.tail.port)
    && (forall x: End :: x.Inner? && (x.port.In? || x.port.Init?) && x != e.tip ==>
          EndSlot(t.ports, x) == EndSlot(s.ports, x))
    && (e.tip.node in t.partial || DoneAt(c, t.ports, e.tip.node))
    && (forall j :: j in s.partial && j != e.tip.node ==> j in t.partial)
    && (forall j: nat :: j < |c.nodes| && !Touches(e, j) ==> t.ports.inner[j] == s.ports.inner[j])
  }

  /** The tail of e is known and settled. */
  ghost predicate TailReady(c: Code, p: Ports, e: Edge, v: Storage)
    requires c.Block?
  {
    && EndSlot(p, e.tail) == Some(v)
    && (e.tail.Own? ==> e.tail.port.In? || e.tail.port.BodyIn? || e.tail.port.State?)
    && (e.tail.Inner? ==> DoneAt(c, p, e.tail.node))
  }

  lemma TipEffect(c: Code, s: Progress, e: Edge, v: Storage)
    requires c.Block? && NodesOk(c, s.ports) && BodyInOk(c, s.ports) && Fills(e)
    requires e.tip.node < |c.nodes| && EndSlot(s.ports, e.tip) == None && TailReady(c, s.ports, e, v)
    requires WriteTip(s.ports.inner[e.tip.node], e.tip.port, v).Some?
    requires Visit(c, s, e.tip.node, WriteTip(s.ports.inner[e.tip.node], e.tip.port, v).value).Some?
    ensures Effect(c, s, Visit(c, s, e.tip.node,
                     WriteTip(s.ports.inner[e.tip.node], e.tip.port, v).value).value, e)
  {
    StoreAndVisit(c, s, e.tip.node, e.tip.port, v);
    var t := Visit(c, s, e.tip.node, WriteTip(s.ports.inner[e.tip.node], e.tip.port, v).value).value;
    if e.tail.Inner? {
      assert NodeGrows(c.nodes[e.tail.node], s.ports.inner[e.tail.node], t.ports.inner[e.tail.node]);
    }
    assert Joined(c, t.ports, e);
  }

  /** What reading the tail of e does to the ports: at most a body-in port is noted or the tail
      node settled. */
  ghost predicate TailEffect(c: Code, p: Ports, q: Ports, e: Edge)
    requires c.Block?
  {
    && NodesOk(c, q) && BodyInOk(c, q) && Grows(c, p, q)
    && (forall x: End :: x.Inner? && (x.port.In? || x.port.Init?) ==> EndSlot(q, x) == EndSlot(p, x))
    && (forall j: nat :: j < |c.nodes| && !Touches(e, j) ==> q.inner[j] == p.inner[j])
  }

  lemma TailThenTip(c: Code, s: Progress, p: Ports, t: Progress, e: Edge)
    requires c.Block? && e.tip.Inner? && TailEffect(c, s.ports, p, e)
    requires Effect(c, s.(ports := p), t, e)
    ensures Effect(c, s, t, e)
  {
    GrowsTrans(c, s.ports, p, t.ports);
  }

  lemma NoteEffect(c: Code, p: Ports, e: Edge, v: Storage)
    requires c.Block? && NodesOk(c, p) && BodyInOk(c, p) && e.tail.Own?
    requires OwnTail(c, p, e.tail.port) == Some(v)
    ensures var q := NoteBodyIn(p, e.tail.port, v);
            q.inner == p.inner && TailEffect(c, p, q, e) && TailReady(c, q, e, v)
  {
  }

  lemma InEffect(c: Code, s: Progress, e: Edge)
    requires c.Block? && NodesOk(c, s.ports) && BodyInOk(c, s.ports) && Fills(e)
    requires EndSlot(s.ports, e.tip) == None && InStep(c, s, e).Some?
    requires c.kind == Plain ==> e.tip.port.In?
    ensures Effect(c, s, InStep(c, s, e).value, e)
  {
    var v := OwnTail(c, s.ports, e.tail.port).value;
    var p := NoteBodyIn(s.ports, e.tail.port, v);
    NoteEffect(c, s.ports, e, v);
    TipEffect(c, s.(ports := p), e, v);
    TailThenTip(c, s, p, InStep(c, s, e).value, e);
  }

  lemma ReadEffect(c: Code, p: Ports, e: Edge)
    requires c.Block? && NodesOk(c, p) && BodyInOk(c, p) && ReadTail(c, p, e.tail).Some?
    ensures var (q, v) := ReadTail(c, p, e.tail).value;
            TailEffect(c, p, q, e) && TailReady(c, q, e, v)
  {
    if e.tail.Inner? {
      WakeSettles(c, p, e.tail.node, e.tail.port.i);
    }
  }

  lemma InternalEffect(c: Code, s: Progress, e: Edge)
    requires c.Block? && NodesOk(c, s.ports) && BodyInOk(c, s.ports) && Fills(e)
    requires EndSlot(s.ports, e.tip) == None && InternalStep(c, s, e).Some?
    ensures Effect(c, s, InternalStep(c, s, e).value, e)
  {
    var (p, v) := ReadTail(c, s.ports, e.tail).value;
    ReadEffect(c, s.ports, e);
    TipEffect(c, s.(ports := p), e, v);
    TailThenTip(c, s, p, InternalStep(c, s, e).value, e);
  }

  // ---------------------------------------------------------------- the loops

  /** After the edges `done` and before the edges `todo`. */
  ghost predicate Inv(c: Code, s: Progress, done: seq<Edge>, todo: seq<Edge>)
    requires c.Block?
  {
    && NodesOk(c, s.ports) && BodyInOk(c, s.ports)
    && (forall e :: e in done ==> Fills(e) && Joined(c, s.ports, e))
    && (forall e :: e in done ==> e.tip.node in s.partial || DoneAt(c, s.ports, e.tip.node))
    && (forall e :: e in todo ==> Fills(e) && EndSlot(s.ports, e.tip) == None)
    && (forall j :: 0 <= j < |c.nodes| ==>
          TouchedBy(done, j) || s.ports.inner[j] == Blank(c.nodes[j]))
  }

  lemma InvStep(c: Code, s: Progress, t: Progress, done: seq<Edge>, e: Edge, todo: seq<Edge>)
    requires c.Block? && Inv(c, s, done, [e] + todo) && e.tip.Inner? && Effect(c, s, t, e)
    requires forall d :: d in todo ==> d.tip != e.tip
    ensures Inv(c, t, done + [e], todo)
  {
    assert e in [e] + todo && forall d :: d in todo ==> d in [e] + todo;
    forall d | d in done
      ensures Joined(c, t.ports, d) && (d.tip.node in t.partial || DoneAt(c, t.ports, d.tip.node))
    {
      JoinedGrows(c, s.ports, t.ports, d);
      if DoneAt(c, s.ports, d.tip.node) {
        assert NodeGrows(c.nodes[d.tip.node], s.ports.inner[d.tip.node], t.ports.inner[d.tip.node]);
      }
    }
    forall j | 0 <= j < |c.nodes|
      ensures TouchedBy(done + [e], j) || t.ports.inner[j] == Blank(c.nodes[j])
    {
      if Touches(e, j) {
        assert e in done + [e];
      } else if TouchedBy(done, j) {
        var d :| d in done && Touches(d, j);
        assert d in done + [e];
      }
    }
  }

  lemma InvIn(c: Code, s: Progress, done: seq<Edge>, e: Edge, todo: seq<Edge>)
    requires c.Block? && Inv(c, s, done, [e] + todo) && DistinctTips([e] + todo)
    requires InStep(c, s, e).Some? && (c.kind == Plain ==> e.tip.port.In?)
    ensures Fills(e) && Effect(c, s, InStep(c, s, e).value, e)
    ensures SameShell(s.ports, InStep(c, s, e).value.ports)
    ensures Inv(c, InStep(c, s, e).value, done + [e], todo) && DistinctTips(todo)
  {
    assert e in [e] + todo;
    InEffect(c, s, e);
    InShell(c, s, e);
    TodoDistinct(e, todo);
    InvStep(c, s, InStep(c, s, e).value, done, e, todo);
  }

  lemma InvInternal(c: Code, s: Progress, done: seq<Edge>, e: Edge, todo: seq<Edge>)
    requires c.Block? && Inv(c, s, done, [e] + todo) && DistinctTips([e] + todo)
    requires InternalStep(c, s, e).Some?
    ensures Fills(e) && Effect(c, s, InternalStep(c, s, e).value, e)
    ensures SameShell(s.ports, InternalStep(c, s, e).value.ports)
    ensures Inv(c, InternalStep(c, s, e).value, done + [e], todo) && DistinctTips(todo)
  {
    assert e in [e] + todo;
    InternalEffect(c, s, e);
    InternalShell(c, s, e);
    TodoDistinct(e, todo);
    InvStep(c, s, InternalStep(c, s, e).value, done, e, todo);
  }

  lemma OneIn(c: Code, s: Progress, done: seq<Edge>, e: Edge, todo: seq<Edge>)
    requires c.Block? && Inv(c, s, done, [e] + todo) && DistinctTips([e] + todo)
    requires InStep(c, s, e).Some? && (c.kind == Plain ==> e.tip.port.In?)
    ensures Inv(c, InStep(c, s, e).value, done + [e], todo) && DistinctTips(todo)
  {
    InvIn(c, s, done, e, todo);
  }

  lemma OneInternal(c: Code, s: Progress, done: seq<Edge>, e: Edge, todo: seq<Edge>)
    requires c.Block? && Inv(c, s, done, [e] + todo) && DistinctTips([e] + todo)
    requires InternalStep(c, s, e).Some?
    ensures Inv(c, InternalStep(c, s, e).value, done + [e], todo) && DistinctTips(todo)
  {
    InvInternal(c, s, done, e, todo);
  }

  lemma {:induction false} RunInInv(c: Code, s: Progress, done: seq<Edge>, es: seq<Edge>, rest: seq<Edge>)
    requires c.Block? && Inv(c, s, done, es + rest) && DistinctTips(es + rest) && RunIn(c, s, es).Some?
    requires c.kind == Plain ==> forall e :: e in es ==> e.tip.port.In?
    ensures Inv(c, RunIn(c, s, es).value, done + es, rest)
    decreases |es|
  {
    if es == [] {
      assert es + rest == rest && done + es == done;
    } else {
      FirstOf(done, es, rest);
      OneIn(c, s, done, es[0], es[1..] + rest);
      RunInInv(c, InStep(c, s, es[0]).value, done + [es[0]], es[1..], rest);
    }
  }

  lemma FirstOf(done: seq<Edge>, es: seq<Edge>, rest: seq<Edge>)
    requires es != []
    ensures es + rest == [es[0]] + (es[1..] + rest)
    ensures (done + [es[0]]) + es[1..] == done + es
  {
  }

  lemma TodoDistinct(e: Edge, todo: seq<Edge>)
    requires DistinctTips([e] + todo)
    ensures DistinctTips(todo) && forall d :: d in todo ==> d.tip != e.tip
  {
    var all := [e] + todo;
    assert forall i :: 0 <= i < |todo| ==> todo[i] == all[i + 1];
    forall i, j | 0 <= i < j < |todo|
      ensures todo[i].tip != todo[j].tip
    {
      assert all[i + 1].tip != all[j + 1].tip;
    }
    forall d | d in todo
      ensures d.tip != e.tip
    {
      var i :| 0 <= i < |todo| && todo[i] == d;
      assert all[0].tip != all[i + 1].tip;
    }
  }

  lemma {:induction false} RunInternalInv(c: Code, s: Progress, done: seq<Edge>, es: seq<Edge>)
    requires c.Block? && Inv(c, s, done, es) && DistinctTips(es) && RunInternal(c, s, es).Some?
    ensures Inv(c, RunInternal(c, s, es).value, done + es, [])
    decreases |es|
  {
    if es == [] {
      assert done + es == done;
    } else {
      HeadOf(done, es);
      OneInternal(c, s, done, es[0], es[1..]);
      RunInternalInv(c, InternalStep(c, s, es[0]).value, done + [es[0]], es[1..]);
    }
  }

  lemma HeadOf(done: seq<Edge>, es: seq<Edge>)
    requires es != []
    ensures es == [es[0]] + es[1..]
    ensures (done + [es[0]]) + es[1..] == done + es
  {
  }
}
