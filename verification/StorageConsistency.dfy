/** What a successful run of propagation establishes, in terms of the graph alone: every edge
    joins ports of equal storage, every operation output is its inference rule applied to its
    inputs, every state port equals its initialiser, and the outcome does not depend on the order
    in which the edges were added. */
module StorageConsistency {

  import opened Common
  import opened StoragePropagation

  // ---------------------------------------------------------------- nodes before and after

  function NIn(c: Code): nat { c.nIn }

  function NInit(c: Code): nat { if c.Block? then c.nInit else 0 }

  function NState(c: Code): nat { if c.Block? then c.nState else 0 }

  function Blanks(n: nat): (r: seq<Slot>)
    ensures |r| == n && forall i :: 0 <= i < n ==> r[i] == None
  {
    seq(n, _ => None)
  }

  /** Each state port takes the storage of the state-init port at its position. */
  function StateOf(init: seq<Slot>, n: nat): (r: seq<Slot>)
    ensures |r| == n && forall i :: 0 <= i < n ==> r[i] == Read(init, i)
  {
    seq(n, i requires 0 <= i < n => Read(init, i))
  }

  /** A node whose inputs and initialisers hold `ins` and `init` and which is otherwise untouched. */
  function Started(c: Code, ins: seq<Slot>, init: seq<Slot>): Ports
    decreases c
  {
    if c.Operation? then Ports(ins, Blanks(c.nOut), init, StateOf(init, 0), [], [], [])
    else
      Ports(ins, Blanks(c.nOut), init, StateOf(init, c.nState), Blanks(c.nIn), Blanks(c.nOut),
            seq(|c.nodes|, j requires 0 <= j < |c.nodes| =>
              Started(c.nodes[j], Blanks(NIn(c.nodes[j])), Blanks(NInit(c.nodes[j])))))
  }

  /** As a freshly built node. */
  function Blank(c: Code): Ports {
    Started(c, Blanks(NIn(c)), Blanks(NInit(c)))
  }

  predicate Sized(c: Code, p: Ports) {
    |p.ins| == NIn(c) && |p.init| == NInit(c)
  }

  /** Nothing but inputs has been stored in the node. */
  predicate Waiting(c: Code, p: Ports) {
    Sized(c, p) && p == Started(c, p.ins, p.init)
  }

  /** The node's ports are the outcome of propagating its inputs, once. */
  predicate Done(c: Code, p: Ports) {
    Sized(c, p) && Inferred(p) && Propagate(c, Started(c, p.ins, p.init)) == Some(p)
  }

  predicate NodeOk(c: Code, p: Ports) {
    Waiting(c, p) || Done(c, p)
  }

  // ---------------------------------------------------------------- edges

  function PortSlot(p: Ports, r: PortRef): Slot {
    match r
    case In(i) => Read(p.ins, i)
    case Out(i) => Read(p.outs, i)
    case BodyIn(i) => Read(p.bodyIn, i)
    case BodyOut(i) => Read(p.bodyOut, i)
    case Init(i) => Read(p.init, i)
    case State(i) => Read(p.state, i)
  }

  function EndSlot(p: Ports, end: End): Slot {
    match end
    case Own(r) => PortSlot(p, r)
    case Inner(k, r) => if k < |p.inner| then PortSlot(p.inner[k], r) else None
  }

  /** Both ends hold the same, known, storage; a body-in end holds the element of its input port. */
  predicate Joins(p: Ports, e: Edge) {
    && EndSlot(p, e.tip).Some?
    && EndSlot(p, e.tip) == EndSlot(p, e.tail)
    && (e.tail.Own? && e.tail.port.BodyIn? ==>
          Read(p.ins, e.tail.port.i).Some?
          && EndSlot(p, e.tail) == ElementOf(Read(p.ins, e.tail.port.i).value))
  }

  /** What an out-edge leaves behind. A parallel node wraps each result in one more level. */
  predicate OutJoins(c: Code, p: Ports, e: Edge)
    requires c.Block?
  {
    if c.kind == Plain then EndSlot(p, e.tip) == EndSlot(p, e.tail)
    else
      && e.tip.Own? && e.tip.port.BodyOut?
      && EndSlot(p, e.tail).Some?
      && EndSlot(p, e.tip) == EndSlot(p, e.tail)
      && Read(p.outs, e.tip.port.i) == Some(FractalTensor(EndSlot(p, e.tail).value))
  }

  /** Some edge flows into node j, or an internal edge flows out of it. */
  predicate TouchedBy(es: seq<Edge>, j: nat) {
    exists e :: e in es && Touches(e, j)
  }

  predicate Touches(e: Edge, j: nat) {
    (e.tip.Inner? && e.tip.node == j) || (e.tail.Inner? && e.tail.node == j)
  }

  predicate Touched(c: Code, j: nat)
    requires c.Block?
  {
    TouchedBy(c.inEdges + c.edges, j)
  }

  /** The storages of a whole program agree. */
  predicate Consistent(c: Code, p: Ports)
    decreases c
  {
    if c.Operation? then
      |p.outs| == 1 && p.outs[0].Some? && p.outs[0] == Rule(c.op, p.ins, 1)
    else
      && |p.inner| == |c.nodes|
      && (forall e :: e in c.inEdges + c.edges ==> Joins(p, e))
      && (forall e :: e in c.outEdges ==> OutJoins(c, p, e))
      && p.state == StateOf(p.init, c.nState)
      && forall j :: 0 <= j < |c.nodes| ==>
           if Touched(c, j) then Inferred(p.inner[j]) && Consistent(c.nodes[j], p.inner[j])
           else p.inner[j] == Blank(c.nodes[j])
  }

  // ---------------------------------------------------------------- well-formed graphs

  predicate DistinctTips(es: seq<Edge>) {
    forall i, j :: 0 <= i < j < |es| ==> es[i].tip != es[j].tip
  }

  /** The tip of an edge is an input or state-init port of a nested node (_check_tip). */
  predicate Fills(e: Edge) {
    e.tip.Inner? && (e.tip.port.In? || e.tip.port.Init?)
  }

  /** Every tip port has one incoming edge, at every level. */
  predicate WellFormed(c: Code)
    decreases c
  {
    c.Block? ==>
      && DistinctTips(c.inEdges + c.edges)
      && DistinctTips(c.outEdges)
      && (forall e :: e in c.inEdges + c.edges ==> Fills(e))
      && (c.kind == Plain ==> forall e :: e in c.inEdges ==> e.tip.port.In?)
      && forall j :: 0 <= j < |c.nodes| ==> WellFormed(c.nodes[j])
  }

  // ---------------------------------------------------------------- frames

  /** What filling in the nested nodes leaves alone. */
  predicate SameShell(p: Ports, q: Ports) {
    && q.ins == p.ins && q.init == p.init && q.state == p.state
    && q.outs == p.outs && q.bodyOut == p.bodyOut
    && |q.bodyIn| == |p.bodyIn| && |q.inner| == |p.inner|
  }

  /** Visiting a node stores it, inferred or not, and touches nothing else. */
  lemma VisitStores(c: Code, st: Progress, j: nat, q: Ports)
    requires c.Block? && j < |c.nodes| && j < |st.ports.inner|
    requires Visit(c, st, j, q).Some?
    ensures var next := Visit(c, st, j, q).value;
            if Inferred(q)
            then Propagate(c.nodes[j], q).Some?
                 && next == Progress(st.ports.(inner := st.ports.inner[j :=
                              Propagate(c.nodes[j], q).value]), st.partial - {j})
            else next == Progress(st.ports.(inner := st.ports.inner[j := q]), st.partial + {j})
  {
  }

  lemma InShell(c: Code, st: Progress, e: Edge)
    requires c.Block? && InStep(c, st, e).Some?
    ensures SameShell(st.ports, InStep(c, st, e).value.ports)
  {
    var v := OwnTail(c, st.ports, e.tail.port).value;
    var noted := st.(ports := NoteBodyIn(st.ports, e.tail.port, v));
    VisitStores(c, noted, e.tip.node, WriteInTip(c, noted.ports.inner[e.tip.node], e.tip.port, v).value);
  }

  lemma ReadShell(c: Code, p: Ports, tail: End)
    requires c.Block? && ReadTail(c, p, tail).Some?
    ensures var q := ReadTail(c, p, tail).value.0;
            q == p.(inner := q.inner) && |q.inner| == |p.inner|
  {
    if tail.Inner? {
      var q := Wake(c, p, tail.node, tail.port.i).value;
      assert q == p || q == p.(inner := p.inner[tail.node := q.inner[tail.node]]);
    }
  }

  lemma InternalShell(c: Code, st: Progress, e: Edge)
    requires c.Block? && InternalStep(c, st, e).Some?
    ensures SameShell(st.ports, InternalStep(c, st, e).value.ports)
    ensures InternalStep(c, st, e).value.ports.bodyIn == st.ports.bodyIn
  {
    ReadShell(c, st.ports, e.tail);
    var (p, v) := ReadTail(c, st.ports, e.tail).value;
    VisitStores(c, st.(ports := p), e.tip.node, WriteTip(p.inner[e.tip.node], e.tip.port, v).value);
  }

  lemma {:induction false} RunInShell(c: Code, st: Progress, es: seq<Edge>)
    requires c.Block? && RunIn(c, st, es).Some?
    ensures SameShell(st.ports, RunIn(c, st, es).value.ports)
    decreases |es|
  {
    if es != [] {
      InShell(c, st, es[0]);
      RunInShell(c, InStep(c, st, es[0]).value, es[1..]);
    }
  }

  lemma {:induction false} RunInternalShell(c: Code, st: Progress, es: seq<Edge>)
    requires c.Block? && RunInternal(c, st, es).Some?
    ensures SameShell(st.ports, RunInternal(c, st, es).value.ports)
    ensures RunInternal(c, st, es).value.ports.bodyIn == st.ports.bodyIn
    decreases |es|
  {
    if es != [] {
      InternalShell(c, st, es[0]);
      RunInternalShell(c, InternalStep(c, st, es[0]).value, es[1..]);
    }
  }

  lemma FillShell(c: Code, p: Ports)
    requires c.Block? && Fill(c, p).Some?
    ensures SameShell(p, Fill(c, p).value)
  {
    RunInShell(c, Progress(p, {}), c.inEdges);
    RunInternalShell(c, RunIn(c, Progress(p, {}), c.inEdges).value, c.edges);
  }

  /** What the out-edges leave alone. */
  predicate SameInside(p: Ports, q: Ports) {
    && q.ins == p.ins && q.init == p.init && q.state == p.state
    && q.bodyIn == p.bodyIn && q.inner == p.inner
    && |q.outs| == |p.outs| && |q.bodyOut| == |p.bodyOut|
  }

  lemma {:induction false} RunOutInside(c: Code, p: Ports, es: seq<Edge>)
    requires c.Block? && RunOut(c, p, es).Some?
    ensures SameInside(p, RunOut(c, p, es).value)
    decreases |es|
  {
    if es != [] {
      RunOutInside(c, OutStep(c, p, es[0]).value, es[1..]);
    }
  }

  /** Propagation reads a node's inputs and initialisers and never changes them. */
  lemma PropagateKeepsInputs(c: Code, p: Ports)
    requires Propagate(c, p).Some?
    ensures var q := Propagate(c, p).value;
            q.ins == p.ins && q.init == p.init && q.state == p.state && |q.outs| == |p.outs|
  {
    if c.Block? {
      FillShell(c, p);
      RunOutInside(c, Fill(c, p).value, c.outEdges);
    }
  }
}
