module StoragePropagation {

  /** Storage (type and shape) propagation over the block-structured port graph of
      kaleido/parser/ir_nodes.py. A storage describes what flows through a port. Propagation pushes
      the storages of a block's input ports along its edges, infers the output of every operation as
      soon as its inputs are known, and recurses into map and scan blocks.

      `Code` is the part of a node propagation never changes (operation, ports, nested nodes, edges);
      `Ports` is the part it fills in. `None` as a result stands for a raised exception. */

  import opened Common

  // ---------------------------------------------------------------- storages

  datatype Number = Number(name: string, bits: nat, signed: bool)

  const FLOAT32 := Number("Real", 32, true)
  const INT32 := Number("Int", 32, true)

  datatype Storage =
    | Num(number: Number)
    | Tensor(shape: seq<int>, dtype: Number, device: string)
    | FractalTensor(element: Storage)

  type Slot = Option<Storage>

  /** The `_dtype` of a storage: what a body-in port of a parallel node sees. Numbers have none. */
  function ElementOf(s: Storage): Slot {
    match s
    case Num(_) => None
    case Tensor(_, dtype, _) => Some(Num(dtype))
    case FractalTensor(element) => Some(element)
  }

  /** FractalTensorStorage.element_type(): the storage below all levels of nesting. */
  function Innermost(s: Storage): Storage {
    if s.FractalTensor? then Innermost(s.element) else s
  }

  // ---------------------------------------------------------------- operations

  datatype Op = MatMult | Add | Mult | Tanh | Sigmoid | Index
              | Zeros(shape: seq<int>, dtype: string, device: string)

  function Arity(op: Op): nat {
    match op
    case MatMult => 2
    case Add => 2
    case Mult => 2
    case Tanh => 1
    case Sigmoid => 1
    case Index => 1
    case Zeros(_, _, _) => 0
  }

  function Full(slots: seq<Slot>): bool {
    forall i :: 0 <= i < |slots| ==> slots[i].Some?
  }

  /** Two tensors of one number type. */
  predicate SameElements(a: Storage, b: Storage) {
    a.Tensor? && b.Tensor? && a.dtype == b.dtype
  }

  /** The storage an operation gives its output port, or None when one of its checks fails. */
  function Rule(op: Op, ins: seq<Slot>, outs: nat): Slot {
    if |ins| != Arity(op) || outs != 1 || !Full(ins) then None
    else match op
      case MatMult =>
        var a, b := ins[0].value, ins[1].value;
        if SameElements(a, b) && |a.shape| == 2 && |b.shape| == 2 && a.shape[1] == b.shape[0]
        then Some(b.(shape := [a.shape[0], b.shape[1]])) else None
      case Add => if SameElements(ins[0].value, ins[1].value) then ins[0] else None
      case Mult => if SameElements(ins[0].value, ins[1].value) then ins[0] else None
      case Tanh => if ins[0].value.Tensor? then ins[0] else None
      case Sigmoid => if ins[0].value.Tensor? then ins[0] else None
      case Index => if ins[0].value.FractalTensor? then Some(Innermost(ins[0].value)) else None
      case Zeros(shape, dtype, device) =>
        if device != "cpu" && device != "cuda" then None
        else if dtype == "float" then Some(Tensor(shape, FLOAT32, device))
        else if dtype == "int" then Some(Tensor(shape, INT32, device))
        else None
  }

  /** The inference rule of matrix multiplication is associative: both bracketings of a product
      are accepted for the same operands and give the same storage. */
  lemma MatMultAssociates(a: Storage, b: Storage, c: Storage)
    ensures Rule(MatMult, [Rule(MatMult, [Some(a), Some(b)], 1), Some(c)], 1)
         == Rule(MatMult, [Some(a), Rule(MatMult, [Some(b), Some(c)], 1)], 1)
  {
    var ab, bc := Rule(MatMult, [Some(a), Some(b)], 1), Rule(MatMult, [Some(b), Some(c)], 1);
    assert ab.None? ==> Rule(MatMult, [ab, Some(c)], 1).None? by {
      assert [ab, Some(c)][0] == ab;
    }
    assert bc.None? ==> Rule(MatMult, [Some(a), bc], 1).None? by {
      assert [Some(a), bc][1] == bc;
    }
  }

  // ---------------------------------------------------------------- the graph

  /** BlockNode, ApplyToEach (map) and Aggregate (scan and folds). */
  datatype Kind = Plain | Map | Scan

  datatype PortRef = In(i: nat) | Out(i: nat) | BodyIn(i: nat) | BodyOut(i: nat)
                   | Init(i: nat) | State(i: nat)

  datatype End = Own(port: PortRef) | Inner(node: nat, port: PortRef)

  datatype Edge = Edge(tail: End, tip: End)

  datatype Code =
    | Operation(op: Op, nIn: nat, nOut: nat)
    | Block(kind: Kind, nIn: nat, nOut: nat, nInit: nat, nState: nat, nodes: seq<Code>,
            inEdges: seq<Edge>, edges: seq<Edge>, outEdges: seq<Edge>)

  datatype Ports = Ports(ins: seq<Slot>, outs: seq<Slot>, init: seq<Slot>, state: seq<Slot>,
                         bodyIn: seq<Slot>, bodyOut: seq<Slot>, inner: seq<Ports>)

  /** Is `is_inferred` defined? A plain block has no such method. */
  predicate Nestable(c: Code) {
    c.Operation? || c.kind != Plain
  }

  predicate Inferred(p: Ports) {
    Full(p.ins) && Full(p.init)
  }

  function Read(slots: seq<Slot>, i: nat): Slot {
    if i < |slots| then slots[i] else None
  }

  // ---------------------------------------------------------------- propagation

  /** The loop state: the ports, and the nodes met whose inputs are not all known (partial_nodes). */
  datatype Progress = Progress(ports: Ports, partial: set<nat>)

  function WriteTip(p: Ports, port: PortRef, v: Storage): Option<Ports> {
    match port
    case In(i) => if i < |p.ins| then Some(p.(ins := p.ins[i := Some(v)])) else None
    case Init(i) =>
      if i < |p.init| && i < |p.state|
      then Some(p.(init := p.init[i := Some(v)], state := p.state[i := Some(v)])) else None
    case State(i) => if i < |p.state| then Some(p.(state := p.state[i := Some(v)])) else None
    case _ => None
  }

  /** Store node j, then infer it if all its inputs are known. */
  function Visit(c: Code, st: Progress, j: nat, q: Ports): Option<Progress>
    requires c.Block? && j < |c.nodes| && j < |st.ports.inner|
    decreases c, 0, 0
  {
    if !Nestable(c.nodes[j]) then None
    else if Inferred(q) then
      match Propagate(c.nodes[j], q)
      case None => None
      case Some(r) =>
        Some(Progress(st.ports.(inner := st.ports.inner[j := r]), st.partial - {j}))
    else Some(Progress(st.ports.(inner := st.ports.inner[j := q]), st.partial + {j}))
  }

  /** The storage an in-edge carries. */
  function OwnTail(c: Code, p: Ports, port: PortRef): Slot
    requires c.Block?
  {
    match port
    case In(i) => Read(p.ins, i)
    case BodyIn(i) =>
      if c.kind != Plain && Read(p.ins, i).Some? then ElementOf(p.ins[i].value) else None
    case State(i) => if c.kind != Plain then Read(p.state, i) else None
    case _ => None
  }

  /** Reading a body-in port also records its storage. */
  function NoteBodyIn(p: Ports, port: PortRef, v: Storage): Ports {
    if port.BodyIn? && port.i < |p.bodyIn|
    then p.(bodyIn := p.bodyIn[port.i := Some(v)]) else p
  }

  /** An in-edge of a plain block always stores under the name of the tip in `input_ports`, so for
      a state-init port it creates a stray input port and leaves the ports modelled here alone. */
  function WriteInTip(c: Code, p: Ports, port: PortRef, v: Storage): Option<Ports>
    requires c.Block?
  {
    if port.In? then WriteTip(p, port, v)
    else if !port.Init? then None
    else if c.kind == Plain then Some(p)
    else WriteTip(p, port, v)
  }

  function InStep(c: Code, st: Progress, e: Edge): Option<Progress>
    requires c.Block?
    decreases c, 1, 0
  {
    if !e.tail.Own? || !e.tip.Inner? || e.tip.node >= |c.nodes|
       || e.tip.node >= |st.ports.inner| then None
    else
      match OwnTail(c, st.ports, e.tail.port)
      case None => None
      case Some(v) =>
        var noted := st.(ports := NoteBodyIn(st.ports, e.tail.port, v));
        match WriteInTip(c, noted.ports.inner[e.tip.node], e.tip.port, v)
        case None => None
        case Some(q) => Visit(c, noted, e.tip.node, q)
  }

  /** Make sure output i of node k is known. A node that no edge flows into (zeros) is inferred
      only here, when one of its outputs is first read. */
  function Wake(c: Code, p: Ports, k: nat, i: nat): Option<Ports>
    requires c.Block?
    decreases c, 0, 0
  {
    if k >= |c.nodes| || k >= |p.inner| || !Nestable(c.nodes[k]) || !Inferred(p.inner[k])
       || i >= |p.inner[k].outs| then None
    else if p.inner[k].outs[i].Some? then Some(p)
    else
      match Propagate(c.nodes[k], p.inner[k])
      case None => None
      case Some(r) => Some(p.(inner := p.inner[k := r]))
  }

  /** The ports after reading the tail of an internal edge, and what was read. */
  function ReadTail(c: Code, p: Ports, tail: End): Option<(Ports, Storage)>
    requires c.Block?
    decreases c, 0, 1
  {
    match tail
    case Own(In(i)) => if Read(p.ins, i).Some? then Some((p, p.ins[i].value)) else None
    case Own(State(i)) => if Read(p.state, i).Some? then Some((p, p.state[i].value)) else None
    case Inner(k, Out(i)) =>
      (match Wake(c, p, k, i)
       case None => None
       case Some(q) =>
         if k < |q.inner| && Read(q.inner[k].outs, i).Some?
         then Some((q, q.inner[k].outs[i].value)) else None)
    case _ => None
  }

  function InternalStep(c: Code, st: Progress, e: Edge): Option<Progress>
    requires c.Block?
    decreases c, 1, 0
  {
    match ReadTail(c, st.ports, e.tail)
    case None => None
    case Some((p, v)) =>
      if !e.tip.Inner? || e.tip.node >= |c.nodes| || e.tip.node >= |p.inner| then None
      else
        match WriteTip(p.inner[e.tip.node], e.tip.port, v)
        case None => None
        case Some(q) => Visit(c, st.(ports := p), e.tip.node, q)
  }

  function OutStep(c: Code, p: Ports, e: Edge): Option<Ports>
    requires c.Block?
  {
    if e.tail.Own? || !e.tail.port.Out? || e.tail.node >= |p.inner|
       || e.tail.port.i >= |p.inner[e.tail.node].outs| || e.tip.Inner? then None
    else
      var slot := p.inner[e.tail.node].outs[e.tail.port.i];
      var t := e.tip.port.i;
      if t >= |p.outs| then None
      else if c.kind == Plain then
        if e.tip.port.Out? then Some(p.(outs := p.outs[t := slot])) else None
      else if e.tip.port.BodyOut? && t < |p.bodyOut| && slot.Some? then
        Some(p.(bodyOut := p.bodyOut[t := slot],
                outs := p.outs[t := Some(FractalTensor(slot.value))]))
      else None
  }

  function RunIn(c: Code, st: Progress, es: seq<Edge>): Option<Progress>
    requires c.Block?
    decreases c, 2, |es|
  {
    if es == [] then Some(st)
    else match InStep(c, st, es[0])
      case None => None
      case Some(next) => RunIn(c, next, es[1..])
  }

  function RunInternal(c: Code, st: Progress, es: seq<Edge>): Option<Progress>
    requires c.Block?
    decreases c, 2, |es|
  {
    if es == [] then Some(st)
    else match InternalStep(c, st, es[0])
      case None => None
      case Some(next) => RunInternal(c, next, es[1..])
  }

  function RunOut(c: Code, p: Ports, es: seq<Edge>): Option<Ports>
    requires c.Block?
    decreases |es|
  {
    if es == [] then Some(p)
    else match OutStep(c, p, es[0])
      case None => None
      case Some(next) => RunOut(c, next, es[1..])
  }

  /** The two loops that fill in the nested nodes, and the check that none is left partial. */
  function Fill(c: Code, p: Ports): Option<Ports>
    requires c.Block?
    decreases c, 3, 0
  {
    match RunIn(c, Progress(p, {}), c.inEdges)
    case None => None
    case Some(st) =>
      match RunInternal(c, st, c.edges)
      case None => None
      case Some(end) => if end.partial == {} then Some(end.ports) else None
  }

  function Propagate(c: Code, p: Ports): Option<Ports>
    decreases c, 4, 0
  {
    match c
    case Operation(op, _, _) =>
      (match Rule(op, p.ins, |p.outs|)
       case None => None
       case Some(v) => Some(p.(outs := [Some(v)])))
    case Block(_, _, _, _, _, _, _, _, outEdges) =>
      if !Full(p.ins) then None
      else match Fill(c, p)
        case None => None
        case Some(q) => RunOut(c, q, outEdges)
  }

  // ---------------------------------------------------------------- the code

  /** A node with its storages. The ports are filled in place; nested nodes are taken out of the
      record, propagated and put back. */
  class Node {
    const code: Code
    var ports: Ports

    constructor (code: Code, ports: Ports)
      ensures this.code == code && this.ports == ports
    {
      this.code := code;
      this.ports := ports;
    }

    /** propagate_storage of nested node j. */
    method PropagateInner(j: nat) returns (ok: bool)
      requires code.Block? && j < |code.nodes| && j < |ports.inner|
      modifies this
      ensures ok == Propagate(code.nodes[j], old(ports.inner[j])).Some?
      ensures ok ==> ports == old(ports).(inner := old(ports).inner[j :=
                       Propagate(code.nodes[j], old(ports.inner[j])).value])
      ensures !ok ==> ports == old(ports)
      decreases code, 0
    {
      var child := new Node(code.nodes[j], ports.inner[j]);
      ok := child.PropagateStorage();
      if ok {
        ports := ports.(inner := ports.inner[j := child.ports]);
      }
    }

    /** The tail end of both loops: infer node j if its inputs are known, and keep `partial`. */
    method VisitTip(j: nat, partial: set<nat>) returns (ok: bool, left: set<nat>)
      requires code.Block? && j < |code.nodes| && j < |ports.inner|
      modifies this
      ensures var r := Visit(code, Progress(old(ports), partial), j, old(ports.inner[j]));
              ok == r.Some? && (ok ==> r.value == Progress(ports, left))
      decreases code, 1
    {
      ok, left := Nestable(code.nodes[j]), partial;
      if ok && Inferred(ports.inner[j]) {
        ok := PropagateInner(j);
        left := left - {j};
      } else if ok {
        left := left + {j};
      }
      assert old(ports) == old(ports).(inner := old(ports).inner[j := old(ports.inner[j])]);
    }

    method PropagateOverInEdges() returns (ok: bool, partial: set<nat>)
      requires code.Block?
      modifies this
      ensures var r := RunIn(code, Progress(old(ports), {}), code.inEdges);
              ok == r.Some? && (ok ==> r.value == Progress(ports, partial))
      decreases code, 2
    {
      ok, partial := true, {};
      var n := 0;
      while n < |code.inEdges|
        invariant n <= |code.inEdges|
        invariant RunIn(code, Progress(ports, partial), code.inEdges[n..])
               == RunIn(code, Progress(old(ports), {}), code.inEdges)
      {
        var e := code.inEdges[n];
        assert code.inEdges[n..][0] == e && code.inEdges[n..][1..] == code.inEdges[n + 1..];
        ghost var before := Progress(ports, partial);
        if !e.tail.Own? || !e.tip.Inner? || e.tip.node >= |code.nodes|
           || e.tip.node >= |ports.inner| {
          ok := false;
          return;
        }
        var v := OwnTail(code, ports, e.tail.port);
        if v.None? {
          ok := false;
          return;
        }
        ports := NoteBodyIn(ports, e.tail.port, v.value);
        var q := WriteInTip(code, ports.inner[e.tip.node], e.tip.port, v.value);
        if q.None? {
          ok := false;
          return;
        }
        ghost var noted := ports;
        ports := ports.(inner := ports.inner[e.tip.node := q.value]);
        VisitIsFresh(code, Progress(noted, partial), e.tip.node, q.value);
        ok, partial := VisitTip(e.tip.node, partial);
        assert InStep(code, before, e).Some? == ok;
        if !ok {
          return;
        }
        n := n + 1;
      }
    }

    method PropagateOverInternalEdges(partial0: set<nat>) returns (ok: bool, partial: set<nat>)
      requires code.Block?
      modifies this
      ensures var r := RunInternal(code, Progress(old(ports), partial0), code.edges);
              ok == r.Some? && (ok ==> r.value == Progress(ports, partial))
      decreases code, 2
    {
      ok, partial := true, partial0;
      var n := 0;
      while n < |code.edges|
        invariant n <= |code.edges|
        invariant RunInternal(code, Progress(ports, partial), code.edges[n..])
               == RunInternal(code, Progress(old(ports), partial0), code.edges)
      {
        var e := code.edges[n];
        assert code.edges[n..][0] == e && code.edges[n..][1..] == code.edges[n + 1..];
        ghost var before := Progress(ports, partial);
        var v;
        ok, v := ReadStorage(e.tail);
        if !ok || !e.tip.Inner? || e.tip.node >= |code.nodes| || e.tip.node >= |ports.inner| {
          ok := false;
          return;
        }
        var q := WriteTip(ports.inner[e.tip.node], e.tip.port, v);
        if q.None? {
          ok := false;
          return;
        }
        ghost var woken := ports;
        ports := ports.(inner := ports.inner[e.tip.node := q.value]);
        VisitIsFresh(code, Progress(woken, partial), e.tip.node, q.value);
        ok, partial := VisitTip(e.tip.node, partial);
        assert InternalStep(code, before, e).Some? == ok;
        if !ok {
          return;
        }
        n := n + 1;
      }
    }

    /** The first half of the loop over internal edges: the storage at the tail. */
    method ReadStorage(tail: End) returns (ok: bool, v: Storage)
      requires code.Block?
      modifies this
      ensures ok == ReadTail(code, old(ports), tail).Some?
      ensures ok ==> ReadTail(code, old(ports), tail).value == (ports, v)
      decreases code, 1
    {
      ok, v := false, Num(FLOAT32);
      if tail.Inner? {
        var k := tail.node;
        if !tail.port.Out? || k >= |code.nodes| || k >= |ports.inner| {
          return;
        }
        var i := tail.port.i;
        if !Nestable(code.nodes[k]) || !Inferred(ports.inner[k]) || i >= |ports.inner[k].outs| {
          return;
        }
        if ports.inner[k].outs[i].None? {
          var woken := PropagateInner(k);
          if !woken {
            return;
          }
        }
        var slot := Read(ports.inner[k].outs, i);
        if slot.Some? {
          ok, v := true, slot.value;
        }
      } else {
        var slot := None;
        if tail.port.In? {
          slot := Read(ports.ins, tail.port.i);
        } else if tail.port.State? {
          slot := Read(ports.state, tail.port.i);
        }
        if slot.Some? {
          ok, v := true, slot.value;
        }
      }
    }

    method PropagateOverOutEdges() returns (ok: bool)
      requires code.Block?
      modifies this
      ensures ok == RunOut(code, old(ports), code.outEdges).Some?
      ensures ok ==> RunOut(code, old(ports), code.outEdges) == Some(ports)
      decreases code, 2
    {
      var n := 0;
      while n < |code.outEdges|
        invariant n <= |code.outEdges|
        invariant RunOut(code, ports, code.outEdges[n..])
               == RunOut(code, old(ports), code.outEdges)
      {
        var e := code.outEdges[n];
        assert code.outEdges[n..][0] == e && code.outEdges[n..][1..] == code.outEdges[n + 1..];
        var next := OutStep(code, ports, e);
        if next.None? {
          return false;
        }
        ports := next.value;
        n := n + 1;
      }
      return true;
    }

    method PropagateStorage() returns (ok: bool)
      modifies this
      ensures ok == Propagate(code, old(ports)).Some?
      ensures ok ==> Propagate(code, old(ports)) == Some(ports)
      decreases code, 3
    {
      if code.Operation? {
        var v := Rule(code.op, ports.ins, |ports.outs|);
        if v.Some? {
          ports := ports.(outs := [v]);
        }
        return v.Some?;
      }
      if !Full(ports.ins) {
        return false;
      }
      var partial;
      ok, partial := PropagateOverInEdges();
      if ok {
        ok, partial := PropagateOverInternalEdges(partial);
      }
      if ok && partial != {} {
        ok := false;
      }
      if ok {
        ok := PropagateOverOutEdges();
      }
    }
  }

  /** Visiting a node just stored is visiting it with its ports in hand. */
  lemma VisitIsFresh(c: Code, st: Progress, j: nat, q: Ports)
    requires c.Block? && j < |c.nodes| && j < |st.ports.inner|
    ensures Visit(c, st.(ports := st.ports.(inner := st.ports.inner[j := q])), j, q)
         == Visit(c, st, j, q)
  {
    var r := Propagate(c.nodes[j], q);
    assert st.ports.inner[j := q][j := q] == st.ports.inner[j := q];
    assert r.Some? ==> st.ports.inner[j := q][j := r.value] == st.ports.inner[j := r.value];
  }
}
