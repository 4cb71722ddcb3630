module StorageLaws {

  /** What propagation does, port by port, in terms of the storages alone. */

  import opened Common
  import opened StoragePropagation
  import opened StorageConsistency
  import opened StorageMeaning
  import opened StorageOrder

  // ---------------------------------------------------------------- inside a block

  /** The body of a map or scan sees the elements of what is passed in: of a FractalTensor the list
      one level down, of a tensor a number of its type. Anything else is refused. */
  lemma BodySeesElement(c: Code, ins: seq<Slot>, init: seq<Slot>, q: Ports, e: Edge, i: nat)
    requires c.Block? && c.kind != Plain && Ran(c, ins, init, q)
    requires e in c.inEdges && e.tail == Own(BodyIn(i)) && e.tip.Inner?
    ensures i < |ins| && ins[i].Some?
    ensures match ins[i].value
            case FractalTensor(element) => EndSlot(q, e.tip) == Some(element)
            case Tensor(_, dtype, _) => EndSlot(q, e.tip) == Some(Num(dtype))
            case Num(_) => false
  {
    BlockSettles(c, ins, init);
    assert e in c.inEdges + c.edges && Joins(q, e);
  }

  /** Each result of a map or scan is one level more deeply nested than what its body computes. */
  lemma ResultIsWrapped(c: Code, ins: seq<Slot>, init: seq<Slot>, q: Ports, e: Edge, k: nat, j: nat, t: nat)
    requires c.Block? && c.kind != Plain && Ran(c, ins, init, q)
    requires e in c.outEdges && e == Edge(Inner(k, Out(j)), Own(BodyOut(t)))
    ensures k < |q.inner| && j < |q.inner[k].outs| && q.inner[k].outs[j].Some?
    ensures t < |q.outs| && q.outs[t] == Some(FractalTensor(q.inner[k].outs[j].value))
  {
    BlockSettles(c, ins, init);
    OutOutcome(c, ins, init, q, t);
    assert OutJoins(c, q, e);
  }

  /** An edge carries the storage of the port it leaves to the port it enters. */
  lemma InputIsCarried(c: Code, ins: seq<Slot>, init: seq<Slot>, q: Ports, i: nat, k: nat, j: nat)
    requires c.Block? && Ran(c, ins, init, q)
    requires Edge(Own(In(i)), Inner(k, In(j))) in c.inEdges + c.edges
    ensures i < |ins| && ins[i].Some? && k < |q.inner| && j < |q.inner[k].ins| && q.inner[k].ins[j] == ins[i]
  {
    BlockSettles(c, ins, init);
    assert Joins(q, Edge(Own(In(i)), Inner(k, In(j))));
  }

  lemma OutputIsCarried(c: Code, ins: seq<Slot>, init: seq<Slot>, q: Ports, k: nat, i: nat, m: nat, j: nat)
    requires c.Block? && Ran(c, ins, init, q)
    requires Edge(Inner(k, Out(i)), Inner(m, In(j))) in c.inEdges + c.edges
    ensures k < |q.inner| && i < |q.inner[k].outs| && q.inner[k].outs[i].Some?
    ensures m < |q.inner| && j < |q.inner[m].ins| && q.inner[m].ins[j] == q.inner[k].outs[i]
  {
    BlockSettles(c, ins, init);
    assert Joins(q, Edge(Inner(k, Out(i)), Inner(m, In(j))));
  }

  /** A result of a plain block has what its source has. */
  lemma ResultIsCarried(c: Code, ins: seq<Slot>, init: seq<Slot>, q: Ports, k: nat, j: nat, t: nat)
    requires c.Block? && c.kind == Plain && Ran(c, ins, init, q)
    requires Edge(Inner(k, Out(j)), Own(Out(t))) in c.outEdges
    ensures k < |q.inner| && j < |q.inner[k].outs| && t < |q.outs| && q.outs[t] == q.inner[k].outs[j]
  {
    var e := Edge(Inner(k, Out(j)), Own(Out(t)));
    BlockSettles(c, ins, init);
    OutOutcome(c, ins, init, q, t);
    assert OutJoins(c, q, e) && OutTail(q, e);
    FilledThenOut(c, ins, init, q);
    OutTipExists(c, Fill(c, Started(c, ins, init)).value, c.outEdges, e);
    RunOutInside(c, Fill(c, Started(c, ins, init)).value, c.outEdges);
  }

  lemma {:induction false} OutTipExists(c: Code, p: Ports, es: seq<Edge>, e: Edge)
    requires c.Block? && RunOut(c, p, es).Some? && e in es
    ensures e.tip.Own? && e.tip.port.i < |p.outs|
    decreases |es|
  {
    assert es == [es[0]] + es[1..];
    if e != es[0] {
      OutTipExists(c, OutStep(c, p, es[0]).value, es[1..], e);
    }
  }

  /** What flows into a state initialiser of a nested block becomes its state. */
  lemma InitIsCarried(c: Code, ins: seq<Slot>, init: seq<Slot>, q: Ports, k: nat, i: nat, m: nat, j: nat)
    requires c.Block? && Ran(c, ins, init, q)
    requires Edge(Inner(k, Out(i)), Inner(m, Init(j))) in c.inEdges + c.edges
    ensures k < |q.inner| && i < |q.inner[k].outs| && q.inner[k].outs[i].Some?
    ensures m < |q.inner| && j < |q.inner[m].init| && q.inner[m].init[j] == q.inner[k].outs[i]
    ensures j < |q.inner[m].state| ==> q.inner[m].state[j] == q.inner[m].init[j]
  {
    var e := Edge(Inner(k, Out(i)), Inner(m, Init(j)));
    BlockSettles(c, ins, init);
    assert Joins(q, e) && Touches(e, m) && Touched(c, m) && Done(c.nodes[m], q.inner[m]);
    PropagateKeepsInputs(c.nodes[m], Started(c.nodes[m], q.inner[m].ins, q.inner[m].init));
  }

  /** What initialises a state is what the body reads as the state. */
  lemma StateIsCarried(c: Code, ins: seq<Slot>, init: seq<Slot>, q: Ports, i: nat, k: nat, j: nat)
    requires c.Block? && Ran(c, ins, init, q) && i < |init|
    requires Edge(Own(State(i)), Inner(k, In(j))) in c.inEdges + c.edges
    ensures init[i].Some? && k < |q.inner| && j < |q.inner[k].ins| && q.inner[k].ins[j] == init[i]
  {
    BlockSettles(c, ins, init);
    assert Joins(q, Edge(Own(State(i)), Inner(k, In(j))));
  }

  /** A nested operation that an edge reaches has its result inferred from its operands. */
  lemma OperationIsInferred(c: Code, ins: seq<Slot>, init: seq<Slot>, q: Ports, k: nat)
    requires c.Block? && Ran(c, ins, init, q) && k < |c.nodes| && c.nodes[k].Operation? && Touched(c, k)
    ensures k < |q.inner| && |q.inner[k].outs| == 1 && q.inner[k].outs[0].Some?
    ensures q.inner[k].outs[0] == Rule(c.nodes[k].op, q.inner[k].ins, 1)
  {
    BlockSettles(c, ins, init);
    assert Done(c.nodes[k], q.inner[k]);
  }

  // ---------------------------------------------------------------- the rules

  /** Matrix multiplication: m x k times k x n is m x n, for one number type, and nothing else. */
  lemma MatMultRule(m: int, k: int, l: int, n: int, a: Number, b: Number, da: string, db: string)
    ensures Rule(MatMult, [Some(Tensor([m, k], a, da)), Some(Tensor([l, n], b, db))], 1)
         == if k == l && a == b then Some(Tensor([m, n], b, db)) else None
  {
  }

  /** Constants have 32-bit numbers, "float" being real and "int" integral, on "cpu" or "cuda". */
  lemma ZerosRule(shape: seq<int>, device: string)
    requires device == "cpu" || device == "cuda"
    ensures Rule(Zeros(shape, "float", device), [], 1) == Some(Tensor(shape, Number("Real", 32, true), device))
    ensures Rule(Zeros(shape, "int", device), [], 1) == Some(Tensor(shape, Number("Int", 32, true), device))
  {
  }

  /** Indexing gives the storage below all levels of nesting. */
  lemma {:induction false} IndexRule(s: Storage)
    ensures s.FractalTensor? ==> Rule(Index, [Some(s)], 1).Some? && !Rule(Index, [Some(s)], 1).value.FractalTensor?
    ensures s.FractalTensor? && !s.element.FractalTensor? ==> Rule(Index, [Some(s)], 1) == Some(s.element)
    ensures s.FractalTensor? && s.element.FractalTensor? ==>
              Rule(Index, [Some(s)], 1) == Rule(Index, [Some(s.element)], 1)
    decreases s
  {
    var ins := [Some(s)];
    assert ins[0] == Some(s) && Full(ins);
    if s.FractalTensor? {
      assert Innermost(s) == Innermost(s.element);
      if s.element.FractalTensor? {
        var below := [Some(s.element)];
        assert below[0] == Some(s.element) && Full(below);
        IndexRule(s.element);
      }
    }
  }

  /** Entrywise operations keep the storage of their first operand, which must be a tensor; a second
      operand must be a tensor of the same number type. */
  lemma UnaryRules(a: Storage)
    ensures Rule(Tanh, [Some(a)], 1) == if a.Tensor? then Some(a) else None
    ensures Rule(Sigmoid, [Some(a)], 1) == if a.Tensor? then Some(a) else None
  {
    var ins := [Some(a)];
    assert ins[0] == Some(a) && Full(ins);
  }

  lemma BinaryRules(a: Storage, b: Storage)
    ensures Rule(Add, [Some(a), Some(b)], 1) == if SameElements(a, b) then Some(a) else None
    ensures Rule(Mult, [Some(a), Some(b)], 1) == if SameElements(a, b) then Some(a) else None
    ensures SameElements(a, b) <==> a.Tensor? && b.Tensor? && a.dtype == b.dtype
  {
    var ins := [Some(a), Some(b)];
    assert ins[0] == Some(a) && ins[1] == Some(b) && Full(ins);
  }

  // ---------------------------------------------------------------- a whole map

  /** A map whose body is one operation. */
  function MapOf(op: Op): Code {
    Block(Map, 1, 1, 0, 0, [Operation(op, 1, 1)], [Edge(Own(BodyIn(0)), Inner(0, In(0)))], [],
          [Edge(Inner(0, Out(0)), Own(BodyOut(0)))])
  }

  /** Over a FractalTensor it succeeds exactly when the operation does on an element, and its result
      is a FractalTensor of what the operation gives. */
  lemma MapLifts(op: Op, s: Storage)
    ensures var r := Propagate(MapOf(op), Started(MapOf(op), [Some(FractalTensor(s))], []));
            var v := Rule(op, [Some(s)], 1);
            && (r.Some? <==> v.Some?)
            && (r.Some? ==> r.value.outs == [Some(FractalTensor(v.value))])
  {
    var c := MapOf(op);
    var ins := [Some(FractalTensor(s))];
    var p := Started(c, ins, []);
    var v := Rule(op, [Some(s)], 1);
    var e, out := c.inEdges[0], c.outEdges[0];
    var noted := p.(bodyIn := p.bodyIn[0 := Some(s)]);
    var waiting := Started(c.nodes[0], [Some(s)], []);
    NodeFills(c, p, noted, op, s, waiting);
    assert c.inEdges[1..] == [] && c.outEdges[1..] == [];
    var st := Progress(p, {});
    assert RunIn(c, st, c.inEdges) == InStep(c, st, e);
    if v.Some? {
      var done := noted.(inner := [waiting.(outs := [v])]);
      assert InStep(c, st, e) == Some(Progress(done, {}));
      assert RunInternal(c, Progress(done, {}), c.edges) == Some(Progress(done, {}));
      assert Fill(c, p) == Some(done);
      assert done.outs[0 := Some(FractalTensor(v.value))] == [Some(FractalTensor(v.value))];
      assert OutStep(c, done, out).Some?;
      assert RunOut(c, done, c.outEdges) == OutStep(c, done, out);
    }
  }

  /** The only in-edge of such a map hands the element to the operation. */
  lemma NodeFills(c: Code, p: Ports, noted: Ports, op: Op, s: Storage, waiting: Ports)
    requires c == MapOf(op) && p == Started(c, [Some(FractalTensor(s))], [])
    requires noted == p.(bodyIn := p.bodyIn[0 := Some(s)]) && waiting == Started(c.nodes[0], [Some(s)], [])
    ensures InStep(c, Progress(p, {}), c.inEdges[0]) ==
            match Rule(op, [Some(s)], 1)
            case None => None
            case Some(v) => Some(Progress(noted.(inner := [waiting.(outs := [Some(v)])]), {}))
  {
    var e := c.inEdges[0];
    assert p.inner == [Blank(c.nodes[0])];
    assert OwnTail(c, p, e.tail.port) == Some(s) && NoteBodyIn(p, e.tail.port, s) == noted;
    assert Blank(c.nodes[0]).ins[0 := Some(s)] == [Some(s)];
    assert WriteInTip(c, noted.inner[0], e.tip.port, s) == Some(waiting);
    assert noted.inner[0 := waiting.(outs := [Rule(op, [Some(s)], 1)])]
        == [waiting.(outs := [Rule(op, [Some(s)], 1)])];
    assert waiting.ins == [Some(s)] && |waiting.outs| == 1 && Inferred(waiting);
    var done := Propagate(c.nodes[0], waiting);
    assert done.Some? ==> done.value == waiting.(outs := [Rule(op, [Some(s)], 1)]);
    assert InStep(c, Progress(p, {}), e) == Visit(c, Progress(noted, {}), 0, waiting);
    assert {} - {0} == {};
  }
}
