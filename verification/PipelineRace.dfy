module PipelineRace {

  /** The ring size is exactly right: with fewer than three stages, and fewer than there
      are K-tiles, some run reaches a state where a thread's next step reads a slot to
      which another thread has a copy in flight, and some complete run ends with a wrong sum. */

  import opened Arith
  import opened PipelineMachine
  import opened PipelineProgress

  ghost predicate Reach(p: Params, s: State) {
    exists run :: Run(p, run) && run[|run| - 1] == s
  }

  /** Thread `v` is about to read its slot while a copy of thread `u` may change it. */
  ghost predicate Racing(p: Params, s: State, u: nat, v: nat) {
    && u < |s.threads| && v < |s.threads|
    && Reads(p, s.threads[v].pc)
    && !NoneBoundFor(s.threads[u].groups, s.threads[v].rd)
  }

  lemma Extend(p: Params, s: State, s': State)
    requires Reach(p, s) && Next(p, s, s')
    ensures Reach(p, s')
  {
    var run :| Run(p, run) && run[|run| - 1] == s;
    ExtendRun(p, run, s');
    assert (run + [s'])[|run + [s']| - 1] == s';
  }

  /** Lets thread `u` take its next step, when that needs no particular memory. */
  lemma Take(p: Params, s: State, u: nat) returns (s': State)
    requires Reach(p, s) && WellFormed(p, s) && u < p.threads && Enabled(p, s, u) && !s.threads[u].pc.Store?
    requires Shaped(p, Exec(p, s.threads[u], Fetch(p, s, u)))
    ensures Reach(p, s') && WellFormed(p, s') && ThreadStep(p, s, s', u)
    ensures s'.threads == s.threads[u := Exec(p, s.threads[u], Fetch(p, s, u))] && s'.mem == s.mem
  {
    s' := State(s.threads[u := Exec(p, s.threads[u], Fetch(p, s, u))], s.mem);
    assert ThreadStep(p, s, s', u);
    assert Next(p, s, s');
    Extend(p, s, s');
    StepWellFormed(p, s, s', u);
  }

  /** Lets all of thread `u`'s copies of group `g`, parts of one tile, land in their slot. */
  lemma {:induction false} Drain(p: Params, s: State, u: nat, g: nat, slot: nat, tile: nat) returns (s': State)
    requires Reach(p, s) && WellFormed(p, s) && u < p.threads && g < |s.threads[u].groups| && slot < p.stages
    requires s.threads[u].groups[g] <= Parts(p, slot, tile)
    ensures Reach(p, s') && WellFormed(p, s')
    ensures s'.threads == s.threads[u := s.threads[u].(groups := s.threads[u].groups[g := {}])]
    ensures forall q: nat |
              q < p.kTiles && (Write(slot, q, tile) in s.threads[u].groups[g] || Holds(s.mem, slot, u, q, tile)) ::
              Holds(s'.mem, slot, u, q, tile)
    decreases |s.threads[u].groups[g]|
  {
    var t := s.threads[u];
    if t.groups[g] == {} {
      s' := s;
      assert t.groups[g := {}] == t.groups;
      assert s.threads[u := t] == s.threads;
    } else {
      var w :| w in t.groups[g];
      assert Sized(p, s.mem[slot]);
      var s1 := State(s.threads[u := Landed(t, g, w)], Put(s.mem, slot, u, w.part, tile));
      assert LandStep(p, s, s1, u, g, w);
      assert Next(p, s, s1);
      Extend(p, s, s1);
      LandWellFormed(p, s, s1, u, g, w);
      assert |t.groups[g] - {w}| < |t.groups[g]|;
      s' := Drain(p, s1, u, g, slot, tile);
      assert s1.threads[u].groups[g := {}] == t.groups[g := {}];
    }
  }

  // ---------------------------------------------------------------- up to the first barrier

  /** The slot of tile 1 in a ring of one or two stages. */
  function SecondSlot(p: Params): nat { if p.stages == 1 then 0 else 1 }

  /** A thread waiting at the first barrier with its second tile still in flight. */
  ghost predicate AtFirstBarrier(p: Params, t: Thread) {
    && Shaped(p, t) && t.pc == FirstPass && t.arrived == 1 && t.passed == 0 && t.acc == []
    && t.rd == 0 && t.src == 2 && (p.stages == 2 ==> t.dst == 0)
    && t.groups == [{}, Parts(p, SecondSlot(p), 1), {}]
  }

  /** A thread that has issued its first two tiles. */
  ghost predicate Primed(p: Params, t: Thread) {
    && |t.regs| == p.kTiles && t.pc == FirstWait && t.arrived == 0 && t.passed == 0 && t.acc == []
    && t.rd == 0 && t.src == 2 && (p.stages == 2 ==> t.dst == 0)
    && t.groups == [Parts(p, 0, 0), Parts(p, SecondSlot(p), 1), {}]
  }

  ghost predicate HalfPrimed(p: Params, t: Thread) {
    && |t.regs| == p.kTiles && t.pc == Prologue(1) && t.arrived == 0 && t.passed == 0 && t.acc == []
    && t.rd == 0 && t.src == 1 && t.iter == 1 && t.dst == SecondSlot(p)
    && t.groups == [Parts(p, 0, 0), {}]
  }

  lemma BumpFacts(p: Params)
    requires 1 <= p.stages <= 2
    ensures p.stages == 1 ==> 1 % p.stages == 0 && 2 % p.stages == 0
    ensures p.stages == 2 ==> 1 % p.stages == 1 && 2 % p.stages == 0
  {
  }

  lemma FirstCopy(p: Params, s: State, u: nat) returns (s': State)
    requires Reach(p, s) && WellFormed(p, s) && p.stages <= 2 && u < p.threads && InitThread(p, s.threads[u])
    ensures Reach(p, s') && WellFormed(p, s')
    ensures |s'.threads| == |s.threads| && HalfPrimed(p, s'.threads[u])
    ensures s'.threads == s.threads[u := s'.threads[u]]
  {
    BumpFacts(p);
    s' := Take(p, s, u);
    assert s'.threads[u].groups[0] == Parts(p, 0, 0);
  }

  lemma SecondCopy(p: Params, s: State, u: nat) returns (s': State)
    requires Reach(p, s) && WellFormed(p, s) && p.stages <= 2 && u < p.threads && HalfPrimed(p, s.threads[u])
    ensures Reach(p, s') && WellFormed(p, s')
    ensures |s'.threads| == |s.threads| && Primed(p, s'.threads[u])
    ensures s'.threads == s.threads[u := s'.threads[u]]
  {
    BumpFacts(p);
    s' := Take(p, s, u);
    assert s'.threads[u].groups[1] == Parts(p, SecondSlot(p), 1);
  }

  lemma Synchronise(p: Params, s: State, u: nat) returns (s': State)
    requires Reach(p, s) && WellFormed(p, s) && p.stages <= 2 && u < p.threads && Primed(p, s.threads[u])
    ensures Reach(p, s') && WellFormed(p, s')
    ensures |s'.threads| == |s.threads| && AtFirstBarrier(p, s'.threads[u])
    ensures s'.threads == s.threads[u := s'.threads[u]]
  {
    var s1 := Drain(p, s, u, 0, 0, 0);
    var s2 := Take(p, s1, u);
    assert s2.threads[u] == s1.threads[u].(pc := FirstArrive);
    s' := Take(p, s2, u);
    assert s'.threads[u] == s2.threads[u].(pc := FirstPass, arrived := 1);
  }

  lemma Prepare(p: Params, s: State, u: nat) returns (s': State)
    requires Reach(p, s) && WellFormed(p, s) && p.stages <= 2 && u < p.threads && InitThread(p, s.threads[u])
    ensures Reach(p, s') && WellFormed(p, s')
    ensures |s'.threads| == |s.threads| && AtFirstBarrier(p, s'.threads[u])
    ensures s'.threads == s.threads[u := s'.threads[u]]
  {
    s' := FirstCopy(p, s, u);
    s' := SecondCopy(p, s', u);
    s' := Synchronise(p, s', u);
  }

  lemma {:induction false} PrepareAll(p: Params, s: State, m: nat) returns (s': State)
    requires Init(p, s) && p.stages <= 2 && m <= p.threads
    ensures Reach(p, s') && WellFormed(p, s')
    ensures forall u | 0 <= u < m :: AtFirstBarrier(p, s'.threads[u])
    ensures forall u | m <= u < p.threads :: InitThread(p, s'.threads[u])
  {
    if m == 0 {
      s' := s;
      assert Run(p, [s]);
      assert [s][|[s]| - 1] == s;
      assert forall u | 0 <= u < p.threads :: InitThread(p, s.threads[u]) && Shaped(p, s.threads[u]);
    } else {
      var s1 := PrepareAll(p, s, m - 1);
      s' := Prepare(p, s1, m - 1);
    }
  }

  // ---------------------------------------------------------------- the race

  /** A thread past the first barrier, about to read its first tile. */
  ghost predicate AtFirstRead(t: Thread) {
    t.pc == FirstRead && t.rd == 0 && t.acc == []
  }

  /** Thread `v` is about to read its first tile from slot 0, to which thread `u` has its whole
      share of a later tile in flight. */
  ghost predicate FirstReadRaces(p: Params, s: State, u: nat, v: nat, g: nat, tile: nat) {
    && WellFormed(p, s) && u < p.threads && v < p.threads && u != v
    && g < |s.threads[u].groups| && s.threads[u].groups[g] == Parts(p, 0, tile) && tile > 0
    && AtFirstRead(s.threads[v])
  }

  /** With a ring that does not suffice a race is reachable from every initial state: thread v
      is about to read the first tile, while thread u still has its second tile bound for the
      only slot, or has gone on to issue all of the third tile into the first slot. */
  lemma SmallRingRaces(p: Params, init: State, u: nat, v: nat) returns (s: State, g: nat, tile: nat)
    requires Init(p, init) && !RingSuffices(p) && u < p.threads && v < p.threads && u != v
    ensures Reach(p, s) && FirstReadRaces(p, s, u, v, g, tile) && Racing(p, s, u, v)
  {
    var s0 := PrepareAll(p, init, p.threads);
    assert AtFirstBarrier(p, s0.threads[u]) && AtFirstBarrier(p, s0.threads[v]);
    assert BarrierOpen(s0, 0) by { assert forall w | 0 <= w < p.threads :: AtFirstBarrier(p, s0.threads[w]); }
    s := Take(p, s0, v);
    if p.stages == 1 {
      g, tile := 1, 1;
    } else {
      assert BarrierOpen(s, 0) by {
        assert forall w | 0 <= w < p.threads :: s.threads[w].arrived == s0.threads[w].arrived;
      }
      s, g, tile := RunAhead(p, s, u, v);
    }
    WholeShareRaces(p, s, u, v, g, tile);
  }

  lemma WholeShareRaces(p: Params, s: State, u: nat, v: nat, g: nat, tile: nat)
    requires FirstReadRaces(p, s, u, v, g, tile)
    ensures Racing(p, s, u, v)
  {
    assert Write(0, 0, tile) in s.threads[u].groups[g];
  }

  /** Thread u past the first barrier, with the ring's first slot next to be filled; v has yet to read it. */
  ghost predicate Ahead(p: Params, s: State, u: nat, v: nat, pc: PC) {
    && Reach(p, s) && WellFormed(p, s) && p.stages == 2 && p.n >= 3
    && u < p.threads && v < p.threads && u != v && AtFirstRead(s.threads[v])
    && s.threads[u].pc == pc && s.threads[u].dst == 0 && s.threads[u].src == 2 && s.threads[u].rd == 0
  }

  /** Some parts of tile 2 issued into the open group. */
  function FirstParts(m: nat): set<Write> {
    set part | 0 <= part < m :: Write(0, part, 2)
  }

  ghost predicate Filling(p: Params, s: State, u: nat, v: nat, i: nat) {
    && Ahead(p, s, u, v, Copy(0, i)) && i + 1 < p.kTiles
    && s.threads[u].groups[|s.threads[u].groups| - 1] == FirstParts(i)
  }

  lemma RunAhead(p: Params, s: State, u: nat, v: nat) returns (s': State, g: nat, tile: nat)
    requires Ahead(p, s, u, v, FirstPass) && BarrierOpen(s, s.threads[u].passed)
    requires s.threads[u].groups[|s.threads[u].groups| - 1] == {}
    ensures Reach(p, s') && FirstReadRaces(p, s', u, v, g, tile)
  {
    var last;
    s' := StartFilling(p, s, u, v);
    s', last := FillUp(p, s', u, v, 0);
    s' := FillOne(p, s', u, v, last);
    s', g := Commit(p, s', u, v);
    tile := 2;
  }

  lemma StartFilling(p: Params, s: State, u: nat, v: nat) returns (s': State)
    requires Ahead(p, s, u, v, FirstPass) && BarrierOpen(s, s.threads[u].passed)
    requires s.threads[u].groups[|s.threads[u].groups| - 1] == {}
    ensures Filling(p, s', u, v, 0)
  {
    s' := PassBarrier(p, s, u, v);
    s' := ReadFirst(p, s', u, v);
    s' := ToCopy(p, s', u, v, 0);
    assert FirstParts(0) == {};
  }

  lemma PassBarrier(p: Params, s: State, u: nat, v: nat) returns (s': State)
    requires Ahead(p, s, u, v, FirstPass) && BarrierOpen(s, s.threads[u].passed)
    ensures Ahead(p, s', u, v, FirstRead) && s'.threads[u].groups == s.threads[u].groups
  {
    assert Shaped(p, s.threads[u]);
    s' := Take(p, s, u);
  }

  lemma ReadFirst(p: Params, s: State, u: nat, v: nat) returns (s': State)
    requires Ahead(p, s, u, v, FirstRead)
    ensures Ahead(p, s', u, v, Read(0, 0)) && s'.threads[u].groups == s.threads[u].groups
  {
    assert Shaped(p, s.threads[u]);
    s' := Take(p, s, u);
  }

  lemma ToCopy(p: Params, s: State, u: nat, v: nat, i: nat) returns (s': State)
    requires Ahead(p, s, u, v, Read(0, i)) && i + 1 < p.kTiles
    ensures Ahead(p, s', u, v, Copy(0, i)) && s'.threads[u].groups == s.threads[u].groups
  {
    assert Shaped(p, s.threads[u]);
    s' := Take(p, s, u);
  }

  lemma ToRead(p: Params, s: State, u: nat, v: nat, i: nat) returns (s': State)
    requires Ahead(p, s, u, v, Mma(0, i)) && i + 1 < p.kTiles
    ensures Ahead(p, s', u, v, Read(0, i + 1)) && s'.threads[u].groups == s.threads[u].groups
  {
    assert Shaped(p, s.threads[u]);
    s' := Take(p, s, u);
  }

  lemma {:induction false} FillUp(p: Params, s: State, u: nat, v: nat, i: nat) returns (s': State, last: nat)
    requires Filling(p, s, u, v, i)
    ensures last + 2 == p.kTiles && Filling(p, s', u, v, last)
    decreases p.kTiles - i
  {
    s', last := s, i;
    if i + 2 < p.kTiles {
      s' := FillNext(p, s, u, v, i);
      s', last := FillUp(p, s', u, v, i + 1);
    }
  }

  lemma FillNext(p: Params, s: State, u: nat, v: nat, i: nat) returns (s': State)
    requires Filling(p, s, u, v, i) && i + 2 < p.kTiles
    ensures Filling(p, s', u, v, i + 1)
  {
    s' := FillOne(p, s, u, v, i);
    s' := ToRead(p, s', u, v, i);
    s' := ToCopy(p, s', u, v, i + 1);
  }

  lemma OnePart(p: Params, t: Thread, i: nat, load: int)
    requires Launchable(p) && Shaped(p, t) && t.pc == Copy(0, i) && i + 1 < p.kTiles && t.dst == 0 && t.src == 2
    requires t.groups[|t.groups| - 1] == FirstParts(i)
    ensures var t' := Exec(p, t, load);
      && t' == t.(groups := t'.groups, pc := if i + 2 < p.kTiles then Mma(0, i) else Advance(0))
      && t'.groups != [] && t'.groups[|t'.groups| - 1] == FirstParts(i + 1)
  {
    assert FirstParts(i) + {Write(0, i, 2)} == FirstParts(i + 1);
  }

  lemma FillOne(p: Params, s: State, u: nat, v: nat, i: nat) returns (s': State)
    requires Filling(p, s, u, v, i)
    ensures Ahead(p, s', u, v, if i + 2 < p.kTiles then Mma(0, i) else Advance(0))
    ensures s'.threads[u].groups[|s'.threads[u].groups| - 1] == FirstParts(i + 1)
  {
    assert Shaped(p, s.threads[u]);
    OnePart(p, s.threads[u], i, Fetch(p, s, u));
    s' := Take(p, s, u);
  }

  lemma LastPart(p: Params, t: Thread, load: int)
    requires Launchable(p) && p.stages == 2 && p.n >= 3
    requires Shaped(p, t) && t.pc == Advance(0) && t.dst == 0 && t.src == 2 && t.rd == 0
    requires t.groups[|t.groups| - 1] == FirstParts(p.kTiles - 1)
    ensures var t' := Exec(p, t, load);
      Shaped(p, t') && |t'.groups| == |t.groups| + 1 && t'.groups[|t.groups| - 1] == Parts(p, 0, 2)
  {
    assert FirstParts(p.kTiles - 1) + {Write(0, p.kTiles - 1, 2)} == Parts(p, 0, 2);
    BumpFacts(p);
  }

  /** The last part, and the commit. */
  lemma Commit(p: Params, s: State, u: nat, v: nat) returns (s': State, g: nat)
    requires Ahead(p, s, u, v, Advance(0)) && p.kTiles >= 2
    requires s.threads[u].groups[|s.threads[u].groups| - 1] == FirstParts(p.kTiles - 1)
    ensures Reach(p, s') && FirstReadRaces(p, s', u, v, g, 2)
  {
    assert Shaped(p, s.threads[u]);
    LastPart(p, s.threads[u], Fetch(p, s, u));
    g := |s.threads[u].groups| - 1;
    s' := Take(p, s, u);
  }

  ghost predicate RaceFree(p: Params) {
    forall s, u: nat, v: nat | Reach(p, s) :: !Racing(p, s, u, v)
  }

  lemma RacingIsUnsafe(p: Params, s: State, u: nat, v: nat)
    requires WellFormed(p, s) && Racing(p, s, u, v)
    ensures !HazardFree(p, s)
  {
    var t := s.threads[v];
    if MayRead(p, t) && t.rd == (t.passed - 1) % p.stages {
      assert !Ready(p, s, u, t.passed);
    }
    assert !SafeFor(p, s, v);
  }

  lemma SomeInit(p: Params) returns (init: State)
    requires Launchable(p)
    ensures Init(p, init)
  {
    var t := Thread(Prologue(0), 0, 0, 0, 0, 0, 0, [{}], seq(p.kTiles, i => (TORN, 0)), []);
    init := State(seq(p.threads, u => t), Clobber(p));
  }

  /** All runs are race-free if and only if the ring has three stages, or as many as there
      are K-tiles. */
  lemma RaceFreeIffRingSuffices(p: Params)
    requires Launchable(p) && p.threads >= 2
    ensures RaceFree(p) <==> RingSuffices(p)
  {
    if RingSuffices(p) {
      forall s, u: nat, v: nat | Reach(p, s) && Racing(p, s, u, v)
        ensures false
      {
        var run :| Run(p, run) && run[|run| - 1] == s;
        AllRunsHazardFree(p, run, |run| - 1);
        RacingIsUnsafe(p, s, u, v);
      }
    } else {
      var init := SomeInit(p);
      var s, g, tile := SmallRingRaces(p, init, 0, 1);
    }
  }

  // ---------------------------------------------------------------- a race that goes wrong

  /** What is in register 0 is not the first tile and will be, or has been, accumulated. */
  ghost predicate Spoiled(p: Params, t: Thread) {
    if t.acc != [] then t.acc[0].0 != 0
    else
      && |t.regs| == p.kTiles >= 2 && t.regs[0].0 != 0
      && (t.pc in {Read(0, 0), Copy(0, 0), Mma(0, 0)}
          || (p.kTiles == 2 && t.pc in {Advance(0), Wait(0), Arrive(0), Pass(0)}))
  }

  lemma SpoiledStep(p: Params, t: Thread, load: int)
    requires Launchable(p) && Shaped(p, t) && Spoiled(p, t)
    ensures Spoiled(p, Exec(p, t, load))
  {
    if t.acc == [] && t.pc.Read? {
      assert 1 % p.kTiles == 1;
    }
  }

  lemma SpoiledStays(p: Params, s: State, s': State, v: nat)
    requires v < p.threads && Next(p, s, s') && Spoiled(p, s.threads[v])
    ensures |s'.threads| == |s.threads| && Spoiled(p, s'.threads[v])
  {
    assert Shaped(p, s.threads[v]);
    if u: nat :| ThreadStep(p, s, s', u) {
      SpoiledStep(p, s.threads[v], Fetch(p, s, v));
    } else {
      var u: nat, g: nat, w: Write :| LandStep(p, s, s', u, g, w);
    }
  }

  ghost predicate SpoiledIn(p: Params, s: State, v: nat) {
    |s.threads| == p.threads && v < p.threads && Spoiled(p, s.threads[v])
  }

  ghost predicate SpoiledForGood(p: Params, run: seq<State>, v: nat) {
    forall k: nat | k + 1 < |run| :: SpoiledIn(p, run[k], v) ==> SpoiledIn(p, run[k + 1], v)
  }

  lemma RunKeepsSpoiled(p: Params, run: seq<State>, v: nat)
    requires Run(p, run)
    ensures SpoiledForGood(p, run, v)
  {
    forall k: nat | k + 1 < |run| && SpoiledIn(p, run[k], v)
      ensures SpoiledIn(p, run[k + 1], v)
    {
      SpoiledStays(p, run[k], run[k + 1], v);
    }
  }

  lemma {:induction false} SpoiledToTheEnd(p: Params, run: seq<State>, v: nat, from: nat, k: nat)
    requires SpoiledForGood(p, run, v) && from <= k < |run| && SpoiledIn(p, run[from], v)
    ensures SpoiledIn(p, run[k], v)
  {
    if from < k {
      SpoiledToTheEnd(p, run, v, from, k - 1);
      assert SpoiledIn(p, run[k - 1 + 1], v);
    }
  }

  /** Thread `v` is about to read slot 0, where the whole of thread `u`'s share is of a later tile. */
  ghost predicate ForeignShare(p: Params, s: State, u: nat, v: nat, tile: nat) {
    && WellFormed(p, s) && u < p.threads && v < p.threads && u != v && tile > 0 && AtFirstRead(s.threads[v])
    && forall q: nat | q < p.kTiles :: Holds(s.mem, 0, u, q, tile)
  }

  /** The copies land just before the read. */
  lemma LandWhole(p: Params, s: State, u: nat, v: nat, g: nat, tile: nat) returns (s': State)
    requires Reach(p, s) && FirstReadRaces(p, s, u, v, g, tile)
    ensures Reach(p, s') && ForeignShare(p, s', u, v, tile)
  {
    s' := Drain(p, s, u, g, 0, tile);
    forall q: nat | q < p.kTiles
      ensures Holds(s'.mem, 0, u, q, tile)
    {
      assert Write(0, q, tile) in s.threads[u].groups[g];
    }
  }

  /** A read that takes in a cell of that share does not find the first tile. */
  lemma Misread(p: Params, s: State, u: nat, v: nat, tile: nat, q: nat) returns (s': State)
    requires Reach(p, s) && ForeignShare(p, s, u, v, tile) && q < p.kTiles && p.touches(v, 0, u, q)
    ensures Reach(p, s') && WellFormed(p, s') && ThreadStep(p, s, s', v) && Spoiled(p, s'.threads[v])
  {
    assert Holds(s.mem, 0, u, q, tile) && s.mem[0][u][q] == tile;
    assert Fetch(p, s, v) == Load(p, v, 0, s.mem[0]) != 0;
    assert Shaped(p, s.threads[v]);
    s' := Take(p, s, v);
  }

  /** Some thread reads, in its first register step, what another thread has copied. */
  ghost predicate Crosses(p: Params, u: nat, v: nat, q: nat) {
    u < p.threads && v < p.threads && u != v && q < p.kTiles && p.touches(v, 0, u, q)
  }

  /** Every thread that finishes, in any run, has the exact sum. */
  ghost predicate AlwaysExact(p: Params) {
    forall run: seq<State>, k: nat, u: nat | Run(p, run) && k < |run| && u < |run[k].threads| ::
      run[k].threads[u].pc.Done? ==> Exact(p, run[k].threads[u].acc)
  }

  /** With a ring that does not suffice some complete run ends with a wrong sum: at its step k,
      thread v reads its first tile where thread u's share is of a later one. */
  lemma SmallRingIsWrong(p: Params, u: nat, v: nat, q: nat) returns (run: seq<State>, k: nat, tile: nat)
    requires Launchable(p) && !RingSuffices(p) && Crosses(p, u, v, q)
    ensures Run(p, run) && |run| - 1 == RunLength(p) && |run[|run| - 1].threads| == p.threads
    ensures k + 1 < |run| && ForeignShare(p, run[k], u, v, tile) && ThreadStep(p, run[k], run[k + 1], v)
    ensures run[|run| - 1].threads[v].pc.Done? && !Exact(p, run[|run| - 1].threads[v].acc)
  {
    var s1, s2;
    s1, s2, tile := SomeMisread(p, u, v, q);
    run, k := EndsWrong(p, s1, s2, v);
  }

  /** From a misread on every complete run ends with a wrong sum. */
  lemma EndsWrong(p: Params, s1: State, s2: State, v: nat) returns (run: seq<State>, k: nat)
    requires Reach(p, s1) && WellFormed(p, s1) && ThreadStep(p, s1, s2, v) && Spoiled(p, s2.threads[v])
    ensures Run(p, run) && |run| - 1 == RunLength(p) && |run[|run| - 1].threads| == p.threads
    ensures k + 1 < |run| && run[k] == s1 && run[k + 1] == s2 && v < p.threads
    ensures run[|run| - 1].threads[v].pc.Done? && !Exact(p, run[|run| - 1].threads[v].acc)
  {
    run, k := CompleteThrough(p, s1, s2, v);
    EndsSpoiled(p, run, v, k + 1);
  }

  /** Once spoiled, a thread finishes with a wrong sum. */
  lemma EndsSpoiled(p: Params, run: seq<State>, v: nat, k: nat)
    requires Run(p, run) && |run| - 1 == RunLength(p) && v < p.threads && k < |run|
    requires |run[k].threads| == p.threads && Spoiled(p, run[k].threads[v])
    ensures |run[|run| - 1].threads| == p.threads
    ensures run[|run| - 1].threads[v].pc.Done? && !Exact(p, run[|run| - 1].threads[v].acc)
  {
    RunKeepsSpoiled(p, run, v);
    SpoiledToTheEnd(p, run, v, k, |run| - 1);
    RunsEnd(p, run);
    SpoiledIsWrong(p, run[|run| - 1].threads[v]);
  }

  lemma SpoiledIsWrong(p: Params, t: Thread)
    requires Launchable(p) && Spoiled(p, t) && t.pc.Done?
    ensures !Exact(p, t.acc)
  {
    MulMonotone(1, p.n, p.kTiles);
    DivModUnique(0, p.kTiles, 0, 0);
  }

  lemma SomeMisread(p: Params, u: nat, v: nat, q: nat) returns (s: State, s': State, tile: nat)
    requires Launchable(p) && !RingSuffices(p) && Crosses(p, u, v, q)
    ensures Reach(p, s) && ForeignShare(p, s, u, v, tile)
    ensures ThreadStep(p, s, s', v) && Spoiled(p, s'.threads[v])
  {
    var init := SomeInit(p);
    var g;
    s, g, tile := SmallRingRaces(p, init, u, v);
    s := LandWhole(p, s, u, v, g, tile);
    s' := Misread(p, s, u, v, tile, q);
  }

  /** A complete run in which thread v takes the step from s1 to s2. */
  lemma CompleteThrough(p: Params, s1: State, s2: State, v: nat) returns (run: seq<State>, k: nat)
    requires Reach(p, s1) && WellFormed(p, s1) && ThreadStep(p, s1, s2, v)
    ensures Run(p, run) && |run| - 1 == RunLength(p) && k + 1 < |run| && run[k] == s1 && run[k + 1] == s2
  {
    var start :| Run(p, start) && start[|start| - 1] == s1;
    assert Next(p, s1, s2);
    ExtendRun(p, start, s2);
    run := Complete(p, start + [s2]);
    k := |start| - 1;
    assert run[k] == (start + [s2])[k] == s1 && run[k + 1] == (start + [s2])[k + 1] == s2;
  }

  /** The kernel is exact in all runs if and only if its ring suffices. */
  lemma ExactIffRingSuffices(p: Params)
    requires Launchable(p) && exists u, v, q :: Crosses(p, u, v, q)
    ensures AlwaysExact(p) <==> RingSuffices(p)
  {
    if RingSuffices(p) {
      forall run: seq<State>, k: nat, u: nat | Run(p, run) && k < |run| && u < |run[k].threads|
        ensures run[k].threads[u].pc.Done? ==> Exact(p, run[k].threads[u].acc)
      {
        AllRunsExact(p, run, k, u);
      }
    } else {
      var u: nat, v: nat, q: nat :| Crosses(p, u, v, q);
      var run, k, tile := SmallRingIsWrong(p, u, v, q);
    }
  }
}
