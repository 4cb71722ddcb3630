module PipelineProgress {

  /** Every run of the pipelined kernel comes to an end, whatever the size of the ring:
      barriers and waits never deadlock, every step and every landing uses up one unit of
      a fixed amount of work, and when it is used up all threads are done. */

  import opened PipelineMachine

  // ---------------------------------------------------------------- what needs no ring size

  ghost predicate Tame(p: Params, t: Thread)
    requires Launchable(p)
  {
    Shaped(p, t) && Pointers(p, t) && InFlight(p, t)
  }

  /** The part of the invariant that does not depend on what shared memory holds. */
  ghost predicate Orderly(p: Params, s: State) {
    && WellFormed(p, s)
    && (forall u | 0 <= u < p.threads :: Tame(p, s.threads[u]))
    && Ordered(s)
  }

  lemma InitOrderly(p: Params, s: State)
    requires Init(p, s)
    ensures Orderly(p, s)
  {
    InitInv(p, s);
    forall u | 0 <= u < p.threads
      ensures Tame(p, s.threads[u])
    {
      assert Local(p, s.threads[u]);
    }
  }

  lemma StepOrderly(p: Params, s: State, s': State, u: nat)
    requires Orderly(p, s) && ThreadStep(p, s, s', u)
    ensures Orderly(p, s')
  {
    var t := s.threads[u];
    var load := Fetch(p, s, u);
    assert Tame(p, t);
    StepPointers(p, t, load);
    StepInFlight(p, t, load);
    StepOrdered(p, s, s', u);
    StepWellFormed(p, s, s', u);
    forall v | 0 <= v < p.threads
      ensures Tame(p, s'.threads[v])
    {
      assert Tame(p, s.threads[v]);
    }
  }

  lemma LandTame(p: Params, t: Thread, g: nat, w: Write)
    requires Launchable(p) && Tame(p, t) && g < |t.groups|
    ensures Tame(p, Landed(t, g, w))
  {
  }

  lemma LandOrderly(p: Params, s: State, s': State, u: nat, g: nat, w: Write)
    requires Orderly(p, s) && LandStep(p, s, s', u, g, w)
    ensures Orderly(p, s')
  {
    LandWellFormed(p, s, s', u, g, w);
    LandOrdered(p, s, s', u, g, w);
    forall v | 0 <= v < p.threads
      ensures Tame(p, s'.threads[v])
    {
      assert Tame(p, s.threads[v]);
      if v == u { LandTame(p, s.threads[u], g, w); }
    }
  }

  // ---------------------------------------------------------------- no deadlock

  /** A thread that has arrived at the fewest barriers. */
  lemma {:induction false} Laggard(p: Params, s: State, m: nat) returns (u: nat)
    requires 1 <= m <= |s.threads|
    ensures u < m && forall v | 0 <= v < m :: s.threads[u].arrived <= s.threads[v].arrived
  {
    if m == 1 {
      u := 0;
    } else {
      u := Laggard(p, s, m - 1);
      if s.threads[m - 1].arrived < s.threads[u].arrived { u := m - 1; }
    }
  }

  lemma LandCan(p: Params, s: State, u: nat, g: nat, w: Write)
    requires Orderly(p, s) && u < p.threads && g < |s.threads[u].groups| && w in s.threads[u].groups[g]
    ensures exists s' :: Next(p, s, s')
  {
    var t := s.threads[u];
    assert Tame(p, t);
    assert 0 <= w.slot < p.stages && Sized(p, s.mem[w.slot]);
    var s' := State(s.threads[u := Landed(t, g, w)], Put(s.mem, w.slot, u, w.part, w.tile));
    assert LandStep(p, s, s', u, g, w);
    assert Next(p, s, s');
  }

  lemma CanStep(p: Params, s: State, u: nat)
    requires Orderly(p, s) && u < p.threads && !s.threads[u].pc.Done?
    requires forall v | 0 <= v < p.threads :: s.threads[u].arrived <= s.threads[v].arrived
    ensures exists s' :: Next(p, s, s')
  {
    var t := s.threads[u];
    assert Tame(p, t);
    if Enabled(p, s, u) {
      var s' := State(s.threads[u := Exec(p, t, Fetch(p, s, u))], if t.pc.Store? then Clobber(p) else s.mem);
      assert ThreadStep(p, s, s', u);
      assert Next(p, s, s');
    } else {
      assert t.pc.FirstWait? || t.pc.Wait?;
      var g :| 0 <= g < |t.groups| && t.groups[g] != {};
      var w :| w in t.groups[g];
      LandCan(p, s, u, g, w);
    }
  }

  /** Until all threads are done, some step is possible. */
  lemma OrderlyNeverStuck(p: Params, s: State)
    requires Orderly(p, s)
    requires exists u | 0 <= u < p.threads :: !s.threads[u].pc.Done?
    ensures exists s' :: Next(p, s, s')
  {
    var u := Laggard(p, s, p.threads);
    if s.threads[u].pc.Done? {
      assert Tame(p, s.threads[u]);
      var v :| 0 <= v < p.threads && !s.threads[v].pc.Done?;
      StragglerCanStep(p, s, u, v);
    } else {
      CanStep(p, s, u);
    }
  }

  lemma StragglerCanStep(p: Params, s: State, u: nat, v: nat)
    requires Orderly(p, s) && u < p.threads && v < p.threads
    requires s.threads[u].pc.Done? && !s.threads[v].pc.Done?
    requires forall w | 0 <= w < p.threads :: s.threads[u].arrived <= s.threads[w].arrived
    ensures exists s' :: Next(p, s, s')
  {
    assert Tame(p, s.threads[u]) && Tame(p, s.threads[v]);
    forall w | 0 <= w < p.threads
      ensures s.threads[v].arrived <= s.threads[w].arrived
    {
      assert Tame(p, s.threads[w]);
      assert s.threads[v].arrived <= p.n + 1 <= s.threads[u].arrived;
    }
    CanStep(p, s, v);
  }

  // ---------------------------------------------------------------- work

  /** The control point after `pc`. */
  function After(p: Params, pc: PC): (r: PC)
    requires Launchable(p) && Located(p, pc)
    ensures Located(p, r)
  {
    match pc
    case Prologue(c) => if c == 0 then Prologue(1) else FirstWait
    case FirstWait => FirstArrive
    case FirstArrive => FirstPass
    case FirstPass => FirstRead
    case FirstRead => Read(0, 0)
    case Read(blk, i) =>
      if blk + 2 < p.n && i < p.kTiles - 1 then Copy(blk, i)
      else if blk + 2 == p.n && i == p.kTiles - 2 then Advance(blk)
      else Mma(blk, i)
    case Copy(blk, i) => if i == p.kTiles - 2 then Advance(blk) else Mma(blk, i)
    case Advance(blk) => Wait(blk)
    case Wait(blk) => Arrive(blk)
    case Arrive(blk) => Pass(blk)
    case Pass(blk) => Mma(blk, p.kTiles - 2)
    case Mma(blk, i) =>
      if i < p.kTiles - 1 then Read(blk, i + 1) else if blk + 1 < p.n then Read(blk + 1, 0) else LastArrive
    case LastArrive => LastPass
    case LastPass => Store
    case Store => Done
    case Done => Done
  }

  /** Copies issued by the step at `pc`. */
  function Issued(p: Params, pc: PC): nat {
    match pc
    case Prologue(_) => p.kTiles
    case Copy(_, _) => 1
    case Advance(blk) => if blk + 2 < p.n then 1 else 0
    case _ => 0
  }

  function Phase(pc: PC): nat {
    match pc
    case Prologue(c) => if c == 0 then 10 else 9
    case FirstWait => 8
    case FirstArrive => 7
    case FirstPass => 6
    case FirstRead => 5
    case LastArrive => 3
    case LastPass => 2
    case Store => 1
    case Done => 0
    case _ => 4
  }

  /** The register step a control point of the loops belongs to, and its place within that step. */
  function Place(p: Params, pc: PC): (nat, nat)
    requires p.kTiles >= 2
  {
    match pc
    case Read(_, i) => (i, 6)
    case Copy(_, i) => (i, 5)
    case Advance(_) => (p.kTiles - 2, 4)
    case Wait(_) => (p.kTiles - 2, 3)
    case Arrive(_) => (p.kTiles - 2, 2)
    case Pass(_) => (p.kTiles - 2, 1)
    case Mma(_, i) => (i, 0)
    case _ => (0, 0)
  }

  /** Steps a thread at `pc` still takes, plus copies it still issues. */
  function Todo(p: Params, pc: PC): nat
    requires Launchable(p) && Located(p, pc)
    decreases Phase(pc), p.n - Blk(p, pc), p.kTiles - Place(p, pc).0, Place(p, pc).1
  {
    if pc.Done? then 0 else 1 + Issued(p, pc) + Todo(p, After(p, pc))
  }

  /** Copies in flight. */
  function Flying(groups: seq<set<Write>>): nat {
    if groups == [] then 0 else Flying(groups[..|groups| - 1]) + |groups[|groups| - 1]|
  }

  lemma {:induction false} FlyingUpdate(groups: seq<set<Write>>, g: nat, ws: set<Write>)
    requires g < |groups|
    ensures Flying(groups[g := ws]) + |groups[g]| == Flying(groups) + |ws|
  {
    var n := |groups| - 1;
    if g == n {
      assert groups[g := ws][..n] == groups[..n];
    } else {
      assert groups[g := ws][..n] == groups[..n][g := ws];
      FlyingUpdate(groups[..n], g, ws);
    }
  }

  lemma FlyingCommit(groups: seq<set<Write>>)
    ensures Flying(groups + [{}]) == Flying(groups)
  {
    assert (groups + [{}])[..|groups|] == groups;
  }

  lemma FlyingIssue(groups: seq<set<Write>>, ws: set<Write>)
    requires groups != [] && groups[|groups| - 1] !! ws
    ensures Flying(Issue(groups, ws)) == Flying(groups) + |ws|
  {
    var g := |groups| - 1;
    FlyingUpdate(groups, g, groups[g] + ws);
    assert |groups[g] + ws| == |groups[g]| + |ws|;
  }

  lemma {:induction false} PartsCount(p: Params, m: nat, slot: int, tile: nat)
    requires m <= p.kTiles
    ensures |set part | 0 <= part < m :: Write(slot, part, tile)| == m
  {
    var ws := set part | 0 <= part < m :: Write(slot, part, tile);
    if m == 0 {
      assert ws == {};
    } else {
      PartsCount(p, m - 1, slot, tile);
      var rest := set part | 0 <= part < m - 1 :: Write(slot, part, tile);
      assert ws == rest + {Write(slot, m - 1, tile)};
    }
  }

  ghost function Work(p: Params, t: Thread): nat
    requires Launchable(p) && Located(p, t.pc)
  {
    Todo(p, t.pc) + Flying(t.groups)
  }

  lemma ExecAfter(p: Params, t: Thread, load: int)
    requires Launchable(p) && Shaped(p, t) && Pointers(p, t) && Located(p, t.pc)
    ensures Exec(p, t, load).pc == After(p, t.pc)
  {
  }

  /** A step issues exactly the copies counted for it, none of them in flight already. */
  lemma ExecIssues(p: Params, t: Thread, load: int)
    requires Launchable(p) && Tame(p, t)
    ensures Flying(Exec(p, t, load).groups) == Flying(t.groups) + Issued(p, t.pc)
  {
    if t.pc.Prologue? {
      PrologueIssues(p, t);
    } else if t.pc.Copy? {
      FlyingIssue(t.groups, {Write(t.dst, t.pc.i, t.src)});
    } else if t.pc.Advance? {
      AdvanceIssues(p, t, load);
    } else {
      IssuesNothing(p, t, load);
    }
  }

  lemma IssuesNothing(p: Params, t: Thread, load: int)
    requires Launchable(p) && Shaped(p, t) && Pointers(p, t)
    requires !t.pc.Prologue? && !t.pc.Copy? && !t.pc.Advance?
    ensures Exec(p, t, load).groups == t.groups && Issued(p, t.pc) == 0
  {
  }

  lemma AdvanceIssues(p: Params, t: Thread, load: int)
    requires Launchable(p) && Tame(p, t) && t.pc.Advance?
    ensures Flying(Exec(p, t, load).groups) == Flying(t.groups) + Issued(p, t.pc)
  {
    if t.pc.blk + 2 < p.n {
      assert Opened(p, t.pc) == p.kTiles - 1;
      var ws := {Write(t.dst, p.kTiles - 1, t.src)};
      FlyingIssue(t.groups, ws);
      FlyingCommit(Issue(t.groups, ws));
    }
  }

  lemma PrologueIssues(p: Params, t: Thread)
    requires Launchable(p) && Tame(p, t) && t.pc.Prologue?
    ensures Flying(Issue(t.groups, Parts(p, t.dst, t.src)) + [{}]) == Flying(t.groups) + p.kTiles
  {
    var open := t.groups[|t.groups| - 1];
    assert open == {} by { assert Opened(p, t.pc) == 0; assert forall w | w in open :: w.part < 0; }
    PartsCount(p, p.kTiles, t.dst, t.src);
    FlyingIssue(t.groups, Parts(p, t.dst, t.src));
    FlyingCommit(Issue(t.groups, Parts(p, t.dst, t.src)));
  }

  function Total(p: Params, ts: seq<Thread>): nat
    requires Launchable(p) && forall t | t in ts :: Located(p, t.pc)
  {
    if ts == [] then 0 else Total(p, ts[..|ts| - 1]) + Todo(p, ts[|ts| - 1].pc) + Flying(ts[|ts| - 1].groups)
  }

  lemma {:induction false} TotalUpdate(p: Params, ts: seq<Thread>, u: nat, t: Thread)
    requires Launchable(p) && (forall t | t in ts :: Located(p, t.pc)) && u < |ts| && Located(p, t.pc)
    ensures forall t' | t' in ts[u := t] :: Located(p, t'.pc)
    ensures Total(p, ts[u := t]) + Work(p, ts[u]) == Total(p, ts) + Work(p, t)
  {
    var n := |ts| - 1;
    if u == n {
      assert ts[u := t][..n] == ts[..n];
    } else {
      assert ts[u := t][..n] == ts[..n][u := t];
      TotalUpdate(p, ts[..n], u, t);
    }
  }

  lemma OrderlyLocated(p: Params, s: State)
    requires Orderly(p, s)
    ensures forall t | t in s.threads :: Located(p, t.pc)
  {
    forall t | t in s.threads
      ensures Located(p, t.pc)
    {
      var u :| 0 <= u < |s.threads| && s.threads[u] == t;
      assert Tame(p, s.threads[u]);
    }
  }

  ghost function Left(p: Params, s: State): nat
    requires Orderly(p, s)
  {
    OrderlyLocated(p, s);
    Total(p, s.threads)
  }

  lemma StepWorks(p: Params, s: State, s': State, u: nat)
    requires Orderly(p, s) && ThreadStep(p, s, s', u)
    ensures Orderly(p, s') && Left(p, s') + 1 == Left(p, s)
  {
    var t := s.threads[u];
    assert Tame(p, t);
    StepOrderly(p, s, s', u);
    OrderlyLocated(p, s);
    ExecAfter(p, t, Fetch(p, s, u));
    ExecIssues(p, t, Fetch(p, s, u));
    TotalUpdate(p, s.threads, u, s'.threads[u]);
  }

  lemma LandWorks(p: Params, s: State, s': State, u: nat, g: nat, w: Write)
    requires Orderly(p, s) && LandStep(p, s, s', u, g, w)
    ensures Orderly(p, s') && Left(p, s') + 1 == Left(p, s)
  {
    var t := s.threads[u];
    LandOrderly(p, s, s', u, g, w);
    OrderlyLocated(p, s);
    FlyingUpdate(t.groups, g, t.groups[g] - {w});
    assert |t.groups[g] - {w}| == |t.groups[g]| - 1;
    TotalUpdate(p, s.threads, u, s'.threads[u]);
  }

  /** Every step, of a thread or of a copy, uses up one unit of work. */
  lemma NextWorks(p: Params, s: State, s': State)
    requires Orderly(p, s) && Next(p, s, s')
    ensures Orderly(p, s') && Left(p, s') + 1 == Left(p, s)
  {
    if u: nat :| ThreadStep(p, s, s', u) {
      StepWorks(p, s, s', u);
    } else {
      var u: nat, g: nat, w: Write :| LandStep(p, s, s', u, g, w);
      LandWorks(p, s, s', u, g, w);
    }
  }

  // ---------------------------------------------------------------- how much work there is

  lemma {:induction false} TodoLast(p: Params, i: nat)
    requires Launchable(p) && i < p.kTiles
    ensures Todo(p, Read(p.n - 1, i)) == 2 * (p.kTiles - i) + 3
    decreases p.kTiles - i
  {
    var pc := Read(p.n - 1, i);
    assert After(p, pc) == Mma(p.n - 1, i);
    if i + 1 < p.kTiles {
      TodoLast(p, i + 1);
    } else {
      assert Todo(p, LastPass) == 1 + Todo(p, Store) == 2;
      assert Todo(p, Mma(p.n - 1, i)) == 1 + Todo(p, LastArrive) == 4;
    }
  }

  /** From the barrier in a block on. */
  lemma TodoSwitch(p: Params, blk: nat)
    requires Launchable(p) && blk + 1 < p.n
    ensures Todo(p, Wait(blk)) == 6 + Todo(p, Read(blk + 1, 0))
  {
    assert Todo(p, Wait(blk)) == 1 + Todo(p, Arrive(blk)) == 2 + Todo(p, Pass(blk));
    assert Todo(p, Pass(blk)) == 1 + Todo(p, Mma(blk, p.kTiles - 2));
    assert Todo(p, Mma(blk, p.kTiles - 2)) == 1 + Todo(p, Read(blk, p.kTiles - 1));
    assert Todo(p, Read(blk, p.kTiles - 1)) == 1 + Todo(p, Mma(blk, p.kTiles - 1));
  }

  lemma {:induction false} TodoSecond(p: Params, i: nat)
    requires Launchable(p) && i + 1 < p.kTiles
    ensures Todo(p, Read(p.n - 2, i)) == 2 * (p.kTiles - i) + 4 + 2 * p.kTiles + 3
    decreases p.kTiles - i
  {
    var blk := p.n - 2;
    if i + 2 < p.kTiles {
      TodoSecond(p, i + 1);
      assert Todo(p, Read(blk, i)) == 1 + Todo(p, Mma(blk, i)) == 2 + Todo(p, Read(blk, i + 1));
    } else {
      TodoSwitch(p, blk);
      TodoLast(p, 0);
      assert Todo(p, Read(blk, i)) == 1 + Todo(p, Advance(blk)) == 2 + Todo(p, Wait(blk));
    }
  }

  lemma {:induction false} TodoFirst(p: Params, blk: nat, i: nat)
    requires Launchable(p) && blk + 2 < p.n && i + 1 < p.kTiles
    ensures Todo(p, Read(blk, i)) == 4 * (p.kTiles - i) + 3 + Todo(p, Read(blk + 1, 0))
    decreases p.kTiles - i
  {
    if i + 2 < p.kTiles {
      TodoFirst(p, blk, i + 1);
      assert Todo(p, Read(blk, i)) == 1 + Todo(p, Copy(blk, i)) == 3 + Todo(p, Mma(blk, i));
    } else {
      TodoSwitch(p, blk);
      assert Todo(p, Read(blk, i)) == 1 + Todo(p, Copy(blk, i)) == 3 + Todo(p, Advance(blk));
    }
  }

  lemma {:induction false} TodoFrom(p: Params, blk: nat)
    requires Launchable(p) && blk + 2 <= p.n
    ensures Todo(p, Read(blk, 0)) == (p.n - 2 - blk) * (4 * p.kTiles + 3) + 4 * p.kTiles + 7
    decreases p.n - blk
  {
    if blk + 2 == p.n {
      TodoSecond(p, 0);
      assert (p.n - 2 - blk) * (4 * p.kTiles + 3) == 0;
    } else {
      TodoFirst(p, blk, 0);
      TodoFrom(p, blk + 1);
      var m, w := p.n - 2 - (blk + 1), 4 * p.kTiles + 3;
      assert (m + 1) * w == m * w + w;
    }
  }

  /** Steps and landings of one thread: a block of the main loop takes 4 * k_tiles + 3, of
      which k_tiles are landings. */
  lemma WorkOfOneThread(p: Params)
    requires Launchable(p)
    ensures Todo(p, Prologue(0)) == (p.n - 2) * (4 * p.kTiles + 3) + 6 * p.kTiles + 13
  {
    TodoFrom(p, 0);
    assert Todo(p, FirstWait) == 1 + Todo(p, FirstArrive) == 2 + Todo(p, FirstPass);
    assert Todo(p, FirstPass) == 1 + Todo(p, FirstRead) == 2 + Todo(p, Read(0, 0));
    assert Todo(p, Prologue(0)) == 1 + p.kTiles + Todo(p, Prologue(1)) == 2 + 2 * p.kTiles + Todo(p, FirstWait);
  }

  // ---------------------------------------------------------------- every run

  /** Steps and landings of a complete run. */
  function RunLength(p: Params): nat
    requires Launchable(p)
  {
    p.threads * ((p.n - 2) * (4 * p.kTiles + 3) + 6 * p.kTiles + 13)
  }

  lemma {:induction false} InitTotal(p: Params, ts: seq<Thread>)
    requires Launchable(p) && forall t | t in ts :: t.pc == Prologue(0) && t.groups == [{}]
    ensures Total(p, ts) == |ts| * Todo(p, Prologue(0))
  {
    if ts != [] {
      var n, w := |ts| - 1, Todo(p, Prologue(0));
      InitTotal(p, ts[..n]);
      assert Flying(ts[n].groups) == 0;
      assert n * w + w == (n + 1) * w;
    }
  }

  lemma {:induction false} RunOrderly(p: Params, run: seq<State>, k: nat)
    requires Run(p, run) && k < |run|
    ensures Orderly(p, run[k]) && Left(p, run[k]) + k == RunLength(p)
  {
    if k == 0 {
      InitOrderly(p, run[0]);
      forall t | t in run[0].threads
        ensures t.pc == Prologue(0) && t.groups == [{}]
      {
        var u :| 0 <= u < |run[0].threads| && run[0].threads[u] == t;
        assert InitThread(p, run[0].threads[u]);
      }
      InitTotal(p, run[0].threads);
      WorkOfOneThread(p);
    } else {
      RunOrderly(p, run, k - 1);
      assert Next(p, run[k - 1], run[k - 1 + 1]);
      NextWorks(p, run[k - 1], run[k]);
    }
  }

  /** The barriers and waits never deadlock: until all threads are done, some step is possible. */
  lemma NeverStuck(p: Params, run: seq<State>, k: nat)
    requires Run(p, run) && k < |run|
    requires exists u | 0 <= u < |run[k].threads| :: !run[k].threads[u].pc.Done?
    ensures exists s' :: Next(p, run[k], s')
  {
    RunOrderly(p, run, k);
    OrderlyNeverStuck(p, run[k]);
  }

  /** All threads are done and no copy is in flight. */
  ghost predicate Finished(s: State) {
    forall u | 0 <= u < |s.threads| ::
      s.threads[u].pc.Done? && forall g | 0 <= g < |s.threads[u].groups| :: s.threads[u].groups[g] == {}
  }

  ghost predicate AtEnd(p: Params, s: State) {
    forall s' :: !Next(p, s, s')
  }

  /** No run is longer than RunLength, a run of that length has finished, and a shorter
      one can go on. */
  lemma RunsEnd(p: Params, run: seq<State>)
    requires Run(p, run)
    ensures |run| - 1 <= RunLength(p)
    ensures |run| - 1 == RunLength(p) <==> Finished(run[|run| - 1])
    ensures |run| - 1 == RunLength(p) <==> AtEnd(p, run[|run| - 1])
  {
    var s := run[|run| - 1];
    RunOrderly(p, run, |run| - 1);
    OrderlyLocated(p, s);
    if Left(p, s) == 0 {
      NothingLeft(p, s.threads);
      forall s'
        ensures !Next(p, s, s')
      {
        if Next(p, s, s') { NextWorks(p, s, s'); }
      }
    } else {
      SomethingLeft(p, s);
    }
  }

  lemma {:induction false} NothingLeft(p: Params, ts: seq<Thread>)
    requires Launchable(p) && (forall t | t in ts :: Located(p, t.pc)) && Total(p, ts) == 0
    ensures forall t, g | t in ts && 0 <= g < |t.groups| :: t.groups[g] == {}
    ensures forall t | t in ts :: t.pc.Done?
  {
    if ts != [] {
      NothingLeft(p, ts[..|ts| - 1]);
      NothingFlies(ts[|ts| - 1].groups);
    }
  }

  lemma {:induction false} NothingFlies(groups: seq<set<Write>>)
    ensures Flying(groups) == 0 <==> forall g | 0 <= g < |groups| :: groups[g] == {}
  {
    if groups != [] {
      var n := |groups| - 1;
      NothingFlies(groups[..n]);
      if forall g | 0 <= g < |groups| :: groups[g] == {} {
        assert forall g | 0 <= g < n :: groups[..n][g] == groups[g];
      } else if forall g | 0 <= g < n :: groups[..n][g] == {} {
        assert groups[n] != {};
      }
    }
  }

  lemma SomethingLeft(p: Params, s: State)
    requires Orderly(p, s) && Left(p, s) > 0
    ensures !Finished(s) && exists s' :: Next(p, s, s')
  {
    OrderlyLocated(p, s);
    if forall u | 0 <= u < p.threads :: s.threads[u].pc.Done? {
      var u := SomeoneFlies(p, s.threads);
      NothingFlies(s.threads[u].groups);
      var g :| 0 <= g < |s.threads[u].groups| && s.threads[u].groups[g] != {};
      var w :| w in s.threads[u].groups[g];
      LandCan(p, s, u, g, w);
    } else {
      OrderlyNeverStuck(p, s);
    }
  }

  lemma {:induction false} SomeoneFlies(p: Params, ts: seq<Thread>) returns (u: nat)
    requires Launchable(p) && (forall t | t in ts :: Located(p, t.pc) && t.pc.Done?) && Total(p, ts) > 0
    ensures u < |ts| && Flying(ts[u].groups) > 0
  {
    u := |ts| - 1;
    if Flying(ts[u].groups) == 0 { u := SomeoneFlies(p, ts[..u]); }
  }

  /** Every run can be continued to a complete one. */
  lemma {:induction false} Complete(p: Params, run: seq<State>) returns (full: seq<State>)
    requires Run(p, run)
    ensures Run(p, full) && run <= full && |full| - 1 == RunLength(p)
    decreases RunLength(p) + 1 - |run|
  {
    RunsEnd(p, run);
    if |run| - 1 == RunLength(p) {
      full := run;
    } else {
      var s' :| Next(p, run[|run| - 1], s');
      ExtendRun(p, run, s');
      RunsEnd(p, run + [s']);
      full := Complete(p, run + [s']);
    }
  }

  lemma ExtendRun(p: Params, run: seq<State>, s': State)
    requires Run(p, run) && Next(p, run[|run| - 1], s')
    ensures Run(p, run + [s'])
  {
    var run' := run + [s'];
    forall k | 0 <= k < |run'| - 1
      ensures Next(p, run'[k], run'[k + 1])
    {
      if k < |run| - 1 { assert Next(p, run[k], run[k + 1]); }
    }
  }

  /** A complete run with a ring that suffices leaves the exact sum with every thread. */
  lemma CompleteRunsExact(p: Params, run: seq<State>, u: nat)
    requires Run(p, run) && RingSuffices(p) && |run| - 1 == RunLength(p)
    requires u < |run[|run| - 1].threads|
    ensures run[|run| - 1].threads[u].pc.Done? && Exact(p, run[|run| - 1].threads[u].acc)
  {
    RunsEnd(p, run);
    RunOrderly(p, run, |run| - 1);
    AllRunsExact(p, run, |run| - 1, u);
  }
}
