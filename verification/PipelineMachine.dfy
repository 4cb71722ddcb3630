module PipelineMachine {

  /** The software-pipelined GEMM kernel as a transition system over many threads.

      One thread block runs KeGemmPipelined.  Shared memory holds a ring of
      `stages` slots; each slot is filled cooperatively, every thread copying its
      own share of the tile in `kTiles` parts.  A copy is asynchronous: it is
      issued into the thread's open copy group and lands in shared memory at any
      later moment.  Threads interleave freely, subject only to `wait_group` and
      `__syncthreads`.

      A shared-memory cell records which K-tile its contents come from.  A register
      step reads some cells of a slot, and yields tile `j` exactly when all of them
      hold `j`; which cells those are is a parameter. */

  import opened Arith

  /** `stages` is num_stages, `kTiles` is k_tiles (register steps per K-tile), `n` is kK / kTK.
      `touches(v, i, u, q)` says that register step `i` of thread `v` reads the cell in which
      part `q` of thread `u`'s share arrives. */
  datatype Params = Params(stages: nat, kTiles: nat, n: nat, threads: nat,
                           touches: (nat, nat, nat, nat) -> bool)

  ghost predicate Launchable(p: Params) {
    p.stages >= 1 && p.kTiles >= 2 && p.n >= 2 && p.threads >= 1
    && forall v: nat, i: nat | v < p.threads && i < p.kTiles :: ReadsSome(p, v, i)
  }

  /** Every register step reads something. */
  ghost predicate ReadsSome(p: Params, v: nat, i: nat) {
    exists u: nat, q: nat :: u < p.threads && q < p.kTiles && p.touches(v, i, u, q)
  }

  /** Three slots are enough for any number of K-tiles; fewer only if no slot is ever reused. */
  predicate RingSuffices(p: Params) {
    p.stages >= 3 || p.stages >= p.n
  }

  /** Control points of one thread, in program order.  `Read`, `Copy`, `Advance`,
      `Wait`, `Arrive`, `Pass` and `Mma` make up the body of the three main loops:
      stage 1 is blk < n - 2, stage 2 is blk == n - 2 and stage 3 is blk == n - 1. */
  datatype PC =
    | Prologue(c: nat)
    | FirstWait
    | FirstArrive
    | FirstPass
    | FirstRead
    | Read(blk: nat, i: nat)
    | Copy(blk: nat, i: nat)
    | Advance(blk: nat)
    | Wait(blk: nat)
    | Arrive(blk: nat)
    | Pass(blk: nat)
    | Mma(blk: nat, i: nat)
    | LastArrive
    | LastPass
    | Store
    | Done

  /** An in-flight copy: this thread's part `part` of `tile`, bound for `slot`. */
  datatype Write = Write(slot: int, part: nat, tile: nat)

  /** Thread-local state.  `groups` lists the copies still in flight, one set per
      copy group; the last set is the group not yet committed.  A register holds the tile and
      the register step whose slice was loaded into it, and `acc` lists what has been multiplied. */
  datatype Thread = Thread(
    pc: PC, src: nat, dst: int, iter: nat, rd: int,
    arrived: nat, passed: nat,
    groups: seq<set<Write>>, regs: seq<(int, nat)>, acc: seq<(int, nat)>)

  type Cells = seq<seq<int>>

  /** `mem[slot][thread][part]` is the tile whose data the cell holds, or TORN. */
  datatype State = State(threads: seq<Thread>, mem: seq<Cells>)

  const TORN: int := -1

  // ---------------------------------------------------------------- the program

  function Parts(p: Params, slot: int, tile: nat): set<Write> {
    set part | 0 <= part < p.kTiles :: Write(slot, part, tile)
  }

  /** g2s.next() followed by the test that decides g2s.cycle_dst(). */
  function Bump(p: Params, pointer: int, wrap: bool): int {
    if wrap then pointer + 1 - p.stages else pointer + 1
  }

  /** Adds a copy to the open group. */
  function Issue(groups: seq<set<Write>>, ws: set<Write>): seq<set<Write>>
    requires groups != []
  {
    groups[|groups| - 1 := groups[|groups| - 1] + ws]
  }

  /** The register step that a read fills. */
  function Step(p: Params, pc: PC): nat {
    match pc
    case Read(_, i) => if i + 1 < p.kTiles then i + 1 else 0
    case _ => 0
  }

  /** What thread `v` holds after reading step `i` of a slot: the tile, or TORN for a mixture. */
  ghost function Load(p: Params, v: nat, i: nat, cells: Cells): int {
    if exists tile :: ReadsAs(p, v, i, cells, tile)
    then var tile :| ReadsAs(p, v, i, cells, tile); tile
    else TORN
  }

  /** All the cells that the step reads hold `tile`. */
  ghost predicate ReadsAs(p: Params, v: nat, i: nat, cells: Cells, tile: int) {
    forall u: nat, q: nat | u < |cells| && q < |cells[u]| && p.touches(v, i, u, q) :: cells[u][q] == tile
  }

  /** What thread `v` would read now. */
  ghost function Fetch(p: Params, s: State, v: nat): int
    requires v < |s.threads| && 0 <= s.threads[v].rd < |s.mem|
  {
    Load(p, v, Step(p, s.threads[v].pc), s.mem[s.threads[v].rd])
  }

  /** cp.async.wait_group N returns once all groups but the N latest committed have landed. */
  predicate Waited(groups: seq<set<Write>>, allowed: nat) {
    forall g | 0 <= g < |groups| - 1 - allowed :: groups[g] == {}
  }

  predicate Reads(p: Params, pc: PC) {
    pc.FirstRead? || (pc.Read? && !(pc.blk == p.n - 1 && pc.i == p.kTiles - 1))
  }

  predicate Enabled(p: Params, s: State, u: nat)
    requires u < |s.threads|
  {
    var t := s.threads[u];
    match t.pc
    case FirstWait => Waited(t.groups, 1)
    case Wait(blk) => Waited(t.groups, if blk + 2 < p.n then 1 else 0)
    case FirstPass => BarrierOpen(s, t.passed)
    case Pass(_) => BarrierOpen(s, t.passed)
    case LastPass => BarrierOpen(s, t.passed)
    case Done => false
    case _ => true
  }

  /** __syncthreads number `k` opens once every thread has arrived at it. */
  predicate BarrierOpen(s: State, k: nat) {
    forall v | 0 <= v < |s.threads| :: s.threads[v].arrived > k
  }

  /** One step of a thread; `load` is what a read of slot `t.rd` yields now. */
  function Exec(p: Params, t: Thread, load: int): Thread
    requires Launchable(p) && t.groups != [] && |t.regs| == p.kTiles
    requires t.pc.Mma? ==> t.pc.i < p.kTiles
  {
    match t.pc
    case Prologue(c) =>
      t.(groups := Issue(t.groups, Parts(p, t.dst, t.src)) + [{}],
         src := t.src + 1,
         dst := Bump(p, t.dst, (t.iter + 1) % p.stages == 0),
         iter := t.iter + 1,
         pc := if c == 0 then Prologue(1) else FirstWait)
    case FirstWait => t.(pc := FirstArrive)
    case FirstArrive => t.(arrived := t.arrived + 1, pc := FirstPass)
    case FirstPass => t.(passed := t.passed + 1, pc := FirstRead)
    case FirstRead => t.(regs := t.regs[0 := (load, Step(p, t.pc))], pc := Read(0, 0))
    case Read(blk, i) =>
      var t' := if Reads(p, t.pc) then t.(regs := t.regs[(i + 1) % p.kTiles := (load, Step(p, t.pc))]) else t;
      t'.(pc := if blk + 2 < p.n && i < p.kTiles - 1 then Copy(blk, i)
                else if blk + 2 == p.n && i == p.kTiles - 2 then Advance(blk)
                else Mma(blk, i))
    case Copy(blk, i) =>
      t.(groups := Issue(t.groups, {Write(t.dst, i, t.src)}),
         pc := if i == p.kTiles - 2 then Advance(blk) else Mma(blk, i))
    case Advance(blk) =>
      var t' := t.(rd := Bump(p, t.rd, (blk + 1) % p.stages == 0), pc := Wait(blk));
      if blk + 2 < p.n then
        t'.(groups := Issue(t.groups, {Write(t.dst, p.kTiles - 1, t.src)}) + [{}],
            src := t.src + 1,
            dst := Bump(p, t.dst, (blk + 2 + 1) % p.stages == 0))
      else t'
    case Wait(blk) => t.(pc := Arrive(blk))
    case Arrive(blk) => t.(arrived := t.arrived + 1, pc := Pass(blk))
    case Pass(blk) => t.(passed := t.passed + 1, pc := Mma(blk, p.kTiles - 2))
    case Mma(blk, i) =>
      t.(acc := t.acc + [t.regs[i]],
         pc := if i < p.kTiles - 1 then Read(blk, i + 1)
               else if blk + 1 < p.n then Read(blk + 1, 0) else LastArrive)
    case LastArrive => t.(arrived := t.arrived + 1, pc := LastPass)
    case LastPass => t.(passed := t.passed + 1, pc := Store)
    case Store => t.(pc := Done)
    case Done => t
  }

  /** The epilogue reuses the ring for the output tile, so it may overwrite any cell. */
  function Clobber(p: Params): seq<Cells> {
    seq(p.stages, s => seq(p.threads, u => seq(p.kTiles, q => TORN)))
  }

  ghost predicate WellFormed(p: Params, s: State) {
    Launchable(p) && |s.threads| == p.threads && |s.mem| == p.stages
    && (forall k | 0 <= k < p.stages :: Sized(p, s.mem[k]))
    && (forall u | 0 <= u < p.threads :: Shaped(p, s.threads[u]))
  }

  ghost predicate Sized(p: Params, cells: Cells) {
    |cells| == p.threads && forall u | 0 <= u < p.threads :: |cells[u]| == p.kTiles
  }

  ghost predicate Shaped(p: Params, t: Thread) {
    t.groups != [] && |t.regs| == p.kTiles && 0 <= t.rd < p.stages && (t.pc.Mma? ==> t.pc.i < p.kTiles)
  }

  ghost predicate ThreadStep(p: Params, s: State, s': State, u: nat)
    requires WellFormed(p, s)
  {
    u < p.threads && Enabled(p, s, u)
    && s'.threads == s.threads[u := Exec(p, s.threads[u], Fetch(p, s, u))]
    && s'.mem == if s.threads[u].pc.Store? then Clobber(p) else s.mem
  }

  /** One in-flight copy of thread `u` lands. */
  ghost predicate LandStep(p: Params, s: State, s': State, u: nat, g: nat, w: Write)
    requires WellFormed(p, s)
  {
    u < p.threads && g < |s.threads[u].groups| && w in s.threads[u].groups[g]
    && 0 <= w.slot < p.stages && w.part < p.kTiles
    && s'.threads == s.threads[u := Landed(s.threads[u], g, w)]
    && s'.mem == Put(s.mem, w.slot, u, w.part, w.tile)
  }

  function Landed(t: Thread, g: nat, w: Write): Thread
    requires g < |t.groups|
  {
    t.(groups := t.groups[g := t.groups[g] - {w}])
  }

  function Put(mem: seq<Cells>, slot: nat, u: nat, part: nat, tile: int): seq<Cells>
    requires slot < |mem| && u < |mem[slot]| && part < |mem[slot][u]|
  {
    mem[slot := mem[slot][u := mem[slot][u][part := tile]]]
  }

  ghost predicate Next(p: Params, s: State, s': State) {
    WellFormed(p, s)
    && ((exists u: nat :: ThreadStep(p, s, s', u))
        || (exists u: nat, g: nat, w: Write :: LandStep(p, s, s', u, g, w)))
  }

  ghost predicate InitThread(p: Params, t: Thread) {
    t.pc == Prologue(0) && t.src == 0 && t.dst == 0 && t.iter == 0 && t.rd == 0
    && t.arrived == 0 && t.passed == 0 && t.groups == [{}] && |t.regs| == p.kTiles && t.acc == []
  }

  ghost predicate Init(p: Params, s: State) {
    Launchable(p) && |s.threads| == p.threads && |s.mem| == p.stages
    && (forall k | 0 <= k < p.stages :: Sized(p, s.mem[k]))
    && (forall u | 0 <= u < p.threads :: InitThread(p, s.threads[u]))
  }

  ghost predicate Run(p: Params, run: seq<State>) {
    run != [] && Init(p, run[0]) && forall k | 0 <= k < |run| - 1 :: Next(p, run[k], run[k + 1])
  }

  // ---------------------------------------------------------------- the claims

  /** The order in which a sequential K loop would feed the accumulator, up to step (blk, i). */
  function Order(p: Params, blk: nat, i: nat): (r: seq<(int, nat)>)
    decreases blk, i
  {
    if i > 0 then Order(p, blk, i - 1) + [(blk, i - 1)]
    else if blk > 0 then Order(p, blk - 1, p.kTiles)
    else []
  }

  /** Entry m is step m % k_tiles of K-tile m / k_tiles: every pair of the two exactly once, in order. */
  predicate Exact(p: Params, acc: seq<(int, nat)>) {
    p.kTiles > 0 && |acc| == p.n * p.kTiles && forall m | 0 <= m < |acc| :: acc[m] == (m / p.kTiles, m % p.kTiles)
  }

  lemma {:induction false} OrderAt(p: Params, blk: nat, i: nat, m: nat)
    requires p.kTiles > 0 && i <= p.kTiles
    ensures |Order(p, blk, i)| == blk * p.kTiles + i
    ensures m < |Order(p, blk, i)| ==> Order(p, blk, i)[m] == (m / p.kTiles, m % p.kTiles)
    decreases blk, i
  {
    if i > 0 {
      OrderAt(p, blk, i - 1, m);
      if m == blk * p.kTiles + i - 1 { DivModUnique(m, p.kTiles, blk, i - 1); }
    } else if blk > 0 {
      OrderAt(p, blk - 1, p.kTiles, m);
      assert (blk - 1) * p.kTiles + p.kTiles == blk * p.kTiles;
    }
  }

  lemma OrderIsExact(p: Params)
    requires p.kTiles > 0
    ensures Exact(p, Order(p, p.n, 0))
  {
    OrderAt(p, p.n, 0, 0);
    forall m | 0 <= m < |Order(p, p.n, 0)|
      ensures Order(p, p.n, 0)[m] == (m / p.kTiles, m % p.kTiles)
    {
      OrderAt(p, p.n, 0, m);
    }
  }

  /** A thread between two barriers may still read the slot of tile `passed - 1`. */
  predicate MayRead(p: Params, t: Thread) {
    1 <= t.passed <= p.n && t.arrived == t.passed
  }

  /** No slot that some thread may still read has a copy in flight to it, and all its
      shares hold the tile the thread is to read; every read about to happen is of that
      slot; and the epilogue starts only when all reads and copies are over. */
  ghost predicate HazardFree(p: Params, s: State)
    requires WellFormed(p, s)
  {
    forall v | 0 <= v < p.threads :: SafeFor(p, s, v)
  }

  ghost predicate SafeFor(p: Params, s: State, v: nat)
    requires WellFormed(p, s) && v < p.threads
  {
    var t := s.threads[v];
    && (Reads(p, t.pc) ==> MayRead(p, t) && t.rd == (t.passed - 1) % p.stages)
    && (MayRead(p, t) ==> forall u | 0 <= u < p.threads :: Ready(p, s, u, t.passed))
    && (t.pc.Store? ==> forall u | 0 <= u < p.threads :: Quiet(p, s.threads[u]))
  }

  /** Thread `u`'s share of the tile read after `passed` barriers is in place, and none of
      its copies can change that slot. */
  ghost predicate Ready(p: Params, s: State, u: nat, passed: nat)
    requires p.stages >= 1 && u < |s.threads| && passed >= 1
  {
    var tile := passed - 1;
    && NoneBoundFor(s.threads[u].groups, tile % p.stages)
    && forall q | 0 <= q < p.kTiles :: Holds(s.mem, tile % p.stages, u, q, tile)
  }

  ghost predicate Quiet(p: Params, t: Thread) {
    !MayRead(p, t) && !Reads(p, t.pc) && forall g | 0 <= g < |t.groups| :: t.groups[g] == {}
  }

  predicate Holds(mem: seq<Cells>, slot: int, u: nat, part: nat, tile: int) {
    0 <= slot < |mem| && u < |mem[slot]| && part < |mem[slot][u]| && mem[slot][u][part] == tile
  }

  ghost predicate NoneBoundFor(groups: seq<set<Write>>, slot: int) {
    forall g, w | 0 <= g < |groups| && w in groups[g] :: w.slot != slot
  }

  // ---------------------------------------------------------------- the invariant

  /** Barriers passed at a control point. */
  function Passed(p: Params, pc: PC): nat {
    match pc
    case Prologue(_) => 0
    case FirstWait => 0
    case FirstArrive => 0
    case FirstPass => 0
    case FirstRead => 1
    case Read(blk, i) => blk + 1 + (if Switched(p, pc) then 1 else 0)
    case Mma(blk, i) => blk + 1 + (if Switched(p, pc) then 1 else 0)
    case Copy(blk, _) => blk + 1
    case Advance(blk) => blk + 1
    case Wait(blk) => blk + 1
    case Arrive(blk) => blk + 1
    case Pass(blk) => blk + 1
    case LastArrive => p.n
    case LastPass => p.n
    case Store => p.n + 1
    case Done => p.n + 1
  }

  /** Has the loop body moved on to the next tile's slot?  Never in the last block. */
  predicate Switched(p: Params, pc: PC) {
    match pc
    case Read(blk, i) => i == p.kTiles - 1 && blk + 1 < p.n
    case Mma(blk, i) => i + 2 >= p.kTiles && blk + 1 < p.n
    case Wait(_) => true
    case Arrive(_) => true
    case Pass(_) => true
    case _ => false
  }

  predicate Waiting(pc: PC) { pc.FirstPass? || pc.Pass? || pc.LastPass? }

  /** The block the loop is in; prologue control points count as block 0. */
  function Blk(p: Params, pc: PC): nat
    requires p.n >= 1
  {
    match pc
    case Read(blk, _) => blk
    case Copy(blk, _) => blk
    case Advance(blk) => blk
    case Wait(blk) => blk
    case Arrive(blk) => blk
    case Pass(blk) => blk
    case Mma(blk, _) => blk
    case LastArrive => p.n - 1
    case LastPass => p.n - 1
    case Store => p.n - 1
    case Done => p.n - 1
    case _ => 0
  }

  /** Copy groups committed so far. */
  function Committed(p: Params, pc: PC): nat
    requires p.n >= 2
  {
    if pc.Prologue? then pc.c
    else if Blk(p, pc) + 2 >= p.n then p.n
    else Blk(p, pc) + 2 + (if Switched(p, pc) then 1 else 0)
  }

  /** Parts of the next tile already issued into the open group. */
  function Opened(p: Params, pc: PC): nat
    requires p.n >= 2 && p.kTiles >= 2
  {
    if Blk(p, pc) + 2 >= p.n || Switched(p, pc) then 0
    else match pc
      case Read(_, i) => i
      case Copy(_, i) => i
      case Advance(_) => p.kTiles - 1
      case Mma(_, i) => i + 1
      case _ => 0
  }

  /** Every copy group below this one is known to have landed. */
  function Floor(p: Params, pc: PC): nat {
    match pc
    case FirstArrive => 1
    case FirstPass => 1
    case Arrive(blk) => blk + 2
    case Pass(blk) => blk + 2
    case LastArrive => p.n
    case LastPass => p.n
    case Store => p.n
    case Done => p.n
    case _ => Passed(p, pc)
  }

  predicate Located(p: Params, pc: PC) {
    match pc
    case Prologue(c) => c < 2
    case Read(blk, i) => blk < p.n && i < p.kTiles
    case Copy(blk, i) => blk + 2 < p.n && i < p.kTiles - 1
    case Advance(blk) => blk + 1 < p.n
    case Wait(blk) => blk + 1 < p.n
    case Arrive(blk) => blk + 1 < p.n
    case Pass(blk) => blk + 1 < p.n
    case Mma(blk, i) => blk < p.n && i < p.kTiles
    case _ => true
  }

  /** The tile whose slot the read pointer denotes. */
  function ReadTile(p: Params, pc: PC): nat
    requires p.n >= 1
  {
    Blk(p, pc) + (if Switched(p, pc) then 1 else 0)
  }

  ghost predicate Pointers(p: Params, t: Thread)
    requires Launchable(p)
  {
    && Located(p, t.pc)
    && t.passed == Passed(p, t.pc)
    && t.arrived == t.passed + (if Waiting(t.pc) then 1 else 0)
    && t.src == Committed(p, t.pc)
    && t.dst == t.src % p.stages
    && (t.pc.Prologue? ==> t.iter == t.pc.c)
    && t.rd == ReadTile(p, t.pc) % p.stages
  }

  ghost predicate Registers(p: Params, t: Thread)
    requires Launchable(p) && |t.regs| == p.kTiles && Located(p, t.pc)
  {
    match t.pc
    case Read(blk, i) => t.regs[i] == (blk, i) && t.acc == Order(p, blk, i)
    case Copy(blk, i) => t.regs[i] == (blk, i) && t.regs[i + 1] == (blk, i + 1) && t.acc == Order(p, blk, i)
    case Advance(blk) => Loaded(p, t, blk)
    case Wait(blk) => Loaded(p, t, blk)
    case Arrive(blk) => Loaded(p, t, blk)
    case Pass(blk) => Loaded(p, t, blk)
    case Mma(blk, i) =>
      && t.regs[i] == (blk, i) && t.acc == Order(p, blk, i)
      && (i + 1 < p.kTiles ==> t.regs[i + 1] == (blk, i + 1))
      && (i + 1 == p.kTiles && blk + 1 < p.n ==> t.regs[0] == (blk + 1, 0))
    case LastArrive => t.acc == Order(p, p.n, 0)
    case LastPass => t.acc == Order(p, p.n, 0)
    case Store => t.acc == Order(p, p.n, 0)
    case Done => t.acc == Order(p, p.n, 0)
    case _ => t.acc == []
  }

  ghost predicate Loaded(p: Params, t: Thread, blk: nat)
    requires Launchable(p) && |t.regs| == p.kTiles
  {
    && t.regs[p.kTiles - 2] == (blk, p.kTiles - 2) && t.regs[p.kTiles - 1] == (blk, p.kTiles - 1)
    && t.acc == Order(p, blk, p.kTiles - 2)
  }

  ghost predicate InFlight(p: Params, t: Thread)
    requires Launchable(p)
  {
    && |t.groups| == t.src + 1
    && (forall g, w | 0 <= g <= t.src && w in t.groups[g] ::
          w.tile == g && w.slot == g % p.stages && w.part < p.kTiles
          && (g == t.src ==> w.part < Opened(p, t.pc)))
    && (forall g | 0 <= g < Floor(p, t.pc) && g <= t.src :: t.groups[g] == {})
  }

  ghost predicate Local(p: Params, t: Thread)
    requires Launchable(p)
  {
    Shaped(p, t) && Pointers(p, t) && Registers(p, t) && InFlight(p, t)
  }

  /** The last tile of which `part` has been issued. */
  function LastIssued(p: Params, t: Thread, part: nat): int
    requires p.n >= 2 && p.kTiles >= 2
  {
    if part < Opened(p, t.pc) then t.src else t.src - 1
  }

  /** A part of an issued tile that no later tile of the same slot overwrites is in
      place or still in flight. */
  ghost predicate Share(p: Params, t: Thread, mem: seq<Cells>, u: nat)
    requires Launchable(p) && InFlight(p, t)
  {
    forall j, part {:trigger Intact(p, t, j, part)} |
      0 <= j <= t.src && 0 <= part < p.kTiles && Intact(p, t, j, part) ::
      Holds(mem, j % p.stages, u, part, j) || Write(j % p.stages, part, j) in t.groups[j]
  }

  predicate Intact(p: Params, t: Thread, j: int, part: nat)
    requires p.n >= 2 && p.kTiles >= 2
  {
    j <= LastIssued(p, t, part) < j + p.stages
  }

  ghost predicate Ordered(s: State) {
    forall u, v | 0 <= u < |s.threads| && 0 <= v < |s.threads| :: s.threads[u].passed <= s.threads[v].arrived
  }

  ghost predicate Inv(p: Params, s: State) {
    && WellFormed(p, s)
    && (forall u | 0 <= u < p.threads :: Local(p, s.threads[u]))
    && Ordered(s)
    && ((forall u | 0 <= u < p.threads :: !s.threads[u].pc.Done?) ==>
          forall u | 0 <= u < p.threads :: Share(p, s.threads[u], s.mem, u))
  }

  // ---------------------------------------------------------------- local steps

  /** What the guard of a wait gives its step. */
  predicate Drained(p: Params, t: Thread) {
    && (t.pc.FirstWait? ==> Waited(t.groups, 1))
    && (t.pc.Wait? ==> Waited(t.groups, if t.pc.blk + 2 < p.n then 1 else 0))
  }

  /** What the guard and the loaded value give a step. */
  predicate Allowed(p: Params, t: Thread, load: int) {
    Drained(p, t) && (Reads(p, t.pc) ==> load == t.passed - 1)
  }

  predicate InLoop(pc: PC) { pc.Read? || pc.Copy? || pc.Advance? || pc.Mma? }

  lemma StepPointers(p: Params, t: Thread, load: int)
    requires Launchable(p) && Shaped(p, t) && Pointers(p, t)
    ensures Pointers(p, Exec(p, t, load)) && Shaped(p, Exec(p, t, load))
  {
    if t.pc.Prologue? {
      ModSucc(t.src, p.stages);
      PointersPrologue(p, t, load);
    } else if t.pc.Advance? {
      ModSucc(t.src, p.stages);
      ModSucc(ReadTile(p, t.pc), p.stages);
      PointersAdvance(p, t, load);
    } else if InLoop(t.pc) {
      PointersLoop(p, t, load);
    } else if t.pc.Wait? || t.pc.Arrive? || t.pc.Pass? {
      PointersBarrier(p, t, load);
    } else {
      PointersSync(p, t, load);
    }
  }

  lemma PointersPrologue(p: Params, t: Thread, load: int)
    requires Launchable(p) && Shaped(p, t) && Pointers(p, t) && t.pc.Prologue?
    ensures Pointers(p, Exec(p, t, load)) && Shaped(p, Exec(p, t, load))
  {
    ModSucc(t.src, p.stages);
  }

  lemma PointersAdvance(p: Params, t: Thread, load: int)
    requires Launchable(p) && Shaped(p, t) && Pointers(p, t) && t.pc.Advance?
    ensures Pointers(p, Exec(p, t, load)) && Shaped(p, Exec(p, t, load))
  {
    ModSucc(t.src, p.stages);
    ModSucc(ReadTile(p, t.pc), p.stages);
  }

  lemma PointersLoop(p: Params, t: Thread, load: int)
    requires Launchable(p) && Shaped(p, t) && Pointers(p, t) && (t.pc.Read? || t.pc.Copy? || t.pc.Mma?)
    ensures Pointers(p, Exec(p, t, load)) && Shaped(p, Exec(p, t, load))
  {
  }

  lemma PointersBarrier(p: Params, t: Thread, load: int)
    requires Launchable(p) && Shaped(p, t) && Pointers(p, t) && (t.pc.Wait? || t.pc.Arrive? || t.pc.Pass?)
    ensures Pointers(p, Exec(p, t, load)) && Shaped(p, Exec(p, t, load))
  {
  }

  lemma PointersSync(p: Params, t: Thread, load: int)
    requires Launchable(p) && Shaped(p, t) && Pointers(p, t)
    requires !t.pc.Prologue? && !InLoop(t.pc) && !t.pc.Wait? && !t.pc.Arrive? && !t.pc.Pass?
    ensures Pointers(p, Exec(p, t, load)) && Shaped(p, Exec(p, t, load))
  {
  }

  lemma StepRegisters(p: Params, t: Thread, load: int)
    requires Launchable(p) && Local(p, t) && Allowed(p, t, load)
    requires Pointers(p, Exec(p, t, load)) && Shaped(p, Exec(p, t, load))
    ensures Registers(p, Exec(p, t, load))
  {
    if t.pc.Read? {
      RegistersRead(p, t, load);
    } else if t.pc.Mma? {
      RegistersMma(p, t, load);
    } else if t.pc.Copy? || t.pc.Advance? {
      RegistersCopy(p, t, load);
    } else {
      RegistersSync(p, t, load);
    }
  }

  lemma RegistersRead(p: Params, t: Thread, load: int)
    requires Launchable(p) && Local(p, t) && Allowed(p, t, load) && t.pc.Read?
    requires Located(p, Exec(p, t, load).pc)
    ensures Registers(p, Exec(p, t, load))
  {
    var i := t.pc.i;
    if i + 1 < p.kTiles {
      DivModUnique(i + 1, p.kTiles, 0, i + 1);
    } else {
      DivModUnique(i + 1, p.kTiles, 1, 0);
    }
  }

  lemma RegistersMma(p: Params, t: Thread, load: int)
    requires Launchable(p) && Local(p, t) && t.pc.Mma?
    requires Located(p, Exec(p, t, load).pc)
    ensures Registers(p, Exec(p, t, load))
  {
  }

  lemma RegistersCopy(p: Params, t: Thread, load: int)
    requires Launchable(p) && Local(p, t) && (t.pc.Copy? || t.pc.Advance?)
    requires Located(p, Exec(p, t, load).pc)
    ensures Registers(p, Exec(p, t, load))
  {
  }

  lemma RegistersSync(p: Params, t: Thread, load: int)
    requires Launchable(p) && Local(p, t) && Allowed(p, t, load)
    requires !InLoop(t.pc) && Located(p, Exec(p, t, load).pc)
    ensures Registers(p, Exec(p, t, load))
  {
  }

  lemma StepInFlight(p: Params, t: Thread, load: int)
    requires Launchable(p) && Shaped(p, t) && Pointers(p, t) && InFlight(p, t) && Drained(p, t)
    requires Pointers(p, Exec(p, t, load))
    ensures InFlight(p, Exec(p, t, load))
  {
    if t.pc.Prologue? {
      InFlightPrologue(p, t, load);
    } else if t.pc.Copy? {
      InFlightCopy(p, t, load);
    } else if t.pc.Advance? {
      InFlightAdvance(p, t, load);
    } else if InLoop(t.pc) {
      InFlightLoop(p, t, load);
    } else {
      InFlightSync(p, t, load);
    }
  }

  lemma InFlightPrologue(p: Params, t: Thread, load: int)
    requires Launchable(p) && Shaped(p, t) && Pointers(p, t) && InFlight(p, t) && t.pc.Prologue?
    requires Pointers(p, Exec(p, t, load))
    ensures InFlight(p, Exec(p, t, load))
  {
  }

  lemma InFlightCopy(p: Params, t: Thread, load: int)
    requires Launchable(p) && Shaped(p, t) && Pointers(p, t) && InFlight(p, t) && t.pc.Copy?
    requires Pointers(p, Exec(p, t, load))
    ensures InFlight(p, Exec(p, t, load))
  {
    CopyOpens(p, t.pc.blk, t.pc.i);
    IssuedOne(p, t, t.pc.i, Exec(p, t, load));
  }

  lemma InFlightAdvance(p: Params, t: Thread, load: int)
    requires Launchable(p) && Shaped(p, t) && Pointers(p, t) && InFlight(p, t) && t.pc.Advance?
    requires Pointers(p, Exec(p, t, load))
    ensures InFlight(p, Exec(p, t, load))
  {
    if t.pc.blk + 2 < p.n {
      var ws := Issue(t.groups, {Write(t.dst, p.kTiles - 1, t.src)});
      assert Exec(p, t, load).groups == ws + [{}];
      forall g, w: Write | 0 <= g <= t.src && w in ws[g]
        ensures w.tile == g && w.slot == g % p.stages && w.part < p.kTiles
      {
        if g < t.src || w in t.groups[g] { assert w in t.groups[g]; }
      }
    }
  }

  /** Issuing part `i` opens one part more than before. */
  lemma CopyOpens(p: Params, blk: nat, i: nat)
    requires Launchable(p) && blk + 2 < p.n && i + 1 < p.kTiles
    ensures Opened(p, Copy(blk, i)) == i
    ensures Opened(p, Advance(blk)) == p.kTiles - 1 && (i + 2 < p.kTiles ==> Opened(p, Mma(blk, i)) == i + 1)
  {
  }

  lemma IssuedOne(p: Params, t: Thread, part: nat, t': Thread)
    requires Launchable(p) && t.groups != [] && InFlight(p, t)
    requires part < p.kTiles && Opened(p, t.pc) <= part < Opened(p, t'.pc)
    requires t.dst == t.src % p.stages
    requires t'.src == t.src && t'.groups == Issue(t.groups, {Write(t.dst, part, t.src)})
    requires Floor(p, t'.pc) <= Floor(p, t.pc) <= t.src
    ensures InFlight(p, t')
  {
    forall g, w: Write | 0 <= g <= t'.src && w in t'.groups[g]
      ensures w.tile == g && w.slot == g % p.stages && w.part < p.kTiles
      ensures g == t'.src ==> w.part < Opened(p, t'.pc)
    {
      if g < t.src || w in t.groups[g] { assert w in t.groups[g]; }
    }
    forall g | 0 <= g < Floor(p, t'.pc) && g <= t'.src
      ensures t'.groups[g] == {}
    {
      assert t'.groups[g] == t.groups[g];
    }
  }

  lemma InFlightLoop(p: Params, t: Thread, load: int)
    requires Launchable(p) && Shaped(p, t) && Pointers(p, t) && InFlight(p, t) && (t.pc.Read? || t.pc.Mma?)
    requires Pointers(p, Exec(p, t, load))
    ensures InFlight(p, Exec(p, t, load))
  {
    var t' := Exec(p, t, load);
    assert t'.groups == t.groups && t'.src == t.src;
    assert Opened(p, t'.pc) == Opened(p, t.pc);
    assert Floor(p, t'.pc) <= Floor(p, t.pc);
  }

  lemma InFlightSync(p: Params, t: Thread, load: int)
    requires Launchable(p) && Shaped(p, t) && Pointers(p, t) && InFlight(p, t) && Drained(p, t)
    requires !t.pc.Prologue? && !InLoop(t.pc)
    requires Pointers(p, Exec(p, t, load))
    ensures InFlight(p, Exec(p, t, load))
  {
    var t' := Exec(p, t, load);
    assert t'.groups == t.groups && t'.src == t.src;
    assert Opened(p, t'.pc) == Opened(p, t.pc) == 0;
    forall g | 0 <= g < Floor(p, t'.pc) && g <= t'.src
      ensures t'.groups[g] == {}
    {
      if t.pc.FirstWait? || t.pc.Wait? {
      } else {
        assert Floor(p, t'.pc) <= Floor(p, t.pc);
      }
    }
  }

  lemma StepLocal(p: Params, t: Thread, load: int)
    requires Launchable(p) && Local(p, t) && Allowed(p, t, load)
    ensures Local(p, Exec(p, t, load))
  {
    StepPointers(p, t, load);
    StepRegisters(p, t, load);
    StepInFlight(p, t, load);
  }

  // ---------------------------------------------------------------- shared memory

  /** How far ahead of its barriers a thread can issue copies. */
  lemma IssueBounds(p: Params, t: Thread, part: nat)
    requires Launchable(p) && Pointers(p, t) && part < p.kTiles
    ensures t.src - 1 <= LastIssued(p, t, part) <= t.src
    ensures t.passed <= Floor(p, t.pc) + 1 && t.arrived <= Floor(p, t.pc) + 1
    ensures (t.arrived <= p.n ==> t.arrived <= Floor(p, t.pc)) && Floor(p, t.pc) <= t.src
    ensures LastIssued(p, t, part) <= t.passed + 1 && LastIssued(p, t, part) <= Floor(p, t.pc) + 1
  {
  }

  lemma StepShare(p: Params, t: Thread, load: int, mem: seq<Cells>, u: nat)
    requires Launchable(p) && Local(p, t) && Share(p, t, mem, u)
    requires Pointers(p, Exec(p, t, load)) && InFlight(p, Exec(p, t, load))
    ensures Share(p, Exec(p, t, load), mem, u)
  {
    var t' := Exec(p, t, load);
    forall j, part | 0 <= j <= t'.src && 0 <= part < p.kTiles && Intact(p, t', j, part)
      ensures Holds(mem, j % p.stages, u, part, j) || Write(j % p.stages, part, j) in t'.groups[j]
    {
      if t.pc.Prologue? || t.pc.Copy? || t.pc.Advance? {
        ShareIssue(p, t, load, mem, u, j, part);
      } else {
        ShareQuiet(p, t, load, mem, u, j, part);
      }
    }
  }

  lemma ShareIssue(p: Params, t: Thread, load: int, mem: seq<Cells>, u: nat, j: nat, part: nat)
    requires Launchable(p) && Shaped(p, t) && Pointers(p, t) && InFlight(p, t) && Share(p, t, mem, u)
    requires t.pc.Prologue? || t.pc.Copy? || t.pc.Advance?
    requires part < p.kTiles && Intact(p, Exec(p, t, load), j, part)
    requires j <= Exec(p, t, load).src && |Exec(p, t, load).groups| == Exec(p, t, load).src + 1
    ensures Holds(mem, j % p.stages, u, part, j) || Write(j % p.stages, part, j) in Exec(p, t, load).groups[j]
  {
    if j <= t.src && Intact(p, t, j, part) {
    } else {
      assert j == t.src;
    }
  }

  lemma ShareQuiet(p: Params, t: Thread, load: int, mem: seq<Cells>, u: nat, j: nat, part: nat)
    requires Launchable(p) && Shaped(p, t) && Pointers(p, t) && InFlight(p, t) && Share(p, t, mem, u)
    requires !(t.pc.Prologue? || t.pc.Copy? || t.pc.Advance?)
    requires part < p.kTiles && Intact(p, Exec(p, t, load), j, part) && j <= t.src
    ensures Holds(mem, j % p.stages, u, part, j) || Write(j % p.stages, part, j) in t.groups[j]
  {
    assert Opened(p, t.pc) == Opened(p, Exec(p, t, load).pc);
    assert Intact(p, t, j, part);
  }

  lemma LandLocal(p: Params, t: Thread, g: nat, w: Write)
    requires Launchable(p) && Local(p, t) && g < |t.groups|
    ensures Local(p, Landed(t, g, w))
  {
  }

  lemma LandShare(p: Params, t: Thread, g: nat, w: Write, mem: seq<Cells>, u: nat)
    requires Launchable(p) && RingSuffices(p) && Local(p, t) && Share(p, t, mem, u)
    requires g < |t.groups| && w in t.groups[g]
    requires 0 <= w.slot < |mem| && u < |mem[w.slot]| && w.part < |mem[w.slot][u]|
    ensures InFlight(p, Landed(t, g, w))
    ensures Share(p, Landed(t, g, w), Put(mem, w.slot, u, w.part, w.tile), u)
  {
    LandLocal(p, t, g, w);
    var t', mem' := Landed(t, g, w), Put(mem, w.slot, u, w.part, w.tile);
    forall j, part | 0 <= j <= t'.src && 0 <= part < p.kTiles && Intact(p, t', j, part)
      ensures Holds(mem', j % p.stages, u, part, j) || Write(j % p.stages, part, j) in t'.groups[j]
    {
      assert Intact(p, t, j, part);
      if part == w.part && j % p.stages == w.slot {
        SameSlot(p, t, g, w, j);
      }
    }
  }

  /** Of the tiles sharing a slot, only the one still intact can be in flight. */
  lemma SameSlot(p: Params, t: Thread, g: nat, w: Write, j: nat)
    requires Launchable(p) && RingSuffices(p) && Local(p, t)
    requires g < |t.groups| && w in t.groups[g]
    requires Intact(p, t, j, w.part) && j % p.stages == w.slot
    ensures j == g
  {
    IssueBounds(p, t, w.part);
    assert g >= Floor(p, t.pc);
    if j <= g { ModInjective(j, g, p.stages); } else { ModInjective(g, j, p.stages); }
  }

  /** Landing leaves the other threads' shares alone. */
  lemma OtherShare(p: Params, t: Thread, mem: seq<Cells>, v: nat, slot: nat, u: nat, part: nat, tile: int)
    requires Launchable(p) && InFlight(p, t) && Share(p, t, mem, v) && u != v
    requires slot < |mem| && u < |mem[slot]| && part < |mem[slot][u]|
    ensures Share(p, t, Put(mem, slot, u, part, tile), v)
  {
    var mem' := Put(mem, slot, u, part, tile);
    forall j, q | 0 <= j <= t.src && 0 <= q < p.kTiles && Intact(p, t, j, q)
      ensures Holds(mem', j % p.stages, v, q, j) || Write(j % p.stages, q, j) in t.groups[j]
    {
      if Holds(mem, j % p.stages, v, q, j) { assert Holds(mem', j % p.stages, v, q, j); }
    }
  }

  // ---------------------------------------------------------------- safety of one state

  /** While a thread may read, no thread is done. */
  lemma NoneDone(p: Params, s: State, v: nat)
    requires Inv(p, s) && v < p.threads && MayRead(p, s.threads[v])
    ensures forall w | 0 <= w < p.threads :: !s.threads[w].pc.Done?
  {
    forall w | 0 <= w < p.threads
      ensures !s.threads[w].pc.Done?
    {
      assert s.threads[w].passed <= s.threads[v].arrived;
      assert Local(p, s.threads[w]);
    }
  }

  /** A thread that may read a tile finds every thread's share of it landed and intact. */
  lemma ShareIsReady(p: Params, s: State, v: nat, u: nat)
    requires Inv(p, s) && RingSuffices(p) && v < p.threads && u < p.threads && MayRead(p, s.threads[v])
    ensures Ready(p, s, u, s.threads[v].passed)
  {
    var e, t := s.threads[v].passed - 1, s.threads[u];
    assert s.threads[v].passed <= t.arrived && t.passed <= s.threads[v].arrived;
    NoneDone(p, s, v);
    assert Local(p, t) && Share(p, t, s.mem, u);
    TileIsSettled(p, t, e);
    forall q | 0 <= q < p.kTiles
      ensures Holds(s.mem, e % p.stages, u, q, e)
    {
      assert Intact(p, t, e, q);
    }
  }

  /** Between barriers e + 1 and e + 2 a thread's copies of tile e have landed and those
      of later tiles go to other slots. */
  lemma TileIsSettled(p: Params, t: Thread, e: nat)
    requires Launchable(p) && RingSuffices(p) && Pointers(p, t) && InFlight(p, t)
    requires e < p.n && t.passed <= e + 1 <= t.arrived
    ensures e <= t.src && t.groups[e] == {}
    ensures NoneBoundFor(t.groups, e % p.stages)
    ensures forall q | 0 <= q < p.kTiles :: Intact(p, t, e, q)
  {
    IssueBounds(p, t, 0);
    forall g, w | 0 <= g < |t.groups| && w in t.groups[g]
      ensures w.slot != e % p.stages
    {
      IssueBounds(p, t, w.part);
      if w.slot == e % p.stages { ModInjective(e, g, p.stages); }
    }
    forall q | 0 <= q < p.kTiles
      ensures Intact(p, t, e, q)
    {
      IssueBounds(p, t, q);
    }
  }

  lemma ReadsAreGuarded(p: Params, t: Thread)
    requires Launchable(p) && Pointers(p, t) && Reads(p, t.pc)
    ensures MayRead(p, t) && t.rd == (t.passed - 1) % p.stages
  {
  }

  /** Past the last barrier, every thread has drained its copies and finished reading. */
  lemma StoreIsQuiet(p: Params, s: State, v: nat, u: nat)
    requires Inv(p, s) && v < p.threads && u < p.threads && s.threads[v].pc.Store?
    ensures Quiet(p, s.threads[u])
  {
    assert s.threads[v].passed <= s.threads[u].arrived;
    assert Local(p, s.threads[v]);
    assert s.threads[v].passed == p.n + 1;
    PastTheEnd(p, s.threads[u]);
  }

  lemma PastTheEnd(p: Params, t: Thread)
    requires Launchable(p) && Shaped(p, t) && Pointers(p, t) && InFlight(p, t) && t.arrived > p.n
    ensures Quiet(p, t)
  {
    assert t.pc.LastPass? || t.pc.Store? || t.pc.Done?;
    assert t.src == p.n == Floor(p, t.pc) && Opened(p, t.pc) == 0;
    forall g | 0 <= g < |t.groups|
      ensures t.groups[g] == {}
    {
      assert g == t.src ==> forall w | w in t.groups[g] :: w.part < 0;
    }
  }

  lemma InvIsSafe(p: Params, s: State)
    requires Inv(p, s) && RingSuffices(p)
    ensures HazardFree(p, s)
  {
    forall v | 0 <= v < p.threads
      ensures SafeFor(p, s, v)
    {
      var t := s.threads[v];
      assert Local(p, t);
      if Reads(p, t.pc) { ReadsAreGuarded(p, t); }
      forall u | 0 <= u < p.threads && MayRead(p, t)
        ensures Ready(p, s, u, t.passed)
      {
        ShareIsReady(p, s, v, u);
      }
      forall u | 0 <= u < p.threads && t.pc.Store?
        ensures Quiet(p, s.threads[u])
      {
        StoreIsQuiet(p, s, v, u);
      }
    }
  }

  // ---------------------------------------------------------------- every run

  lemma LoadsWhatItReads(p: Params, v: nat, i: nat, cells: Cells, tile: int)
    requires Launchable(p) && v < p.threads && i < p.kTiles && Sized(p, cells) && ReadsAs(p, v, i, cells, tile)
    ensures Load(p, v, i, cells) == tile
  {
    assert ReadsSome(p, v, i);
    var u: nat, q: nat :| u < p.threads && q < p.kTiles && p.touches(v, i, u, q);
    assert |cells[u]| == p.kTiles;
    assert forall other | ReadsAs(p, v, i, cells, other) :: other == cells[u][q];
  }

  lemma LoadIsTile(p: Params, s: State, v: nat)
    requires WellFormed(p, s) && HazardFree(p, s) && v < p.threads && Reads(p, s.threads[v].pc)
    ensures Fetch(p, s, v) == s.threads[v].passed - 1
  {
    var t := s.threads[v];
    assert SafeFor(p, s, v);
    var cells, e := s.mem[t.rd], t.passed - 1;
    assert Sized(p, cells);
    forall u: nat, q: nat | u < |cells| && q < |cells[u]|
      ensures cells[u][q] == e
    {
      assert Ready(p, s, u, t.passed);
      assert Holds(s.mem, t.rd, u, q, e);
    }
    LoadsWhatItReads(p, v, Step(p, t.pc), cells, e);
  }

  lemma InitInv(p: Params, s: State)
    requires Init(p, s)
    ensures Inv(p, s)
  {
    forall u | 0 <= u < p.threads
      ensures Local(p, s.threads[u]) && Share(p, s.threads[u], s.mem, u)
    {
      assert InitThread(p, s.threads[u]);
      assert 0 % p.stages == 0 by { DivModUnique(0, p.stages, 0, 0); }
    }
    forall u, v | 0 <= u < p.threads && 0 <= v < p.threads
      ensures s.threads[u].passed <= s.threads[v].arrived
    {
      assert InitThread(p, s.threads[u]) && InitThread(p, s.threads[v]);
    }
  }

  lemma StepInv(p: Params, s: State, s': State, u: nat)
    requires Inv(p, s) && RingSuffices(p) && ThreadStep(p, s, s', u)
    ensures Inv(p, s')
  {
    InvIsSafe(p, s);
    var t := s.threads[u];
    var load := Fetch(p, s, u);
    if Reads(p, t.pc) { LoadIsTile(p, s, u); }
    assert Local(p, t);
    StepLocal(p, t, load);
    StepOrdered(p, s, s', u);
    StepWellFormed(p, s, s', u);
    forall v | 0 <= v < p.threads
      ensures Local(p, s'.threads[v])
    {
      assert Local(p, s.threads[v]);
    }
    if forall v | 0 <= v < p.threads :: !s'.threads[v].pc.Done? {
      assert !s'.threads[u].pc.Done?;
      assert !t.pc.Store? && !t.pc.Done?;
      forall v | 0 <= v < p.threads
        ensures !s.threads[v].pc.Done?
      {
        assert !s'.threads[v].pc.Done?;
      }
      forall v | 0 <= v < p.threads
        ensures Share(p, s'.threads[v], s'.mem, v)
      {
        assert Share(p, s.threads[v], s.mem, v);
        if v == u { StepShare(p, t, load, s.mem, u); }
      }
    }
  }

  lemma StepWellFormed(p: Params, s: State, s': State, u: nat)
    requires WellFormed(p, s) && ThreadStep(p, s, s', u) && Shaped(p, s'.threads[u])
    ensures WellFormed(p, s')
  {
    forall k | 0 <= k < p.stages
      ensures Sized(p, s'.mem[k])
    {
      assert Sized(p, s.mem[k]) && Sized(p, Clobber(p)[k]);
    }
    forall v | 0 <= v < p.threads
      ensures Shaped(p, s'.threads[v])
    {
      assert Shaped(p, s.threads[v]);
    }
  }

  lemma StepOrdered(p: Params, s: State, s': State, u: nat)
    requires WellFormed(p, s) && Ordered(s) && ThreadStep(p, s, s', u)
    ensures Ordered(s')
  {
    var t, t' := s.threads[u], s'.threads[u];
    assert t'.arrived >= t.arrived;
    forall a, b | 0 <= a < p.threads && 0 <= b < p.threads
      ensures s'.threads[a].passed <= s'.threads[b].arrived
    {
      assert s.threads[a].passed <= s.threads[b].arrived;
      assert s'.threads[b].arrived >= s.threads[b].arrived;
      if a == u && t'.passed != t.passed {
        assert BarrierOpen(s, t.passed);
      }
    }
  }

  lemma LandInv(p: Params, s: State, s': State, u: nat, g: nat, w: Write)
    requires Inv(p, s) && RingSuffices(p) && LandStep(p, s, s', u, g, w)
    ensures Inv(p, s')
  {
    var t := s.threads[u];
    assert Local(p, t) && Sized(p, s.mem[w.slot]);
    LandLocal(p, t, g, w);
    forall v | 0 <= v < p.threads
      ensures Local(p, s'.threads[v])
    {
      assert Local(p, s.threads[v]);
    }
    LandWellFormed(p, s, s', u, g, w);
    LandOrdered(p, s, s', u, g, w);
    if forall v | 0 <= v < p.threads :: !s'.threads[v].pc.Done? {
      forall v | 0 <= v < p.threads
        ensures !s.threads[v].pc.Done?
      {
        assert !s'.threads[v].pc.Done?;
      }
      forall v | 0 <= v < p.threads
        ensures Share(p, s'.threads[v], s'.mem, v)
      {
        assert Share(p, s.threads[v], s.mem, v);
        if v == u {
          LandShare(p, t, g, w, s.mem, u);
        } else {
          OtherShare(p, s.threads[v], s.mem, v, w.slot, u, w.part, w.tile);
        }
      }
    }
  }

  lemma LandWellFormed(p: Params, s: State, s': State, u: nat, g: nat, w: Write)
    requires WellFormed(p, s) && LandStep(p, s, s', u, g, w)
    ensures WellFormed(p, s')
  {
    forall k | 0 <= k < p.stages
      ensures Sized(p, s'.mem[k])
    {
      assert Sized(p, s.mem[k]);
    }
    forall v | 0 <= v < p.threads
      ensures Shaped(p, s'.threads[v])
    {
      assert Shaped(p, s.threads[v]) && Shaped(p, s.threads[u]);
    }
  }

  lemma LandOrdered(p: Params, s: State, s': State, u: nat, g: nat, w: Write)
    requires WellFormed(p, s) && Ordered(s) && LandStep(p, s, s', u, g, w)
    ensures Ordered(s')
  {
    forall a, b | 0 <= a < p.threads && 0 <= b < p.threads
      ensures s'.threads[a].passed <= s'.threads[b].arrived
    {
      assert s.threads[a].passed <= s.threads[b].arrived;
    }
  }

  lemma {:induction false} RunInv(p: Params, run: seq<State>, k: nat)
    requires Run(p, run) && RingSuffices(p) && k < |run|
    ensures Inv(p, run[k])
  {
    if k == 0 {
      InitInv(p, run[0]);
    } else {
      RunInv(p, run, k - 1);
      assert Next(p, run[k - 1], run[k - 1 + 1]);
      var s, s' := run[k - 1], run[k];
      if u: nat :| ThreadStep(p, s, s', u) {
        StepInv(p, s, s', u);
      } else {
        var u: nat, g: nat, w: Write :| LandStep(p, s, s', u, g, w);
        LandInv(p, s, s', u, g, w);
      }
    }
  }

  /** With a ring that suffices, no interleaving of threads and landings meets a hazard. */
  lemma AllRunsHazardFree(p: Params, run: seq<State>, k: nat)
    requires Run(p, run) && RingSuffices(p) && k < |run|
    ensures WellFormed(p, run[k]) && HazardFree(p, run[k])
  {
    RunInv(p, run, k);
    InvIsSafe(p, run[k]);
  }

  /** In every run, a thread that has finished has fed the accumulator each (K-tile, step)
      pair exactly once, in order, from registers holding that step's slice of that tile. */
  lemma AllRunsExact(p: Params, run: seq<State>, k: nat, u: nat)
    requires Run(p, run) && RingSuffices(p) && k < |run| && u < |run[k].threads|
    ensures run[k].threads[u].pc.Done? ==> Exact(p, run[k].threads[u].acc)
  {
    OrderIsExact(p);
    RunInv(p, run, k);
    assert Local(p, run[k].threads[u]);
  }
}
