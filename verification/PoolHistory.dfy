module PoolHistory {

  /** Every history of a memory pool: allocations, deallocations, streams being tracked and events
      completing, in any order. */

  import opened Common
  import opened Arith
  import opened MemoryPool

  /** A pool, the events completed so far, and two observations: the pointers now in use, and the
      events recorded when each pointer was last handed out. */
  datatype World = World(blocks: seq<Rec>, streams: set<Stream>, complete: set<Event>,
                         live: set<Ptr>, recorded: map<Ptr, seq<Event>>)

  datatype Op =
    | Alloc(n: nat, newPtr: Ptr, events: seq<Event>, clock: Clock)
    | Free(p: Ptr)
    | Track(s: Stream)
    | Complete(e: Event)

  const INITIAL := World([], {}, {}, {}, map[])

  /** Completed events stay completed, and more may complete during the call. */
  predicate Ticks(w: World, clock: Clock) {
    && |clock| == |w.blocks| + 1 && w.complete <= clock[0]
    && forall i, j :: 0 <= i < j < |clock| ==> clock[i] <= clock[j]
  }

  /** cudaMalloc returns memory not handed out before, and recording makes one event per stream. */
  predicate Possible(w: World, op: Op) {
    op.Alloc? ==>
      (forall i :: 0 <= i < |w.blocks| ==> w.blocks[i].ptr != op.newPtr)
      && (set e | e in op.events :: e.stream) == w.streams
      && Ticks(w, op.clock)
  }

  /** The pointer an operation hands out. */
  function Returned(w: World, op: Op): Option<Ptr>
    requires Possible(w, op)
  {
    if op.Alloc? then
      (match Allocated(w.blocks, op.n, op.clock, op.newPtr, op.events)
       case None => None
       case Some((_, p)) => Some(p))
    else None
  }

  /** The world after an operation, or None if the program stops. */
  function Next(w: World, op: Op): Option<World>
    requires Possible(w, op)
  {
    match op
    case Alloc(n, newPtr, events, clock) =>
      (match Allocated(w.blocks, n, clock, newPtr, events)
       case None => None
       case Some((blocks, p)) =>
         Some(w.(blocks := blocks, complete := clock[|w.blocks|],
                 live := w.live + {p}, recorded := w.recorded[p := events])))
    case Free(p) =>
      (match Freed(w.blocks, p)
       case None => None
       case Some(blocks) => Some(w.(blocks := blocks, live := w.live - {p})))
    case Track(s) => Some(w.(streams := w.streams + {s}))
    case Complete(e) => Some(w.(complete := w.complete + {e}))
  }

  /** Can the operations be run from w one after the other, ending in `end`? */
  predicate Runs(w: World, ops: seq<Op>, end: World)
    decreases |ops|
  {
    if ops == [] then end == w
    else Possible(w, ops[0]) && Next(w, ops[0]).Some? && Runs(Next(w, ops[0]).value, ops[1..], end)
  }

  // ---------------------------------------------------------------- the invariant

  ghost predicate BlockOk(w: World, b: Rec) {
    && (b.ptr in w.live <==> !b.markedFree)
    && b.ptr in w.recorded
    && (forall e :: e in w.recorded[b.ptr] ==> e in b.events || e in w.complete)
    && forall e :: e in b.events ==> e in w.recorded[b.ptr]
  }

  predicate Has(blocks: seq<Rec>, p: Ptr) {
    exists i :: 0 <= i < |blocks| && blocks[i].ptr == p
  }

  ghost predicate Inv(w: World) {
    && Sorted(w.blocks) && Distinct(w.blocks)
    && (forall i :: 0 <= i < |w.blocks| ==> BlockOk(w, w.blocks[i]))
    && (forall p :: p in w.live ==> Has(w.blocks, p))
  }

  lemma InsertKeepsOrder(blocks: seq<Rec>, b: Rec)
    requires Sorted(blocks) && Distinct(blocks) && !Has(blocks, b.ptr)
    ensures Sorted(Insert(blocks, b)) && Distinct(Insert(blocks, b))
  {
    LowerBoundMeaning(blocks, b.nbytes);
    var at, w := LowerBound(blocks, b.nbytes), Insert(blocks, b);
    forall i, j | 0 <= i < j < |w|
      ensures w[i].nbytes <= w[j].nbytes && w[i].ptr != w[j].ptr
    {
      if i == at { assert w[j] == blocks[j - 1]; }
      if i < at == j { assert w[i] == blocks[i]; }
    }
  }

  /** The three ways Allocate can go, with k the first block of enough bytes found idle. */
  lemma AllocateCases(w: World, n: nat, newPtr: Ptr, events: seq<Event>, clock: Clock)
    requires Ticks(w, clock) && Allocated(w.blocks, n, clock, newPtr, events).Some?
    ensures var k := FirstIdle(w.blocks, LowerBound(w.blocks, n), clock);
            var (blocks, p) := Allocated(w.blocks, n, clock, newPtr, events).value;
            var block := Rec(newPtr, n, false, events);
            if k == |w.blocks| then p == newPtr && blocks == Insert(w.blocks, block)
            else if w.blocks[k].nbytes >= 3 * n then p == newPtr && blocks == Insert(Cleared(w.blocks, k), block)
            else p == w.blocks[k].ptr
                 && blocks == w.blocks[k := w.blocks[k].(markedFree := false, events := events)]
  {
    var k := FirstIdle(w.blocks, LowerBound(w.blocks, n), clock);
    if k < |w.blocks| { ThirdOf(w.blocks[k].nbytes, n); }
  }

  /** The program's test nbytes / n > 2 on truncating division. */
  lemma ThirdOf(a: nat, n: nat)
    requires n > 0
    ensures a / n > 2 <==> a >= 3 * n
  {
    var q := a / n;
    if q > 2 { MulMonotone(3, q, n); } else { MulMonotone(q, 2, n); }
  }

  /** Events completing keeps the invariant. */
  lemma CompleteKeepsInv(w: World, complete: set<Event>)
    requires Inv(w) && w.complete <= complete
    ensures Inv(w.(complete := complete))
  {
    forall i | 0 <= i < |w.blocks|
      ensures BlockOk(w.(complete := complete), w.blocks[i])
    {
      assert BlockOk(w, w.blocks[i]);
    }
  }

  /** Dropping the events of an idle block, all of them complete, keeps the invariant. */
  lemma ClearKeepsInv(w: World, k: nat)
    requires Inv(w) && k < |w.blocks| && Idle(w.blocks[k], w.complete)
    ensures Inv(w.(blocks := Cleared(w.blocks, k)))
  {
    var v := w.(blocks := Cleared(w.blocks, k));
    forall i | 0 <= i < |v.blocks|
      ensures BlockOk(v, v.blocks[i])
    {
      assert BlockOk(w, w.blocks[i]);
    }
    SamePointers(w.blocks, v.blocks);
  }

  lemma SamePointers(a: seq<Rec>, b: seq<Rec>)
    requires |a| == |b| && forall i :: 0 <= i < |a| ==> a[i].ptr == b[i].ptr
    ensures forall p :: Has(a, p) ==> Has(b, p)
  {
  }

  /** A block with another pointer is not affected by handing out newPtr. */
  lemma OthersOk(w: World, v: World, newPtr: Ptr, j: nat)
    requires Inv(w) && j < |w.blocks| && w.blocks[j].ptr != newPtr
    requires v.live == w.live + {newPtr} && v.complete == w.complete
    requires newPtr in v.recorded && v.recorded == w.recorded[newPtr := v.recorded[newPtr]]
    ensures BlockOk(v, w.blocks[j])
  {
    assert BlockOk(w, w.blocks[j]);
  }

  lemma FreshKeepsInv(w: World, n: nat, newPtr: Ptr, events: seq<Event>)
    requires Inv(w) && !Has(w.blocks, newPtr)
    ensures Inv(w.(blocks := Insert(w.blocks, Rec(newPtr, n, false, events)),
                   live := w.live + {newPtr}, recorded := w.recorded[newPtr := events]))
  {
    var b := Rec(newPtr, n, false, events);
    var v := w.(blocks := Insert(w.blocks, b), live := w.live + {newPtr}, recorded := w.recorded[newPtr := events]);
    var at := LowerBound(w.blocks, n);
    InsertKeepsOrder(w.blocks, b);
    forall i | 0 <= i < |v.blocks|
      ensures BlockOk(v, v.blocks[i])
    {
      if i != at { OthersOk(w, v, newPtr, if i < at then i else i - 1); }
    }
    forall p | p in v.live
      ensures Has(v.blocks, p)
    {
      InsertHas(w.blocks, b, p);
    }
  }

  lemma InsertHas(blocks: seq<Rec>, b: Rec, p: Ptr)
    requires p == b.ptr || Has(blocks, p)
    ensures Has(Insert(blocks, b), p)
  {
    var at := LowerBound(blocks, b.nbytes);
    if p == b.ptr {
      assert Insert(blocks, b)[at].ptr == p;
    } else {
      var j :| 0 <= j < |blocks| && blocks[j].ptr == p;
      assert Insert(blocks, b)[if j < at then j else j + 1] == blocks[j];
    }
  }

  lemma ReuseKeepsInv(w: World, k: nat, events: seq<Event>)
    requires Inv(w) && k < |w.blocks|
    ensures Inv(w.(blocks := w.blocks[k := w.blocks[k].(markedFree := false, events := events)],
                   live := w.live + {w.blocks[k].ptr}, recorded := w.recorded[w.blocks[k].ptr := events]))
  {
    var p := w.blocks[k].ptr;
    var v := w.(blocks := w.blocks[k := w.blocks[k].(markedFree := false, events := events)],
                live := w.live + {p}, recorded := w.recorded[p := events]);
    forall i | 0 <= i < |v.blocks|
      ensures BlockOk(v, v.blocks[i])
    {
      assert BlockOk(w, w.blocks[i]);
      assert i != k ==> w.blocks[i].ptr != p;
    }
    SamePointers(w.blocks, v.blocks);
    assert v.blocks[k].ptr == p;
  }

  lemma FreeKeepsInv(w: World, p: Ptr)
    requires Inv(w) && Freed(w.blocks, p).Some?
    ensures Inv(w.(blocks := Freed(w.blocks, p).value, live := w.live - {p}))
  {
    var k := Find(w.blocks, p);
    var v := w.(blocks := Freed(w.blocks, p).value, live := w.live - {p});
    forall i | 0 <= i < |v.blocks|
      ensures BlockOk(v, v.blocks[i])
    {
      assert BlockOk(w, w.blocks[i]);
      assert i != k ==> w.blocks[i].ptr != p;
    }
    SamePointers(w.blocks, v.blocks);
  }

  lemma StepInv(w: World, op: Op)
    requires Inv(w) && Possible(w, op) && Next(w, op).Some?
    ensures Inv(Next(w, op).value)
  {
    match op
    case Alloc(n, newPtr, events, clock) => AllocKeepsInv(w, n, newPtr, events, clock);
    case Free(p) => FreeKeepsInv(w, p);
    case Track(s) => assert forall i :: 0 <= i < |w.blocks| ==> BlockOk(w, w.blocks[i]);
    case Complete(e) => CompleteKeepsInv(w, w.complete + {e});
  }

  lemma AllocKeepsInv(w: World, n: nat, newPtr: Ptr, events: seq<Event>, clock: Clock)
    requires Inv(w) && Possible(w, Alloc(n, newPtr, events, clock)) && Next(w, Alloc(n, newPtr, events, clock)).Some?
    ensures Inv(Next(w, Alloc(n, newPtr, events, clock)).value)
  {
    AllocateCases(w, n, newPtr, events, clock);
    var k := FirstIdle(w.blocks, LowerBound(w.blocks, n), clock);
    var later := w.(complete := clock[|w.blocks|]);
    CompleteKeepsInv(w, later.complete);
    if k == |w.blocks| {
      FreshKeepsInv(later, n, newPtr, events);
    } else if w.blocks[k].nbytes >= 3 * n {
      FirstIdleMeaning(w.blocks, LowerBound(w.blocks, n), clock);
      IdleLater(w.blocks[k], clock, k, |w.blocks|);
      ClearKeepsInv(later, k);
      SamePointers(Cleared(w.blocks, k), w.blocks);
      FreshKeepsInv(later.(blocks := Cleared(w.blocks, k)), n, newPtr, events);
    } else {
      ReuseKeepsInv(later, k, events);
    }
  }

  /** Once idle, a block stays idle until it is handed out. */
  lemma IdleLater(b: Rec, clock: Clock, i: nat, j: nat)
    requires i <= j < |clock| && (forall i, j :: 0 <= i < j < |clock| ==> clock[i] <= clock[j]) && Idle(b, clock[i])
    ensures Idle(b, clock[j])
  {
    assert i < j ==> clock[i] <= clock[j];
  }

  lemma {:induction false} RunsInv(w: World, ops: seq<Op>, end: World)
    requires Inv(w) && Runs(w, ops, end)
    ensures Inv(end)
    decreases |ops|
  {
    if ops != [] {
      StepInv(w, ops[0]);
      RunsInv(Next(w, ops[0]).value, ops[1..], end);
    }
  }

  /** Every history of a new pool keeps the invariant. */
  lemma Reachable(ops: seq<Op>, w: World)
    requires Runs(INITIAL, ops, w)
    ensures Inv(w)
  {
    RunsInv(INITIAL, ops, w);
  }

  // ---------------------------------------------------------------- safety

  /** Block i of `now` is a block of `before`: same memory, same size. */
  predicate Kept(before: seq<Rec>, now: seq<Rec>, i: nat)
    requires i < |before|
  {
    exists j :: 0 <= j < |now| && now[j].ptr == before[i].ptr && now[j].nbytes == before[i].nbytes
  }

  predicate Holds(blocks: seq<Rec>, p: Ptr, n: nat, events: seq<Event>) {
    exists i :: 0 <= i < |blocks| && blocks[i].ptr == p && blocks[i].nbytes >= n
                && !blocks[i].markedFree && blocks[i].events == events
  }

  lemma {:induction false} InsertKeeps(blocks: seq<Rec>, b: Rec, i: nat)
    requires i < |blocks|
    ensures Kept(blocks, Insert(blocks, b), i)
  {
    var at := LowerBound(blocks, b.nbytes);
    assert Insert(blocks, b)[if i < at then i else i + 1] == blocks[i];
  }

  /** Allocation hands out a block that was not in use and is large enough, makes that block and
      no other live, guards it by the events just recorded, and loses no block. */
  lemma AllocationIsSafe(w: World, op: Op)
    requires Inv(w) && op.Alloc? && Possible(w, op) && Next(w, op).Some?
    ensures var v, p := Next(w, op).value, Returned(w, op).value;
            && p !in w.live && v.live == w.live + {p}
            && Holds(v.blocks, p, op.n, op.events)
            && forall i :: 0 <= i < |w.blocks| ==> Kept(w.blocks, v.blocks, i)
  {
    AllocateCases(w, op.n, op.newPtr, op.events, op.clock);
    var lb := LowerBound(w.blocks, op.n);
    var k := FirstIdle(w.blocks, lb, op.clock);
    FirstIdleMeaning(w.blocks, lb, op.clock);
    LowerBoundMeaning(w.blocks, op.n);
    if k < |w.blocks| && w.blocks[k].nbytes < 3 * op.n {
      ReuseIsSafe(w, Next(w, op).value.blocks, k, op.n, op.events);
    } else {
      FreshIsSafe(w, Cleared(w.blocks, k), Rec(op.newPtr, op.n, false, op.events));
    }
  }

  /** Block k handed out again. */
  lemma ReuseIsSafe(w: World, blocks: seq<Rec>, k: nat, n: nat, events: seq<Event>)
    requires Inv(w) && k < |w.blocks| && w.blocks[k].markedFree && w.blocks[k].nbytes >= n
    requires blocks == w.blocks[k := w.blocks[k].(markedFree := false, events := events)]
    ensures w.blocks[k].ptr !in w.live && Holds(blocks, w.blocks[k].ptr, n, events)
    ensures forall i :: 0 <= i < |w.blocks| ==> Kept(w.blocks, blocks, i)
  {
    assert BlockOk(w, w.blocks[k]);
    assert blocks[k].ptr == w.blocks[k].ptr && blocks[k].nbytes == w.blocks[k].nbytes >= n;
    forall i | 0 <= i < |w.blocks|
      ensures Kept(w.blocks, blocks, i)
    {
      assert blocks[i].ptr == w.blocks[i].ptr && blocks[i].nbytes == w.blocks[i].nbytes;
    }
  }

  /** A new block is inserted into the same blocks, one of them perhaps without its events. */
  lemma FreshIsSafe(w: World, blocks: seq<Rec>, b: Rec)
    requires Inv(w) && |blocks| == |w.blocks| && !b.markedFree
    requires forall i :: 0 <= i < |blocks| ==> blocks[i].ptr == w.blocks[i].ptr != b.ptr
    requires forall i :: 0 <= i < |blocks| ==> blocks[i].nbytes == w.blocks[i].nbytes
    ensures b.ptr !in w.live && Holds(Insert(blocks, b), b.ptr, b.nbytes, b.events)
    ensures forall i :: 0 <= i < |w.blocks| ==> Kept(w.blocks, Insert(blocks, b), i)
  {
    assert Insert(blocks, b)[LowerBound(blocks, b.nbytes)] == b;
    forall i | 0 <= i < |w.blocks|
      ensures Kept(w.blocks, Insert(blocks, b), i)
    {
      InsertKeeps(blocks, b, i);
      var j :| 0 <= j < |Insert(blocks, b)| && Insert(blocks, b)[j].ptr == blocks[i].ptr
              && Insert(blocks, b)[j].nbytes == blocks[i].nbytes;
      assert Insert(blocks, b)[j].ptr == w.blocks[i].ptr;
    }
  }

  /** Deallocation passes its checks exactly for pointers in use. */
  lemma FreeIffLive(w: World, p: Ptr)
    requires Inv(w)
    ensures Next(w, Free(p)).Some? <==> p in w.live
  {
    var k := Find(w.blocks, p);
    if k < |w.blocks| { assert BlockOk(w, w.blocks[k]); }
  }

  /** Is p handed out by one of these operations? */
  predicate HandedOut(w: World, ops: seq<Op>, p: Ptr)
    decreases |ops|
  {
    ops != [] && Possible(w, ops[0]) && Next(w, ops[0]).Some?
    && (Returned(w, ops[0]) == Some(p) || HandedOut(Next(w, ops[0]).value, ops[1..], p))
  }

  /** A pointer in use stays in use, and is never handed out again, until it is deallocated. */
  lemma {:induction false} NeverTwice(w: World, ops: seq<Op>, end: World, p: Ptr)
    requires Inv(w) && Runs(w, ops, end) && p in w.live && Free(p) !in ops
    ensures p in end.live && !HandedOut(w, ops, p)
    decreases |ops|
  {
    if ops != [] {
      var op := ops[0];
      assert op in ops;
      if op.Alloc? { AllocationIsSafe(w, op); }
      StepInv(w, op);
      NeverTwice(Next(w, op).value, ops[1..], end, p);
    }
  }

  // ---------------------------------------------------------------- reuse policy

  /** Pointer p is not in use, and everything recorded when it was last handed out has completed. */
  predicate Released(live: set<Ptr>, recorded: map<Ptr, seq<Event>>, complete: set<Event>, p: Ptr) {
    p !in live && p in recorded && forall e :: e in recorded[p] ==> e in complete
  }

  /** What the program finds out from a block's mark and events is what the history says. */
  lemma IdleIffReleased(w: World, i: nat, complete: set<Event>)
    requires Inv(w) && i < |w.blocks| && w.complete <= complete
    ensures Idle(w.blocks[i], complete) <==> Released(w.live, w.recorded, complete, w.blocks[i].ptr)
  {
    assert BlockOk(w, w.blocks[i]);
  }

  /** Block i is idle, by the history, when its turn comes in a call at whose queries the events of
      `clock` are complete. */
  predicate Spare(w: World, clock: Clock, i: nat)
    requires i < |w.blocks| <= |clock|
  {
    Released(w.live, w.recorded, clock[i], w.blocks[i].ptr)
  }

  lemma SpareIffIdle(w: World, clock: Clock)
    requires Inv(w) && Ticks(w, clock)
    ensures forall i :: 0 <= i < |w.blocks| ==> (Spare(w, clock, i) <==> Idle(w.blocks[i], clock[i]))
  {
    forall i | 0 <= i < |w.blocks|
      ensures Spare(w, clock, i) <==> Idle(w.blocks[i], clock[i])
    {
      assert w.complete <= clock[i] by { assert i > 0 ==> clock[0] <= clock[i]; }
      IdleIffReleased(w, i, clock[i]);
    }
  }

  /** A new block is made exactly when no block of at least n and fewer than 3n bytes has been
      released by the time its turn comes.  Otherwise the smallest block of at least n bytes that
      has been is taken. */
  lemma ReusePolicy(w: World, op: Op)
    requires Inv(w) && op.Alloc? && op.n > 0 && Possible(w, op)
    ensures Returned(w, op).Some?
    ensures var p := Returned(w, op).value;
            && (p == op.newPtr <==>
                  forall i :: 0 <= i < |w.blocks| && Spare(w, op.clock, i) ==>
                    !(op.n <= w.blocks[i].nbytes < 3 * op.n))
            && (p != op.newPtr ==>
                  exists k :: 0 <= k < |w.blocks| && w.blocks[k].ptr == p && BestFit(w, op.clock, k, op.n))
  {
    var n, clock := op.n, op.clock;
    AllocateCases(w, n, op.newPtr, op.events, clock);
    var lb := LowerBound(w.blocks, n);
    var k := FirstIdle(w.blocks, lb, clock);
    FirstIdleMeaning(w.blocks, lb, clock);
    LowerBoundMeaning(w.blocks, n);
    SpareIffIdle(w, clock);
    if k < |w.blocks| {
      BestIsFirst(w, clock, n, k);
      if w.blocks[k].nbytes < 3 * n {
        assert BestFit(w, clock, k, n) && w.blocks[k].ptr != op.newPtr;
      }
    }
  }

  /** In a sorted vector the first spare block that is large enough is the smallest such. */
  lemma BestIsFirst(w: World, clock: Clock, n: nat, k: nat)
    requires Inv(w) && Ticks(w, clock) && k < |w.blocks| && Spare(w, clock, k) && w.blocks[k].nbytes >= n
    requires forall i :: 0 <= i < k ==> w.blocks[i].nbytes < n || !Spare(w, clock, i)
    ensures w.blocks[k].nbytes < 3 * n ==> BestFit(w, clock, k, n)
    ensures w.blocks[k].nbytes >= 3 * n ==>
              forall i :: 0 <= i < |w.blocks| && Spare(w, clock, i) ==> !(n <= w.blocks[i].nbytes < 3 * n)
  {
    forall i | 0 <= i < |w.blocks| && Spare(w, clock, i) && w.blocks[i].nbytes >= n
      ensures w.blocks[k].nbytes <= w.blocks[i].nbytes
    {
      assert i >= k;
    }
  }

  ghost predicate BestFit(w: World, clock: Clock, k: nat, n: nat)
    requires k < |w.blocks| <= |clock|
  {
    && Spare(w, clock, k) && n <= w.blocks[k].nbytes < 3 * n
    && forall i :: 0 <= i < |w.blocks| && Spare(w, clock, i) && w.blocks[i].nbytes >= n ==>
         w.blocks[k].nbytes <= w.blocks[i].nbytes
  }

  /** So no new block is made while a usable one has been deallocated and its work is complete, and
      the block taken is no larger than any of at least n bytes of which that is true. */
  lemma ReleasedIsReused(w: World, op: Op, i: nat)
    requires Inv(w) && op.Alloc? && op.n > 0 && Possible(w, op) && i < |w.blocks|
    requires Released(w.live, w.recorded, w.complete, w.blocks[i].ptr)
    requires w.blocks[i].nbytes >= op.n
    ensures var p := Returned(w, op);
            && p.Some?
            && (w.blocks[i].nbytes < 3 * op.n ==> p.value != op.newPtr)
            && forall k :: 0 <= k < |w.blocks| && w.blocks[k].ptr == p.value ==>
                 w.blocks[k].nbytes <= w.blocks[i].nbytes
  {
    ReusePolicy(w, op);
    assert w.complete <= op.clock[i] by { assert i > 0 ==> op.clock[0] <= op.clock[i]; }
    assert BlockOk(w, w.blocks[i]);
    assert Spare(w, op.clock, i);
    var p := Returned(w, op).value;
    forall k | 0 <= k < |w.blocks| && w.blocks[k].ptr == p
      ensures w.blocks[k].nbytes <= w.blocks[i].nbytes
    {
      var j :| 0 <= j < |w.blocks| && w.blocks[j].ptr == p && BestFit(w, op.clock, j, op.n);
      assert j == k;
    }
  }

  /** A request for zero bytes stops the program exactly when some block has been released. */
  lemma ZeroBytes(w: World, op: Op)
    requires Inv(w) && op.Alloc? && op.n == 0 && Possible(w, op)
    ensures Next(w, op).None? <==> exists i :: 0 <= i < |w.blocks| && Spare(w, op.clock, i)
  {
    LowerBoundMeaning(w.blocks, 0);
    assert LowerBound(w.blocks, 0) == 0;
    FirstIdleMeaning(w.blocks, 0, op.clock);
    SpareIffIdle(w, op.clock);
  }
}
