/** The caching device-memory pool: a vector of blocks sorted by size, a map from pointers to the
    same blocks, and events that guard reuse (kaleido/core/cuda_allocator.h).

    cudaMalloc's result is a parameter, and so is what the event queries of a call see: events go
    on completing while the vector is scanned, so there is one set of completed events for each
    block, as of the query that decides whether the block is free. */
module MemoryPool {
  import opened Common

  type Ptr = nat

  type Stream = nat

  /** A recorded event; every recording makes a new one. */
  datatype Event = Event(id: nat, stream: Stream)

  /** The contents of a block. */
  datatype Rec = Rec(ptr: Ptr, nbytes: nat, markedFree: bool, events: seq<Event>)

  // ---------------------------------------------------------------- specification

  predicate Idle(b: Rec, complete: set<Event>) {
    b.markedFree && forall e :: e in b.events ==> e in complete
  }

  /** std::lower_bound: the first block of at least n bytes. */
  function LowerBound(blocks: seq<Rec>, n: nat): (k: nat)
    ensures k <= |blocks|
  {
    if blocks == [] || blocks[0].nbytes >= n then 0 else 1 + LowerBound(blocks[1..], n)
  }

  /** The events completed when each block is queried; the last set is that at the end of the call. */
  type Clock = seq<set<Event>>

  /** std::find_if: the first block from position k on that is idle when its turn comes. */
  function FirstIdle(blocks: seq<Rec>, k: nat, clock: Clock): (r: nat)
    requires k <= |blocks| <= |clock|
    ensures k <= r <= |blocks|
    decreases |blocks| - k
  {
    if k == |blocks| || Idle(blocks[k], clock[k]) then k else FirstIdle(blocks, k + 1, clock)
  }

  /** vector::insert */
  function InsertAt<X>(s: seq<X>, at: nat, x: X): (r: seq<X>)
    requires at <= |s|
    ensures |r| == |s| + 1
    ensures forall i :: 0 <= i < |r| ==> r[i] == if i < at then s[i] else if i == at then x else s[i - 1]
  {
    s[..at] + [x] + s[at..]
  }

  /** A new block goes before the first one that is at least as large. */
  function Insert(blocks: seq<Rec>, b: Rec): seq<Rec> {
    InsertAt(blocks, LowerBound(blocks, b.nbytes), b)
  }

  /** Allocate n bytes: the new contents and the pointer returned. `newPtr` is what cudaMalloc would
      return and `events` what recording on the tracked streams yields. None is the division of an
      idle block's size by a zero request. */
  function Allocated(blocks: seq<Rec>, n: nat, clock: Clock, newPtr: Ptr, events: seq<Event>)
    : Option<(seq<Rec>, Ptr)>
    requires |blocks| <= |clock|
  {
    var block := Rec(newPtr, n, false, events);
    var k := FirstIdle(blocks, LowerBound(blocks, n), clock);
    if k == |blocks| then Some((Insert(blocks, block), newPtr))
    else if n == 0 then None
    else
      var cleared := Cleared(blocks, k);
      if blocks[k].nbytes / n > 2 then Some((Insert(cleared, block), newPtr))
      else Some((blocks[k := blocks[k].(markedFree := false, events := events)], blocks[k].ptr))
  }

  /** The events of block k, if there is one, dropped. */
  function Cleared(blocks: seq<Rec>, k: nat): (r: seq<Rec>)
    requires k <= |blocks|
    ensures |r| == |blocks|
  {
    if k < |blocks| then blocks[k := blocks[k].(events := [])] else blocks
  }

  /** What Allocated is once the first idle block k is known. */
  lemma Cases(blocks: seq<Rec>, n: nat, clock: Clock, newPtr: Ptr, events: seq<Event>, k: nat)
    requires |blocks| <= |clock| && k == FirstIdle(blocks, LowerBound(blocks, n), clock)
    ensures k < |blocks| && n == 0 <==> Allocated(blocks, n, clock, newPtr, events) == None
    ensures k == |blocks| ==>
              Allocated(blocks, n, clock, newPtr, events)
              == Some((Insert(blocks, Rec(newPtr, n, false, events)), newPtr))
    ensures k < |blocks| && n > 0 && blocks[k].nbytes / n > 2 ==>
              Allocated(blocks, n, clock, newPtr, events)
              == Some((Insert(Cleared(blocks, k), Rec(newPtr, n, false, events)), newPtr))
    ensures k < |blocks| && n > 0 && blocks[k].nbytes / n <= 2 ==>
              Allocated(blocks, n, clock, newPtr, events)
              == Some((blocks[k := blocks[k].(markedFree := false, events := events)], blocks[k].ptr))
  {
  }

  /** The last part of Allocate, from the contents after the search. */
  predicate PlaceResult(blocks: seq<Rec>, n: nat, newPtr: Ptr, events: seq<Event>, k: nat, result: seq<Rec>, p: Ptr) {
    k <= |blocks| && (k < |blocks| ==> n > 0) &&
    if k == |blocks| || blocks[k].nbytes / n > 2
    then p == newPtr && result == Insert(blocks, Rec(newPtr, n, false, events))
    else p == blocks[k].ptr && result == blocks[k := blocks[k].(markedFree := false, events := events)]
  }

  lemma Placed(blocks: seq<Rec>, n: nat, clock: Clock, newPtr: Ptr, events: seq<Event>, k: nat,
               result: seq<Rec>, p: Ptr)
    requires |blocks| <= |clock| && k == FirstIdle(blocks, LowerBound(blocks, n), clock)
    requires PlaceResult(Cleared(blocks, k), n, newPtr, events, k, result, p)
    ensures Allocated(blocks, n, clock, newPtr, events) == Some((result, p))
  {
    Cases(blocks, n, clock, newPtr, events, k);
    if k < |blocks| {
      var b := blocks[k].(markedFree := false, events := events);
      assert Cleared(blocks, k)[k].(markedFree := false, events := events) == b;
      assert Cleared(blocks, k)[k := b] == blocks[k := b];
    }
  }

  /** The block with this pointer, or |blocks|. */
  function Find(blocks: seq<Rec>, p: Ptr): (k: nat)
    ensures k <= |blocks| && (k < |blocks| ==> blocks[k].ptr == p)
    ensures k == |blocks| ==> forall i :: 0 <= i < |blocks| ==> blocks[i].ptr != p
  {
    if blocks == [] || blocks[0].ptr == p then 0 else 1 + Find(blocks[1..], p)
  }

  /** Deallocate: None when one of its checks fails. */
  function Freed(blocks: seq<Rec>, p: Ptr): Option<seq<Rec>> {
    var k := Find(blocks, p);
    if k == |blocks| || blocks[k].markedFree then None
    else Some(blocks[k := blocks[k].(markedFree := true)])
  }

  predicate Sorted(blocks: seq<Rec>) {
    forall i, j :: 0 <= i < j < |blocks| ==> blocks[i].nbytes <= blocks[j].nbytes
  }

  predicate Distinct(blocks: seq<Rec>) {
    forall i, j :: 0 <= i < j < |blocks| ==> blocks[i].ptr != blocks[j].ptr
  }

  lemma {:induction false} LowerBoundMeaning(blocks: seq<Rec>, n: nat)
    requires Sorted(blocks)
    ensures forall i :: 0 <= i < LowerBound(blocks, n) ==> blocks[i].nbytes < n
    ensures forall i :: LowerBound(blocks, n) <= i < |blocks| ==> blocks[i].nbytes >= n
  {
    if blocks != [] && blocks[0].nbytes < n {
      assert blocks == [blocks[0]] + blocks[1..];
      LowerBoundMeaning(blocks[1..], n);
    }
  }

  lemma {:induction false} LowerBoundUnique(blocks: seq<Rec>, n: nat, k: nat)
    requires k <= |blocks|
    requires forall i :: 0 <= i < k ==> blocks[i].nbytes < n
    requires k < |blocks| ==> blocks[k].nbytes >= n
    ensures LowerBound(blocks, n) == k
  {
    if k > 0 { LowerBoundUnique(blocks[1..], n, k - 1); }
  }

  lemma {:induction false} FirstIdleMeaning(blocks: seq<Rec>, k: nat, clock: Clock)
    requires k <= |blocks| <= |clock|
    ensures var r := FirstIdle(blocks, k, clock);
            && (r < |blocks| ==> Idle(blocks[r], clock[r]))
            && forall i :: k <= i < r ==> !Idle(blocks[i], clock[i])
    decreases |blocks| - k
  {
    if k < |blocks| && !Idle(blocks[k], clock[k]) { FirstIdleMeaning(blocks, k + 1, clock); }
  }

  // ---------------------------------------------------------------- the code

  class CudaMemoryBlock {
    const nbytes: nat
    const ptr: Ptr
    var markedFree: bool
    var events: seq<Event>

    constructor (nbytes: nat, ptr: Ptr)
      ensures this.nbytes == nbytes && this.ptr == ptr && markedFree && events == []
    {
      this.nbytes := nbytes;
      this.ptr := ptr;
      markedFree := true;
      events := [];
    }

    function View(): Rec
      reads this
    {
      Rec(ptr, nbytes, markedFree, events)
    }

    /** Marked free with all its events complete? If so the events are dropped. */
    method IsFree(complete: set<Event>) returns (r: bool)
      modifies this`events
      ensures r <==> old(markedFree) && forall e :: e in old(events) ==> e in complete
      ensures events == if r then [] else old(events)
    {
      if !markedFree { return false; }
      for i := 0 to |events|
        invariant forall k :: 0 <= k < i ==> events[k] in complete
        invariant events == old(events)
      {
        if events[i] !in complete { return false; }
      }
      events := [];
      return true;
    }
  }

  /** The contents of a vector of blocks. */
  function Views(v: seq<CudaMemoryBlock>): (r: seq<Rec>)
    reads v
    ensures |r| == |v| && forall i :: 0 <= i < |v| ==> r[i] == v[i].View()
  {
    seq(|v|, i requires 0 <= i < |v| reads v => v[i].View())
  }

  predicate SortedBlocks(v: seq<CudaMemoryBlock>) {
    forall i, j :: 0 <= i < j < |v| ==> v[i].nbytes <= v[j].nbytes
  }

  predicate NoRepeats(v: seq<CudaMemoryBlock>) {
    forall i, j :: 0 <= i < j < |v| ==> v[i] != v[j]
  }

  /** The map holds the blocks of the vector, by their pointers. */
  ghost predicate Indexed(v: seq<CudaMemoryBlock>, m: map<Ptr, CudaMemoryBlock>) {
    && (forall b :: b in v ==> b.ptr in m && m[b.ptr] == b)
    && (forall p :: p in m ==> m[p] in v && m[p].ptr == p)
  }

  lemma InsertedIndexed(v: seq<CudaMemoryBlock>, m: map<Ptr, CudaMemoryBlock>, at: nat, block: CudaMemoryBlock)
    requires Indexed(v, m) && NoRepeats(v) && at <= |v| && block.ptr !in m
    ensures NoRepeats(InsertAt(v, at, block)) && Indexed(InsertAt(v, at, block), m[block.ptr := block])
  {
    InsertedOnce(v, at, block);
  }

  /** Binary search over the vector. */
  method LowerBoundOf(v: seq<CudaMemoryBlock>, n: nat) returns (k: nat)
    requires SortedBlocks(v)
    ensures k == LowerBound(Views(v), n)
  {
    var lo, hi := 0, |v|;
    while lo < hi
      invariant 0 <= lo <= hi <= |v|
      invariant forall i :: 0 <= i < lo ==> v[i].nbytes < n
      invariant forall i :: hi <= i < |v| ==> v[i].nbytes >= n
    {
      var mid := (lo + hi) / 2;
      if v[mid].nbytes < n { lo := mid + 1; } else { hi := mid; }
    }
    LowerBoundUnique(Views(v), n, lo);
    return lo;
  }

  /** find_if with isFree. The events of the block found, and of no other, are dropped. */
  method FindIdle(v: seq<CudaMemoryBlock>, from: nat, clock: Clock) returns (k: nat)
    requires NoRepeats(v) && from <= |v| <= |clock|
    modifies v
    ensures k == FirstIdle(old(Views(v)), from, clock)
    ensures Views(v) == Cleared(old(Views(v)), k)
  {
    ghost var views := Views(v);
    k := from;
    while k < |v|
      invariant from <= k <= |v|
      invariant FirstIdle(views, k, clock) == FirstIdle(views, from, clock)
      invariant Views(v) == views
    {
      ghost var was := v[k].View();
      assert was == views[k];
      var idle := v[k].IsFree(clock[k]);
      ViewsAfter(v, views, k);
      if idle { return; }
      k := k + 1;
    }
  }

  /** Only block k may have changed. */
  lemma ViewsAfter(v: seq<CudaMemoryBlock>, views: seq<Rec>, k: nat)
    requires k < |v| == |views|
    requires forall i :: 0 <= i < |v| && i != k ==> v[i].View() == views[i]
    ensures Views(v) == views[k := v[k].View()]
  {
  }

  class CudaMemoryPool {
    var allVector: seq<CudaMemoryBlock>
    var allMap: map<Ptr, CudaMemoryBlock>
    var trackStreams: set<Stream>
    var nextEvent: nat

    constructor ()
      ensures Valid() && allVector == [] && trackStreams == {}
    {
      allVector, allMap, trackStreams, nextEvent := [], map[], {}, 0;
    }

    function Contents(): seq<Rec>
      reads this, allVector
    {
      Views(allVector)
    }

    /** The vector is sorted, and vector and map hold the same blocks, once each. */
    ghost predicate Valid()
      reads this
    {
      && SortedBlocks(allVector) && NoRepeats(allVector)
      && Indexed(allVector, allMap)
    }

    method AddTrackStream(stream: Stream)
      requires Valid()
      modifies this`trackStreams
      ensures Valid() && trackStreams == old(trackStreams) + {stream} && Contents() == old(Contents())
    {
      trackStreams := trackStreams + {stream};
    }

    /** Record one new event on every tracked stream. */
    method RecordEvents() returns (events: seq<Event>)
      modifies this`nextEvent
      ensures (set e | e in events :: e.stream) == trackStreams && |events| == |trackStreams|
      ensures forall e :: e in events ==> old(nextEvent) <= e.id < nextEvent
    {
      events := [];
      var rest := trackStreams;
      while rest != {}
        invariant rest <= trackStreams && |events| + |rest| == |trackStreams| && old(nextEvent) <= nextEvent
        invariant (set e | e in events :: e.stream) == trackStreams - rest
        invariant forall e :: e in events ==> old(nextEvent) <= e.id < nextEvent
        decreases rest
      {
        var s :| s in rest;
        ghost var was := events;
        events := events + [Event(nextEvent, s)];
        nextEvent := nextEvent + 1;
        rest := rest - {s};
        assert forall e :: e in events <==> e in was || e == Event(nextEvent - 1, s);
        assert (set e | e in events :: e.stream) == (set e | e in was :: e.stream) + {s};
      }
    }

    /** What recording on the tracked streams gives: one new event for each. */
    ghost predicate Recorded(before: nat, events: seq<Event>)
      reads this
    {
      && (set e | e in events :: e.stream) == trackStreams && |events| == |trackStreams|
      && forall e :: e in events ==> before <= e.id < nextEvent
    }

    /** A new block, in use, inserted at position `at` of the vector and into the map. */
    method AddBlock(nbytes: nat, newPtr: Ptr, at: nat) returns (events: seq<Event>)
      requires Valid() && newPtr !in allMap && at == LowerBound(Contents(), nbytes)
      modifies this`allVector, this`allMap, this`nextEvent
      ensures Valid() && Contents() == Insert(old(Contents()), Rec(newPtr, nbytes, false, events))
      ensures Recorded(old(nextEvent), events)
    {
      ghost var v, views := allVector, Contents();
      var block: CudaMemoryBlock;
      block, events := MakeBlock(nbytes, newPtr);
      assert Views(v) == views;
      InsertedSorted(v, at, block);
      InsertedIndexed(v, allMap, at, block);
      InsertedViews(v, at, block);
      allMap := allMap[newPtr := block];
      allVector := InsertAt(allVector, at, block);
      assert Contents() == InsertAt(views, at, block.View());
    }

    /** A new block, in use. */
    method MakeBlock(nbytes: nat, newPtr: Ptr) returns (block: CudaMemoryBlock, events: seq<Event>)
      modifies this`nextEvent
      ensures fresh(block) && block.View() == Rec(newPtr, nbytes, false, events)
      ensures Recorded(old(nextEvent), events)
    {
      block := new CudaMemoryBlock(nbytes, newPtr);
      block.markedFree := false;
      events := RecordEvents();
      block.events := events;
    }

    /** Allocate at least minNbytes, reusing a block that has come free if it is not too large. Not
        ok means that the program has divided by zero. */
    method Allocate(minNbytes: nat, clock: Clock, newPtr: Ptr) returns (ok: bool, p: Ptr, events: seq<Event>)
      requires Valid() && newPtr !in allMap && |allVector| <= |clock|
      modifies this`allVector, this`allMap, this`nextEvent, allVector
      ensures Valid() && trackStreams == old(trackStreams)
      ensures ok == Allocated(old(Contents()), minNbytes, clock, newPtr, events).Some?
      ensures ok ==> Recorded(old(nextEvent), events)
                     && Allocated(old(Contents()), minNbytes, clock, newPtr, events) == Some((Contents(), p))
      ensures !ok ==> Contents() == Cleared(old(Contents()), FirstIdle(old(Contents()), 0, clock))
    {
      var lb := LowerBoundOf(allVector, minNbytes);
      if lb == |allVector| {
        events := AddBlock(minNbytes, newPtr, lb);
        return true, newPtr, events;
      }
      ok, p, events := FromIdle(minNbytes, clock, newPtr, lb);
    }

    /** The second half of Allocate: there are blocks that are large enough. */
    method FromIdle(minNbytes: nat, clock: Clock, newPtr: Ptr, lb: nat) returns (ok: bool, p: Ptr, events: seq<Event>)
      requires Valid() && newPtr !in allMap && lb == LowerBound(Contents(), minNbytes) && |allVector| <= |clock|
      modifies this`allVector, this`allMap, this`nextEvent, allVector
      ensures Valid() && trackStreams == old(trackStreams)
      ensures ok == Allocated(old(Contents()), minNbytes, clock, newPtr, events).Some?
      ensures ok ==> Recorded(old(nextEvent), events)
                     && Allocated(old(Contents()), minNbytes, clock, newPtr, events) == Some((Contents(), p))
      ensures !ok ==> Contents() == Cleared(old(Contents()), FirstIdle(old(Contents()), 0, clock))
    {
      ghost var views := Contents();
      var k := FindIdle(allVector, lb, clock);
      Cases(views, minNbytes, clock, newPtr, [], k);
      if k < |allVector| && minNbytes == 0 { return false, newPtr, []; }
      if k < |allVector| { SameLowerBound(views, k, minNbytes); }
      p, events := Place(minNbytes, newPtr, lb, k);
      Placed(views, minNbytes, clock, newPtr, events, k, Contents(), p);
      ok := true;
    }

    /** Take block k if it is not too large, or else make a new block. */
    method Place(minNbytes: nat, newPtr: Ptr, lb: nat, k: nat) returns (p: Ptr, events: seq<Event>)
      requires Valid() && newPtr !in allMap && lb == LowerBound(Contents(), minNbytes)
      requires k <= |allVector| && (k < |allVector| ==> minNbytes > 0)
      modifies this`allVector, this`allMap, this`nextEvent, allVector
      ensures Valid() && Recorded(old(nextEvent), events) && trackStreams == old(trackStreams)
      ensures PlaceResult(old(Contents()), minNbytes, newPtr, events, k, Contents(), p)
    {
      if k == |allVector| || allVector[k].nbytes / minNbytes > 2 {
        events := AddBlock(minNbytes, newPtr, lb);
        p := newPtr;
      } else {
        events, p := Reuse(k);
      }
    }

    /** Hand out block k again. */
    method Reuse(k: nat) returns (events: seq<Event>, p: Ptr)
      requires Valid() && k < |allVector|
      modifies this`nextEvent, allVector[k]
      ensures Valid() && Recorded(old(nextEvent), events) && p == allVector[k].ptr
      ensures Contents() == old(Contents())[k := old(Contents())[k].(markedFree := false, events := events)]
    {
      ghost var views := Contents();
      var block := allVector[k];
      block.markedFree := false;
      events := RecordEvents();
      block.events := events;
      p := block.ptr;
      ViewsAfter(allVector, views, k);
    }

    /** Mark a block free. Both checks of the program are in the result: the pointer is known and
        the block in use. */
    method Deallocate(p: Ptr) returns (ok: bool)
      requires Valid()
      modifies allVector
      ensures Valid() && ok == Freed(old(Contents()), p).Some?
      ensures Contents() == if ok then Freed(old(Contents()), p).value else old(Contents())
    {
      ghost var views := Contents();
      if p !in allMap {
        FindAbsent(allVector, p);
        return false;
      }
      var block := allMap[p];
      ghost var k :| 0 <= k < |allVector| && allVector[k] == block;
      forall i | 0 <= i < |views| && i != k
        ensures views[i].ptr != p
      {
        assert allVector[i] != block && allMap[allVector[i].ptr] == allVector[i];
      }
      FindUnique(views, p, k);
      if block.markedFree { return false; }
      block.markedFree := true;
      ViewsAfter(allVector, views, k);
      return true;
    }
  }

  lemma FindUnique(blocks: seq<Rec>, p: Ptr, k: nat)
    requires k < |blocks| && blocks[k].ptr == p && forall i :: 0 <= i < |blocks| && i != k ==> blocks[i].ptr != p
    ensures Find(blocks, p) == k
  {
  }

  lemma FindAbsent(v: seq<CudaMemoryBlock>, p: Ptr)
    requires forall b :: b in v ==> b.ptr != p
    ensures Find(Views(v), p) == |v|
  {
  }

  /** Dropping a block's events does not move the lower bound. */
  lemma {:induction false} SameLowerBound(blocks: seq<Rec>, k: nat, n: nat)
    requires k < |blocks|
    ensures LowerBound(Cleared(blocks, k), n) == LowerBound(blocks, n)
    decreases k
  {
    var cleared := Cleared(blocks, k);
    if k > 0 {
      assert cleared[1..] == Cleared(blocks[1..], k - 1);
      SameLowerBound(blocks[1..], k - 1, n);
    } else {
      assert cleared[1..] == blocks[1..];
    }
  }

  /** Inserting at the lower bound keeps the vector sorted. */
  lemma InsertedSorted(v: seq<CudaMemoryBlock>, at: nat, block: CudaMemoryBlock)
    requires SortedBlocks(v) && at == LowerBound(Views(v), block.nbytes)
    ensures SortedBlocks(InsertAt(v, at, block))
  {
    BoundOfBlocks(v, block.nbytes);
    var w := InsertAt(v, at, block);
    forall i, j | 0 <= i < j < |w|
      ensures w[i].nbytes <= w[j].nbytes
    {
      if i == at { assert w[j] == v[j - 1]; }
      if i < at == j { assert w[i] == v[i]; }
    }
  }

  lemma InsertedOnce(v: seq<CudaMemoryBlock>, at: nat, block: CudaMemoryBlock)
    requires NoRepeats(v) && block !in v && at <= |v|
    ensures NoRepeats(InsertAt(v, at, block))
    ensures forall b :: b in InsertAt(v, at, block) <==> b in v || b == block
  {
    var w := InsertAt(v, at, block);
    assert w == v[..at] + [block] + v[at..] && v == v[..at] + v[at..];
  }

  lemma BoundOfBlocks(v: seq<CudaMemoryBlock>, n: nat)
    requires SortedBlocks(v)
    ensures forall i :: 0 <= i < LowerBound(Views(v), n) ==> v[i].nbytes < n
    ensures forall i :: LowerBound(Views(v), n) <= i < |v| ==> v[i].nbytes >= n
  {
    var views := Views(v);
    assert forall i :: 0 <= i < |v| ==> views[i].nbytes == v[i].nbytes;
    LowerBoundMeaning(views, n);
  }

  lemma InsertedViews(v: seq<CudaMemoryBlock>, at: nat, block: CudaMemoryBlock)
    requires at <= |v|
    ensures Views(InsertAt(v, at, block)) == InsertAt(Views(v), at, block.View())
  {
  }
}
