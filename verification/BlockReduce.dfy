module BlockReduce {

  /** The warp-shuffle and shared-memory tree reduction of a thread block, against a plain
      sequential fold.  Between barriers the threads are run in lock step. */

  import opened Arith
  import opened Common

  const WARP: nat := 32

  ghost predicate Lawful<T(!new)>(op: (T, T) -> T) {
    (forall a, b, c :: Associates(op, a, b, c)) && (forall a, b :: Commutes(op, a, b))
  }

  ghost predicate Associates<T>(op: (T, T) -> T, a: T, b: T, c: T) { op(op(a, b), c) == op(a, op(b, c)) }

  ghost predicate Commutes<T>(op: (T, T) -> T, a: T, b: T) { op(a, b) == op(b, a) }

  ghost predicate Identity<T(!new)>(op: (T, T) -> T, e: T) { forall a :: Absorbs(op, e, a) }

  ghost predicate Absorbs<T>(op: (T, T) -> T, e: T, a: T) { op(e, a) == a && op(a, e) == a }

  // ---------------------------------------------------------------- sequential folds

  /** The plain loop: val = init; for x in s: val = op(val, x). */
  function FoldFrom<T>(op: (T, T) -> T, init: T, s: seq<T>): T {
    if s == [] then init else op(FoldFrom(op, init, s[..|s| - 1]), s[|s| - 1])
  }

  /** The fold of a nonempty sequence, without an initial value. */
  function Fold<T>(op: (T, T) -> T, s: seq<T>): T
    requires s != []
  {
    if |s| == 1 then s[0] else op(Fold(op, s[..|s| - 1]), s[|s| - 1])
  }

  /** Every input takes part once, in order. */
  lemma {:induction false} FoldFromParts<T>(op: (T, T) -> T, init: T, a: seq<T>, x: T, b: seq<T>)
    ensures FoldFrom(op, init, []) == init
    ensures FoldFrom(op, init, a + [x]) == op(FoldFrom(op, init, a), x)
    ensures FoldFrom(op, init, a + b) == FoldFrom(op, FoldFrom(op, init, a), b)
    decreases |b|
  {
    assert (a + [x])[..|a|] == a;
    if b == [] {
      assert a + b == a;
    } else {
      FoldFromParts(op, init, a, x, b[..|b| - 1]);
      assert (a + b)[..|a + b| - 1] == a + b[..|b| - 1];
    }
  }

  function Zip<T>(op: (T, T) -> T, a: seq<T>, b: seq<T>): (r: seq<T>)
    requires |a| == |b|
    ensures |r| == |a|
  {
    seq(|a|, i requires 0 <= i < |a| => op(a[i], b[i]))
  }

  lemma Medial<T(!new)>(op: (T, T) -> T, a: T, b: T, x: T, y: T)
    requires Lawful(op)
    ensures op(op(a, b), op(x, y)) == op(op(a, x), op(b, y))
  {
    assert Associates(op, op(a, b), x, y) && Associates(op, a, b, x) && Commutes(op, b, x);
    assert Associates(op, a, x, b) && Associates(op, op(a, x), b, y);
  }

  /** Folding two rows entry by entry and then along is folding each row and then the results. */
  lemma {:induction false} FoldZip<T(!new)>(op: (T, T) -> T, a: seq<T>, b: seq<T>)
    requires Lawful(op) && |a| == |b| >= 1
    ensures Fold(op, Zip(op, a, b)) == op(Fold(op, a), Fold(op, b))
  {
    var n := |a| - 1;
    if n > 0 {
      FoldZip(op, a[..n], b[..n]);
      assert Zip(op, a, b)[..n] == Zip(op, a[..n], b[..n]);
      Medial(op, Fold(op, a[..n]), Fold(op, b[..n]), a[n], b[n]);
    }
  }

  lemma {:induction false} FoldConcat<T(!new)>(op: (T, T) -> T, a: seq<T>, b: seq<T>)
    requires Lawful(op) && a != [] && b != []
    ensures Fold(op, a + b) == op(Fold(op, a), Fold(op, b))
  {
    var n := |b| - 1;
    assert (a + b)[..|a + b| - 1] == a + b[..n];
    if n > 0 {
      FoldConcat(op, a, b[..n]);
      assert Associates(op, Fold(op, a), Fold(op, b[..n]), b[n]);
    } else {
      assert a + b[..n] == a;
    }
  }

  /** Combining one more value into any entry combines it into the fold. */
  lemma {:induction false} FoldUpdate<T(!new)>(op: (T, T) -> T, s: seq<T>, i: nat, x: T)
    requires Lawful(op) && i < |s|
    ensures Fold(op, s[i := op(s[i], x)]) == op(Fold(op, s), x)
  {
    var n := |s| - 1;
    var s' := s[i := op(s[i], x)];
    if n > 0 {
      if i == n {
        assert s'[..n] == s[..n];
        assert Associates(op, Fold(op, s[..n]), s[n], x);
      } else {
        FoldUpdate(op, s[..n], i, x);
        assert s'[..n] == s[..n][i := op(s[i], x)];
        var f := Fold(op, s[..n]);
        assert Associates(op, f, x, s[n]) && Commutes(op, x, s[n]) && Associates(op, f, s[n], x);
      }
    }
  }

  lemma {:induction false} FoldOfIdentities<T(!new)>(op: (T, T) -> T, e: T, n: nat)
    requires Identity(op, e) && n >= 1
    ensures Fold(op, seq(n, i => e)) == e
  {
    var s := seq(n, i => e);
    if n > 1 {
      FoldOfIdentities(op, e, n - 1);
      assert s[..n - 1] == seq(n - 1, i => e);
      assert Absorbs(op, e, e);
    }
  }

  // ---------------------------------------------------------------- one warp

  /** __shfl_down_sync over the full warp: lanes past the end keep their own value. */
  function ShuffleDown<T>(lanes: seq<T>, delta: nat): (r: seq<T>)
    ensures |r| == |lanes|
  {
    seq(|lanes|, i requires 0 <= i < |lanes| => if i + delta < |lanes| then lanes[i + delta] else lanes[i])
  }

  function ShuffleStep<T>(op: (T, T) -> T, lanes: seq<T>, delta: nat): (r: seq<T>)
    ensures |r| == |lanes|
  {
    Zip(op, lanes, ShuffleDown(lanes, delta))
  }

  /** A shuffle by d folds the first 2d lanes into the first d. */
  lemma Halve<T(!new)>(op: (T, T) -> T, lanes: seq<T>, d: nat)
    requires Lawful(op) && d >= 1 && 2 * d <= |lanes|
    ensures Fold(op, ShuffleStep(op, lanes, d)[..d]) == Fold(op, lanes[..2 * d])
  {
    assert ShuffleStep(op, lanes, d)[..d] == Zip(op, lanes[..d], lanes[d..2 * d]);
    FoldZip(op, lanes[..d], lanes[d..2 * d]);
    FoldConcat(op, lanes[..d], lanes[d..2 * d]);
    assert lanes[..d] + lanes[d..2 * d] == lanes[..2 * d];
  }

  /** WrapReduce over the warp whose lanes start at `lo`: lane 0 ends up with the fold of
      all 32 lanes. */
  method WrapReduce<T(!new)>(val: array<T>, lo: nat, op: (T, T) -> T)
    requires Lawful(op) && lo + WARP <= val.Length
    modifies val
    ensures val[lo] == Fold(op, old(val[lo..lo + WARP]))
    ensures forall i | 0 <= i < val.Length && !(lo <= i < lo + WARP) :: val[i] == old(val[i])
  {
    Shuffle(val, lo, op, 16);
    Shuffle(val, lo, op, 8);
    Shuffle(val, lo, op, 4);
    Shuffle(val, lo, op, 2);
    Shuffle(val, lo, op, 1);
    assert val[lo..lo + 1] == [val[lo]];
  }

  /** One round `val = reducer(val, shfl_down(val, delta))` of a warp in lock step. */
  method Shuffle<T(!new)>(val: array<T>, lo: nat, op: (T, T) -> T, delta: nat)
    requires Lawful(op) && lo + WARP <= val.Length && 1 <= delta <= 16
    modifies val
    ensures Fold(op, val[lo..lo + delta]) == Fold(op, old(val[lo..lo + 2 * delta]))
    ensures forall i | 0 <= i < val.Length && !(lo <= i < lo + WARP) :: val[i] == old(val[i])
  {
    ghost var before := val[..];
    forall i | lo <= i < lo + WARP {
      val[i] := op(val[i], if i + delta < lo + WARP then val[i + delta] else val[i]);
    }
    ShuffleFolds(op, before, val[..], lo, delta);
    assert val[..][lo..lo + delta] == val[lo..lo + delta];
  }

  lemma ShuffleFolds<T(!new)>(op: (T, T) -> T, before: seq<T>, after: seq<T>, lo: nat, delta: nat)
    requires Lawful(op) && lo + WARP <= |before| == |after| && 1 <= delta <= 16
    requires forall i :: lo <= i < lo + delta ==> after[i] == op(before[i], before[i + delta])
    ensures Fold(op, after[lo..lo + delta]) == Fold(op, before[lo..lo + 2 * delta])
  {
    var lanes := before[lo..lo + WARP];
    Halve(op, lanes, delta);
    forall i | 0 <= i < delta
      ensures after[lo + i] == ShuffleStep(op, lanes, delta)[i]
    {
      ShuffleStepAt(op, lanes, delta, i);
    }
    SameWindow(after, lo, ShuffleStep(op, lanes, delta), delta);
    SameWindow(before, lo, lanes, 2 * delta);
  }

  lemma ShuffleStepAt<T>(op: (T, T) -> T, lanes: seq<T>, delta: nat, i: nat)
    requires i + delta < |lanes|
    ensures |ShuffleStep(op, lanes, delta)| == |lanes|
    ensures ShuffleStep(op, lanes, delta)[i] == op(lanes[i], lanes[i + delta])
  {
  }

  /** The window of n elements from lo on is the prefix of `part` it agrees with. */
  lemma SameWindow<T>(whole: seq<T>, lo: nat, part: seq<T>, n: nat)
    requires lo + n <= |whole| && n <= |part|
    requires forall i :: 0 <= i < n ==> whole[lo + i] == part[i]
    ensures whole[lo..lo + n] == part[..n]
  {
  }

  // ---------------------------------------------------------------- the block

  /** Folds of the consecutive warps of a block. */
  function WarpFolds<T>(op: (T, T) -> T, vals: seq<T>, warps: nat): (r: seq<T>)
    requires |vals| == WARP * warps
    ensures |r| == warps
  {
    if warps == 0 then []
    else WarpFolds(op, vals[..WARP * (warps - 1)], warps - 1) + [Fold(op, vals[WARP * (warps - 1)..])]
  }

  lemma {:induction false} FoldOfWarps<T(!new)>(op: (T, T) -> T, vals: seq<T>, warps: nat)
    requires Lawful(op) && warps >= 1 && |vals| == WARP * warps
    ensures Fold(op, WarpFolds(op, vals, warps)) == Fold(op, vals)
  {
    var k := WARP * (warps - 1);
    var rest := WarpFolds(op, vals[..k], warps - 1);
    if warps > 1 {
      FoldOfWarps(op, vals[..k], warps - 1);
      FoldConcat(op, vals[..k], vals[k..]);
      assert vals[..k] + vals[k..] == vals;
      assert WarpFolds(op, vals, warps)[..warps - 1] == rest;
    } else {
      assert vals[0..] == vals;
    }
  }

  lemma {:induction false} WarpFoldsAt<T>(op: (T, T) -> T, vals: seq<T>, warps: nat, w: nat)
    requires |vals| == WARP * warps && w < warps
    ensures WarpFolds(op, vals, warps)[w] == Fold(op, vals[WARP * w..WARP * w + WARP])
  {
    var k := WARP * (warps - 1);
    if w < warps - 1 {
      WarpFoldsAt(op, vals[..k], warps - 1, w);
      assert vals[..k][WARP * w..WARP * w + WARP] == vals[WARP * w..WARP * w + WARP];
    } else {
      assert vals[k..] == vals[k..k + WARP];
    }
  }

  /** What thread 0 holds after the two-level tree: the fold of all threads' values and of
      the padding that fills the shared buffer up to a full warp. */
  ghost function Padded<T>(vals: seq<T>, pad: T, warps: nat): seq<T>
    requires warps <= WARP
  {
    vals + seq(WARP - warps, i => pad)
  }

  /** First level: every warp's lane 0 ends up with the fold of its warp. */
  method ReduceWarps<T(!new)>(val: array<T>, op: (T, T) -> T, warps: nat)
    requires Lawful(op) && val.Length == WARP * warps
    modifies val
    ensures forall w | 0 <= w < warps :: val[WARP * w] == WarpFolds(op, old(val[..]), warps)[w]
  {
    ghost var vals := val[..];
    for w := 0 to warps
      invariant forall i | 0 <= i < w :: val[WARP * i] == WarpFolds(op, vals, warps)[i]
      invariant forall i | WARP * w <= i < val.Length :: val[i] == vals[i]
    {
      ghost var lanes := vals[WARP * w..WARP * w + WARP];
      assert val[WARP * w..WARP * w + WARP] == lanes;
      WrapReduce(val, WARP * w, op);
      WarpFoldsAt(op, vals, warps, w);
    }
  }

  /** The values held by the first lane of each warp. */
  ghost function Leaders<T>(vals: seq<T>, warps: nat): (r: seq<T>)
    requires |vals| == WARP * warps
    ensures |r| == warps
  {
    seq(warps, w requires 0 <= w < warps => vals[WARP * w])
  }

  /** Second level: the warps' results, padded to a full warp, are reduced by the first warp. */
  method ReduceShared<T(0,!new)>(val: array<T>, op: (T, T) -> T, initVal: T, warps: nat) returns (r: T)
    requires Lawful(op) && val.Length == WARP * warps && 1 <= warps <= WARP
    ensures r == Fold(op, Padded(Leaders(val[..], warps), initVal, warps))
  {
    ghost var firsts := Leaders(val[..], warps);
    var shm := new T[WARP](i => initVal);
    for w := 0 to warps
      invariant shm[..w] == firsts[..w]
      invariant forall i | w <= i < WARP :: shm[i] == initVal
    {
      shm[w] := val[WARP * w];
    }
    assert shm[0..0 + WARP] == Padded(firsts, initVal, warps);
    WrapReduce(shm, 0, op);
    r := shm[0];
  }

  method Power2Reduce<T(0,!new)>(val: array<T>, op: (T, T) -> T, initVal: T) returns (r: T)
    requires Lawful(op) && val.Length % WARP == 0 && WARP <= val.Length <= 1024
    modifies val
    ensures r == Fold(op, Padded(old(val[..]), initVal, val.Length / WARP))
  {
    var warps := val.Length / WARP;
    ghost var vals := val[..];
    ReduceWarps(val, op, warps);
    r := ReduceShared(val, op, initVal, warps);
    ghost var folds := WarpFolds(op, vals, warps);
    assert Leaders(val[..], warps) == folds;
    FoldOfWarps(op, vals, warps);
    PaddingFold(op, folds, vals, seq(WARP - warps, i => initVal));
  }

  lemma PaddingFold<T(!new)>(op: (T, T) -> T, a: seq<T>, b: seq<T>, pads: seq<T>)
    requires Lawful(op) && a != [] && b != [] && Fold(op, a) == Fold(op, b)
    ensures Fold(op, a + pads) == Fold(op, b + pads)
  {
    if pads == [] {
      assert a + pads == a && b + pads == b;
    } else {
      FoldConcat(op, a, pads);
      FoldConcat(op, b, pads);
    }
  }

  // ---------------------------------------------------------------- the strided loops

  /** What thread t of `size` has folded of the first m inputs. */
  function ThreadFold<S, X>(op: (S, X) -> S, init: S, input: seq<X>, size: nat, t: nat, m: nat): S
    requires size > 0 && m <= |input|
  {
    if m == 0 then init
    else if (m - 1) % size == t then op(ThreadFold(op, init, input, size, t, m - 1), input[m - 1])
    else ThreadFold(op, init, input, size, t, m - 1)
  }

  /** Between two of its indices a thread folds nothing. */
  lemma {:induction false} Idle<S, X>(op: (S, X) -> S, init: S, input: seq<X>, size: nat, t: nat, a: nat, b: nat)
    requires size > 0 && a <= b <= |input|
    requires forall k | a <= k < b :: k % size != t
    ensures ThreadFold(op, init, input, size, t, a) == ThreadFold(op, init, input, size, t, b)
    decreases b - a
  {
    if a < b { Idle(op, init, input, size, t, a, b - 1); }
  }

  function ThreadFolds<S, X>(op: (S, X) -> S, init: S, input: seq<X>, size: nat, m: nat): (r: seq<S>)
    requires size > 0 && m <= |input|
    ensures |r| == size
  {
    seq(size, t requires 0 <= t < size => ThreadFold(op, init, input, size, t, m))
  }

  /** The threads together have folded exactly the first m inputs. */
  lemma {:induction false} ThreadsFoldAll<T(!new)>(op: (T, T) -> T, init: T, input: seq<T>, size: nat, m: nat)
    requires Lawful(op) && Identity(op, init) && size > 0 && m <= |input|
    ensures Fold(op, ThreadFolds(op, init, input, size, m)) == FoldFrom(op, init, input[..m])
  {
    if m == 0 {
      FoldOfIdentities(op, init, size);
      assert ThreadFolds(op, init, input, size, 0) == seq(size, i => init);
    } else {
      var prev, t, x := ThreadFolds(op, init, input, size, m - 1), (m - 1) % size, input[m - 1];
      ThreadsFoldAll(op, init, input, size, m - 1);
      FoldUpdate(op, prev, t, x);
      assert ThreadFolds(op, init, input, size, m) == prev[t := op(prev[t], x)];
      assert input[..m][..m - 1] == input[..m - 1];
    }
  }

  /** The strided loop of one thread: cur_idx runs over tid, tid + size, tid + 2 * size, ... */
  method StridedLoop<T>(input: seq<T>, op: (T, T) -> T, init: T, size: nat, tid: nat) returns (val: T)
    requires tid < size
    ensures val == ThreadFold(op, init, input, size, tid, |input|)
  {
    val := init;
    var cur := tid;
    DivModUnique(tid, size, 0, tid);
    BeforeFirst(op, init, input, size, tid);
    while cur < |input|
      invariant cur % size == tid
      invariant val == ThreadFold(op, init, input, size, tid, if cur < |input| then cur else |input|)
      decreases |input| - cur
    {
      val := op(val, input[cur]);
      NextIndex(op, init, input, size, tid, cur);
      cur := cur + size;
    }
  }

  lemma BeforeFirst<S, X>(op: (S, X) -> S, init: S, input: seq<X>, size: nat, tid: nat)
    requires tid < size
    ensures ThreadFold(op, init, input, size, tid, if tid < |input| then tid else |input|) == init
  {
    var m := if tid < |input| then tid else |input|;
    forall k | 0 <= k < m ensures k % size != tid { DivModUnique(k, size, 0, k); }
    Idle(op, init, input, size, tid, 0, m);
  }

  lemma NextIndex<S, X>(op: (S, X) -> S, init: S, input: seq<X>, size: nat, tid: nat, cur: nat)
    requires tid < size && cur % size == tid && cur < |input|
    ensures (cur + size) % size == tid
    ensures ThreadFold(op, init, input, size, tid, if cur + size < |input| then cur + size else |input|)
      == op(ThreadFold(op, init, input, size, tid, cur), input[cur])
  {
    var m := if cur + size < |input| then cur + size else |input|;
    assert cur + size == (cur / size + 1) * size + tid;
    DivModUnique(cur + size, size, cur / size + 1, tid);
    forall k | cur + 1 <= k < m ensures k % size != tid {
      if k % size == tid { ModInjective(cur, k, size); }
    }
    Idle(op, init, input, size, tid, cur + 1, m);
  }

  /** BlockRowReduce: thread 0 returns the fold of all inputs, whatever their number. */
  method BlockRowReduce<T(0,!new)>(input: seq<T>, op: (T, T) -> T, initVal: T, blockSize: nat) returns (r: T)
    requires Lawful(op) && Identity(op, initVal) && blockSize % WARP == 0 && WARP <= blockSize <= 1024
    ensures r == FoldFrom(op, initVal, input)
  {
    var val := new T[blockSize];
    for tid := 0 to blockSize
      invariant forall t | 0 <= t < tid :: val[t] == ThreadFold(op, initVal, input, blockSize, t, |input|)
    {
      val[tid] := StridedLoop(input, op, initVal, blockSize, tid);
    }
    ghost var folds := ThreadFolds(op, initVal, input, blockSize, |input|);
    assert val[..] == folds;
    r := Power2Reduce(val, op, initVal);
    PadsVanish(op, folds, initVal, blockSize / WARP);
    ThreadsFoldAll(op, initVal, input, blockSize, |input|);
    assert input[..|input|] == input;
  }

  lemma PadsVanish<T(!new)>(op: (T, T) -> T, vals: seq<T>, e: T, warps: nat)
    requires Lawful(op) && Identity(op, e) && vals != [] && warps <= WARP
    ensures Fold(op, Padded(vals, e, warps)) == Fold(op, vals)
  {
    if warps == WARP {
      assert Padded(vals, e, warps) == vals;
    } else {
      FoldOfIdentities(op, e, WARP - warps);
      FoldConcat(op, vals, seq(WARP - warps, i => e));
      assert Absorbs(op, e, Fold(op, vals));
    }
  }

  /** The mapper / finalizer form: also writes every mapped value to its place in `output`. */
  method BlockRowMapReduce<T(0,!new)>(input: seq<T>, output: array<T>, mapper: T -> T, op: (T, T) -> T,
                                 finalizer: T -> T, initVal: T, blockSize: nat)
    returns (r: T)
    requires Lawful(op) && Identity(op, initVal) && blockSize % WARP == 0 && WARP <= blockSize <= 1024
    requires output.Length == |input|
    modifies output
    ensures output[..] == Map(mapper, input)
    ensures r == finalizer(FoldFrom(op, initVal, Map(mapper, input)))
  {
    ghost var mapped := Map(mapper, input);
    var val := new T[blockSize];
    for tid := 0 to blockSize
      invariant forall t | 0 <= t < tid :: val[t] == ThreadFold(op, initVal, mapped, blockSize, t, |input|)
      invariant forall k | 0 <= k < |input| && k % blockSize < tid :: output[k] == mapped[k]
    {
      val[tid] := MapLoop(input, output, mapper, op, initVal, blockSize, tid);
    }
    ghost var folds := ThreadFolds(op, initVal, mapped, blockSize, |input|);
    assert val[..] == folds;
    r := Power2Reduce(val, op, initVal);
    PadsVanish(op, folds, initVal, blockSize / WARP);
    ThreadsFoldAll(op, initVal, mapped, blockSize, |input|);
    assert mapped[..|input|] == mapped;
    r := finalizer(r);
  }

  method MapLoop<T>(input: seq<T>, output: array<T>, mapper: T -> T, op: (T, T) -> T, init: T, size: nat, tid: nat)
    returns (val: T)
    requires tid < size && output.Length == |input|
    modifies output
    ensures val == ThreadFold(op, init, Map(mapper, input), size, tid, |input|)
    ensures forall k | 0 <= k < |input| :: output[k] == if k % size == tid then mapper(input[k]) else old(output[k])
  {
    ghost var mapped := Map(mapper, input);
    val := init;
    var cur := tid;
    DivModUnique(tid, size, 0, tid);
    BeforeFirst(op, init, mapped, size, tid);
    forall k | 0 <= k < tid && k < |input| ensures k % size != tid { DivModUnique(k, size, 0, k); }
    while cur < |input|
      invariant cur % size == tid
      invariant val == ThreadFold(op, init, mapped, size, tid, if cur < |input| then cur else |input|)
      invariant forall k | 0 <= k < |input| ::
        output[k] == if k < cur && k % size == tid then mapper(input[k]) else old(output[k])
      decreases |input| - cur
    {
      output[cur] := mapper(input[cur]);
      val := op(val, output[cur]);
      NextIndex(op, init, mapped, size, tid, cur);
      forall k | cur < k < cur + size ensures k % size != tid {
        if k % size == tid { ModInjective(cur, k, size); }
      }
      cur := cur + size;
    }
  }
}
