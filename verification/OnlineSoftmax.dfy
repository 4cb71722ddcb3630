module OnlineSoftmax {

  /** The (max, sum) reduction of the online softmax kernel: a running pair per thread, merged
      by the shuffle tree of BlockReduce. */

  import opened Arith
  import opened Exponential
  import opened BlockReduce

  /** A pair stands for the mass d * E(m). */
  datatype MD = MD(m: real, d: real)

  const LOWEST: real := -100000000000000000000.0

  /** Initial values of every thread, and of unused entries of the shared buffers. */
  const PAD: MD := MD(LOWEST, 1.0)

  function MergeMD(E: real -> real, a: MD, b: MD): MD {
    if a.m > b.m then MD(a.m, a.d + b.d * E(b.m - a.m)) else MD(b.m, b.d + a.d * E(a.m - b.m))
  }

  function Op(E: real -> real): (MD, MD) -> MD { (a: MD, b: MD) => MergeMD(E, a, b) }

  function Mass(E: real -> real, a: MD): real { a.d * E(a.m) }

  function Max(a: real, b: real): real { if a > b then a else b }

  // ---------------------------------------------------------------- the merge

  /** Merging takes the larger maximum and adds the masses. */
  lemma MergeAdds(E: real -> real, a: MD, b: MD)
    requires ExpLike(E)
    ensures MergeMD(E, a, b).m == Max(a.m, b.m)
    ensures Mass(E, MergeMD(E, a, b)) == Mass(E, a) + Mass(E, b)
  {
    Shift(E, b.m, a.m);
    Shift(E, a.m, b.m);
    if a.m > b.m {
      Scaled(a.d, b.d, E(b.m - a.m), E(a.m));
    } else {
      Scaled(b.d, a.d, E(a.m - b.m), E(b.m));
    }
  }

  lemma Scaled(x: real, y: real, r: real, e: real)
    ensures (x + y * r) * e == x * e + y * (r * e)
  {
  }

  lemma PairDetermined(E: real -> real, a: MD, b: MD)
    requires ExpLike(E) && a.m == b.m && Mass(E, a) == Mass(E, b)
    ensures a == b
  {
    assert Positive(E, a.m);
    Cancel(a.d, b.d, E(a.m));
  }

  /** The merge is associative and commutative, exactly and on all pairs. */
  lemma MergeIsLawful(E: real -> real)
    requires ExpLike(E)
    ensures Lawful(Op(E))
  {
    forall a, b
      ensures Commutes(Op(E), a, b)
    {
      MergeAdds(E, a, b);
      MergeAdds(E, b, a);
      PairDetermined(E, MergeMD(E, a, b), MergeMD(E, b, a));
    }
    forall a, b, c
      ensures Associates(Op(E), a, b, c)
    {
      MergeAssociates(E, a, b, c);
    }
  }

  lemma MergeAssociates(E: real -> real, a: MD, b: MD, c: MD)
    requires ExpLike(E)
    ensures MergeMD(E, MergeMD(E, a, b), c) == MergeMD(E, a, MergeMD(E, b, c))
  {
    MergeAdds(E, a, b);
    MergeAdds(E, b, c);
    MergeAdds(E, MergeMD(E, a, b), c);
    MergeAdds(E, a, MergeMD(E, b, c));
    PairDetermined(E, MergeMD(E, MergeMD(E, a, b), c), MergeMD(E, a, MergeMD(E, b, c)));
  }

  function Add(): (real, real) -> real { (a: real, b: real) => a + b }

  function Masses(E: real -> real, ps: seq<MD>): (r: seq<real>)
    ensures |r| == |ps|
  {
    seq(|ps|, i requires 0 <= i < |ps| => Mass(E, ps[i]))
  }

  /** A fold of merges has the largest maximum and the total mass. */
  lemma {:induction false} FoldOfMerges(E: real -> real, ps: seq<MD>)
    requires ExpLike(E) && ps != []
    ensures Mass(E, Fold(Op(E), ps)) == Fold(Add(), Masses(E, ps))
    ensures forall i | 0 <= i < |ps| :: ps[i].m <= Fold(Op(E), ps).m
    ensures exists i | 0 <= i < |ps| :: ps[i].m == Fold(Op(E), ps).m
  {
    var n := |ps| - 1;
    if n == 0 {
      assert ps[0].m == Fold(Op(E), ps).m;
    } else {
      var front := ps[..n];
      FoldOfMerges(E, front);
      assert Masses(E, ps)[..n] == Masses(E, front);
      MergeAdds(E, Fold(Op(E), front), ps[n]);
      forall i | 0 <= i < |ps|
        ensures ps[i].m <= Fold(Op(E), ps).m
      {
        if i < n { assert front[i].m <= Fold(Op(E), front).m; }
      }
      var j :| 0 <= j < n && front[j].m == Fold(Op(E), front).m;
      if Fold(Op(E), front).m > ps[n].m {
        assert ps[j].m == Fold(Op(E), ps).m;
      } else {
        assert ps[n].m == Fold(Op(E), ps).m;
      }
    }
  }

  // ---------------------------------------------------------------- one thread

  /** A thread's pair, and whether it has passed its first element (cur_idx != base). */
  datatype Running = Running(pair: MD, started: bool)

  const IDLE: Running := Running(PAD, false)

  /** The loop body of ReduceMD.  The maximum is updated before it is compared, so the branch
      that would rescale the sum is never taken. */
  function Consume(E: real -> real): (Running, real) -> Running {
    (r: Running, x: real) =>
      var m := if r.pair.m < x then x else r.pair.m;
      var pair :=
        if !r.started then MD(m, r.pair.d)
        else if m < x then MD(x, 1.0 + r.pair.d * E(m - x))
        else MD(m, r.pair.d + E(x - m));
      Running(pair, true)
  }

  function Exps(E: real -> real, xs: seq<real>): (r: seq<real>)
    ensures |r| == |xs|
  {
    seq(|xs|, i requires 0 <= i < |xs| => E(xs[i]))
  }

  /** Thread t's pair after the first m elements of the row. */
  function PairOf(E: real -> real, xs: seq<real>, size: nat, t: nat, m: nat): Running
    requires size > 0 && m <= |xs|
  {
    ThreadFold(Consume(E), IDLE, xs, size, t, m)
  }

  /** The mass of thread t's elements among the first m. */
  function MassOf(E: real -> real, xs: seq<real>, size: nat, t: nat, m: nat): real
    requires size > 0 && m <= |xs|
  {
    ThreadFold(Add(), 0.0, Exps(E, xs), size, t, m)
  }

  /** Thread t's first element is its largest among the first m, and not below the initial maximum. */
  predicate Leads(xs: seq<real>, size: nat, t: nat, m: nat)
    requires size > 0 && t < m <= |xs|
  {
    xs[t] >= LOWEST && forall k | 0 <= k < m && k % size == t :: xs[k] <= xs[t]
  }

  /** The running maximum is that of thread t's elements so far and of the initial maximum. */
  ghost predicate Tops(xs: seq<real>, size: nat, t: nat, m: nat, top: real)
    requires size > 0 && m <= |xs|
  {
    && top >= LOWEST && (forall k | 0 <= k < m && k % size == t :: xs[k] <= top)
    && (top == LOWEST || exists k | 0 <= k < m && k % size == t :: xs[k] == top)
  }

  /** The pair's mass is at least `mass`, and equal to it exactly if the maximum is `first`. */
  ghost predicate Weighs(E: real -> real, pair: MD, mass: real, first: real) {
    && pair.d >= 1.0 && first <= pair.m && Mass(E, pair) >= mass
    && (Mass(E, pair) == mass <==> pair.m == first)
  }

  ghost predicate Tracks(E: real -> real, xs: seq<real>, size: nat, t: nat, m: nat, r: Running)
    requires size > 0 && t < m <= |xs|
  {
    r.started && Tops(xs, size, t, m, r.pair.m) && Weighs(E, r.pair, MassOf(E, xs, size, t, m), xs[t])
  }

  lemma {:induction false} ThreadTracks(E: real -> real, xs: seq<real>, size: nat, t: nat, m: nat)
    requires ExpLike(E) && StrictlyIncreasing(E) && t < size && m <= |xs|
    ensures m <= t ==> PairOf(E, xs, size, t, m) == IDLE && MassOf(E, xs, size, t, m) == 0.0
    ensures t < m ==> Tracks(E, xs, size, t, m, PairOf(E, xs, size, t, m))
  {
    if m > 0 {
      var k := m - 1;
      ThreadTracks(E, xs, size, t, k);
      if k == t {
        FirstElement(E, xs, size, t, m);
      } else if k < t {
        DivModUnique(k, size, 0, k);
      } else if k % size == t {
        LaterElement(E, xs, size, t, m);
      } else {
        OthersElement(E, xs, size, t, m);
      }
    }
  }

  /** An element of another thread changes nothing. */
  lemma OthersElement(E: real -> real, xs: seq<real>, size: nat, t: nat, m: nat)
    requires t < size && t < m - 1 && m <= |xs| && (m - 1) % size != t
    requires Tracks(E, xs, size, t, m - 1, PairOf(E, xs, size, t, m - 1))
    ensures Tracks(E, xs, size, t, m, PairOf(E, xs, size, t, m))
  {
    SkipFold(Consume(E), IDLE, xs, size, t, m);
    SkipFold(Add(), 0.0, Exps(E, xs), size, t, m);
    TopsSkip(xs, size, t, m, PairOf(E, xs, size, t, m).pair.m);
  }

  lemma SkipFold<S, X>(op: (S, X) -> S, init: S, xs: seq<X>, size: nat, t: nat, m: nat)
    requires size > 0 && 0 < m <= |xs| && (m - 1) % size != t
    ensures ThreadFold(op, init, xs, size, t, m) == ThreadFold(op, init, xs, size, t, m - 1)
  {
  }

  lemma TopsSkip(xs: seq<real>, size: nat, t: nat, m: nat, top: real)
    requires size > 0 && 0 < m <= |xs| && (m - 1) % size != t && Tops(xs, size, t, m - 1, top)
    ensures Tops(xs, size, t, m, top)
  {
    forall k | 0 <= k < m && k % size == t
      ensures k < m - 1
    {
    }
  }

  lemma FirstElement(E: real -> real, xs: seq<real>, size: nat, t: nat, m: nat)
    requires ExpLike(E) && StrictlyIncreasing(E) && t < size && m == t + 1 <= |xs|
    requires PairOf(E, xs, size, t, t) == IDLE && MassOf(E, xs, size, t, t) == 0.0
    ensures Tracks(E, xs, size, t, m, PairOf(E, xs, size, t, m))
  {
    DivModUnique(t, size, 0, t);
    TakeFold(Consume(E), IDLE, xs, size, t, m);
    TakeFold(Add(), 0.0, Exps(E, xs), size, t, m);
    assert MassOf(E, xs, size, t, m) == E(xs[t]);
    assert Increases(E, xs[t], LOWEST);
    FirstTops(xs, size, t);
  }

  lemma TakeFold<S, X>(op: (S, X) -> S, init: S, xs: seq<X>, size: nat, t: nat, m: nat)
    requires size > 0 && 0 < m <= |xs| && (m - 1) % size == t
    ensures ThreadFold(op, init, xs, size, t, m) == op(ThreadFold(op, init, xs, size, t, m - 1), xs[m - 1])
  {
  }

  lemma FirstTops(xs: seq<real>, size: nat, t: nat)
    requires t < size && t < |xs|
    ensures Tops(xs, size, t, t + 1, Max(LOWEST, xs[t]))
  {
    DivModUnique(t, size, 0, t);
    forall k | 0 <= k < t + 1 && k % size == t
      ensures k == t
    {
      DivModUnique(k, size, 0, k);
    }
    assert xs[t] >= LOWEST ==> xs[t] == Max(LOWEST, xs[t]);
  }

  lemma LaterElement(E: real -> real, xs: seq<real>, size: nat, t: nat, m: nat)
    requires ExpLike(E) && StrictlyIncreasing(E) && t < size && t < m - 1 && m <= |xs| && (m - 1) % size == t
    requires Tracks(E, xs, size, t, m - 1, PairOf(E, xs, size, t, m - 1))
    ensures Tracks(E, xs, size, t, m, PairOf(E, xs, size, t, m))
  {
    PairTakes(E, xs, size, t, m);
    MassTakes(E, xs, size, t, m);
    LaterGrows(E, xs, size, t, m, PairOf(E, xs, size, t, m - 1).pair, MassOf(E, xs, size, t, m - 1));
  }

  lemma PairTakes(E: real -> real, xs: seq<real>, size: nat, t: nat, m: nat)
    requires size > 0 && 0 < m <= |xs| && (m - 1) % size == t && PairOf(E, xs, size, t, m - 1).started
    ensures PairOf(E, xs, size, t, m) == Running(Next(E, PairOf(E, xs, size, t, m - 1).pair, xs[m - 1]), true)
  {
    TakeFold(Consume(E), IDLE, xs, size, t, m);
    ConsumeIsNext(E, PairOf(E, xs, size, t, m - 1), xs[m - 1]);
  }

  lemma MassTakes(E: real -> real, xs: seq<real>, size: nat, t: nat, m: nat)
    requires size > 0 && 0 < m <= |xs| && (m - 1) % size == t
    ensures MassOf(E, xs, size, t, m) == MassOf(E, xs, size, t, m - 1) + E(xs[m - 1])
  {
    TakeFold(Add(), 0.0, Exps(E, xs), size, t, m);
  }

  lemma LaterGrows(E: real -> real, xs: seq<real>, size: nat, t: nat, m: nat,
                   pair: MD, mass: real)
    requires ExpLike(E) && StrictlyIncreasing(E) && t < size && t < m - 1 && m <= |xs| && (m - 1) % size == t
    requires Tops(xs, size, t, m - 1, pair.m) && Weighs(E, pair, mass, xs[t])
    ensures Tops(xs, size, t, m, Next(E, pair, xs[m - 1]).m)
    ensures Weighs(E, Next(E, pair, xs[m - 1]), mass + E(xs[m - 1]), xs[t])
  {
    NextWeighs(E, pair, xs[m - 1], mass, mass + E(xs[m - 1]), xs[t]);
    TopsExtend(xs, size, t, m, pair.m);
  }

  lemma TopsExtend(xs: seq<real>, size: nat, t: nat, m: nat, top: real)
    requires size > 0 && 1 <= m <= |xs| && (m - 1) % size == t && Tops(xs, size, t, m - 1, top)
    ensures Tops(xs, size, t, m, if top < xs[m - 1] then xs[m - 1] else top)
  {
    if top < xs[m - 1] {
      assert xs[m - 1] == xs[m - 1];
    } else if top != LOWEST {
      var j :| 0 <= j < m - 1 && j % size == t && xs[j] == top;
      assert xs[j] == top;
    }
  }

  /** The dead branch aside, this is what the loop body does to a thread that has started. */
  function Next(E: real -> real, pair: MD, x: real): MD {
    if pair.m < x then MD(x, pair.d + E(0.0)) else MD(pair.m, pair.d + E(x - pair.m))
  }

  lemma ConsumeIsNext(E: real -> real, r: Running, x: real)
    requires r.started
    ensures Consume(E)(r, x) == Running(Next(E, r.pair, x), true)
  {
    assert x - x == 0.0;
  }

  lemma NextWeighs(E: real -> real, pair: MD, x: real, mass: real, mass': real, first: real)
    requires ExpLike(E) && StrictlyIncreasing(E) && Weighs(E, pair, mass, first) && mass' == mass + E(x)
    ensures Weighs(E, Next(E, pair, x), mass', first)
  {
    if pair.m < x {
      WeighsAbove(E, pair, x, mass, mass', first);
    } else {
      WeighsBelow(E, pair, x, mass, mass', first);
    }
  }

  lemma WeighsAbove(E: real -> real, pair: MD, x: real, mass: real, mass': real, first: real)
    requires ExpLike(E) && StrictlyIncreasing(E) && pair.m < x && Weighs(E, pair, mass, first) && mass' == mass + E(x)
    ensures Weighs(E, MD(x, pair.d + E(0.0)), mass', first)
  {
    Shift(E, x, x);
    assert x - x == 0.0;
    Shift(E, pair.m, pair.m);
    assert Increases(E, pair.m, x);
    Overshoot(pair.d, E(0.0), E(pair.m), E(x), mass);
  }

  lemma WeighsBelow(E: real -> real, pair: MD, x: real, mass: real, mass': real, first: real)
    requires ExpLike(E) && x <= pair.m && Weighs(E, pair, mass, first) && mass' == mass + E(x)
    ensures Weighs(E, MD(pair.m, pair.d + E(x - pair.m)), mass', first)
  {
    Shift(E, x, pair.m);
    assert Positive(E, x - pair.m);
    Scaled(pair.d, 1.0, E(x - pair.m), E(pair.m));
  }

  /** Keeping d unscaled when the maximum grows overestimates the mass. */
  lemma Overshoot(d: real, one: real, em: real, ex: real, mass: real)
    requires d >= 1.0 && em > 0.0 && em < ex && one * ex == ex && d * em >= mass
    ensures (d + one) * ex > mass + ex && d + one >= 1.0
  {
    assert (d + one) * ex == d * ex + one * ex;
    assert d * ex > d * em;
    assert one == 1.0 by { Cancel(one, 1.0, ex); }
  }

  lemma LeadsIffTop(xs: seq<real>, size: nat, t: nat, m: nat, top: real)
    requires size > 0 && t < size && t < m <= |xs| && Tops(xs, size, t, m, top)
    ensures top == xs[t] <==> Leads(xs, size, t, m)
  {
    DivModUnique(t, size, 0, t);
    assert xs[t] <= top;
    if Leads(xs, size, t, m) && top != LOWEST {
      var k :| 0 <= k < m && k % size == t && xs[k] == top;
    }
  }

  // ---------------------------------------------------------------- sums

  function Total(s: seq<real>): real { FoldFrom(Add(), 0.0, s) }

  function Times(k: nat, x: real): real { if k == 0 then 0.0 else Times(k - 1, x) + x }

  lemma {:induction false} FoldIsTotal(s: seq<real>)
    requires s != []
    ensures Fold(Add(), s) == Total(s)
  {
    var n := |s| - 1;
    assert Total(s) == Total(s[..n]) + s[n];
    if n > 0 { FoldIsTotal(s[..n]); }
  }

  lemma {:induction false} TotalConcat(a: seq<real>, b: seq<real>)
    ensures Total(a + b) == Total(a) + Total(b)
  {
    if b == [] {
      assert a + b == a;
    } else {
      TotalConcat(a, b[..|b| - 1]);
      assert (a + b)[..|a + b| - 1] == a + b[..|b| - 1];
    }
  }

  lemma {:induction false} TotalConstant(k: nat, x: real)
    ensures Total(seq(k, i => x)) == Times(k, x)
  {
    if k > 0 {
      TotalConstant(k - 1, x);
      assert seq(k, i => x)[..k - 1] == seq(k - 1, i => x);
    }
  }

  lemma {:induction false} TimesZero(k: nat)
    ensures Times(k, 0.0) == 0.0
  {
    if k > 0 { TimesZero(k - 1); }
  }

  lemma {:induction false} TimesPlus(j: nat, k: nat, x: real)
    ensures Times(j + k, x) == Times(j, x) + Times(k, x)
  {
    if k > 0 { TimesPlus(j, k - 1, x); }
  }

  /** Entrywise larger values have a larger total, and an equal one only if all are equal. */
  lemma {:induction false} TotalMonotone(a: seq<real>, b: seq<real>)
    requires |a| == |b| && forall i | 0 <= i < |a| :: a[i] >= b[i]
    ensures Total(a) >= Total(b)
    ensures Total(a) == Total(b) <==> a == b
  {
    if a != [] {
      var n := |a| - 1;
      TotalMonotone(a[..n], b[..n]);
      if Total(a) == Total(b) {
        assert a[..n] == b[..n] && a[n] == b[n];
        assert a == a[..n] + [a[n]] && b == b[..n] + [b[n]];
      }
    }
  }

  lemma {:induction false} TotalSum(a: seq<real>, b: seq<real>)
    requires |a| == |b|
    ensures Total(Zip(Add(), a, b)) == Total(a) + Total(b)
  {
    if a != [] {
      var n := |a| - 1;
      TotalSum(a[..n], b[..n]);
      assert Zip(Add(), a, b)[..n] == Zip(Add(), a[..n], b[..n]);
    }
  }

  // ---------------------------------------------------------------- the block

  /** The pairs of all threads after their loops. */
  function Pairs(E: real -> real, xs: seq<real>, size: nat): (r: seq<MD>)
    requires size > 0
    ensures |r| == size
  {
    seq(size, t requires 0 <= t < size => PairOf(E, xs, size, t, |xs|).pair)
  }

  /** What each thread's pair would weigh if all were exact: its elements' mass, or the
      initial pair's if it has none. */
  function TrueMasses(E: real -> real, xs: seq<real>, size: nat): (r: seq<real>)
    requires size > 0
    ensures |r| == size
  {
    seq(size, t requires 0 <= t < size => MassOf(E, xs, size, t, |xs|) + (if t < |xs| then 0.0 else E(LOWEST)))
  }

  /** Lanes that never see an input: threads without elements and unused buffer entries. */
  function IdleLanes(n: nat, size: nat): nat
    requires size <= 1024
  {
    (if n < size then size - n else 0) + (WARP - size / WARP)
  }

  /** Every thread that reads anything starts with the largest element it reads, one not below the
      initial maximum. */
  predicate AllLead(xs: seq<real>, size: nat)
    requires size > 0
  {
    forall t | 0 <= t < size && t < |xs| :: Leads(xs, size, t, |xs|)
  }

  lemma AddIsLawful()
    ensures Lawful(Add()) && Identity(Add(), 0.0)
  {
  }

  lemma TrueTotal(E: real -> real, xs: seq<real>, size: nat)
    requires size > 0
    ensures Total(TrueMasses(E, xs, size))
         == Total(Exps(E, xs)) + Times(if |xs| < size then size - |xs| else 0, E(LOWEST))
  {
    AddIsLawful();
    var n := |xs|;
    var own := ThreadFolds(Add(), 0.0, Exps(E, xs), size, n);
    var idle := seq(size, t => if t < n then 0.0 else E(LOWEST));
    assert TrueMasses(E, xs, size) == Zip(Add(), own, idle);
    TotalSum(own, idle);
    ThreadsFoldAll(Add(), 0.0, Exps(E, xs), size, n);
    FoldIsTotal(own);
    assert Exps(E, xs)[..n] == Exps(E, xs);
    IdleTotal(n, size, E(LOWEST), idle);
  }

  /** Threads without elements contribute their initial pairs. */
  lemma IdleTotal(n: nat, size: nat, e: real, idle: seq<real>)
    requires |idle| == size && forall t | 0 <= t < size :: idle[t] == if t < n then 0.0 else e
    ensures Total(idle) == Times(if n < size then size - n else 0, e)
  {
    var k := if n < size then n else size;
    assert idle == seq(k, i => 0.0) + seq(size - k, i => e);
    TotalConcat(seq(k, i => 0.0), seq(size - k, i => e));
    TotalConstant(k, 0.0);
    TotalConstant(size - k, e);
    TimesZero(k);
  }

  lemma PairsWeigh(E: real -> real, xs: seq<real>, size: nat, t: nat)
    requires ExpLike(E) && StrictlyIncreasing(E) && t < size
    ensures Mass(E, Pairs(E, xs, size)[t]) >= TrueMasses(E, xs, size)[t]
    ensures Mass(E, Pairs(E, xs, size)[t]) == TrueMasses(E, xs, size)[t] <==> (t < |xs| ==> Leads(xs, size, t, |xs|))
    ensures t >= |xs| ==> Pairs(E, xs, size)[t] == PAD
    ensures t < |xs| ==> Tops(xs, size, t, |xs|, Pairs(E, xs, size)[t].m)
  {
    ThreadTracks(E, xs, size, t, |xs|);
    if t < |xs| { LeadsIffTop(xs, size, t, |xs|, Pairs(E, xs, size)[t].m); }
  }

  /** What the kernel leaves in shared memory. */
  ghost function Reduced(E: real -> real, xs: seq<real>, size: nat): MD
    requires size > 0 && size <= 1024
  {
    Fold(Op(E), Padded(Pairs(E, xs, size), PAD, size / WARP))
  }

  /** The kernel's maximum is the larger of the row maximum and the initial -1e20, so it is the row
      maximum exactly when some entry is not below that. */
  lemma ReducedMaximum(E: real -> real, xs: seq<real>, size: nat)
    requires ExpLike(E) && StrictlyIncreasing(E) && 0 < size <= 1024
    ensures LOWEST <= Reduced(E, xs, size).m && forall k | 0 <= k < |xs| :: xs[k] <= Reduced(E, xs, size).m
    ensures Reduced(E, xs, size).m == LOWEST || exists k | 0 <= k < |xs| :: xs[k] == Reduced(E, xs, size).m
    ensures (exists k | 0 <= k < |xs| :: xs[k] == Reduced(E, xs, size).m) <==>
            exists k | 0 <= k < |xs| :: xs[k] >= LOWEST
  {
    var ps := Padded(Pairs(E, xs, size), PAD, size / WARP);
    FoldOfMerges(E, ps);
    var top := Reduced(E, xs, size).m;
    PairsWeigh(E, xs, size, 0);
    assert ps[0].m <= top;
    forall k | 0 <= k < |xs|
      ensures xs[k] <= top
    {
      PairsWeigh(E, xs, size, k % size);
      ThreadOf(k, size);
      assert ps[k % size].m <= top;
    }
    var i :| 0 <= i < |ps| && ps[i].m == top;
    if top != LOWEST {
      assert i < size;
      PairsWeigh(E, xs, size, i);
      var k :| 0 <= k < |xs| && k % size == i && xs[k] == Pairs(E, xs, size)[i].m;
      assert xs[k] == top;
    } else if k :| 0 <= k < |xs| && xs[k] >= LOWEST {
      assert xs[k] == top;
    }
  }

  /** On rows with entries from -1e20 on it is the largest entry. */
  lemma OrdinaryMaximum(E: real -> real, xs: seq<real>, size: nat)
    requires ExpLike(E) && StrictlyIncreasing(E) && 0 < size <= 1024
    requires xs != [] && forall k | 0 <= k < |xs| :: xs[k] >= -100000000000000000000.0
    ensures forall k | 0 <= k < |xs| :: xs[k] <= Reduced(E, xs, size).m
    ensures exists k | 0 <= k < |xs| :: xs[k] == Reduced(E, xs, size).m
  {
    ReducedMaximum(E, xs, size);
    assert xs[0] >= LOWEST;
  }

  /** Every entry of the row counts once in its mass. */
  lemma RowMass(E: real -> real, xs: seq<real>, x: real)
    ensures Total(Exps(E, [])) == 0.0 && Total(Exps(E, xs + [x])) == Total(Exps(E, xs)) + E(x)
  {
    assert Exps(E, xs + [x]) == Exps(E, xs) + [E(x)];
    TotalConcat(Exps(E, xs), [E(x)]);
    assert [E(x)][..0] == [];
  }

  lemma ThreadOf(k: nat, size: nat)
    requires size > 0
    ensures 0 <= k % size <= k && k % size < size
  {
  }

  /** The kernel's sum, at the row maximum m, weighs at least the true sum of E(x) plus the
      initial pairs of the idle lanes; it weighs exactly that if and only if every thread's
      first element is the largest it reads and not below -1e20. */
  lemma ReducedSum(E: real -> real, xs: seq<real>, size: nat)
    requires ExpLike(E) && StrictlyIncreasing(E) && WARP <= size <= 1024
    ensures var truth := Total(Exps(E, xs)) + Times(IdleLanes(|xs|, size), E(LOWEST));
      Mass(E, Reduced(E, xs, size)) >= truth
      && (Mass(E, Reduced(E, xs, size)) == truth <==> AllLead(xs, size))
  {
    ReducedMass(E, xs, size);
    Truth(E, xs, size);
    OwnVersusTrue(E, xs, size);
  }

  lemma Truth(E: real -> real, xs: seq<real>, size: nat)
    requires 0 < size <= 1024
    ensures Total(TrueMasses(E, xs, size)) + Times(WARP - size / WARP, E(LOWEST))
         == Total(Exps(E, xs)) + Times(IdleLanes(|xs|, size), E(LOWEST))
  {
    TrueTotal(E, xs, size);
    TimesPlus(if |xs| < size then size - |xs| else 0, WARP - size / WARP, E(LOWEST));
  }

  /** Taken at its word, the sum is that of E(x) over the row if and only if, besides, no lane is
      idle: the block has 1024 threads and the row is at least as long. */
  lemma SumIsExactIff(E: real -> real, xs: seq<real>, size: nat)
    requires ExpLike(E) && StrictlyIncreasing(E) && WARP <= size <= 1024
    ensures Mass(E, Reduced(E, xs, size)) == Total(Exps(E, xs)) <==> AllLead(xs, size) && size == 1024 <= |xs|
  {
    ReducedSum(E, xs, size);
    assert Positive(E, LOWEST);
    TimesPositive(IdleLanes(|xs|, size), E(LOWEST));
  }

  lemma {:induction false} TimesPositive(k: nat, x: real)
    requires x > 0.0
    ensures Times(k, x) >= 0.0 && (Times(k, x) == 0.0 <==> k == 0)
  {
    if k > 0 { TimesPositive(k - 1, x); }
  }

  lemma OwnVersusTrue(E: real -> real, xs: seq<real>, size: nat)
    requires ExpLike(E) && StrictlyIncreasing(E) && size > 0
    ensures var own, truth := Masses(E, Pairs(E, xs, size)), TrueMasses(E, xs, size);
      Total(own) >= Total(truth) && (Total(own) == Total(truth) <==> AllLead(xs, size))
  {
    var own, truth := Masses(E, Pairs(E, xs, size)), TrueMasses(E, xs, size);
    forall t | 0 <= t < size
      ensures own[t] >= truth[t] && (own[t] == truth[t] <==> (t < |xs| ==> Leads(xs, size, t, |xs|)))
    {
      PairsWeigh(E, xs, size, t);
    }
    TotalMonotone(own, truth);
    assert own == truth <==> AllLead(xs, size);
  }

  lemma ReducedMass(E: real -> real, xs: seq<real>, size: nat)
    requires ExpLike(E) && 0 < size <= 1024
    ensures Mass(E, Reduced(E, xs, size)) == Total(Masses(E, Pairs(E, xs, size))) + Times(WARP - size / WARP, E(LOWEST))
  {
    var warps := size / WARP;
    var ps := Padded(Pairs(E, xs, size), PAD, warps);
    var own, pads := Masses(E, Pairs(E, xs, size)), seq(WARP - warps, i => E(LOWEST));
    FoldOfMerges(E, ps);
    FoldIsTotal(Masses(E, ps));
    PaddedMasses(E, Pairs(E, xs, size), warps);
    TotalConcat(own, pads);
    TotalConstant(WARP - warps, E(LOWEST));
  }

  lemma PaddedMasses(E: real -> real, pairs: seq<MD>, warps: nat)
    requires warps <= WARP
    ensures Masses(E, Padded(pairs, PAD, warps)) == Masses(E, pairs) + seq(WARP - warps, i => E(LOWEST))
  {
    assert Mass(E, PAD) == E(LOWEST);
  }

  /** A row no longer than the block gives every thread at most one element, so only entries below
      -1e20 matter. */
  lemma ShortRowsLead(xs: seq<real>, size: nat)
    requires size > 0 && |xs| <= size
    ensures AllLead(xs, size) <==> forall k | 0 <= k < |xs| :: xs[k] >= LOWEST
  {
    forall k | 0 <= k < |xs|
      ensures k % size == k
    {
      DivModUnique(k, size, 0, k);
    }
    if AllLead(xs, size) {
      forall k | 0 <= k < |xs|
        ensures xs[k] >= LOWEST
      {
        assert Leads(xs, size, k, |xs|);
      }
    }
  }

  /** A longer row whose second round beats its first breaks the sum. */
  lemma LateMaximumIsWrong(E: real -> real, xs: seq<real>, size: nat)
    requires ExpLike(E) && StrictlyIncreasing(E) && WARP <= size <= 1024
    requires size < |xs| && xs[0] < xs[size]
    ensures Mass(E, Reduced(E, xs, size)) > Total(Exps(E, xs)) + Times(IdleLanes(|xs|, size), E(LOWEST))
  {
    ReducedSum(E, xs, size);
    DivModUnique(size, size, 1, 0);
    assert !Leads(xs, size, 0, |xs|);
  }

  // ---------------------------------------------------------------- the kernel's loops

  ghost predicate IsConsume(E: real -> real, step: (Running, real) -> Running) {
    forall r, x {:trigger Consume(E)(r, x)} :: step(r, x) == Consume(E)(r, x)
  }

  /** The body of ReduceMD's loop; `later` is cur_idx != base. */
  method Update(E: real -> real, m: real, d: real, later: bool, x: real, ghost step: (Running, real) -> Running)
    returns (valM: real, valD: real)
    requires IsConsume(E, step)
    ensures Running(MD(valM, valD), true) == step(Running(MD(m, d), later), x)
  {
    valM, valD := m, d;
    if valM < x {
      valM := x;
    }
    if later {
      if valM < x {
        valD := 1.0 + valD * E(valM - x);
        valM := x;
      } else {
        valD := valD + E(x - valM);
      }
    }
    assert Running(MD(valM, valD), true) == Consume(E)(Running(MD(m, d), later), x);
  }

  /** The while loop of ReduceMD for one thread. */
  method ReduceLoop(E: real -> real, xs: seq<real>, size: nat, base: nat, ghost step: (Running, real) -> Running)
    returns (pair: MD)
    requires base < size && IsConsume(E, step)
    ensures pair == ThreadFold(step, IDLE, xs, size, base, |xs|).pair
  {
    var valM, valD := LOWEST, 1.0;
    var cur := base;
    DivModUnique(base, size, 0, base);
    BeforeFirst(step, IDLE, xs, size, base);
    while cur < |xs|
      invariant cur % size == base && (cur == base || cur >= base + size)
      invariant Running(MD(valM, valD), cur != base)
             == ThreadFold(step, IDLE, xs, size, base, if cur < |xs| then cur else |xs|)
      decreases |xs| - cur
    {
      valM, valD := Update(E, valM, valD, cur != base, xs[cur], step);
      NextIndex(step, IDLE, xs, size, base, cur);
      cur := cur + size;
    }
    pair := MD(valM, valD);
  }

  /** ReduceMD for a whole block: all loops, then the tree over pairs. */
  method ReduceMD(E: real -> real, xs: seq<real>, size: nat) returns (r: MD)
    requires ExpLike(E) && size % WARP == 0 && WARP <= size <= 1024
    ensures r == Reduced(E, xs, size)
  {
    MergeIsLawful(E);
    var val := new MD[size];
    for base := 0 to size
      invariant forall t | 0 <= t < base :: val[t] == PairOf(E, xs, size, t, |xs|).pair
    {
      val[base] := ReduceLoop(E, xs, size, base, Consume(E));
    }
    assert val[..] == Pairs(E, xs, size);
    r := Power2Reduce(val, Op(E), PAD);
  }
}
