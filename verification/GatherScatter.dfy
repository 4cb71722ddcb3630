module GatherScatter {

  /** GatherNd and ScatterNd: an index row selects a slice of a dense tensor. Two kernels compute
      the slice's offset differently, and many threads add to the output with atomic operations
      (kaleido/core/device/kernels/gather_scatter.h and scatter_nd.h). */

  import opened Arith
  import opened Common

  /** An index row within the dimensions. */
  predicate Within(dims: seq<nat>, idx: seq<nat>) {
    |idx| == |dims| && forall j :: 0 <= j < |dims| ==> idx[j] < dims[j]
  }

  /** Row-major position of an index: the last dimension varies fastest. */
  function Position(dims: seq<nat>, idx: seq<nat>): nat
    requires |idx| == |dims|
  {
    if dims == [] then 0 else idx[0] * Product(dims[1..]) + Position(dims[1..], idx[1..])
  }

  lemma {:induction false} PositionInBounds(dims: seq<nat>, idx: seq<nat>)
    requires Within(dims, idx)
    ensures Position(dims, idx) < Product(dims)
  {
    if dims != [] {
      PositionInBounds(dims[1..], idx[1..]);
      var p := Product(dims[1..]);
      MulMonotone(idx[0] + 1, dims[0], p);
      assert (idx[0] + 1) * p == idx[0] * p + p;
    }
  }

  /** Different indices have different positions. */
  lemma {:induction false} PositionInjective(dims: seq<nat>, a: seq<nat>, b: seq<nat>)
    requires Within(dims, a) && Within(dims, b) && Position(dims, a) == Position(dims, b)
    ensures a == b
  {
    if dims != [] {
      var p := Product(dims[1..]);
      PositionInBounds(dims[1..], a[1..]);
      PositionInBounds(dims[1..], b[1..]);
      DivModUnique(Position(dims, a), p, a[0], Position(dims[1..], a[1..]));
      DivModUnique(Position(dims, b), p, b[0], Position(dims[1..], b[1..]));
      PositionInjective(dims[1..], a[1..], b[1..]);
      assert a == [a[0]] + a[1..] && b == [b[0]] + b[1..];
    }
  }

  /** Every element of the tensor has an index. */
  lemma {:induction false} PositionOnto(dims: seq<nat>, p: nat) returns (idx: seq<nat>)
    requires p < Product(dims)
    ensures Within(dims, idx) && Position(dims, idx) == p
  {
    if dims == [] {
      idx := [];
    } else {
      var s := Product(dims[1..]);
      SplitPosition(p, dims[0], s);
      var rest := PositionOnto(dims[1..], p % s);
      idx := [p / s] + rest;
      PositionCons(dims, p / s, rest);
    }
  }

  lemma PositionCons(dims: seq<nat>, x: nat, rest: seq<nat>)
    requires dims != [] && Within(dims[1..], rest) && x < dims[0]
    ensures Within(dims, [x] + rest)
    ensures Position(dims, [x] + rest) == x * Product(dims[1..]) + Position(dims[1..], rest)
  {
    assert ([x] + rest)[1..] == rest;
  }

  lemma SplitPosition(p: nat, n: nat, s: nat)
    requires p < n * s
    ensures s > 0 && p / s < n && p % s < s && p == p / s * s + p % s
  {
    if s > 0 && p / s >= n { MulMonotone(n, p / s, s); }
  }

  /** idx comes before other: they differ, and idx is smaller where they first do. */
  predicate Precedes(idx: seq<nat>, other: seq<nat>)
    requires |idx| == |other|
  {
    idx != [] && (idx[0] < other[0] || (idx[0] == other[0] && Precedes(idx[1..], other[1..])))
  }

  /** Elements lie in the tensor in the order of their indices, so the last dimension varies fastest. */
  lemma {:induction false} PositionInOrder(dims: seq<nat>, a: seq<nat>, b: seq<nat>)
    requires Within(dims, a) && Within(dims, b) && Precedes(a, b)
    ensures Position(dims, a) < Position(dims, b)
  {
    var s := Product(dims[1..]);
    if a[0] < b[0] {
      PositionInBounds(dims[1..], a[1..]);
      SliceFits(a[0], b[0], s);
    } else {
      PositionInOrder(dims[1..], a[1..], b[1..]);
    }
  }

  // ---------------------------------------------------------------- the two offset computations

  lemma ProductStep(x: nat, p: nat, q: nat, s: nat)
    ensures (x * p + q) * s == q * s + x * (p * s) && p * s * x == (x * p) * s
  {
    assert (x * p + q) * s == (x * p) * s + q * s;
    assert (x * p) * s == x * (p * s);
  }

  /** The loop of gather_scatter.h: from the last index to the first, with a running product. */
  method RunningOffset(dims: seq<nat>, indices: seq<nat>, row: nat, k: nat, slice: nat) returns (offset: nat)
    requires k <= |dims| && row * k + k <= |indices|
    ensures offset == Position(dims[..k], indices[row * k..row * k + k]) * slice
  {
    ghost var idx := indices[row * k..row * k + k];
    offset := 0;
    var temp := slice;
    var j := k;
    while j > 0
      invariant 0 <= j <= k
      invariant offset == Position(dims[j..k], idx[j..]) * slice && temp == Product(dims[j..k]) * slice
    {
      j := j - 1;
      var v := indices[row * k + j];
      assert dims[j..k][0] == dims[j] && dims[j..k][1..] == dims[j + 1..k];
      assert idx[j..][0] == v && idx[j..][1..] == idx[j + 1..];
      ProductStep(v, Product(dims[j + 1..k]), Position(dims[j + 1..k], idx[j + 1..]), slice);
      ProductStep(dims[j], Product(dims[j + 1..k]), 0, slice);
      offset := offset + v * temp;
      temp := temp * dims[j];
    }
    assert dims[0..k] == dims[..k] && idx[0..] == idx;
  }

  /** `unsigned int` arithmetic wraps at this value. */
  const UINT := 0x1_0000_0000

  lemma {:induction false} ModMul(x: int, s: int)
    ensures (x * (s % UINT)) % UINT == (x * s) % UINT
  {
    var q, r := s / UINT, s % UINT;
    assert x * s == x * (q * UINT + r) == (x * q) * UINT + x * r;
    ModShift(x * r, x * q);
  }

  lemma ModShift(a: int, q: int)
    ensures (q * UINT + a) % UINT == a % UINT
  {
    DivModUnique(q * UINT + a, UINT, q + a / UINT, a % UINT);
  }

  lemma ModAdd(a: int, b: int, c: int)
    requires b % UINT == c % UINT
    ensures (a % UINT + b) % UINT == (a + c) % UINT
  {
    assert a % UINT + b == a + c + (b / UINT - c / UINT - a / UINT) * UINT;
    ModShift(a + c, b / UINT - c / UINT - a / UINT);
  }

  lemma StrideStep(dims: seq<nat>, i: nat, s: nat)
    requires i + 1 < |dims| && s == Product(dims[i + 2..]) % UINT
    ensures (s * dims[i + 1]) % UINT == Product(dims[i + 1..]) % UINT
  {
    assert dims[i + 1..][0] == dims[i + 1] && dims[i + 1..][1..] == dims[i + 2..];
    ModMul(dims[i + 1], Product(dims[i + 2..]));
    Commutes(s, dims[i + 1]);
  }

  lemma Commutes(a: int, b: int)
    ensures a * b == b * a
  {
  }

  /** The strides of the whole tensor, as computed on the host in `unsigned int`. */
  method Strides(dims: seq<nat>) returns (strides: array<nat>)
    requires dims != []
    ensures fresh(strides) && strides.Length == |dims|
    ensures forall i :: 0 <= i < |dims| ==> strides[i] == Product(dims[i + 1..]) % UINT
  {
    var rank := |dims|;
    strides := new nat[rank](_ => 0);
    strides[rank - 1] := 1;
    assert dims[rank..] == [];
    var i := rank - 2;
    while i >= 0
      invariant -1 <= i <= rank - 2
      invariant forall j :: i < j < rank ==> strides[j] == Product(dims[j + 1..]) % UINT
    {
      StrideStep(dims, i, strides[i + 1]);
      strides[i] := (strides[i + 1] * dims[i + 1]) % UINT;
      i := i - 1;
    }
  }

  /** idx[0] * stride 0 + idx[1] * stride 1 + ... over the first indices. */
  function StrideSum(dims: seq<nat>, idx: seq<nat>, k: nat): nat
    requires k <= |idx| && k <= |dims|
  {
    if k == 0 then 0 else StrideSum(dims, idx, k - 1) + idx[k - 1] * Product(dims[k..])
  }

  /** The loop of scatter_nd.h: from the first index to the last, with precomputed strides, in
      `unsigned int`. */
  method StrideOffset(dims: seq<nat>, strides: array<nat>, indices: seq<nat>, row: nat, k: nat) returns (offset: nat)
    requires k <= |dims| == strides.Length && row * k + k <= |indices|
    requires forall i :: 0 <= i < |dims| ==> strides[i] == Product(dims[i + 1..]) % UINT
    ensures offset == StrideSum(dims, indices[row * k..row * k + k], k) % UINT
  {
    ghost var idx := indices[row * k..row * k + k];
    offset := 0;
    for j := 0 to k
      invariant offset == StrideSum(dims, idx, j) % UINT
    {
      var v := indices[row * k + j];
      assert v == idx[j];
      ModMul(v, Product(dims[j + 1..]));
      ModAdd(StrideSum(dims, idx, j), v * strides[j], v * Product(dims[j + 1..]));
      offset := (offset + v * strides[j]) % UINT;
    }
  }

  lemma {:induction false} ProductAppend(a: seq<nat>, b: seq<nat>)
    ensures Product(a + b) == Product(a) * Product(b)
  {
    if a == [] {
      assert a + b == b;
    } else {
      assert (a + b)[1..] == a[1..] + b;
      ProductAppend(a[1..], b);
      assert a[0] * (Product(a[1..]) * Product(b)) == (a[0] * Product(a[1..])) * Product(b);
    }
  }

  lemma {:induction false} PositionAppend(dims: seq<nat>, d: nat, idx: seq<nat>, x: nat)
    requires |idx| == |dims|
    ensures Position(dims + [d], idx + [x]) == Position(dims, idx) * d + x
  {
    if dims != [] {
      assert (dims + [d])[1..] == dims[1..] + [d] && (idx + [x])[1..] == idx[1..] + [x];
      PositionAppend(dims[1..], d, idx[1..], x);
      ProductAppend(dims[1..], [d]);
      assert Product([d]) == d * Product([]) == d;
      ProductStep(idx[0], Product(dims[1..]), Position(dims[1..], idx[1..]), d);
    } else {
      assert Position([d], [x]) == x * Product([]) + Position([], []);
    }
  }

  /** Summing strides gives the same offset as the running product, for every depth k. */
  lemma {:induction false} OffsetsAgree(dims: seq<nat>, idx: seq<nat>, k: nat)
    requires k <= |idx| && k <= |dims|
    ensures StrideSum(dims, idx, k) == Position(dims[..k], idx[..k]) * Product(dims[k..])
    decreases k
  {
    if k > 0 {
      OffsetsAgree(dims, idx, k - 1);
      assert dims[..k] == dims[..k - 1] + [dims[k - 1]] && idx[..k] == idx[..k - 1] + [idx[k - 1]];
      assert dims[k - 1..] == [dims[k - 1]] + dims[k..];
      PositionAppend(dims[..k - 1], dims[k - 1], idx[..k - 1], idx[k - 1]);
      Expand(Position(dims[..k - 1], idx[..k - 1]), dims[k - 1], idx[k - 1], Product(dims[k..]));
      assert Product(dims[k - 1..]) == dims[k - 1] * Product(dims[k..]);
    }
  }

  lemma Expand(p: nat, d: nat, x: nat, s: nat)
    ensures (p * d + x) * s == p * (d * s) + x * s
  {
    assert (p * d + x) * s == (p * d) * s + x * s;
  }

  /** A valid slice lies within the tensor. */
  lemma SliceInBounds(dims: seq<nat>, idx: seq<nat>, k: nat)
    requires k <= |dims| && Within(dims[..k], idx)
    ensures Position(dims[..k], idx) * Product(dims[k..]) + Product(dims[k..]) <= Product(dims)
  {
    PositionInBounds(dims[..k], idx);
    assert dims[..k] + dims[k..] == dims;
    ProductAppend(dims[..k], dims[k..]);
    SliceFits(Position(dims[..k], idx), Product(dims[..k]), Product(dims[k..]));
  }

  lemma SliceFits(p: nat, n: nat, s: nat)
    requires p < n
    ensures p * s + s <= n * s
  {
    MulMonotone(p + 1, n, s);
    assert (p + 1) * s == p * s + s;
  }

  /** The two kernels address the same slice exactly when its offset fits in `unsigned int`, and
      so for every valid row when the tensor has at most 2^32 elements. */
  lemma KernelsAgree(dims: seq<nat>, idx: seq<nat>, k: nat)
    requires k <= |dims| && Within(dims[..k], idx)
    ensures var exact := Position(dims[..k], idx) * Product(dims[k..]);
            && (StrideSum(dims, idx, k) % UINT == exact <==> exact < UINT)
            && (0 < Product(dims) <= UINT ==> exact < UINT)
  {
    OffsetsAgree(dims, idx, k);
    assert idx[..k] == idx;
    SliceInBounds(dims, idx, k);
    NonzeroFactor(dims, k);
  }

  /** So they agree on every tensor of at most 4294967296 elements. */
  lemma SmallTensorsAgree(dims: seq<nat>, idx: seq<nat>, k: nat)
    requires k <= |dims| && Within(dims[..k], idx) && 0 < Product(dims) <= 4294967296
    ensures StrideSum(dims, idx, k) % UINT == Position(dims[..k], idx) * Product(dims[k..])
  {
    KernelsAgree(dims, idx, k);
  }

  /** A valid row of a vector of 2^32 + 1 elements on which they differ. */
  lemma LargeIndexWraps()
    ensures var dims, idx := [4294967297], [4294967296];
            && Within(dims[..1], idx)
            && Position(dims[..1], idx) * Product(dims[1..]) == 4294967296
            && StrideSum(dims, idx, 1) % UINT == 0
  {
    var dims, idx := [UINT + 1], [UINT];
    assert dims[..1] == dims && dims[1..] == [];
    assert Position(dims, idx) == UINT * Product([]) + Position([], []);
    assert StrideSum(dims, idx, 1) == 0 + UINT * Product([]);
  }

  lemma NonzeroFactor(dims: seq<nat>, k: nat)
    requires k <= |dims|
    ensures Product(dims) > 0 ==> Product(dims[k..]) > 0
  {
    assert dims[..k] + dims[k..] == dims;
    ProductAppend(dims[..k], dims[k..]);
  }

  // ---------------------------------------------------------------- addresses

  /** A gather or scatter: `rows` index rows of depth k, each addressing a slice of the tensor. */
  datatype Request = Request(dims: seq<nat>, k: nat, indices: seq<nat>, rows: nat) {
    predicate Valid() {
      && k <= |dims| && |indices| == rows * k
      && forall r :: 0 <= r < rows ==> Within(dims[..k], Row(r))
    }

    function Row(r: nat): seq<nat> {
      if r * k + k <= |indices| then indices[r * k..r * k + k] else []
    }

    function Slice(): nat
      requires k <= |dims|
    {
      Product(dims[k..])
    }

    /** Number of elements moved. */
    function Count(): nat
      requires k <= |dims|
    {
      rows * Slice()
    }

    /** Where in the tensor element i of the row-by-row list lies. */
    function Address(i: nat): nat
      requires k <= |dims|
    {
      if Slice() > 0 && |Row(i / Slice())| == k
      then Position(dims[..k], Row(i / Slice())) * Slice() + i % Slice() else 0
    }
  }

  lemma RowOfElement(q: Request, i: nat)
    requires q.Valid() && i < q.Count()
    ensures q.Slice() > 0 && i / q.Slice() < q.rows
    ensures |q.Row(i / q.Slice())| == q.k && Within(q.dims[..q.k], q.Row(i / q.Slice()))
    ensures i / q.Slice() * q.k + q.k <= |q.indices|
    ensures i - i / q.Slice() * q.Slice() == i % q.Slice()
  {
    var s := q.Slice();
    if i / s >= q.rows { MulMonotone(q.rows, i / s, s); }
    SliceFits(i / s, q.rows, q.k);
    assert Within(q.dims[..q.k], q.Row(i / s));
  }

  lemma AddressInBounds(q: Request, i: nat)
    requires q.Valid() && i < q.Count()
    ensures q.Address(i) < Product(q.dims)
  {
    RowOfElement(q, i);
    SliceInBounds(q.dims, q.Row(i / q.Slice()), q.k);
  }

  /** The row and the place in the slice that make up an address. */
  lemma AddressParts(q: Request, i: nat) returns (row: seq<nat>, x: nat)
    requires q.Valid() && i < q.Count()
    ensures row == q.Row(i / q.Slice()) && x == i % q.Slice() < q.Slice() && Within(q.dims[..q.k], row)
    ensures q.Address(i) == Position(q.dims[..q.k], row) * q.Slice() + x
  {
    RowOfElement(q, i);
    row, x := q.Row(i / q.Slice()), i % q.Slice();
  }

  /** Where the slice of row r begins, from the dimensions and the flat list of indices. */
  function RowStart(dims: seq<nat>, k: nat, indices: seq<nat>, r: nat): nat
    requires k <= |dims|
  {
    if r * k + k <= |indices| then Position(dims[..k], indices[r * k..r * k + k]) * Product(dims[k..]) else 0
  }

  /** Place o of the r-th slice that is moved lies at place o of the slice that index row r selects. */
  lemma AddressMeaning(q: Request, r: nat, o: nat)
    requires q.Valid() && r < q.rows && o < Product(q.dims[q.k..])
    ensures r * q.k + q.k <= |q.indices|
    ensures q.Address(r * Product(q.dims[q.k..]) + o)
         == Position(q.dims[..q.k], q.indices[r * q.k..r * q.k + q.k]) * Product(q.dims[q.k..]) + o
    ensures q.Address(r * q.Slice() + o) == RowStart(q.dims, q.k, q.indices, r) + o
    ensures r * q.Slice() + o < q.Count()
  {
    var s := q.Slice();
    SliceFits(r, q.rows, s);
    SliceFits(r, q.rows, q.k);
    DivModUnique(r * s + o, s, r, o);
    assert Within(q.dims[..q.k], q.Row(r));
  }

  /** Two elements share an address exactly when they are the same place of equal rows. */
  lemma AddressInjective(q: Request, i: nat, j: nat)
    requires q.Valid() && i < q.Count() && j < q.Count()
    ensures q.Address(i) == q.Address(j) <==>
            i % q.Slice() == j % q.Slice() && q.Row(i / q.Slice()) == q.Row(j / q.Slice())
  {
    var ri, xi := AddressParts(q, i);
    var rj, xj := AddressParts(q, j);
    RowsInjective(q.dims[..q.k], ri, xi, rj, xj, q.Slice());
  }

  lemma RowsInjective(dims: seq<nat>, a: seq<nat>, x: nat, b: seq<nat>, y: nat, s: nat)
    requires Within(dims, a) && Within(dims, b) && x < s && y < s
    ensures Position(dims, a) * s + x == Position(dims, b) * s + y <==> x == y && a == b
  {
    SplitEqual(Position(dims, a), x, Position(dims, b), y, s);
    if Position(dims, a) == Position(dims, b) {
      PositionInjective(dims, a, b);
    }
  }

  lemma SplitEqual(a: nat, x: nat, b: nat, y: nat, s: nat)
    requires x < s && y < s
    ensures a * s + x == b * s + y <==> a == b && x == y
  {
    if a * s + x == b * s + y {
      DivModUnique(a * s + x, s, a, x);
      DivModUnique(a * s + x, s, b, y);
    }
  }

  /** The body of the grid-stride loop up to the memory access. */
  method AddressOf(q: Request, i: nat) returns (a: nat)
    requires q.Valid() && i < q.Count()
    ensures a == q.Address(i)
  {
    RowOfElement(q, i);
    var row := i / q.Slice();
    var offset := RunningOffset(q.dims, q.indices, row, q.k, q.Slice());
    a := offset + (i - row * q.Slice());
  }

  // ---------------------------------------------------------------- the grid

  /** Elements t, t + threads, t + 2 * threads, ... below n: the work of thread t. */
  function StrideList(t: nat, threads: nat, n: nat): seq<nat>
    requires threads > 0
    decreases if t < n then n - t else 0
  {
    if t >= n then [] else [t] + StrideList(t + threads, threads, n)
  }

  function Upto(n: nat): seq<nat> {
    if n == 0 then [] else Upto(n - 1) + [n - 1]
  }

  predicate OnStride(x: int, t: int, s: nat)
    requires s > 0
  {
    t <= x && (x - t) % s == 0
  }

  lemma OnStrideStep(x: int, t: int, s: nat)
    requires s > 0
    ensures OnStride(x, t, s) <==> x == t || OnStride(x, t + s, s)
    ensures !OnStride(t, t + s, s)
  {
    var d := x - t;
    if d >= s {
      DivModUnique(d - s, s, d / s - 1, d % s);
    } else if 0 < d {
      DivModUnique(d, s, 0, d);
    } else if d == 0 {
      DivModUnique(0, s, 0, 0);
    }
  }

  lemma {:induction false} StrideListHas(t: nat, threads: nat, n: nat, x: nat)
    requires threads > 0
    ensures multiset(StrideList(t, threads, n))[x] == if x < n && OnStride(x, t, threads) then 1 else 0
    decreases if t < n then n - t else 0
  {
    if t < n {
      var rest := StrideList(t + threads, threads, n);
      StrideListHas(t + threads, threads, n, x);
      OnStrideStep(x, t, threads);
      assert multiset([t] + rest) == multiset{t} + multiset(rest);
    }
  }

  /** All the work of the first m threads. */
  function Together(m: nat, threads: nat, n: nat): multiset<nat>
    requires threads > 0
  {
    if m == 0 then multiset{} else Together(m - 1, threads, n) + multiset(StrideList(m - 1, threads, n))
  }

  /** How often thread t visits element x. */
  function Multiplicity(t: nat, threads: nat, n: nat, x: nat): nat
    requires threads > 0
  {
    multiset(StrideList(t, threads, n))[x]
  }

  lemma {:induction false} TogetherHas(m: nat, threads: nat, n: nat, x: nat, r: nat)
    requires 0 < threads && m <= threads
    requires forall t: nat :: t < threads ==> Multiplicity(t, threads, n, x) == if x < n && r == t then 1 else 0
    ensures Together(m, threads, n)[x] == if x < n && r < m then 1 else 0
  {
    if m > 0 {
      TogetherHas(m - 1, threads, n, x, r);
      assert Multiplicity(m - 1, threads, n, x) == if x < n && r == m - 1 then 1 else 0;
    }
  }

  lemma SameResidue(x: nat, t: nat, s: nat)
    requires t < s
    ensures OnStride(x, t, s) <==> x % s == t
  {
    if t <= x && (x - t) % s == 0 {
      DivModUnique(x, s, (x - t) / s, t);
    }
    if x % s == t {
      MulMonotone(0, x / s, s);
      DivModUnique(x - t, s, x / s, 0);
    }
  }

  lemma {:induction false} UptoHas(n: nat, x: nat)
    ensures multiset(Upto(n))[x] == if x < n then 1 else 0
  {
    if n > 0 { UptoHas(n - 1, x); }
  }

  /** The grid-stride loops of all threads visit every element exactly once. */
  lemma EachElementOnce(threads: nat, n: nat)
    requires threads > 0
    ensures Together(threads, threads, n) == multiset(Upto(n))
  {
    forall x: nat
      ensures Together(threads, threads, n)[x] == multiset(Upto(n))[x]
    {
      forall t: nat | t < threads
        ensures Multiplicity(t, threads, n, x) == if x < n && x % threads == t then 1 else 0
      {
        SameResidue(x, t, threads);
        StrideListHas(t, threads, n, x);
      }
      TogetherHas(threads, threads, n, x, x % threads);
      UptoHas(n, x);
    }
  }

  // ---------------------------------------------------------------- gather

  /** One thread of the gather kernel. */
  method GatherThread<T>(q: Request, input: seq<T>, output: array<T>, t: nat, threads: nat)
    requires q.Valid() && |input| == Product(q.dims) && output.Length == q.Count() && t < threads
    modifies output
    ensures forall i :: 0 <= i < output.Length ==>
              output[i] == if OnStride(i, t, threads) then Gathered(q, input, i, old(output[i])) else old(output[i])
  {
    var i := t;
    OnStrideStep(t, t, threads);
    while i < output.Length
      invariant t <= i && OnStride(i, t, threads)
      invariant forall x :: 0 <= x < output.Length ==>
                  output[x] == if OnStride(x, t, threads) && x < i then Gathered(q, input, x, old(output[x]))
                               else old(output[x])
    {
      AddressInBounds(q, i);
      var a := AddressOf(q, i);
      output[i] := input[a];
      NextOnStride(i, t, threads);
      i := i + threads;
    }
  }

  /** Element i of the gathered rows; `otherwise` stands in where there is none. */
  function Gathered<T>(q: Request, input: seq<T>, i: nat, otherwise: T): T
    requires q.k <= |q.dims|
  {
    if q.Address(i) < |input| then input[q.Address(i)] else otherwise
  }

  lemma NextOnStride(i: nat, t: nat, s: nat)
    requires t < s && OnStride(i, t, s)
    ensures OnStride(i + s, t, s) && forall x :: i < x < i + s ==> !OnStride(x, t, s)
  {
    var q := (i - t) / s;
    DivModUnique(i + s - t, s, q + 1, 0);
    forall x | i < x < i + s
      ensures !OnStride(x, t, s)
    {
      DivModUnique(x - t, s, q, x - i);
    }
  }

  /** All threads, in any order: every output element is the tensor element it addresses. */
  method GatherNd<T>(q: Request, input: seq<T>, output: array<T>, threads: nat, order: seq<nat>)
    requires q.Valid() && |input| == Product(q.dims) && output.Length == q.Count() && threads > 0
    requires forall n :: 0 <= n < |order| ==> order[n] < threads
    requires forall t: nat :: t < threads ==> t in order
    modifies output
    ensures forall i :: 0 <= i < output.Length ==> q.Address(i) < |input| && output[i] == input[q.Address(i)]
    ensures forall r: nat, o: nat | r < q.rows && o < q.Slice() :: MovedRow(q, input, output[..], r, o)
  {
    AddressesInBounds(q);
    for n := 0 to |order|
      invariant forall i :: 0 <= i < output.Length && VisitedBy(order, n, i, threads) ==>
                  output[i] == input[q.Address(i)]
    {
      GatherThread(q, input, output, order[n], threads);
    }
    forall i | 0 <= i < output.Length
      ensures VisitedBy(order, |order|, i, threads)
    {
      var t: nat := i % threads;
      SameResidue(i, t, threads);
      assert t in order;
      var m :| 0 <= m < |order| && order[m] == t;
      assert OnStride(i, order[m], threads);
    }
    MovesRows(q, input, output[..]);
  }

  /** Place o of row r of the result is place o of the slice that index row r selects. */
  predicate MovedRow<T(==)>(q: Request, input: seq<T>, result: seq<T>, r: nat, o: nat)
    requires q.k <= |q.dims|
  {
    var from, to := RowStart(q.dims, q.k, q.indices, r) + o, r * q.Slice() + o;
    from < |input| && to < |result| && result[to] == input[from]
  }

  lemma MovesRows<T>(q: Request, input: seq<T>, result: seq<T>)
    requires q.Valid() && |input| == Product(q.dims) && |result| == q.Count()
    requires forall i :: 0 <= i < |result| ==> q.Address(i) < |input| && result[i] == input[q.Address(i)]
    ensures forall r: nat, o: nat | r < q.rows && o < q.Slice() :: MovedRow(q, input, result, r, o)
  {
    forall r: nat, o: nat | r < q.rows && o < q.Slice()
      ensures MovedRow(q, input, result, r, o)
    {
      AddressMeaning(q, r, o);
      AddressInBounds(q, r * q.Slice() + o);
    }
  }

  /** Is element i on the stride of one of the first n threads of the order? */
  predicate VisitedBy(order: seq<nat>, n: nat, i: nat, threads: nat)
    requires threads > 0 && n <= |order|
  {
    exists m :: 0 <= m < n && OnStride(i, order[m], threads)
  }

  lemma AddressesInBounds(q: Request)
    requires q.Valid()
    ensures forall i: nat :: i < q.Count() ==> q.Address(i) < Product(q.dims)
  {
    forall i: nat | i < q.Count()
      ensures q.Address(i) < Product(q.dims)
    {
      AddressInBounds(q, i);
    }
  }

  // ---------------------------------------------------------------- sums that ignore order

  function Total(f: nat -> int, s: seq<nat>): int {
    if s == [] then 0 else f(s[0]) + Total(f, s[1..])
  }

  lemma {:induction false} TotalAppend(f: nat -> int, a: seq<nat>, b: seq<nat>)
    ensures Total(f, a + b) == Total(f, a) + Total(f, b)
  {
    if a == [] {
      assert a + b == b;
    } else {
      assert (a + b)[1..] == a[1..] + b;
      TotalAppend(f, a[1..], b);
    }
  }

  function Without(s: seq<nat>, k: nat): seq<nat>
    requires k < |s|
  {
    s[..k] + s[k + 1..]
  }

  /** A sum depends only on how often each element occurs. */
  lemma {:induction false} TotalPermutes(f: nat -> int, a: seq<nat>, b: seq<nat>)
    requires multiset(a) == multiset(b)
    ensures Total(f, a) == Total(f, b)
    decreases |a|
  {
    if a == [] {
      assert |multiset(b)| == 0;
    } else {
      assert a[0] in multiset(b);
      var k :| 0 <= k < |b| && b[k] == a[0];
      RemoveOne(f, a, 0);
      RemoveOne(f, b, k);
      Cancel(multiset(Without(a, 0)), multiset(Without(b, k)), a[0]);
      TotalPermutes(f, Without(a, 0), Without(b, k));
    }
  }

  lemma Cancel(a: multiset<nat>, b: multiset<nat>, x: nat)
    requires a + multiset{x} == b + multiset{x}
    ensures a == b
  {
    assert a + multiset{x} - multiset{x} == a && b + multiset{x} - multiset{x} == b;
  }

  lemma RemoveOne(f: nat -> int, s: seq<nat>, k: nat)
    requires k < |s|
    ensures |Without(s, k)| == |s| - 1
    ensures multiset(s) == multiset(Without(s, k)) + multiset{s[k]}
    ensures Total(f, s) == Total(f, Without(s, k)) + f(s[k])
  {
    Around(s[..k], s[k], s[k + 1..]);
    AroundTotal(f, s[..k], s[k], s[k + 1..]);
    assert s == s[..k] + ([s[k]] + s[k + 1..]);
  }

  lemma Around(a: seq<nat>, x: nat, b: seq<nat>)
    ensures multiset(a + ([x] + b)) == multiset(a + b) + multiset{x}
  {
  }

  lemma AroundTotal(f: nat -> int, a: seq<nat>, x: nat, b: seq<nat>)
    ensures Total(f, a + ([x] + b)) == Total(f, a + b) + f(x)
  {
    TotalAppend(f, a, b);
    TotalAppend(f, a, [x] + b);
    assert ([x] + b)[1..] == b;
  }

  // ---------------------------------------------------------------- scatter

  /** `order` merges the lists of all threads, keeping each list's own order. */
  ghost predicate Interleaves(work: seq<seq<nat>>, order: seq<nat>)
    decreases |order|
  {
    if order == [] then forall t :: 0 <= t < |work| ==> work[t] == []
    else exists t :: 0 <= t < |work| && work[t] != [] && work[t][0] == order[0]
                     && Interleaves(work[t := work[t][1..]], order[1..])
  }

  function Union(work: seq<seq<nat>>): multiset<nat> {
    if work == [] then multiset{} else Union(work[..|work| - 1]) + multiset(work[|work| - 1])
  }

  lemma {:induction false} UnionEmpty(work: seq<seq<nat>>)
    requires forall t :: 0 <= t < |work| ==> work[t] == []
    ensures Union(work) == multiset{}
    decreases |work|
  {
    if work != [] { UnionEmpty(work[..|work| - 1]); }
  }

  lemma {:induction false} UnionTake(work: seq<seq<nat>>, t: nat)
    requires t < |work| && work[t] != []
    ensures Union(work) == Union(work[t := work[t][1..]]) + multiset{work[t][0]}
    decreases |work|
  {
    var n := |work| - 1;
    var less := work[t := work[t][1..]];
    if t < n {
      UnionTake(work[..n], t);
      assert less[..n] == work[..n][t := work[t][1..]];
    } else {
      assert less[..n] == work[..n];
      assert work[t] == [work[t][0]] + work[t][1..];
    }
  }

  /** Every interleaving does all the work of all threads, each piece once. */
  lemma {:induction false} InterleavingDoesAll(work: seq<seq<nat>>, order: seq<nat>)
    requires Interleaves(work, order)
    ensures multiset(order) == Union(work)
    decreases |order|
  {
    if order == [] {
      UnionEmpty(work);
    } else {
      var t :| 0 <= t < |work| && work[t] != [] && work[t][0] == order[0]
               && Interleaves(work[t := work[t][1..]], order[1..]);
      InterleavingDoesAll(work[t := work[t][1..]], order[1..]);
      UnionTake(work, t);
      assert order == [order[0]] + order[1..];
    }
  }

  function Grid(threads: nat, n: nat): (r: seq<seq<nat>>)
    requires threads > 0
    ensures |r| == threads
  {
    seq(threads, t requires t >= 0 => StrideList(t, threads, n))
  }

  lemma {:induction false} UnionIsTogether(work: seq<seq<nat>>, m: nat, threads: nat, n: nat)
    requires threads > 0 && |work| == m && forall t :: 0 <= t < m ==> work[t] == StrideList(t, threads, n)
    ensures Union(work) == Together(m, threads, n)
    decreases m
  {
    if m > 0 { UnionIsTogether(work[..m - 1], m - 1, threads, n); }
  }

  /** What element e adds to place p. */
  function Contribution(q: Request, update: seq<int>, p: nat): nat -> int
    requires q.k <= |q.dims|
  {
    (e: nat) => if e < |update| && q.Address(e) == p then update[e] else 0
  }

  // ---------------------------------------------------------------- row by row

  /** What a slice that begins at `start` adds to place p, its first n updates lying from `base` on. */
  function SliceTotal(update: seq<int>, base: nat, start: nat, p: nat, n: nat): int {
    if n == 0 then 0
    else SliceTotal(update, base, start, p, n - 1)
         + (if start + (n - 1) == p && base + (n - 1) < |update| then update[base + (n - 1)] else 0)
  }

  /** What the first `rows` rows add to place p when the slice of row r begins at start(r). */
  function RowsTotal(update: seq<int>, slice: nat, start: nat -> nat, p: nat, rows: nat): int {
    if rows == 0 then 0
    else RowsTotal(update, slice, start, p, rows - 1)
         + SliceTotal(update, (rows - 1) * slice, start(rows - 1), p, slice)
  }

  /** Element o of a slice, its updates lying from `base` on, contributes to place p what it should. */
  predicate AddsIn(f: nat -> int, update: seq<int>, base: nat, start: nat, p: nat, o: nat) {
    f(base + o) == if start + o == p && base + o < |update| then update[base + o] else 0
  }

  predicate AddsAt(f: nat -> int, update: seq<int>, slice: nat, start: nat -> nat, p: nat, r: nat, o: nat) {
    AddsIn(f, update, r * slice, start(r), p, o)
  }

  lemma {:induction false} TotalOfSlice(f: nat -> int, update: seq<int>, base: nat, start: nat, p: nat, n: nat)
    requires forall o: nat | o < n :: AddsIn(f, update, base, start, p, o)
    ensures Total(f, Upto(base + n)) == Total(f, Upto(base)) + SliceTotal(update, base, start, p, n)
    decreases n
  {
    if n > 0 {
      TotalOfSlice(f, update, base, start, p, n - 1);
      TotalAppend(f, Upto(base + (n - 1)), [base + (n - 1)]);
      assert Total(f, [base + (n - 1)]) == f(base + (n - 1)) + 0;
      assert AddsIn(f, update, base, start, p, n - 1);
    }
  }

  /** A sum over all elements, taken row by row. */
  lemma {:induction false} TotalByRows(f: nat -> int, update: seq<int>, slice: nat, start: nat -> nat,
                                       p: nat, rows: nat, n: nat)
    requires n == rows * slice
    requires forall r: nat, o: nat | r < rows && o < slice :: AddsAt(f, update, slice, start, p, r, o)
    ensures Total(f, Upto(n)) == RowsTotal(update, slice, start, p, rows)
    decreases rows
  {
    if rows > 0 {
      var base, first := (rows - 1) * slice, start(rows - 1);
      assert base + slice == n;
      TotalByRows(f, update, slice, start, p, rows - 1, base);
      forall o: nat | o < slice
        ensures AddsIn(f, update, base, first, p, o)
      {
        assert AddsAt(f, update, slice, start, p, rows - 1, o);
      }
      TotalOfSlice(f, update, base, first, p, slice);
    }
  }

  /** Where the slices begin. */
  function Starts(q: Request): nat -> nat
    requires q.k <= |q.dims|
  {
    (r: nat) => RowStart(q.dims, q.k, q.indices, r)
  }

  lemma ContributionsByRow(q: Request, update: seq<int>, p: nat)
    requires q.Valid() && |update| == q.Count()
    ensures Total(Contribution(q, update, p), Upto(q.Count()))
         == RowsTotal(update, q.Slice(), Starts(q), p, q.rows)
  {
    forall r: nat, o: nat | r < q.rows && o < q.Slice()
      ensures AddsAt(Contribution(q, update, p), update, q.Slice(), Starts(q), p, r, o)
    {
      AddressMeaning(q, r, o);
    }
    TotalByRows(Contribution(q, update, p), update, q.Slice(), Starts(q), p, q.rows, q.Count());
  }

  /** The atomic additions in the order in which the hardware happens to perform them. */
  method AtomicAdds(q: Request, update: seq<int>, output: array<int>, order: seq<nat>)
    requires q.Valid() && |update| == q.Count() && output.Length == Product(q.dims)
    requires forall n :: 0 <= n < |order| ==> order[n] < q.Count()
    modifies output
    ensures forall p :: 0 <= p < output.Length ==>
              output[p] == old(output[p]) + Total(Contribution(q, update, p), order)
  {
    for n := 0 to |order|
      invariant forall p :: 0 <= p < output.Length ==>
                  output[p] == old(output[p]) + Total(Contribution(q, update, p), order[..n])
    {
      var e := order[n];
      AddressInBounds(q, e);
      var a := AddressOf(q, e);
      output[a] := output[a] + update[e];
      forall p | 0 <= p < output.Length
        ensures Total(Contribution(q, update, p), order[..n + 1])
             == Total(Contribution(q, update, p), order[..n]) + (if p == a then update[e] else 0)
      {
        assert order[..n + 1] == order[..n] + [e];
        TotalAppend(Contribution(q, update, p), order[..n], [e]);
        assert Total(Contribution(q, update, p), [e]) == Contribution(q, update, p)(e) + 0;
      }
    }
    assert order[..|order|] == order;
  }

  /** Scatter under any schedule: whatever way the grid-stride loops of the threads interleave,
      each place ends with its initial value plus all updates addressed to it. */
  method ScatterNd(q: Request, update: seq<int>, output: array<int>, threads: nat, schedule: seq<nat>)
    requires q.Valid() && |update| == q.Count() && output.Length == Product(q.dims) && threads > 0
    requires Interleaves(Grid(threads, q.Count()), schedule)
    modifies output
    ensures forall p :: 0 <= p < output.Length ==>
              output[p] == old(output[p]) + RowsTotal(update, q.Slice(), Starts(q), p, q.rows)
  {
    ScheduleIsAll(threads, q.Count(), schedule);
    AtomicAdds(q, update, output, schedule);
    forall p | 0 <= p < output.Length
      ensures Total(Contribution(q, update, p), schedule)
           == RowsTotal(update, q.Slice(), Starts(q), p, q.rows)
    {
      TotalPermutes(Contribution(q, update, p), schedule, Upto(q.Count()));
      ContributionsByRow(q, update, p);
    }
  }

  lemma ScheduleIsAll(threads: nat, n: nat, schedule: seq<nat>)
    requires threads > 0 && Interleaves(Grid(threads, n), schedule)
    ensures multiset(schedule) == multiset(Upto(n))
    ensures forall i :: 0 <= i < |schedule| ==> schedule[i] < n
  {
    InterleavingDoesAll(Grid(threads, n), schedule);
    UnionIsTogether(Grid(threads, n), threads, threads, n);
    EachElementOnce(threads, n);
    forall i | 0 <= i < |schedule|
      ensures schedule[i] < n
    {
      assert schedule[i] in multiset(schedule);
      UptoHas(n, schedule[i]);
    }
  }
}
