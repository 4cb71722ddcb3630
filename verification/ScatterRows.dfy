module ScatterRows {

  /** The row-at-a-time scatter kernel of kaleido/core/device/kernels/scatter_nd.h: a thread takes
      one index row after another, adds its strides up in `unsigned int`, and updates the whole
      slice, one atomic addition for each place. */

  import opened Arith
  import opened Common
  import opened GatherScatter

  // ---------------------------------------------------------------- the work of the threads

  /** The elements of row r, in order. */
  function RowElements(r: nat, slice: nat): seq<nat> {
    seq(slice, o requires o >= 0 => r * slice + o)
  }

  /** The elements of several rows, one row after the other. */
  function RowsElements(rows: seq<nat>, slice: nat): seq<nat> {
    if rows == [] then [] else RowsElements(rows[..|rows| - 1], slice) + RowElements(rows[|rows| - 1], slice)
  }

  lemma {:induction false} UptoPlus(m: nat, k: nat)
    ensures Upto(m + k) == Upto(m) + seq(k, o requires o >= 0 => m + o)
  {
    if k > 0 {
      UptoPlus(m, k - 1);
    }
  }

  lemma LastOfUpto(n: nat)
    requires n > 0
    ensures |Upto(n)| == n && Upto(n)[..n - 1] == Upto(n - 1) && Upto(n)[n - 1] == n - 1
  {
    UptoBounds(n - 1);
  }

  lemma RangeHas(m: nat, k: nat, e: nat)
    ensures multiset(seq(k, o requires o >= 0 => m + o))[e] == if m <= e < m + k then 1 else 0
  {
    UptoPlus(m, k);
    UptoHas(m, e);
    UptoHas(m + k, e);
  }

  lemma RowIsRange(r: nat, slice: nat, m: nat)
    requires m == r * slice
    ensures RowElements(r, slice) == seq(slice, o requires o >= 0 => m + o)
  {
  }

  lemma InRow(r: nat, slice: nat, e: nat, m: nat)
    requires slice > 0 && m == r * slice
    ensures m <= e < m + slice <==> e / slice == r
  {
    if m <= e < m + slice { DivModUnique(e, slice, r, e - m); }
  }

  lemma RowHas(r: nat, slice: nat, e: nat)
    requires slice > 0
    ensures multiset(RowElements(r, slice))[e] == if e / slice == r then 1 else 0
  {
    RowIsRange(r, slice, r * slice);
    RangeHas(r * slice, slice, e);
    InRow(r, slice, e, r * slice);
  }

  /** An element is worked on as often as its row. */
  lemma {:induction false} RowsHave(rows: seq<nat>, slice: nat, e: nat)
    requires slice > 0
    ensures multiset(RowsElements(rows, slice))[e] == multiset(rows)[e / slice]
  {
    if rows != [] {
      var n := |rows| - 1;
      RowsHave(rows[..n], slice, e);
      RowHas(rows[n], slice, e);
      assert rows == rows[..n] + [rows[n]];
    }
  }

  lemma {:induction false} NoElements(rows: seq<nat>)
    ensures RowsElements(rows, 0) == []
  {
    if rows != [] { NoElements(rows[..|rows| - 1]); }
  }

  lemma GridHas(threads: nat, rows: nat, row: nat)
    requires threads > 0
    ensures Union(Grid(threads, rows))[row] == if row < rows then 1 else 0
  {
    UnionIsTogether(Grid(threads, rows), threads, threads, rows);
    EachElementOnce(threads, rows);
    UptoHas(rows, row);
  }

  /** The work of every thread, as lists of rows and as lists of elements. */
  predicate Expands(work: seq<seq<nat>>, elements: seq<seq<nat>>, slice: nat) {
    |work| == |elements| && forall t :: 0 <= t < |work| ==> elements[t] == RowsElements(work[t], slice)
  }

  lemma {:induction false} UnionOfRows(work: seq<seq<nat>>, elements: seq<seq<nat>>, slice: nat, e: nat)
    requires slice > 0 && Expands(work, elements, slice)
    ensures Union(elements)[e] == Union(work)[e / slice]
    decreases |work|
  {
    if work != [] {
      var n := |work| - 1;
      UnionOfRows(work[..n], elements[..n], slice, e);
      RowsHave(work[n], slice, e);
    }
  }

  lemma UnionOfNothing(work: seq<seq<nat>>, elements: seq<seq<nat>>)
    requires Expands(work, elements, 0)
    ensures Union(elements) == multiset{}
  {
    forall t | 0 <= t < |elements|
      ensures elements[t] == []
    {
      NoElements(work[t]);
    }
    UnionEmpty(elements);
  }

  /** Element e, of row `row`, is in the work of the threads once if the row is. */
  lemma WorkOfRow(threads: nat, rows: nat, elements: seq<seq<nat>>, slice: nat, n: nat, e: nat, row: nat)
    requires threads > 0 && slice > 0 && Expands(Grid(threads, rows), elements, slice)
    requires row == e / slice && (row < rows <==> e < n)
    ensures Union(elements)[e] == multiset(Upto(n))[e]
  {
    UptoHas(n, e);
    GridHas(threads, rows, row);
    UnionOfRows(Grid(threads, rows), elements, slice, e);
  }

  lemma WorkHas(threads: nat, rows: nat, elements: seq<seq<nat>>, slice: nat, n: nat, e: nat)
    requires threads > 0 && n == rows * slice && Expands(Grid(threads, rows), elements, slice)
    ensures Union(elements)[e] == multiset(Upto(n))[e]
  {
    if slice == 0 {
      UptoHas(n, e);
      UnionOfNothing(Grid(threads, rows), elements);
    } else {
      BelowProduct(rows, slice, e);
      WorkOfRow(threads, rows, elements, slice, n, e, e / slice);
    }
  }

  /** Whatever way the threads interleave, every element is added exactly once. */
  lemma EachAddedOnce(threads: nat, rows: nat, elements: seq<seq<nat>>, slice: nat, n: nat, schedule: seq<nat>)
    requires threads > 0 && n == rows * slice && Expands(Grid(threads, rows), elements, slice)
    requires Interleaves(elements, schedule)
    ensures multiset(schedule) == multiset(Upto(n))
  {
    InterleavingDoesAll(elements, schedule);
    forall e: nat
      ensures multiset(schedule)[e] == multiset(Upto(n))[e]
    {
      WorkHas(threads, rows, elements, slice, n, e);
    }
  }

  lemma InRange(schedule: seq<nat>, n: nat)
    requires multiset(schedule) == multiset(Upto(n))
    ensures forall i :: 0 <= i < |schedule| ==> schedule[i] < n
  {
    forall i | 0 <= i < |schedule|
      ensures schedule[i] < n
    {
      assert schedule[i] in multiset(schedule);
      UptoHas(n, schedule[i]);
    }
  }

  lemma BelowProduct(rows: nat, slice: nat, e: nat)
    requires slice > 0
    ensures e < rows * slice <==> e / slice < rows
  {
    if e / slice < rows { SliceFits(e / slice, rows, slice); } else { MulMonotone(rows, e / slice, slice); }
  }

  // ---------------------------------------------------------------- where the kernel writes

  /** Exact offset of the slice that row r addresses. */
  function RowOffset(q: Request, r: nat): nat
    requires q.Valid() && r < q.rows
  {
    assert Within(q.dims[..q.k], q.Row(r));
    Position(q.dims[..q.k], q.Row(r)) * q.Slice()
  }

  /** Where the kernel adds element e: the offset has wrapped around in `unsigned int`, the place
      within the slice is then added to a 64-bit pointer. */
  function RowAddress(q: Request, e: nat): nat
    requires q.Valid()
  {
    if q.Slice() > 0 && e / q.Slice() < q.rows then RowOffset(q, e / q.Slice()) % UINT + e % q.Slice() else 0
  }

  lemma PlaceInRow(q: Request, row: nat, o: nat)
    requires q.Valid() && row < q.rows && o < q.Slice()
    ensures row * q.Slice() + o < q.Count()
    ensures (row * q.Slice() + o) / q.Slice() == row && (row * q.Slice() + o) % q.Slice() == o
  {
    SliceFits(row, q.rows, q.Slice());
    DivModUnique(row * q.Slice() + o, q.Slice(), row, o);
  }

  /** The wrapped offset, too, leaves room for the slice, so nothing is written outside the
      tensor; it is right exactly when it has not wrapped. */
  lemma RowAddressInBounds(q: Request, e: nat)
    requires q.Valid() && e < q.Count()
    ensures q.Slice() > 0 && e / q.Slice() < q.rows && RowAddress(q, e) < Product(q.dims)
    ensures RowAddress(q, e) == RowOffset(q, e / q.Slice()) % UINT + e % q.Slice()
    ensures q.Address(e) == RowOffset(q, e / q.Slice()) + e % q.Slice()
    ensures RowAddress(q, e) == q.Address(e) <==> RowOffset(q, e / q.Slice()) < UINT
  {
    RowOfElement(q, e);
    SliceInBounds(q.dims, q.Row(e / q.Slice()), q.k);
    WrapIsBelow(RowOffset(q, e / q.Slice()));
  }

  /** Element o of row r is added at place o after the row's offset as `unsigned int` has it. */
  lemma RowAddressMeaning(q: Request, r: nat, o: nat)
    requires q.Valid() && r < q.rows && o < Product(q.dims[q.k..])
    ensures r * q.k + q.k <= |q.indices|
    ensures RowAddress(q, r * Product(q.dims[q.k..]) + o)
         == (Position(q.dims[..q.k], q.indices[r * q.k..r * q.k + q.k]) * Product(q.dims[q.k..])) % 4294967296 + o
    ensures RowAddress(q, r * q.Slice() + o) == WrappedStarts(q)(r) + o
  {
    AddressMeaning(q, r, o);
    PlaceInRow(q, r, o);
    assert q.Row(r) == q.indices[r * q.k..r * q.k + q.k];
  }

  /** Where the slices begin in `unsigned int`. */
  function WrappedStarts(q: Request): nat -> nat
    requires q.k <= |q.dims|
  {
    (r: nat) => RowStart(q.dims, q.k, q.indices, r) % UINT
  }

  lemma WrapIsBelow(x: nat)
    ensures x % UINT <= x && (x % UINT == x <==> x < UINT)
  {
  }

  lemma StrideSumIsOffset(q: Request, r: nat)
    requires q.Valid() && r < q.rows
    ensures r * q.k + q.k <= |q.indices| && |q.Row(r)| == q.k
    ensures StrideSum(q.dims, q.Row(r), q.k) == RowOffset(q, r)
  {
    SliceFits(r, q.rows, q.k);
    assert Within(q.dims[..q.k], q.Row(r));
    OffsetsAgree(q.dims, q.Row(r), q.k);
    assert q.Row(r)[..q.k] == q.Row(r);
  }

  // ---------------------------------------------------------------- the kernel

  /** The strides of the request's tensor are in place. */
  predicate StridesReady(q: Request, strides: array<nat>)
    reads strides
  {
    strides.Length == |q.dims| && forall i :: 0 <= i < |q.dims| ==> strides[i] == Product(q.dims[i + 1..]) % UINT
  }

  /** What element e adds to place p. */
  function RowContribution(q: Request, update: seq<int>, p: nat): nat -> int
    requires q.Valid()
  {
    (e: nat) => if e < |update| && RowAddress(q, e) == p then update[e] else 0
  }

  lemma WrappedByRow(q: Request, update: seq<int>, p: nat)
    requires q.Valid() && |update| == q.Count()
    ensures Total(RowContribution(q, update, p), Upto(q.Count()))
         == RowsTotal(update, q.Slice(), WrappedStarts(q), p, q.rows)
  {
    forall r: nat, o: nat | r < q.rows && o < q.Slice()
      ensures AddsAt(RowContribution(q, update, p), update, q.Slice(), WrappedStarts(q), p, r, o)
    {
      RowAddressMeaning(q, r, o);
    }
    TotalByRows(RowContribution(q, update, p), update, q.Slice(), WrappedStarts(q), p, q.rows, q.Count());
  }

  /** A row's offset as the thread computes it. */
  method WrappedOffset(q: Request, strides: array<nat>, row: nat) returns (offset: nat)
    requires q.Valid() && row < q.rows && StridesReady(q, strides)
    ensures offset == RowOffset(q, row) % UINT
  {
    StrideSumIsOffset(q, row);
    offset := StrideOffset(q.dims, strides, q.indices, row, q.k);
  }

  /** Place o of a row's slice is added at address offset + o. */
  predicate AddressedAt(q: Request, row: nat, offset: nat, o: nat)
    requires q.Valid()
  {
    row * q.Slice() + o < q.Count() && RowAddress(q, row * q.Slice() + o) == offset + o
  }

  /** One row: the offset, then one addition for every place of the slice. */
  method ScatterRow(q: Request, strides: array<nat>, update: seq<int>, output: array<int>, row: nat)
    requires q.Valid() && |update| == q.Count() && output.Length == Product(q.dims) && row < q.rows
    requires StridesReady(q, strides)
    modifies output
    ensures forall p :: 0 <= p < output.Length ==>
              output[p] == old(output[p]) + Total(RowContribution(q, update, p), RowElements(row, q.Slice()))
  {
    var offset := WrappedOffset(q, strides, row);
    forall o: nat | o < q.Slice()
      ensures AddressedAt(q, row, offset, o)
    {
      PlaceInRow(q, row, o);
    }
    AddSlice(q, update, output, row, offset);
  }

  /** The inner loop: one addition for every place of the slice. */
  method AddSlice(q: Request, update: seq<int>, output: array<int>, row: nat, offset: nat)
    requires q.Valid() && |update| == q.Count() && output.Length == Product(q.dims)
    requires forall o: nat :: o < q.Slice() ==> AddressedAt(q, row, offset, o)
    modifies output
    ensures forall p :: 0 <= p < output.Length ==>
              output[p] == old(output[p]) + Total(RowContribution(q, update, p), RowElements(row, q.Slice()))
  {
    var slice := q.Slice();
    ghost var elements := RowElements(row, slice);
    for o := 0 to slice
      invariant forall p :: 0 <= p < output.Length ==>
                  output[p] == old(output[p]) + Total(RowContribution(q, update, p), elements[..o])
    {
      assert AddressedAt(q, row, offset, o);
      AddOne(q, update, output, elements, o, offset + o, row * slice + o);
    }
    assert elements[..slice] == elements;
  }

  /** One atomic addition: element e, number o of `elements`, at address a. */
  method AddOne(q: Request, update: seq<int>, output: array<int>, ghost elements: seq<nat>, ghost o: nat, a: nat,
                e: nat)
    requires q.Valid() && |update| == q.Count() && output.Length == Product(q.dims)
    requires o < |elements| && e == elements[o] < |update| && a == RowAddress(q, e)
    modifies output
    ensures forall p :: 0 <= p < output.Length ==>
              output[p] - Total(RowContribution(q, update, p), elements[..o + 1])
              == old(output[p]) - Total(RowContribution(q, update, p), elements[..o])
  {
    RowAddressInBounds(q, e);
    output[a] := output[a] + update[e];
    forall p | 0 <= p < output.Length
      ensures Total(RowContribution(q, update, p), elements[..o + 1])
           == Total(RowContribution(q, update, p), elements[..o]) + (if p == a then update[e] else 0)
    {
      OneMore(RowContribution(q, update, p), elements, o);
    }
  }

  lemma OneMore(f: nat -> int, elements: seq<nat>, o: nat)
    requires o < |elements|
    ensures Total(f, elements[..o + 1]) == Total(f, elements[..o]) + f(elements[o])
  {
    assert elements[..o + 1] == elements[..o] + [elements[o]];
    TotalAppend(f, elements[..o], [elements[o]]);
    assert Total(f, [elements[o]]) == f(elements[o]) + 0;
  }

  /** The addition of element e by the thread that works on its row. */
  method AddElement(q: Request, strides: array<nat>, update: seq<int>, output: array<int>,
                    ghost elements: seq<nat>, ghost o: nat, e: nat)
    requires q.Valid() && |update| == q.Count() && output.Length == Product(q.dims)
    requires StridesReady(q, strides) && o < |elements| && e == elements[o] < q.Count()
    modifies output
    ensures forall p :: 0 <= p < output.Length ==>
              output[p] - Total(RowContribution(q, update, p), elements[..o + 1])
              == old(output[p]) - Total(RowContribution(q, update, p), elements[..o])
  {
    var a := RowAddressOf(q, strides, e);
    AddOne(q, update, output, elements, o, a, e);
  }

  method RowAddressOf(q: Request, strides: array<nat>, e: nat) returns (a: nat)
    requires q.Valid() && StridesReady(q, strides) && e < q.Count()
    ensures a == RowAddress(q, e)
  {
    RowAddressInBounds(q, e);
    a := PlaceFrom(q, strides, e / q.Slice(), e % q.Slice());
  }

  /** The place o of a row's slice, counted from the row's offset. */
  method PlaceFrom(q: Request, strides: array<nat>, row: nat, o: nat) returns (a: nat)
    requires q.Valid() && StridesReady(q, strides) && row < q.rows
    ensures a == RowOffset(q, row) % UINT + o
  {
    var offset := WrappedOffset(q, strides, row);
    a := offset + o;
  }

  /** The atomic additions in the order in which the hardware happens to perform them. */
  method RowAdds(q: Request, strides: array<nat>, update: seq<int>, output: array<int>, schedule: seq<nat>)
    requires q.Valid() && |update| == q.Count() && output.Length == Product(q.dims)
    requires StridesReady(q, strides)
    requires forall n :: 0 <= n < |schedule| ==> schedule[n] < q.Count()
    modifies output
    ensures forall p :: 0 <= p < output.Length ==>
              output[p] == old(output[p]) + Total(RowContribution(q, update, p), schedule)
  {
    for n := 0 to |schedule|
      invariant StridesReady(q, strides)
      invariant forall p :: 0 <= p < output.Length ==>
                  output[p] == old(output[p]) + Total(RowContribution(q, update, p), schedule[..n])
    {
      AddElement(q, strides, update, output, schedule, n, schedule[n]);
    }
    assert schedule[..|schedule|] == schedule;
  }

  /** The whole kernel under any schedule: the additions of different threads interleave one by
      one, `work` listing those of each thread, which has the offset of its row.  Each place ends with its
      initial value plus everything added there, and if no offset has wrapped around this is what
      the element-wise kernel leaves. */
  method ScatterNdRows(q: Request, update: seq<int>, output: array<int>, threads: nat,
                       ghost work: seq<seq<nat>>, schedule: seq<nat>)
    requires q.Valid() && |update| == q.Count() && output.Length == Product(q.dims) && q.dims != [] && threads > 0
    requires Expands(Grid(threads, q.rows), work, q.Slice()) && Interleaves(work, schedule)
    modifies output
    ensures forall p :: 0 <= p < output.Length ==>
              output[p] == old(output[p]) + RowsTotal(update, q.Slice(), WrappedStarts(q), p, q.rows)
    ensures OffsetsFit(q) ==> forall p :: 0 <= p < output.Length ==>
              output[p] == old(output[p]) + RowsTotal(update, q.Slice(), Starts(q), p, q.rows)
  {
    var strides := Strides(q.dims);
    EachAddedOnce(threads, q.rows, work, q.Slice(), q.Count(), schedule);
    InRange(schedule, q.Count());
    RowAdds(q, strides, update, output, schedule);
    forall p | 0 <= p < output.Length
      ensures Total(RowContribution(q, update, p), schedule)
           == RowsTotal(update, q.Slice(), WrappedStarts(q), p, q.rows)
      ensures OffsetsFit(q) ==>
                Total(RowContribution(q, update, p), schedule)
                == RowsTotal(update, q.Slice(), Starts(q), p, q.rows)
    {
      TotalPermutes(RowContribution(q, update, p), schedule, Upto(q.Count()));
      WrappedByRow(q, update, p);
      ContributionsByRow(q, update, p);
      if OffsetsFit(q) { FittingIsExact(q, update, p); }
    }
  }

  // ---------------------------------------------------------------- when it is the right result

  /** No slice that is used begins at 2^32 or beyond. */
  predicate OffsetsFit(q: Request)
    requires q.Valid()
  {
    forall r :: 0 <= r < q.rows && q.Slice() > 0 ==> RowOffset(q, r) < UINT
  }

  lemma {:induction false} TotalCongruent(f: nat -> int, g: nat -> int, s: seq<nat>)
    requires forall i :: 0 <= i < |s| ==> f(s[i]) == g(s[i])
    ensures Total(f, s) == Total(g, s)
  {
    if s != [] { TotalCongruent(f, g, s[1..]); }
  }

  lemma {:induction false} TotalSingle(f: nat -> int, e: nat, n: nat)
    requires forall i: nat :: i != e ==> f(i) == 0
    ensures Total(f, Upto(n)) == if e < n then f(e) else 0
  {
    if n > 0 {
      TotalSingle(f, e, n - 1);
      TotalAppend(f, Upto(n - 1), [n - 1]);
      assert Total(f, [n - 1]) == f(n - 1) + 0;
    }
  }

  /** Both kernels add the same to place p. */
  ghost predicate SameAt(q: Request, update: seq<int>, p: nat)
    requires q.Valid()
  {
    Total(RowContribution(q, update, p), Upto(q.Count()))
    == Total(Contribution(q, update, p), Upto(q.Count()))
  }

  lemma FittingElement(q: Request, update: seq<int>, p: nat, e: nat)
    requires q.Valid() && |update| == q.Count() && OffsetsFit(q) && e < q.Count()
    ensures RowContribution(q, update, p)(e) == Contribution(q, update, p)(e)
  {
    FittingAddress(q, e);
  }

  lemma FittingAddress(q: Request, e: nat)
    requires q.Valid() && OffsetsFit(q) && e < q.Count()
    ensures RowAddress(q, e) == q.Address(e)
  {
    RowAddressInBounds(q, e);
  }

  lemma {:induction false} UptoBounds(n: nat)
    ensures |Upto(n)| == n && forall i :: 0 <= i < n ==> Upto(n)[i] == i
  {
    if n > 0 { UptoBounds(n - 1); }
  }

  lemma FittingIsExact(q: Request, update: seq<int>, p: nat)
    requires q.Valid() && |update| == q.Count() && OffsetsFit(q)
    ensures SameAt(q, update, p)
  {
    var all := Upto(q.Count());
    UptoBounds(q.Count());
    forall i | 0 <= i < |all|
      ensures RowContribution(q, update, p)(all[i]) == Contribution(q, update, p)(all[i])
    {
      FittingElement(q, update, p, all[i]);
    }
    TotalCongruent(RowContribution(q, update, p), Contribution(q, update, p), all);
  }

  ghost predicate SameEffect(q: Request, update: seq<int>)
    requires q.Valid()
  {
    forall p: nat :: SameAt(q, update, p)
  }

  /** The two scatter kernels agree on all updates if and only if no offset reaches 2^32. */
  lemma ScattersAgreeIffOffsetsFit(q: Request)
    requires q.Valid()
    ensures (forall update | |update| == q.Count() :: SameEffect(q, update)) <==> OffsetsFit(q)
  {
    if OffsetsFit(q) {
      forall update | |update| == q.Count()
        ensures SameEffect(q, update)
      {
        forall p: nat
          ensures SameAt(q, update, p)
        {
          FittingIsExact(q, update, p);
        }
      }
    } else {
      var r :| 0 <= r < q.rows && q.Slice() > 0 && RowOffset(q, r) >= UINT;
      var update := WrappedUpdate(q, r);
    }
  }

  /** A single update to a slice beyond 2^32 goes astray. */
  lemma WrappedUpdate(q: Request, r: nat) returns (update: seq<int>)
    requires q.Valid() && r < q.rows && q.Slice() > 0 && RowOffset(q, r) >= UINT
    ensures |update| == q.Count() && !SameEffect(q, update)
  {
    PlaceInRow(q, r, 0);
    var e, n := r * q.Slice(), q.Count();
    update := seq(n, i => if i == e then 1 else 0);
    RowAddressInBounds(q, e);
    var p := q.Address(e);
    TotalSingle(RowContribution(q, update, p), e, n);
    TotalSingle(Contribution(q, update, p), e, n);
    assert !SameAt(q, update, p);
  }

  // ---------------------------------------------------------------- conservation

  function SumTo(f: nat -> int, n: nat): int {
    if n == 0 then 0 else SumTo(f, n - 1) + f(n - 1)
  }

  lemma {:induction false} SumOfSingle(a: nat, v: int, n: nat)
    ensures SumTo((p: nat) => if a == p then v else 0, n) == if a < n then v else 0
  {
    if n > 0 { SumOfSingle(a, v, n - 1); }
  }

  lemma {:induction false} SumAdds(f: nat -> int, g: nat -> int, h: nat -> int, n: nat)
    requires forall p: nat :: p < n ==> h(p) == f(p) + g(p)
    ensures SumTo(h, n) == SumTo(f, n) + SumTo(g, n)
  {
    if n > 0 { SumAdds(f, g, h, n - 1); }
  }

  lemma OneMoreUpto(q: Request, update: seq<int>, p: nat, m: nat)
    requires q.Valid() && 0 < m <= |update|
    ensures Total(Contribution(q, update, p), Upto(m))
         == Total(Contribution(q, update, p), Upto(m - 1)) + (if q.Address(m - 1) == p then update[m - 1] else 0)
  {
    LastOfUpto(m);
    OneMore(Contribution(q, update, p), Upto(m), m - 1);
    assert Upto(m)[..m] == Upto(m);
  }

  /** Nothing is lost: over all places, the additions sum to the sum of the updates. */
  lemma {:induction false} Conservation(q: Request, update: seq<int>, m: nat)
    requires q.Valid() && |update| == q.Count() && m <= q.Count()
    ensures SumTo((p: nat) => Total(Contribution(q, update, p), Upto(m)), Product(q.dims))
         == SumTo((e: nat) => if e < |update| then update[e] else 0, m)
  {
    var n := Product(q.dims);
    if m == 0 {
      SumZero((p: nat) => Total(Contribution(q, update, p), Upto(0)), n);
    } else {
      Conservation(q, update, m - 1);
      AddressInBounds(q, m - 1);
      var a := q.Address(m - 1);
      SumOfSingle(a, update[m - 1], n);
      forall p: nat
        ensures Total(Contribution(q, update, p), Upto(m))
             == Total(Contribution(q, update, p), Upto(m - 1)) + (if a == p then update[m - 1] else 0)
      {
        OneMoreUpto(q, update, p, m);
      }
      SumAdds((p: nat) => Total(Contribution(q, update, p), Upto(m - 1)),
              (p: nat) => if a == p then update[m - 1] else 0,
              (p: nat) => Total(Contribution(q, update, p), Upto(m)), n);
    }
  }

  lemma {:induction false} SumZero(f: nat -> int, n: nat)
    requires forall p: nat :: f(p) == 0
    ensures SumTo(f, n) == 0
  {
    if n > 0 { SumZero(f, n - 1); }
  }
}
