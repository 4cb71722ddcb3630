module DilatedRnn {

  /** Dilated RNN layers computed by re-batching: pad the sequence, split it into chunks of
      `rate` steps, flatten each chunk into one wide batch row, run an ordinary LSTM over the
      chunks, and undo the layout change.

      A layer is a row-independent recurrence with a fixed initial state; its step function
      is left arbitrary. */

  import opened Arith
  import opened Common

  /** nn.LSTM for one batch row: state update, visible output and initial state. */
  datatype Cell<!S, !X> = Cell(step: (S, X) -> S, emit: S -> X, init: S)

  /** A time-major sequence: xs[t][b] is the vector of batch row b at step t. */
  type Steps<X> = seq<seq<X>>

  predicate Uniform<X>(xs: Steps<X>, width: nat) {
    forall t | 0 <= t < |xs| :: |xs[t]| == width
  }

  /** The states of all batch rows after step t. */
  function Hidden<S, X>(cell: Cell<S, X>, xs: Steps<X>, t: nat): (hs: seq<S>)
    requires t < |xs| && Uniform(xs, |xs[t]|)
    ensures |hs| == |xs[t]|
  {
    var prev := if t == 0 then seq(|xs[t]|, b => cell.init) else Hidden(cell, xs, t - 1);
    seq(|xs[t]|, b requires 0 <= b < |xs[t]| => cell.step(prev[b], xs[t][b]))
  }

  function Lstm<S, X>(cell: Cell<S, X>, xs: Steps<X>, width: nat): (ys: Steps<X>)
    requires Uniform(xs, width)
    ensures |ys| == |xs| && Uniform(ys, width)
  {
    seq(|xs|, t requires 0 <= t < |xs| =>
      seq(width, b requires 0 <= b < width => cell.emit(Hidden(cell, xs, t)[b])))
  }

  // ---------------------------------------------------------------- layout changes

  /** Tensor.split along dimension 0: the last chunk may be shorter. */
  function Split<X>(xs: seq<X>, size: nat): (cs: seq<seq<X>>)
    requires size > 0
    ensures |cs| >= 1
  {
    if |xs| <= size then [xs] else [xs[..size]] + Split(xs[size..], size)
  }

  /** Concatenation, for flatten(start_dim=0, end_dim=1) and for un-nesting lists. */
  function Concat<X>(cs: seq<seq<X>>): seq<X> {
    if cs == [] then [] else cs[0] + Concat(cs[1..])
  }

  /** torch.stack fails unless all parts have one size. */
  function Stack<X>(xs: Steps<X>): Option<Steps<X>> {
    if xs != [] && Uniform(xs, |xs[0]|) then Some(xs) else None
  }

  /** One layer at the given rate, on a sequence used as it is. */
  function Layer<S, X>(cell: Cell<S, X>, xs: Steps<X>, rate: nat, batch: nat): Option<Steps<X>>
    requires rate > 0 && batch > 0
  {
    match Stack(Map(c => Concat(c), Split(xs, rate)))
    case None => None
    case Some(dilated) => Some(Concat(Map(y => Split(y, batch), Lstm(cell, dilated, |dilated[0]|))))
  }

  function Padding(len: nat, rate: nat): nat
    requires rate > 0
  {
    (rate - len % rate) % rate
  }

  function Pad<X>(xs: Steps<X>, rate: nat, batch: nat, zero: X): Steps<X>
    requires rate > 0
  {
    xs + seq(Padding(|xs|, rate), i => seq(batch, b => zero))
  }

  /** StackedDRNN._forward: pad to a multiple of the rate, run the layer, drop the padding. */
  function ForwardOne<S, X>(cell: Cell<S, X>, xs: Steps<X>, rate: nat, batch: nat, zero: X): Option<Steps<X>>
    requires rate > 0 && batch > 0
  {
    match Layer(cell, Pad(xs, rate, batch, zero), rate, batch)
    case None => None
    case Some(ys) => Some(if |xs| <= |ys| then ys[..|xs|] else ys)
  }

  predicate Rates(dilation: seq<nat>) { forall i | 0 <= i < |dilation| :: dilation[i] > 0 }

  /** StackedDRNN.forward: every layer pads for itself. */
  function Forward<S, X>(cells: seq<Cell<S, X>>, dilation: seq<nat>, xs: Steps<X>, batch: nat,
                         zero: X): Option<Steps<X>>
    requires |cells| == |dilation| && Rates(dilation) && batch > 0
  {
    if cells == [] then Some(xs)
    else match ForwardOne(cells[0], xs, dilation[0], batch, zero)
      case None => None
      case Some(ys) => Forward(cells[1..], dilation[1..], ys, batch, zero)
  }

  /** The layers above the first in StackedDRNNJIT.forward: no padding, no truncation. */
  function Upper<S, X>(cells: seq<Cell<S, X>>, dilation: seq<nat>, xs: Steps<X>, batch: nat): Option<Steps<X>>
    requires |cells| == |dilation| && Rates(dilation) && batch > 0
  {
    if cells == [] then Some(xs)
    else match Layer(cells[0], xs, dilation[0], batch)
      case None => None
      case Some(ys) => Upper(cells[1..], dilation[1..], ys, batch)
  }

  /** StackedDRNNJIT.forward: pad once, for the last rate; the first layer is not dilated. */
  function ForwardJit<S, X>(cells: seq<Cell<S, X>>, dilation: seq<nat>, xs: Steps<X>, batch: nat,
                            zero: X): Option<Steps<X>>
    requires |cells| == |dilation| >= 1 && Rates(dilation) && batch > 0 && Uniform(xs, batch)
  {
    var padded := Pad(xs, dilation[|dilation| - 1], batch, zero);
    Upper(cells[1..], dilation[1..], Lstm(cells[0], padded, batch), batch)
  }

  // ---------------------------------------------------------------- what a layer means

  /** The inputs of row b at steps t mod r, t mod r + r, ..., t. */
  function Strided<X>(xs: Steps<X>, t: nat, r: nat, b: nat): seq<X>
    requires r > 0 && t < |xs|
    requires forall u | 0 <= u < |xs| :: b < |xs[u]|
  {
    if t < r then [xs[t][b]] else Strided(xs, t - r, r, b) + [xs[t][b]]
  }

  /** The state of the cell after running over a sequence of inputs. */
  function Run<S, X>(cell: Cell<S, X>, xs: seq<X>): S {
    if xs == [] then cell.init else cell.step(Run(cell, xs[..|xs| - 1]), xs[|xs| - 1])
  }

  /** ys is the rate-r dilated recurrence over xs. */
  ghost predicate IsDilated<S, X>(cell: Cell<S, X>, xs: Steps<X>, r: nat, batch: nat, ys: Steps<X>)
    requires r > 0 && Uniform(xs, batch)
  {
    && |ys| == |xs| && Uniform(ys, batch)
    && forall t, b | 0 <= t < |xs| && 0 <= b < batch :: ys[t][b] == cell.emit(Run(cell, Strided(xs, t, r, b)))
  }

  // ---------------------------------------------------------------- index lemmas

  lemma StepBack(t: nat, r: nat)
    requires 0 < r <= t
    ensures (t - r) / r == t / r - 1 && (t - r) % r == t % r && t / r >= 1
  {
    var q, m := t / r, t % r;
    assert t - r == (q - 1) * r + m;
    DivModUnique(t - r, r, q - 1, m);
    DivModUnique(t, r, q, m);
    if q < 1 { MulMonotone(q, 0, r); }
  }

  lemma Small(t: nat, r: nat)
    requires t < r
    ensures t / r == 0 && t % r == t
  {
    DivModUnique(t, r, 0, t);
  }

  /** Step t of a split sequence is entry t mod r of chunk t / r. */
  lemma {:induction false} SplitAt<X>(xs: seq<X>, r: nat, t: nat)
    requires r > 0 && t < |xs|
    ensures var cs := Split(xs, r); t / r < |cs| && t % r < |cs[t / r]| && cs[t / r][t % r] == xs[t]
    decreases |xs|
  {
    if t < r {
      Small(t, r);
    } else {
      StepBack(t, r);
      SplitAt(xs[r..], r, t - r);
    }
  }

  /** Entry b of row i of a flattened chunk of rows of width n. */
  lemma {:induction false} ConcatAt<X>(cs: seq<seq<X>>, n: nat, i: nat, b: nat)
    requires Uniform(cs, n) && i < |cs| && b < n
    ensures 0 <= i * n + b < |Concat(cs)| && Concat(cs)[i * n + b] == cs[i][b]
    decreases |cs|
  {
    ConcatLength(cs, n);
    if i > 0 {
      assert i * n + b == (i - 1) * n + b + n;
      ConcatAt(cs[1..], n, i - 1, b);
    }
  }

  lemma {:induction false} ConcatLength<X>(cs: seq<seq<X>>, n: nat)
    requires Uniform(cs, n)
    ensures |Concat(cs)| == |cs| * n
    decreases |cs|
  {
    if cs != [] {
      ConcatLength(cs[1..], n);
      assert |cs| * n == (|cs| - 1) * n + n;
    }
  }

  // ---------------------------------------------------------------- one layer

  /** Splitting a multiple of the chunk size gives chunks of exactly that size. */
  lemma {:induction false} SplitEven<X>(xs: seq<X>, r: nat, m: nat)
    requires r > 0 && m >= 1 && |xs| == m * r
    ensures |Split(xs, r)| == m && Uniform(Split(xs, r), r)
    decreases m
  {
    if m > 1 {
      assert m * r == (m - 1) * r + r;
      MulMonotone(1, m - 1, r);
      SplitEven(xs[r..], r, m - 1);
    }
  }

  /** Otherwise the first chunk is full and the last one is not. */
  lemma {:induction false} SplitUneven<X>(xs: seq<X>, r: nat)
    requires r > 0 && |xs| % r != 0
    ensures var cs := Split(xs, r); |cs[|cs| - 1]| == |xs| % r && (|xs| > r ==> |cs[0]| == r)
    decreases |xs|
  {
    if |xs| > r {
      StepBack(|xs|, r);
      SplitUneven(xs[r..], r);
    } else {
      if |xs| == r { DivModUnique(|xs|, r, 1, 0); } else { Small(|xs|, r); }
    }
  }

  lemma MulCancel(a: nat, b: nat, n: nat)
    requires n > 0 && a * n == b * n
    ensures a == b
  {
    DivModUnique(a * n, n, a, 0);
    DivModUnique(b * n, n, b, 0);
  }

  /** Does a sequence of this length re-batch at rate r without padding? */
  predicate Fits(len: nat, r: nat)
    requires r > 0
  {
    len <= r || len % r == 0
  }

  function Dilate<X>(xs: Steps<X>, r: nat): Steps<X>
    requires r > 0
  {
    Map(c => Concat(c), Split(xs, r))
  }

  lemma ChunkUniform<X>(xs: Steps<X>, r: nat, batch: nat)
    requires r > 0 && Uniform(xs, batch)
    ensures forall k | 0 <= k < |Split(xs, r)| :: Uniform(Split(xs, r)[k], batch)
    decreases |xs|
  {
    if |xs| > r { ChunkUniform(xs[r..], r, batch); }
  }

  lemma DilateEven<X>(xs: Steps<X>, r: nat, batch: nat, m: nat)
    requires r > 0 && batch > 0 && m >= 1 && |xs| == m * r && Uniform(xs, batch)
    ensures |Dilate(xs, r)| == m && Uniform(Dilate(xs, r), r * batch)
  {
    SplitEven(xs, r, m);
    ChunkUniform(xs, r, batch);
    forall k | 0 <= k < m
      ensures |Dilate(xs, r)[k]| == r * batch
    {
      ConcatLength(Split(xs, r)[k], batch);
    }
  }

  /** Step k of the re-batched input holds steps k*r, ..., k*r + r - 1 side by side. */
  lemma DilateAt<X>(xs: Steps<X>, r: nat, batch: nat, m: nat, t: nat, b: nat)
    requires r > 0 && batch > 0 && m >= 1 && |xs| == m * r && Uniform(xs, batch) && t < |xs| && b < batch
    ensures var d := Dilate(xs, r);
      t / r < |d| && 0 <= t % r * batch + b < |d[t / r]| && d[t / r][t % r * batch + b] == xs[t][b]
  {
    SplitAt(xs, r, t);
    ChunkUniform(xs, r, batch);
    ConcatAt(Split(xs, r)[t / r], batch, t % r, b);
  }

  /** Column j of steps 0 .. k of d holds row b of steps ..., t - 2r, t - r, t of xs. */
  predicate Column<X(==)>(d: Steps<X>, k: nat, j: nat, xs: Steps<X>, t: nat, r: nat, b: nat) {
    && k < |d| && j < |d[k]| && t < |xs| && b < |xs[t]| && d[k][j] == xs[t][b]
    && if k == 0 then t < r else r <= t && Column(d, k - 1, j, xs, t - r, r, b)
  }

  lemma {:induction false} DilateColumn<X>(xs: Steps<X>, r: nat, batch: nat, m: nat, t: nat, b: nat, k: nat, j: nat)
    requires r > 0 && batch > 0 && m >= 1 && |xs| == m * r && Uniform(xs, batch) && t < |xs| && b < batch
    requires k == t / r && j == t % r * batch + b
    ensures Column(Dilate(xs, r), k, j, xs, t, r, b)
    decreases t
  {
    DilateAt(xs, r, batch, m, t, b);
    if t < r {
      Small(t, r);
    } else {
      StepBack(t, r);
      DilateColumn(xs, r, batch, m, t - r, b, k - 1, j);
    }
  }

  /** A hidden state depends on its own column only. */
  lemma {:induction false} HiddenOfColumn<S, X>(cell: Cell<S, X>, d: Steps<X>, width: nat, k: nat, j: nat,
                                                xs: Steps<X>, t: nat, r: nat, b: nat)
    requires r > 0 && Uniform(d, width) && j < width && Column(d, k, j, xs, t, r, b)
    requires forall u | 0 <= u < |xs| :: b < |xs[u]|
    ensures Hidden(cell, d, k)[j] == Run(cell, Strided(xs, t, r, b))
    decreases k
  {
    var s := Strided(xs, t, r, b);
    if k == 0 {
      assert s[..|s| - 1] == [];
    } else {
      HiddenOfColumn(cell, d, width, k - 1, j, xs, t - r, r, b);
      assert s[..|s| - 1] == Strided(xs, t - r, r, b);
    }
  }

  /** Step t, row b is computed at step k, column j of the re-batched layer. */
  lemma HiddenIsStrided<S, X>(cell: Cell<S, X>, xs: Steps<X>, r: nat, batch: nat, m: nat, t: nat, b: nat)
    returns (k: nat, j: nat)
    requires r > 0 && batch > 0 && m >= 1 && |xs| == m * r && Uniform(xs, batch) && t < |xs| && b < batch
    ensures k == t / r && j == t % r * batch + b && j < r * batch && k < |Dilate(xs, r)| == m
    ensures Uniform(Dilate(xs, r), r * batch) && Hidden(cell, Dilate(xs, r), k)[j] == Run(cell, Strided(xs, t, r, b))
  {
    DilateEven(xs, r, batch, m);
    DilateAt(xs, r, batch, m, t, b);
    k, j := t / r, t % r * batch + b;
    DilateColumn(xs, r, batch, m, t, b, k, j);
    HiddenOfColumn(cell, Dilate(xs, r), r * batch, k, j, xs, t, r, b);
  }

  /** Undoing the layout: entry (i, b) of a wide row ends up as row b of step i. */
  lemma UndoAt<X>(row: seq<X>, batch: nat, r: nat, i: nat, b: nat)
    requires batch > 0 && r > 0 && |row| == r * batch && i < r && b < batch
    ensures var cs := Split(row, batch);
      |cs| == r && |cs[i]| == batch && 0 <= i * batch + b < |row| && cs[i][b] == row[i * batch + b]
  {
    SplitEven(row, batch, r);
    MulMonotone(0, i, batch);
    MulMonotone(i + 1, r, batch);
    assert (i + 1) * batch == i * batch + batch;
    DivModUnique(i * batch + b, batch, i, b);
    SplitAt(row, batch, i * batch + b);
  }

  function Undo<X>(ys: Steps<X>, batch: nat): Steps<X>
    requires batch > 0
  {
    Concat(Map(y => Split(y, batch), ys))
  }

  lemma UndoShape<X>(ys: Steps<X>, batch: nat, r: nat)
    requires batch > 0 && r > 0 && Uniform(ys, r * batch)
    ensures Uniform(Map(y => Split(y, batch), ys), r) && |Undo(ys, batch)| == |ys| * r
  {
    forall k | 0 <= k < |ys|
      ensures |Split(ys[k], batch)| == r
    {
      SplitEven(ys[k], batch, r);
    }
    ConcatLength(Map(y => Split(y, batch), ys), r);
  }

  lemma UndoIndex<X>(ys: Steps<X>, batch: nat, r: nat, t: nat)
    requires batch > 0 && r > 0 && Uniform(ys, r * batch) && t < |ys| * r
    ensures t / r < |ys| && |Undo(ys, batch)| == |ys| * r && |Split(ys[t / r], batch)| == r
    ensures Undo(ys, batch)[t] == Split(ys[t / r], batch)[t % r]
  {
    UndoShape(ys, batch, r);
    RowCol(t, |ys|, r);
    ConcatAt(Map(y => Split(y, batch), ys), r, t / r, t % r);
  }

  lemma RowCol(t: nat, m: nat, r: nat)
    requires r > 0 && t < m * r
    ensures 0 <= t / r < m && 0 <= t % r < r && t / r * r + t % r == t
  {
    if t / r >= m { MulMonotone(m, t / r, r); }
  }

  lemma EvenLayer<S, X>(cell: Cell<S, X>, xs: Steps<X>, r: nat, batch: nat, m: nat)
    requires r > 0 && batch > 0 && m >= 1 && |xs| == m * r && Uniform(xs, batch)
    ensures Layer(cell, xs, r, batch).Some? && IsDilated(cell, xs, r, batch, Layer(cell, xs, r, batch).value)
  {
    var d := Dilate(xs, r);
    DilateEven(xs, r, batch, m);
    var ys := Lstm(cell, d, r * batch);
    var out := Undo(ys, batch);
    assert Layer(cell, xs, r, batch) == Some(out);
    UndoShape(ys, batch, r);
    forall t, b | 0 <= t < |xs| && 0 <= b < batch
      ensures |out[t]| == batch && out[t][b] == cell.emit(Run(cell, Strided(xs, t, r, b)))
    {
      EvenEntry(cell, xs, r, batch, m, t, b);
    }
    forall t | 0 <= t < |xs|
      ensures |out[t]| == batch
    {
      EvenEntry(cell, xs, r, batch, m, t, 0);
    }
  }

  lemma EvenEntry<S, X>(cell: Cell<S, X>, xs: Steps<X>, r: nat, batch: nat, m: nat, t: nat, b: nat)
    requires r > 0 && batch > 0 && m >= 1 && |xs| == m * r && Uniform(xs, batch) && t < |xs| && b < batch
    requires Uniform(Dilate(xs, r), r * batch)
    ensures var out := Undo(Lstm(cell, Dilate(xs, r), r * batch), batch);
      t < |out| && |out[t]| == batch && out[t][b] == cell.emit(Run(cell, Strided(xs, t, r, b)))
  {
    var k, j := HiddenIsStrided(cell, xs, r, batch, m, t, b);
    EmitAt(cell, Dilate(xs, r), r * batch, k, j);
    UndoEntry(Lstm(cell, Dilate(xs, r), r * batch), r, batch, t, b, k, j);
  }

  lemma EmitAt<S, X>(cell: Cell<S, X>, d: Steps<X>, width: nat, k: nat, j: nat)
    requires Uniform(d, width) && k < |d| && j < width
    ensures Lstm(cell, d, width)[k][j] == cell.emit(Hidden(cell, d, k)[j])
  {
  }

  lemma UndoEntry<X>(ys: Steps<X>, r: nat, batch: nat, t: nat, b: nat, k: nat, j: nat)
    requires r > 0 && batch > 0 && Uniform(ys, r * batch) && k < |ys| && j < r * batch && b < batch
    requires k == t / r && j == t % r * batch + b
    ensures var out := Undo(ys, batch); t < |out| && |out[t]| == batch && out[t][b] == ys[k][j]
  {
    BelowRows(t, r, |ys|);
    UndoIndex(ys, batch, r, t);
    UndoAt(ys[k], batch, r, t % r, b);
  }

  lemma BelowRows(t: nat, r: nat, m: nat)
    requires r > 0 && t / r < m
    ensures t < m * r && t % r < r
  {
    MulMonotone(t / r + 1, m, r);
    assert (t / r + 1) * r == t / r * r + r;
  }

  /** A layer used without padding either fits, and then computes the dilated recurrence,
      or fails when stacking chunks of unequal size. */
  lemma LayerMeaning<S, X>(cell: Cell<S, X>, xs: Steps<X>, r: nat, batch: nat)
    requires r > 0 && batch > 0 && xs != [] && Uniform(xs, batch)
    ensures Layer(cell, xs, r, batch).Some? <==> Fits(|xs|, r)
    ensures Layer(cell, xs, r, batch).Some? ==> IsDilated(cell, xs, r, batch, Layer(cell, xs, r, batch).value)
  {
    if |xs| <= r {
      assert Split(xs, r) == Split(xs, |xs|);
      EvenLayer(cell, xs, |xs|, batch, 1);
    } else if |xs| % r == 0 {
      EvenLayer(cell, xs, r, batch, |xs| / r);
    } else {
      var cs := Split(xs, r);
      SplitUneven(xs, r);
      ChunkUniform(xs, r, batch);
      ConcatLength(cs[0], batch);
      ConcatLength(cs[|cs| - 1], batch);
      var d := Dilate(xs, r);
      if |d[|cs| - 1]| == |d[0]| { MulCancel(|cs[|cs| - 1]|, r, batch); }
      assert !Uniform(d, |d[0]|);
    }
  }

  // ---------------------------------------------------------------- padding

  lemma PaddedLength(len: nat, r: nat)
    requires r > 0
    ensures (len + Padding(len, r)) % r == 0 && Padding(len, r) < r
  {
    var q, m := len / r, len % r;
    if m == 0 {
      DivModUnique(r, r, 1, 0);
      DivModUnique(len, r, q, 0);
    } else {
      DivModUnique(r - m, r, 0, r - m);
      DivModUnique(len + (r - m), r, q + 1, 0);
    }
  }

  /** Causality: what a row sees at step t does not depend on later steps. */
  lemma {:induction false} StridedPrefix<X>(xs: Steps<X>, zs: Steps<X>, batch: nat, t: nat, r: nat, b: nat)
    requires r > 0 && Uniform(zs, batch) && |xs| <= |zs| && xs == zs[..|xs|] && t < |xs| && b < batch
    ensures Strided(xs, t, r, b) == Strided(zs, t, r, b)
    decreases t
  {
    if t >= r { StridedPrefix(xs, zs, batch, t - r, r, b); }
  }

  /** Dilated layers on a sequence and on an extension of it agree where both are defined. */
  lemma DilatedPrefix<S, X>(cell: Cell<S, X>, xs: Steps<X>, zs: Steps<X>, r: nat, batch: nat, ys: Steps<X>,
                            ws: Steps<X>)
    requires r > 0 && Uniform(zs, batch) && |xs| <= |zs| && xs == zs[..|xs|]
    requires IsDilated(cell, xs, r, batch, ys) && IsDilated(cell, zs, r, batch, ws)
    ensures ys == ws[..|xs|]
  {
    forall t | 0 <= t < |xs|
      ensures ys[t] == ws[t]
    {
      forall b | 0 <= b < batch
        ensures ys[t][b] == ws[t][b]
      {
        StridedPrefix(xs, zs, batch, t, r, b);
      }
    }
  }

  /** Re-batching preserves meaning at every length: _forward at rate r gives, at step t and
      row b, the cell run over x[t mod r], x[t mod r + r], ..., x[t] of that row. */
  lemma ForwardOneIsDilated<S, X>(cell: Cell<S, X>, xs: Steps<X>, r: nat, batch: nat, zero: X)
    requires r > 0 && batch > 0 && xs != [] && Uniform(xs, batch)
    ensures ForwardOne(cell, xs, r, batch, zero).Some?
    ensures IsDilated(cell, xs, r, batch, ForwardOne(cell, xs, r, batch, zero).value)
  {
    var zs := Pad(xs, r, batch, zero);
    PaddedLength(|xs|, r);
    LayerMeaning(cell, zs, r, batch);
    var ws := Layer(cell, zs, r, batch).value;
    assert xs == zs[..|xs|];
    forall t, b | 0 <= t < |xs| && 0 <= b < batch
      ensures ws[t][b] == cell.emit(Run(cell, Strided(xs, t, r, b)))
    {
      StridedPrefix(xs, zs, batch, t, r, b);
    }
  }

  // ---------------------------------------------------------------- layer upon layer

  /** Row b sees at step t the inputs of steps t mod r, t mod r + r, ..., t, in that order. */
  lemma {:induction false} StridedAt<X>(xs: Steps<X>, t: nat, r: nat, b: nat, k: nat)
    requires r > 0 && t < |xs| && forall u | 0 <= u < |xs| :: b < |xs[u]|
    requires k <= t / r
    ensures |Strided(xs, t, r, b)| == t / r + 1 && 0 <= t % r + k * r < |xs|
    ensures Strided(xs, t, r, b)[k] == xs[t % r + k * r][b]
    decreases t
  {
    MulMonotone(0, k, r);
    MulMonotone(k, t / r, r);
    if t < r {
      Small(t, r);
    } else {
      StepBack(t, r);
      StridedAt(xs, t - r, r, b, if k < t / r then k else 0);
    }
  }

  /** The state of a dilated layer at step t comes from its state at step t - r and the input at t. */
  lemma DilatedStep<S, X>(cell: Cell<S, X>, xs: Steps<X>, t: nat, r: nat, b: nat)
    requires r > 0 && t < |xs| && forall u | 0 <= u < |xs| :: b < |xs[u]|
    ensures Run(cell, Strided(xs, t, r, b))
         == cell.step(if t < r then cell.init else Run(cell, Strided(xs, t - r, r, b)), xs[t][b])
  {
    var s := Strided(xs, t, r, b);
    assert s[..|s| - 1] == if t < r then [] else Strided(xs, t - r, r, b);
  }

  /** trace[0] is the input and trace[i + 1] the output of layer i, dilated at rate rates[i]. */
  ghost predicate Layered<S, X>(cells: seq<Cell<S, X>>, rates: seq<nat>, batch: nat, trace: seq<Steps<X>>)
    requires Rates(rates)
  {
    && |trace| == |cells| + 1 == |rates| + 1 && (forall i | 0 <= i < |trace| :: Uniform(trace[i], batch))
    && forall i | 0 <= i < |cells| :: IsDilated(cells[i], trace[i], rates[i], batch, trace[i + 1])
  }

  lemma LayerBelow<S, X>(cells: seq<Cell<S, X>>, rates: seq<nat>, batch: nat, xs: Steps<X>, rest: seq<Steps<X>>)
    requires cells != [] && rates != [] && Rates(rates) && Layered(cells[1..], rates[1..], batch, rest)
    requires Uniform(xs, batch) && IsDilated(cells[0], xs, rates[0], batch, rest[0])
    ensures Layered(cells, rates, batch, [xs] + rest)
  {
    var trace := [xs] + rest;
    forall i | 0 <= i < |cells|
      ensures IsDilated(cells[i], trace[i], rates[i], batch, trace[i + 1])
    {
      if i > 0 { assert IsDilated(cells[1..][i - 1], rest[i - 1], rates[1..][i - 1], batch, rest[i]); }
    }
  }

  /** Padding per layer computes, layer by layer from the first cell to the last, the dilated
      recurrences at the given rates. */
  lemma {:induction false} ForwardIsLayered<S, X>(cells: seq<Cell<S, X>>, dilation: seq<nat>, xs: Steps<X>,
                                                  batch: nat, zero: X) returns (trace: seq<Steps<X>>)
    requires |cells| == |dilation| && Rates(dilation) && batch > 0 && xs != [] && Uniform(xs, batch)
    ensures Layered(cells, dilation, batch, trace) && trace[0] == xs
    ensures Forward(cells, dilation, xs, batch, zero) == Some(trace[|cells|])
    decreases |cells|
  {
    if cells == [] {
      trace := [xs];
    } else {
      ForwardOneIsDilated(cells[0], xs, dilation[0], batch, zero);
      var ys := ForwardOne(cells[0], xs, dilation[0], batch, zero).value;
      var rest := ForwardIsLayered(cells[1..], dilation[1..], ys, batch, zero);
      LayerBelow(cells, dilation, batch, xs, rest);
      trace := [xs] + rest;
    }
  }

  lemma {:induction false} UpperIsLayered<S, X>(cells: seq<Cell<S, X>>, dilation: seq<nat>, xs: Steps<X>, batch: nat)
    returns (trace: seq<Steps<X>>)
    requires |cells| == |dilation| && Rates(dilation) && batch > 0 && xs != [] && Uniform(xs, batch)
    requires Upper(cells, dilation, xs, batch).Some?
    ensures Layered(cells, dilation, batch, trace) && trace[0] == xs
    ensures Upper(cells, dilation, xs, batch) == Some(trace[|cells|])
    decreases |cells|
  {
    if cells == [] {
      trace := [xs];
    } else {
      LayerMeaning(cells[0], xs, dilation[0], batch);
      var ys := Layer(cells[0], xs, dilation[0], batch).value;
      var rest := UpperIsLayered(cells[1..], dilation[1..], ys, batch);
      LayerBelow(cells, dilation, batch, xs, rest);
      trace := [xs] + rest;
    }
  }

  /** When the pad-once form runs through, it computes the same recurrences on the input padded for
      the last rate, except that its first layer has rate 1 whatever rate it is given. */
  lemma JitIsLayered<S, X>(cells: seq<Cell<S, X>>, dilation: seq<nat>, xs: Steps<X>, batch: nat, zero: X)
    returns (trace: seq<Steps<X>>)
    requires |cells| == |dilation| >= 1 && Rates(dilation) && batch > 0 && xs != [] && Uniform(xs, batch)
    requires ForwardJit(cells, dilation, xs, batch, zero).Some?
    ensures Layered(cells, dilation[0 := 1], batch, trace)
    ensures trace[0] == Pad(xs, dilation[|dilation| - 1], batch, zero)
    ensures ForwardJit(cells, dilation, xs, batch, zero) == Some(trace[|cells|])
  {
    var zs := Pad(xs, dilation[|dilation| - 1], batch, zero);
    LstmIsDilatedByOne(cells[0], zs, batch);
    var rest := UpperIsLayered(cells[1..], dilation[1..], Lstm(cells[0], zs, batch), batch);
    assert dilation[0 := 1][1..] == dilation[1..];
    LayerBelow(cells, dilation[0 := 1], batch, zs, rest);
    trace := [zs] + rest;
  }

  // ---------------------------------------------------------------- padding once

  predicate AllFit(len: nat, dilation: seq<nat>)
    requires Rates(dilation)
  {
    forall i | 0 <= i < |dilation| :: Fits(len, dilation[i])
  }

  lemma {:induction false} UpperAgrees<S, X>(cells: seq<Cell<S, X>>, dilation: seq<nat>, xs: Steps<X>, zs: Steps<X>,
                                             batch: nat, zero: X)
    requires |cells| == |dilation| && Rates(dilation) && batch > 0
    requires xs != [] && |xs| <= |zs| && xs == zs[..|xs|] && Uniform(zs, batch)
    ensures Forward(cells, dilation, xs, batch, zero).Some?
    ensures |Forward(cells, dilation, xs, batch, zero).value| == |xs|
    ensures Upper(cells, dilation, zs, batch).Some? <==> AllFit(|zs|, dilation)
    ensures AllFit(|zs|, dilation) ==>
      var ws := Upper(cells, dilation, zs, batch).value;
      |ws| == |zs| && Forward(cells, dilation, xs, batch, zero).value == ws[..|xs|]
    decreases |cells|
  {
    if cells != [] {
      var r := dilation[0];
      ForwardOneIsDilated(cells[0], xs, r, batch, zero);
      LayerMeaning(cells[0], zs, r, batch);
      var ys := ForwardOne(cells[0], xs, r, batch, zero).value;
      if Fits(|zs|, r) {
        var ws := Layer(cells[0], zs, r, batch).value;
        DilatedPrefix(cells[0], xs, zs, r, batch, ys, ws);
        UpperAgrees(cells[1..], dilation[1..], ys, ws, batch, zero);
        assert AllFit(|zs|, dilation) <==> AllFit(|ws|, dilation[1..]) by { FitCons(|zs|, dilation); }
      } else {
        UpperAgrees(cells[1..], dilation[1..], ys, ys, batch, zero);
        assert !AllFit(|zs|, dilation);
      }
    }
  }

  lemma FitCons(len: nat, dilation: seq<nat>)
    requires Rates(dilation) && dilation != []
    ensures AllFit(len, dilation) <==> Fits(len, dilation[0]) && AllFit(len, dilation[1..])
  {
    if Fits(len, dilation[0]) && AllFit(len, dilation[1..]) {
      forall i | 0 <= i < |dilation|
        ensures Fits(len, dilation[i])
      {
        if i > 0 { assert Fits(len, dilation[1..][i - 1]); }
      }
    }
  }

  /** An ordinary LSTM is the rate-1 dilated recurrence. */
  lemma LstmIsDilatedByOne<S, X>(cell: Cell<S, X>, xs: Steps<X>, batch: nat)
    requires Uniform(xs, batch)
    ensures IsDilated(cell, xs, 1, batch, Lstm(cell, xs, batch))
  {
    forall t, b | 0 <= t < |xs| && 0 <= b < batch
      ensures Hidden(cell, xs, t)[b] == Run(cell, Strided(xs, t, 1, b))
    {
      HiddenIsRun(cell, xs, batch, t, b);
    }
  }

  lemma {:induction false} HiddenIsRun<S, X>(cell: Cell<S, X>, xs: Steps<X>, batch: nat, t: nat, b: nat)
    requires Uniform(xs, batch) && t < |xs| && b < batch
    ensures Hidden(cell, xs, t)[b] == Run(cell, Strided(xs, t, 1, b))
  {
    var s := Strided(xs, t, 1, b);
    if t > 0 {
      HiddenIsRun(cell, xs, batch, t - 1, b);
      assert s[..|s| - 1] == Strided(xs, t - 1, 1, b);
    } else {
      assert s[..|s| - 1] == [];
    }
  }

  /** The length the pad-once form works with throughout. */
  function JitLength(len: nat, dilation: seq<nat>): nat
    requires dilation != [] && Rates(dilation)
  {
    len + Padding(len, dilation[|dilation| - 1])
  }

  /** The first layer, dilated by one, on the padded input starts as on the input itself. */
  lemma FirstLayerAgrees<S, X>(cell: Cell<S, X>, xs: Steps<X>, zs: Steps<X>, batch: nat, zero: X) returns (ys: Steps<X>)
    requires batch > 0 && xs != [] && |xs| <= |zs| && xs == zs[..|xs|] && Uniform(zs, batch)
    ensures ForwardOne(cell, xs, 1, batch, zero) == Some(ys)
    ensures |ys| == |xs| && Uniform(ys, batch) && ys == Lstm(cell, zs, batch)[..|xs|]
  {
    LstmIsDilatedByOne(cell, zs, batch);
    ForwardOneIsDilated(cell, xs, 1, batch, zero);
    ys := ForwardOne(cell, xs, 1, batch, zero).value;
    DilatedPrefix(cell, xs, zs, 1, batch, ys, Lstm(cell, zs, batch));
  }

  lemma PaddedStarts<X>(xs: Steps<X>, rate: nat, batch: nat, zero: X)
    requires rate > 0 && Uniform(xs, batch)
    ensures var zs := Pad(xs, rate, batch, zero);
      |zs| == |xs| + Padding(|xs|, rate) && xs == zs[..|xs|] && Uniform(zs, batch)
  {
  }

  /** With an undilated first layer, padding once runs through exactly when every later rate
      fits the padded length, and then agrees with padding per layer on all seq_len steps. */
  lemma PadOnceAgrees<S, X>(cells: seq<Cell<S, X>>, dilation: seq<nat>, xs: Steps<X>, batch: nat, zero: X)
    requires |cells| == |dilation| >= 1 && Rates(dilation) && dilation[0] == 1
    requires batch > 0 && xs != [] && Uniform(xs, batch)
    ensures Forward(cells, dilation, xs, batch, zero).Some?
    ensures ForwardJit(cells, dilation, xs, batch, zero).Some? <==> AllFit(JitLength(|xs|, dilation), dilation[1..])
    ensures AllFit(JitLength(|xs|, dilation), dilation[1..]) ==>
      var ws := ForwardJit(cells, dilation, xs, batch, zero).value;
      |xs| <= |ws| && Forward(cells, dilation, xs, batch, zero).value == ws[..|xs|]
  {
    var zs := Pad(xs, dilation[|dilation| - 1], batch, zero);
    var ws := Lstm(cells[0], zs, batch);
    PaddedStarts(xs, dilation[|dilation| - 1], batch, zero);
    var ys := FirstLayerAgrees(cells[0], xs, zs, batch, zero);
    AfterFirstLayer(cells, dilation, xs, batch, zero, zs, ys);
    UpperAgrees(cells[1..], dilation[1..], ys, ws, batch, zero);
    assert |ws| == |zs| == JitLength(|xs|, dilation);
  }

  lemma AfterFirstLayer<S, X>(cells: seq<Cell<S, X>>, dilation: seq<nat>, xs: Steps<X>, batch: nat, zero: X,
                              zs: Steps<X>, ys: Steps<X>)
    requires |cells| == |dilation| >= 1 && Rates(dilation) && dilation[0] == 1 && batch > 0 && Uniform(xs, batch)
    requires zs == Pad(xs, dilation[|dilation| - 1], batch, zero)
    requires ForwardOne(cells[0], xs, 1, batch, zero) == Some(ys)
    ensures Uniform(zs, batch)
    ensures Forward(cells, dilation, xs, batch, zero) == Forward(cells[1..], dilation[1..], ys, batch, zero)
    ensures ForwardJit(cells, dilation, xs, batch, zero)
         == Upper(cells[1..], dilation[1..], Lstm(cells[0], zs, batch), batch)
  {
    PaddedStarts(xs, dilation[|dilation| - 1], batch, zero);
  }

  /** In particular when every rate divides the last one. */
  lemma DividingRatesFit(len: nat, dilation: seq<nat>)
    requires dilation != [] && Rates(dilation)
    requires forall i | 0 <= i < |dilation| :: dilation[|dilation| - 1] % dilation[i] == 0
    ensures AllFit(JitLength(len, dilation), dilation)
  {
    var last := dilation[|dilation| - 1];
    var n := JitLength(len, dilation);
    PaddedLength(len, last);
    forall i | 0 <= i < |dilation|
      ensures Fits(n, dilation[i])
    {
      DividesTransitive(n, last, dilation[i]);
    }
  }

  lemma DividesTransitive(n: nat, a: nat, b: nat)
    requires a > 0 && b > 0 && n % a == 0 && a % b == 0
    ensures n % b == 0
  {
    var q, p := n / a, a / b;
    assert n == q * a && a == p * b;
    assert q * (p * b) == (q * p) * b;
    DivModUnique(n, b, q * p, 0);
  }

  // ---------------------------------------------------------------- the first rate matters

  const ADDER: Cell<int, int> := Cell((s, x) => s + x, s => s, 0)
  const ECHO: Cell<int, int> := Cell((s, x) => x, s => s, 0)

  lemma EchoRun(xs: seq<int>)
    requires xs != []
    ensures Run(ECHO, xs) == xs[|xs| - 1]
  {
  }

  lemma EchoDilated(xs: Steps<int>, r: nat, batch: nat, ys: Steps<int>)
    requires r > 0 && Uniform(xs, batch) && IsDilated(ECHO, xs, r, batch, ys)
    ensures ys == xs
  {
    forall t | 0 <= t < |xs|
      ensures ys[t] == xs[t]
    {
      forall b | 0 <= b < batch
        ensures ys[t][b] == xs[t][b]
      {
        EchoRun(Strided(xs, t, r, b));
      }
    }
  }

  lemma {:induction false} EchoLayers(cells: seq<Cell<int, int>>, dilation: seq<nat>, xs: Steps<int>, batch: nat)
    requires |cells| == |dilation| && Rates(dilation) && batch > 0 && xs != [] && Uniform(xs, batch)
    requires forall i | 0 <= i < |cells| :: cells[i] == ECHO
    ensures Forward(cells, dilation, xs, batch, 0) == Some(xs)
    ensures Upper(cells, dilation, xs, batch).Some? ==> Upper(cells, dilation, xs, batch).value == xs
    decreases |cells|
  {
    if cells != [] {
      var r := dilation[0];
      ForwardOneIsDilated(ECHO, xs, r, batch, 0);
      EchoDilated(xs, r, batch, ForwardOne(ECHO, xs, r, batch, 0).value);
      LayerMeaning(ECHO, xs, r, batch);
      if Fits(|xs|, r) { EchoDilated(xs, r, batch, Layer(ECHO, xs, r, batch).value); }
      EchoLayers(cells[1..], dilation[1..], xs, batch);
    }
  }

  /** Do the two forms agree for these cells and inputs? */
  predicate Agree(cells: seq<Cell<int, int>>, dilation: seq<nat>, xs: Steps<int>)
    requires |cells| == |dilation| >= 1 && Rates(dilation) && Uniform(xs, 1)
  {
    var jit, plain := ForwardJit(cells, dilation, xs, 1, 0), Forward(cells, dilation, xs, 1, 0);
    jit.Some? && plain.Some? && |xs| <= |jit.value| && plain.value == jit.value[..|xs|]
  }

  /** A first rate above one makes the forms disagree already on two steps, whatever the
      other rates: the pad-once form never dilates its first layer. */
  lemma FirstRateMatters(dilation: seq<nat>)
    requires dilation != [] && Rates(dilation) && dilation[0] >= 2
    ensures !Agree([ADDER] + seq(|dilation| - 1, i => ECHO), dilation, [[1], [1]])
  {
    var xs: Steps<int> := [[1], [1]];
    var cells := [ADDER] + seq(|dilation| - 1, i => ECHO);
    var r := dilation[0];
    ForwardOneIsDilated(ADDER, xs, r, 1, 0);
    var ys := ForwardOne(ADDER, xs, r, 1, 0).value;
    assert Strided(xs, 1, r, 0) == [1] && [1][..0] == [];
    assert Run(ADDER, [1]) == 1;
    assert ys[1][0] == 1;
    EchoLayers(cells[1..], dilation[1..], ys, 1);
    var zs := Pad(xs, dilation[|dilation| - 1], 1, 0);
    var ws := Lstm(ADDER, zs, 1);
    assert Hidden(ADDER, zs, 0)[0] == 1 && Hidden(ADDER, zs, 1)[0] == 2;
    assert ws[1][0] == 2;
    EchoLayers(cells[1..], dilation[1..], ws, 1);
  }

  // ---------------------------------------------------------------- the loops of the pad-once form

  lemma {:induction false} ConcatSnoc<X>(cs: seq<seq<X>>, c: seq<X>)
    ensures Concat(cs + [c]) == Concat(cs) + c
    decreases |cs|
  {
    if cs == [] {
      assert (cs + [c])[1..] == [];
    } else {
      assert (cs + [c])[1..] == cs[1..] + [c];
      ConcatSnoc(cs[1..], c);
    }
  }

  /** Steps 1 and 3 of the loop body build lists by appending. */
  method FlattenChunks<X>(splits: seq<Steps<X>>) returns (xs: Steps<X>)
    ensures xs == Map(c => Concat(c), splits)
  {
    xs := [];
    for k := 0 to |splits|
      invariant xs == Map(c => Concat(c), splits)[..k]
    {
      xs := xs + [Concat(splits[k])];
    }
  }

  method Unstack<X>(ys: Steps<X>, batch: nat) returns (xs: Steps<X>)
    requires batch > 0
    ensures xs == Concat(Map(y => Split(y, batch), ys))
  {
    var xss := [];
    for k := 0 to |ys|
      invariant xss == Map(y => Split(y, batch), ys)[..k]
    {
      xss := xss + [Split(ys[k], batch)];
    }
    xs := [];
    for k := 0 to |xss|
      invariant xs == Concat(xss[..k])
    {
      ghost var before := xs;
      for j := 0 to |xss[k]|
        invariant xs == before + xss[k][..j]
      {
        xs := xs + [xss[k][j]];
      }
      ConcatSnoc(xss[..k], xss[k]);
      assert xss[..k + 1] == xss[..k] + [xss[k]];
    }
    assert xss[..|xss|] == xss == Map(y => Split(y, batch), ys);
  }

  /** StackedDRNNJIT.forward as the loop it is; None stands for torch.stack's failure. */
  method StackedForward<S, X>(cells: seq<Cell<S, X>>, dilation: seq<nat>, input: Steps<X>, batch: nat, zero: X)
    returns (r: Option<Steps<X>>)
    requires |cells| == |dilation| >= 1 && Rates(dilation) && batch > 0 && Uniform(input, batch)
    ensures r == ForwardJit(cells, dilation, input, batch, zero)
  {
    var xs := Lstm(cells[0], Pad(input, dilation[|dilation| - 1], batch, zero), batch);
    for i := 1 to |cells|
      invariant Upper(cells[i..], dilation[i..], xs, batch) == ForwardJit(cells, dilation, input, batch, zero)
    {
      var flat := FlattenChunks(Split(xs, dilation[i]));
      match Stack(flat) {
        case None =>
          return None;
        case Some(dilated) =>
          var ys := Lstm(cells[i], dilated, |dilated[0]|);
          xs := Unstack(ys, batch);
      }
      assert cells[i..][1..] == cells[i + 1..] && dilation[i..][1..] == dilation[i + 1..];
    }
    return Some(xs);
  }
}
