module RaggedLstm {

  /** Stacked LSTMs over sequences of different lengths, in two schedules: batch-major, one scan
      per sequence, and time-major, one scan over time steps whose batch shrinks as sequences
      end.  A cell updates a state (h, c) from an input; its arithmetic is left arbitrary. */

  import opened Common

  /** One LSTM layer's cell with its parameters; `hidden` selects h from (h, c). */
  datatype Cell<!S, !X> = Cell(step: (S, X) -> S, hidden: S -> X, zero: S)

  // ---------------------------------------------------------------- the parallel functions

  /** ops.scan: the list of all states, each computed from the previous one. */
  function Scan<S, X>(f: (S, X) -> Option<S>, init: S, xs: seq<X>): (r: Option<seq<S>>)
    ensures r.Some? ==> |r.value| == |xs|
  {
    if xs == [] then Some([])
    else match Scan(f, init, xs[..|xs| - 1])
      case None => None
      case Some(states) =>
        match f(if states == [] then init else states[|states| - 1], xs[|xs| - 1])
        case None => None
        case Some(state) => Some(states + [state])
  }

  // ---------------------------------------------------------------- batch-major

  /** batched_cell of the batch-major program: all states of one sequence. */
  function ScanSequence<S, X>(cell: Cell<S, X>, s: seq<X>): (r: seq<S>)
    ensures |r| == |s|
  {
    if s == [] then []
    else
      var prev := ScanSequence(cell, s[..|s| - 1]);
      prev + [cell.step(if prev == [] then cell.zero else prev[|prev| - 1], s[|s| - 1])]
  }

  function LayerByBatch<S, X>(cell: Cell<S, X>, seqs: seq<seq<X>>): (r: seq<seq<X>>)
    ensures |r| == |seqs|
  {
    Map(s => Map(cell.hidden, ScanSequence(cell, s)), seqs)
  }

  function StackedByBatch<S, X>(cells: seq<Cell<S, X>>, seqs: seq<seq<X>>): seq<seq<X>> {
    if cells == [] then seqs else StackedByBatch(cells[1..], LayerByBatch(cells[0], seqs))
  }

  // ---------------------------------------------------------------- time-major

  /** batched_cell of the time-major program: the states are cut to the width of the row;
      cutting fails when the row is wider, and when there is nothing to keep. */
  function BatchedCell<S, X>(cell: Cell<S, X>): (seq<S>, seq<X>) -> Option<seq<S>> {
    (prev: seq<S>, xs: seq<X>) =>
      if xs == [] || |prev| < |xs| then None
      else Some(seq(|xs|, b requires 0 <= b < |xs| <= |prev| => cell.step(prev[b], xs[b])))
  }

  /** The initial state is repeated to the width of the first row, so there must be one. */
  function LayerByTime<S, X>(cell: Cell<S, X>, xss: seq<seq<X>>): Option<seq<seq<X>>> {
    if xss == [] then None
    else match Scan(BatchedCell(cell), seq(|xss[0]|, b => cell.zero), xss)
      case None => None
      case Some(states) => Some(Map(row => Map(cell.hidden, row), states))
  }

  function StackedByTime<S, X>(cells: seq<Cell<S, X>>, xss: seq<seq<X>>): Option<seq<seq<X>>> {
    if cells == [] then Some(xss)
    else match LayerByTime(cells[0], xss)
      case None => None
      case Some(yss) => StackedByTime(cells[1..], yss)
  }

  // ---------------------------------------------------------------- transposition

  predicate Sorted(lens: seq<nat>) { forall i, j | 0 <= i < j < |lens| :: lens[i] >= lens[j] }

  /** How many sequences are longer than t. */
  function Width(lens: seq<nat>, t: nat): (w: nat)
    ensures w <= |lens|
  {
    if lens == [] then 0
    else Width(lens[..|lens| - 1], t) + (if lens[|lens| - 1] > t then 1 else 0)
  }

  /** In sorted order those are the first ones. */
  lemma {:induction false} WidthIsPrefix(lens: seq<nat>, t: nat)
    requires Sorted(lens)
    ensures forall b | 0 <= b < |lens| :: lens[b] > t <==> b < Width(lens, t)
  {
    if lens != [] {
      var n := |lens| - 1;
      WidthIsPrefix(lens[..n], t);
      assert forall b | 0 <= b < n :: lens[..n][b] == lens[b];
      if lens[n] > t { assert forall b | 0 <= b < n :: lens[..n][b] > t; WidthFull(lens[..n], t); }
    }
  }

  lemma {:induction false} WidthFull(lens: seq<nat>, t: nat)
    requires forall b | 0 <= b < |lens| :: lens[b] > t
    ensures Width(lens, t) == |lens|
  {
    if lens != [] { WidthFull(lens[..|lens| - 1], t); }
  }

  function Lengths<X>(seqs: seq<seq<X>>): (r: seq<nat>)
    ensures |r| == |seqs|
  {
    seq(|seqs|, b requires 0 <= b < |seqs| => |seqs[b]|)
  }

  /** Longest first, and at least one sequence. */
  predicate Ragged<X>(seqs: seq<seq<X>>) { seqs != [] && Sorted(Lengths(seqs)) }

  /** Row t lists the t-th entries of the sequences that have one. */
  function Transpose<X>(seqs: seq<seq<X>>): (rows: seq<seq<X>>)
    requires Ragged(seqs)
    ensures |rows| == |seqs[0]|
    ensures forall t | 0 <= t < |rows| :: |rows[t]| == Width(Lengths(seqs), t)
  {
    seq(|seqs[0]|, t requires 0 <= t < |seqs[0]| =>
      seq(Width(Lengths(seqs), t), b requires 0 <= b < Width(Lengths(seqs), t) =>
        WidthIsPrefix(Lengths(seqs), t);
        assert Lengths(seqs)[b] > t;
        seqs[b][t]))
  }

  // ---------------------------------------------------------------- one layer

  lemma {:induction false} ScanSequencePrefix<S, X>(cell: Cell<S, X>, s: seq<X>, n: nat)
    requires n <= |s|
    ensures ScanSequence(cell, s[..n]) == ScanSequence(cell, s)[..n]
    decreases |s|
  {
    if n < |s| {
      ScanSequencePrefix(cell, s[..|s| - 1], n);
      assert s[..|s| - 1][..n] == s[..n];
    } else {
      assert s[..n] == s;
    }
  }

  /** Each state of a sequence is one step on from the previous one. */
  lemma ScanSequenceStep<S, X>(cell: Cell<S, X>, s: seq<X>, t: nat)
    requires t < |s|
    ensures var r := ScanSequence(cell, s);
      r[t] == cell.step(if t == 0 then cell.zero else r[t - 1], s[t])
  {
    ScanSequencePrefix(cell, s, t + 1);
    ScanSequencePrefix(cell, s, t);
    assert s[..t + 1][..t] == s[..t];
  }

  /** The scan's initial state, one zero per sequence that has a first entry. */
  function Init<S, X>(cell: Cell<S, X>, seqs: seq<seq<X>>): seq<S> {
    seq(Width(Lengths(seqs), 0), b => cell.zero)
  }

  /** f takes any state allowed before entry t to one that satisfies P. */
  ghost predicate Keeps<S, X>(f: (S, X) -> Option<S>, init: S, xs: seq<X>, P: (nat, S) -> bool, t: nat, prev: S) {
    t < |xs| && (if t == 0 then prev == init else P(t - 1, prev)) ==>
      f(prev, xs[t]).Some? && P(t, f(prev, xs[t]).value)
  }

  /** Invariants of a scan. */
  lemma {:induction false} ScanKeeps<S(!new), X>(f: (S, X) -> Option<S>, init: S, xs: seq<X>, P: (nat, S) -> bool,
                                       n: nat)
    requires n <= |xs| && forall t: nat, prev :: Keeps(f, init, xs, P, t, prev)
    ensures var r := Scan(f, init, xs[..n]);
      r.Some? && forall t | 0 <= t < n :: P(t, r.value[t])
  {
    if n > 0 {
      ScanKeeps(f, init, xs, P, n - 1);
      assert xs[..n][..n - 1] == xs[..n - 1];
      var states := Scan(f, init, xs[..n - 1]).value;
      assert Keeps(f, init, xs, P, n - 1, if n == 1 then init else states[n - 2]);
    }
  }

  /** A row of states holds, for each sequence that reaches step t, its state there. */
  ghost predicate IsStateRow<S, X>(cell: Cell<S, X>, seqs: seq<seq<X>>, t: nat, row: seq<S>) {
    && |row| == Width(Lengths(seqs), t)
    && forall b | 0 <= b < |row| ::
      b < |seqs| && t < |seqs[b]| && row[b] == ScanSequence(cell, seqs[b])[t]
  }

  ghost function StateRow<S, X>(cell: Cell<S, X>, seqs: seq<seq<X>>): (nat, seq<S>) -> bool {
    (t: nat, row: seq<S>) => IsStateRow(cell, seqs, t, row)
  }

  lemma BatchedCellAdvances<S, X>(cell: Cell<S, X>, seqs: seq<seq<X>>, t: nat, prev: seq<S>)
    requires Ragged(seqs)
    ensures Keeps(BatchedCell(cell), Init(cell, seqs), Transpose(seqs), StateRow(cell, seqs), t, prev)
  {
    if t < |seqs[0]| && (if t == 0 then prev == Init(cell, seqs) else IsStateRow(cell, seqs, t - 1, prev)) {
      var lens := Lengths(seqs);
      WidthIsPrefix(lens, t);
      assert lens[0] > t;
      assert Width(lens, t) > 0 && Transpose(seqs)[t] != [];
      if t > 0 { WidthShrinks(lens, t - 1); }
      forall b | 0 <= b < Width(lens, t)
        ensures b < |prev| && t < |seqs[b]| && cell.step(prev[b], seqs[b][t]) == ScanSequence(cell, seqs[b])[t]
      {
        assert lens[b] > t;
        Advance(cell, seqs, t, prev, b);
      }
      var row := BatchedCell(cell)(prev, Transpose(seqs)[t]);
      assert row.Some? && IsStateRow(cell, seqs, t, row.value);
    }
  }

  lemma Advance<S, X>(cell: Cell<S, X>, seqs: seq<seq<X>>, t: nat, prev: seq<S>, b: nat)
    requires b < |seqs| && t < |seqs[b]| && b < |prev|
    requires if t == 0 then prev[b] == cell.zero else prev[b] == ScanSequence(cell, seqs[b])[t - 1]
    ensures cell.step(prev[b], seqs[b][t]) == ScanSequence(cell, seqs[b])[t]
  {
    ScanSequenceStep(cell, seqs[b], t);
  }

  lemma {:induction false} WidthShrinks(lens: seq<nat>, t: nat)
    ensures Width(lens, t + 1) <= Width(lens, t)
  {
    if lens != [] { WidthShrinks(lens[..|lens| - 1], t); }
  }

  lemma LayerKeepsLengths<S, X>(cell: Cell<S, X>, seqs: seq<seq<X>>)
    ensures Lengths(LayerByBatch(cell, seqs)) == Lengths(seqs)
  {
  }

  /** One layer: the time-major scan of the transposed batch is the transposed batch-major result. */
  lemma LayerCommutes<S(!new), X>(cell: Cell<S, X>, seqs: seq<seq<X>>)
    requires Ragged(seqs) && seqs[0] != []
    ensures Ragged(LayerByBatch(cell, seqs))
    ensures LayerByTime(cell, Transpose(seqs)) == Some(Transpose(LayerByBatch(cell, seqs)))
  {
    LayerKeepsLengths(cell, seqs);
    var xss, yss := Transpose(seqs), Transpose(LayerByBatch(cell, seqs));
    forall t: nat, prev
      ensures Keeps(BatchedCell(cell), Init(cell, seqs), xss, StateRow(cell, seqs), t, prev)
    {
      BatchedCellAdvances(cell, seqs, t, prev);
    }
    ScanKeeps(BatchedCell(cell), Init(cell, seqs), xss, StateRow(cell, seqs), |xss|);
    assert xss[..|xss|] == xss;
    WidthIsPrefix(Lengths(seqs), 0);
    assert Lengths(seqs)[0] > 0;
    assert seq(|xss[0]|, b => cell.zero) == Init(cell, seqs);
    var states := Scan(BatchedCell(cell), Init(cell, seqs), xss).value;
    assert forall t | 0 <= t < |states| :: StateRow(cell, seqs)(t, states[t]);
    HiddenRows(cell, seqs, states);
  }

  lemma HiddenRows<S, X>(cell: Cell<S, X>, seqs: seq<seq<X>>, states: seq<seq<S>>)
    requires Ragged(seqs) && Ragged(LayerByBatch(cell, seqs)) && Lengths(LayerByBatch(cell, seqs)) == Lengths(seqs)
    requires |states| == |seqs[0]| && forall t | 0 <= t < |states| :: IsStateRow(cell, seqs, t, states[t])
    ensures Map(row => Map(cell.hidden, row), states) == Transpose(LayerByBatch(cell, seqs))
  {
    var yss := Transpose(LayerByBatch(cell, seqs));
    forall t | 0 <= t < |states|
      ensures Map(cell.hidden, states[t]) == yss[t]
    {
      assert IsStateRow(cell, seqs, t, states[t]);
      WidthIsPrefix(Lengths(seqs), t);
    }
  }

  /** Through any number of layers, the time-major program computes the transpose of what the
      batch-major program computes. */
  lemma {:induction false} StackCommutes<S(!new), X>(cells: seq<Cell<S, X>>, seqs: seq<seq<X>>)
    requires Ragged(seqs) && seqs[0] != []
    ensures Ragged(StackedByBatch(cells, seqs))
    ensures StackedByTime(cells, Transpose(seqs)) == Some(Transpose(StackedByBatch(cells, seqs)))
    decreases |cells|
  {
    if cells != [] {
      LayerCommutes(cells[0], seqs);
      LayerKeepsLengths(cells[0], seqs);
      assert Lengths(LayerByBatch(cells[0], seqs))[0] == Lengths(seqs)[0];
      StackCommutes(cells[1..], LayerByBatch(cells[0], seqs));
    }
  }

  // ---------------------------------------------------------------- entry by entry

  /** Row t of the transposed batch holds the t-th entry of sequence b at place b. */
  lemma TransposeAt<X>(seqs: seq<seq<X>>, b: nat, t: nat)
    requires Ragged(seqs) && b < |seqs| && t < |seqs[b]|
    ensures t < |Transpose(seqs)| && b < |Transpose(seqs)[t]| && Transpose(seqs)[t][b] == seqs[b][t]
  {
    var lens := Lengths(seqs);
    assert lens[b] > t && (b > 0 ==> lens[0] >= lens[b]);
    WidthIsPrefix(lens, t);
  }

  /** A layer's output at step t is the hidden part of a state that comes from the state before it,
      or from zero, and the input at t; `states` are those of sequence b. */
  lemma LayerAt<S, X>(cell: Cell<S, X>, seqs: seq<seq<X>>, b: nat) returns (states: seq<S>)
    requires b < |seqs|
    ensures |states| == |seqs[b]| == |LayerByBatch(cell, seqs)[b]|
    ensures forall t | 0 <= t < |seqs[b]| ::
              && states[t] == cell.step(if t == 0 then cell.zero else states[t - 1], seqs[b][t])
              && LayerByBatch(cell, seqs)[b][t] == cell.hidden(states[t])
  {
    states := ScanSequence(cell, seqs[b]);
    forall t | 0 <= t < |seqs[b]|
      ensures states[t] == cell.step(if t == 0 then cell.zero else states[t - 1], seqs[b][t])
    {
      ScanSequenceStep(cell, seqs[b], t);
    }
  }

  /** The layers run from the first cell to the last: one more cell is applied to the result. */
  lemma {:induction false} CellsInOrder<S, X>(cells: seq<Cell<S, X>>, last: Cell<S, X>, seqs: seq<seq<X>>)
    ensures StackedByBatch<S, X>([], seqs) == seqs
    ensures StackedByBatch(cells + [last], seqs) == LayerByBatch(last, StackedByBatch(cells, seqs))
    decreases |cells|
  {
    if cells == [] {
      assert (cells + [last])[1..] == [];
    } else {
      assert (cells + [last])[1..] == cells[1..] + [last];
      CellsInOrder(cells[1..], last, LayerByBatch(cells[0], seqs));
    }
  }

  lemma {:induction false} CellsInOrderByTime<S, X>(cells: seq<Cell<S, X>>, last: Cell<S, X>, xss: seq<seq<X>>)
    ensures StackedByTime<S, X>([], xss) == Some(xss)
    ensures StackedByTime(cells + [last], xss) ==
            match StackedByTime(cells, xss)
            case None => None
            case Some(yss) => LayerByTime(last, yss)
    decreases |cells|
  {
    if cells == [] {
      assert (cells + [last])[1..] == [];
    } else {
      assert (cells + [last])[1..] == cells[1..] + [last];
      if LayerByTime(cells[0], xss).Some? {
        CellsInOrderByTime(cells[1..], last, LayerByTime(cells[0], xss).value);
      }
    }
  }

  // ---------------------------------------------------------------- which inputs the time-major form accepts

  predicate Shrinking<X>(xss: seq<seq<X>>) { forall t | 0 < t < |xss| :: |xss[t]| <= |xss[t - 1]| }

  /** At least one row, no row empty, and no row wider than the one before it. */
  predicate Processable<X>(xss: seq<seq<X>>) {
    xss != [] && Shrinking(xss) && forall t | 0 <= t < |xss| :: xss[t] != []
  }

  lemma {:induction false} RunsIffShrinking<S, X>(cell: Cell<S, X>, init: seq<S>, xss: seq<seq<X>>)
    requires xss != [] ==> |init| == |xss[0]|
    ensures Scan(BatchedCell(cell), init, xss).Some? <==> Shrinking(xss) && forall t | 0 <= t < |xss| :: xss[t] != []
    ensures Scan(BatchedCell(cell), init, xss).Some? ==>
      forall t | 0 <= t < |xss| :: |Scan(BatchedCell(cell), init, xss).value[t]| == |xss[t]|
  {
    if xss != [] {
      var n := |xss| - 1;
      RunsIffShrinking(cell, init, xss[..n]);
      assert Shrinking(xss) <==> Shrinking(xss[..n]) && (n > 0 ==> |xss[n]| <= |xss[n - 1]|);
    }
  }

  /** A layer runs through on exactly these batches, and keeps the width of every row. */
  lemma LayerRunsIffProcessable<S, X>(cell: Cell<S, X>, xss: seq<seq<X>>)
    ensures LayerByTime(cell, xss).Some? <==> Processable(xss)
    ensures LayerByTime(cell, xss).Some? ==> Lengths(LayerByTime(cell, xss).value) == Lengths(xss)
  {
    if xss != [] { RunsIffShrinking(cell, seq(|xss[0]|, b => cell.zero), xss); }
  }

  /** So does any number of layers from one on. */
  lemma {:induction false} StackRunsIffProcessable<S, X>(cells: seq<Cell<S, X>>, xss: seq<seq<X>>)
    requires cells != []
    ensures StackedByTime(cells, xss).Some? <==> Processable(xss)
    decreases |cells|
  {
    LayerRunsIffProcessable(cells[0], xss);
    if |cells| > 1 && Processable(xss) {
      var yss := LayerByTime(cells[0], xss).value;
      forall t | 0 <= t < |yss|
        ensures |yss[t]| == |xss[t]|
      {
        assert Lengths(yss)[t] == Lengths(xss)[t];
      }
      assert |Lengths(yss)| == |Lengths(xss)|;
      StackRunsIffProcessable(cells[1..], yss);
    } else if |cells| == 1 {
      assert cells[1..] == [];
    }
  }

  lemma {:induction false} ShrinkingIsSorted<X>(xss: seq<seq<X>>, s: nat, t: nat)
    requires Shrinking(xss) && s <= t < |xss|
    ensures |xss[s]| >= |xss[t]|
    decreases t
  {
    if s < t { ShrinkingIsSorted(xss, s, t - 1); }
  }

  // ---------------------------------------------------------------- transposing twice

  lemma {:induction false} WidthFromThreshold(ws: seq<nat>, b: nat, k: nat)
    requires k <= |ws| && forall t | 0 <= t < |ws| :: ws[t] > b <==> t < k
    ensures Width(ws, b) == k
  {
    if ws != [] {
      var n := |ws| - 1;
      assert forall t | 0 <= t < n :: ws[..n][t] == ws[t];
      WidthFromThreshold(ws[..n], b, if k <= n then k else n);
    }
  }

  lemma {:induction false} WidthsSorted(lens: seq<nat>, s: nat, t: nat)
    requires s <= t
    ensures Width(lens, s) >= Width(lens, t)
    decreases t
  {
    if s < t {
      WidthShrinks(lens, t - 1);
      WidthsSorted(lens, s, t - 1);
    }
  }

  /** Transposition is its own inverse on ragged data without empty sequences, so every
      time-major batch with nonempty, never widening rows comes from a batch-major one. */
  lemma TransposeTwice<X>(seqs: seq<seq<X>>)
    requires Ragged(seqs) && forall b | 0 <= b < |seqs| :: seqs[b] != []
    ensures Ragged(Transpose(seqs)) && Transpose(Transpose(seqs)) == seqs
  {
    var lens, rows := Lengths(seqs), Transpose(seqs);
    forall s, t | 0 <= s < t < |rows|
      ensures Lengths(rows)[s] >= Lengths(rows)[t]
    {
      WidthsSorted(lens, s, t);
    }
    assert forall b | 0 <= b < |lens| :: lens[b] > 0;
    WidthFull(lens, 0);
    assert |Transpose(rows)| == |seqs|;
    forall b | 0 <= b < |seqs|
      ensures Transpose(rows)[b] == seqs[b]
    {
      ColumnIsSequence(seqs, b);
    }
  }

  lemma ColumnIsSequence<X>(seqs: seq<seq<X>>, b: nat)
    requires Ragged(seqs) && Ragged(Transpose(seqs)) && b < |seqs| && b < |Transpose(Transpose(seqs))|
    ensures Transpose(Transpose(seqs))[b] == seqs[b]
  {
    var lens, rows := Lengths(seqs), Transpose(seqs);
    assert lens[0] >= lens[b];
    forall t | 0 <= t < |rows|
      ensures |rows[t]| > b <==> t < |seqs[b]|
    {
      WidthIsPrefix(lens, t);
      assert lens[b] > t <==> b < Width(lens, t);
    }
    assert forall t | 0 <= t < |rows| :: Lengths(rows)[t] > b <==> t < |seqs[b]|;
    WidthFromThreshold(Lengths(rows), b, |seqs[b]|);
  }

  /** On exactly the time-major batches on which it runs through, the shrinking-batch
      program computes the per-sequence scans. */
  lemma TimeMajorMeaning<S(!new), X>(cells: seq<Cell<S, X>>, xss: seq<seq<X>>)
    requires cells != []
    ensures StackedByTime(cells, xss).Some? <==> Processable(xss)
    ensures Processable(xss) ==>
      && Ragged(xss) && Ragged(Transpose(xss)) && Ragged(StackedByBatch(cells, Transpose(xss)))
      && StackedByTime(cells, xss) == Some(Transpose(StackedByBatch(cells, Transpose(xss))))
  {
    StackRunsIffProcessable(cells, xss);
    if Processable(xss) {
      forall s, t | 0 <= s < t < |xss|
        ensures Lengths(xss)[s] >= Lengths(xss)[t]
      {
        ShrinkingIsSorted(xss, s, t);
      }
      TransposeTwice(xss);
      assert |Transpose(xss)[0]| == Width(Lengths(xss), 0);
      assert forall t | 0 <= t < |xss| :: Lengths(xss)[t] > 0;
      WidthFull(Lengths(xss), 0);
      StackCommutes(cells, Transpose(xss));
    }
  }

  // ---------------------------------------------------------------- the data set

  function SumOf(xs: seq<nat>): nat {
    if xs == [] then 0 else SumOf(xs[..|xs| - 1]) + xs[|xs| - 1]
  }

  /** Widths of the first m rows. */
  function Widths(lens: seq<nat>, m: nat): seq<nat> { seq(m, t requires 0 <= t => Width(lens, t)) }

  function Capped(lens: seq<nat>, m: nat): seq<nat> {
    seq(|lens|, b requires 0 <= b < |lens| => if lens[b] < m then lens[b] else m)
  }

  /** Counting words by rows or by sequences gives the same number. */
  lemma {:induction false} WordsByRowsAndSequences(lens: seq<nat>, m: nat)
    ensures SumOf(Widths(lens, m)) == SumOf(Capped(lens, m))
    decreases m
  {
    if m == 0 {
      AllZero(Capped(lens, 0));
    } else {
      WordsByRowsAndSequences(lens, m - 1);
      assert Widths(lens, m)[..m - 1] == Widths(lens, m - 1);
      OneMoreRow(lens, m - 1);
    }
  }

  lemma {:induction false} AllZero(xs: seq<nat>)
    requires forall i | 0 <= i < |xs| :: xs[i] == 0
    ensures SumOf(xs) == 0
  {
    if xs != [] { AllZero(xs[..|xs| - 1]); }
  }

  lemma {:induction false} OneMoreRow(lens: seq<nat>, m: nat)
    ensures SumOf(Capped(lens, m + 1)) == SumOf(Capped(lens, m)) + Width(lens, m)
  {
    if lens != [] {
      var n := |lens| - 1;
      OneMoreRow(lens[..n], m);
      assert Capped(lens, m + 1)[..n] == Capped(lens[..n], m + 1);
      assert Capped(lens, m)[..n] == Capped(lens[..n], m);
    }
  }

  /** gen_dataset_time_major, after the lengths have been drawn and sorted; `token` stands
      for the random draw of the word at (row, column). */
  method GenDatasetTimeMajor(lens: seq<nat>, token: (nat, nat) -> int) returns (rows: seq<seq<int>>)
    requires lens != [] && Sorted(lens)
    ensures |rows| == lens[0]
    ensures forall t | 0 <= t < |rows| :: |rows[t]| == Width(lens, t)
    ensures forall t, b | 0 <= t < |rows| && 0 <= b < |rows[t]| :: rows[t][b] == token(t, b)
    ensures SumOf(Lengths(rows)) == SumOf(lens)
  {
    var n := |lens|;
    rows := [];
    WidthOfRow(lens, n);
    for i := 0 to lens[n - 1]
      invariant |rows| == i && Filled(lens, token, rows)
    {
      rows := rows + [Row(token, i, n)];
    }
    var batch: nat := n - 1;
    for j := n - 1 downto 0
      invariant batch == j && |rows| == lens[j] && Filled(lens, token, rows)
    {
      WidthOfRow(lens, batch);
      var num := lens[j] - lens[j + 1];
      for i := 0 to num
        invariant |rows| == lens[j + 1] + i && Filled(lens, token, rows)
      {
        rows := rows + [Row(token, |rows|, batch)];
      }
      batch := batch - 1;
    }
    assert Lengths(rows) == Widths(lens, lens[0]);
    WordsByRowsAndSequences(lens, lens[0]);
    assert Capped(lens, lens[0]) == lens;
  }

  function Row(token: (nat, nat) -> int, t: nat, width: nat): seq<int> {
    seq(width, b requires 0 <= b => token(t, b))
  }

  ghost predicate Filled(lens: seq<nat>, token: (nat, nat) -> int, rows: seq<seq<int>>) {
    forall t | 0 <= t < |rows| :: rows[t] == Row(token, t, Width(lens, t))
  }

  /** Rows between the lengths of sequence k and of sequence k - 1 have width k. */
  lemma WidthOfRow(lens: seq<nat>, k: nat)
    requires Sorted(lens) && 1 <= k <= |lens|
    ensures forall t | (if k < |lens| then lens[k] else 0) <= t < lens[k - 1] :: Width(lens, t) == k
  {
    forall t | (if k < |lens| then lens[k] else 0) <= t < lens[k - 1]
      ensures Width(lens, t) == k
    {
      WidthFromThreshold(lens, t, k);
    }
  }
}
