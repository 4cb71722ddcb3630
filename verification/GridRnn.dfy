module GridRnn {

  /** A stacked grid RNN: the cell at (d, i, j) reads the outputs of (d-1, i, j), (d, i-1, j) and
      (d, i, j-1).  The source runs the cells in a loop nest; the documentation claims that
      any order respecting these reads will do.  The cell function is left arbitrary, so it may
      use either component of each neighbour. */

  datatype Pt = Pt(d: nat, i: nat, j: nat)

  /** Both hidden vectors of a cell: h_output[d][i][j][0] and [1]. */
  datatype Out<V> = Out(hx: V, hy: V)

  datatype Grid<!V> = Grid(depth: nat, srcs: seq<V>, trgs: seq<V>, zero: V,
                           cell: (nat, V, V, Out<V>, Out<V>) -> Out<V>) {

    predicate Has(p: Pt) { p.d < depth && p.i < |srcs| && p.j < |trgs| }

    /** One cell, given what it reads: the layer below, the previous row and the previous column. */
    function Apply(p: Pt, below: Out<V>, left: Out<V>, down: Out<V>): Out<V>
      requires Has(p)
    {
      var x := if p.d == 0 then srcs[p.i] else below.hx;
      var y := if p.d == 0 then trgs[p.j] else below.hy;
      cell(p.d, x, y, if p.i == 0 then NOTHING else left, if p.j == 0 then NOTHING else down)
    }

    const NOTHING: Out<V> := Out(zero, zero)

    /** The value of a cell, by recursion over what it depends on. */
    function Val(p: Pt): Out<V>
      requires Has(p)
      decreases p.d + p.i + p.j
    {
      Apply(p,
        if p.d == 0 then NOTHING else Val(Below(p)),
        if p.i == 0 then NOTHING else Val(Left(p)),
        if p.j == 0 then NOTHING else Val(Down(p)))
    }
  }

  /** The program's cell: both states are the first hidden vector of their neighbour. */
  function FirstOfBoth<V>(m: (nat, V, V, V, V) -> Out<V>): (nat, V, V, Out<V>, Out<V>) -> Out<V> {
    (d: nat, x: V, y: V, left: Out<V>, down: Out<V>) => m(d, x, y, left.hx, down.hx)
  }

  /** The cell of the documentation: each direction has its own hidden vector. */
  function EachItsOwn<V>(m: (nat, V, V, V, V) -> Out<V>): (nat, V, V, Out<V>, Out<V>) -> Out<V> {
    (d: nat, x: V, y: V, left: Out<V>, down: Out<V>) => m(d, x, y, left.hx, down.hy)
  }

  function Below(p: Pt): Pt
    requires p.d > 0
  {
    p.(d := p.d - 1)
  }

  function Left(p: Pt): Pt
    requires p.i > 0
  {
    p.(i := p.i - 1)
  }

  function Down(p: Pt): Pt
    requires p.j > 0
  {
    p.(j := p.j - 1)
  }

  /** p reads q. */
  predicate Reads(p: Pt, q: Pt) {
    (p.d > 0 && q == Below(p)) || (p.i > 0 && q == Left(p)) || (p.j > 0 && q == Down(p))
  }

  /** The values satisfy the equations of the loop body, with the cell of the program. */
  lemma ProgramEquations<V>(g: Grid<V>, m: (nat, V, V, V, V) -> Out<V>, d: nat, i: nat, j: nat)
    requires g.cell == FirstOfBoth(m) && d < g.depth && i < |g.srcs| && j < |g.trgs|
    ensures g.Val(Pt(d, i, j)) == m(d,
              if d == 0 then g.srcs[i] else g.Val(Pt(d - 1, i, j)).hx,
              if d == 0 then g.trgs[j] else g.Val(Pt(d - 1, i, j)).hy,
              if i == 0 then g.zero else g.Val(Pt(d, i - 1, j)).hx,
              if j == 0 then g.zero else g.Val(Pt(d, i, j - 1)).hx)
  {
    var p := Pt(d, i, j);
    var below := if d == 0 then g.NOTHING else g.Val(Below(p));
    var left := if i == 0 then g.NOTHING else g.Val(Left(p));
    var down := if j == 0 then g.NOTHING else g.Val(Down(p));
    var x := if d == 0 then g.srcs[i] else below.hx;
    var y := if d == 0 then g.trgs[j] else below.hy;
    assert g.Val(p) == g.Apply(p, below, left, down);
    assert g.Apply(p, below, left, down) == g.cell(d, x, y, left, down);
    assert g.cell(d, x, y, left, down) == m(d, x, y, left.hx, down.hx);
  }

  /** Cells that pass their inputs through deliver the words of their row and column, at any depth. */
  lemma {:induction false} InputsRise<V>(g: Grid<V>, p: Pt)
    requires g.Has(p) && forall d, x, y, left, down :: g.cell(d, x, y, left, down) == Out(x, y)
    ensures g.Val(p) == Out(g.srcs[p.i], g.trgs[p.j])
    decreases p.d
  {
    if p.d > 0 { InputsRise(g, Below(p)); }
  }

  /** Counts the states it is given, the first along the source and the second along the target. */
  function CountStates(): (nat, int, int, Out<int>, Out<int>) -> Out<int> {
    (d: nat, x: int, y: int, left: Out<int>, down: Out<int>) => Out(left.hx + 1, down.hy + 1)
  }

  /** Such cells find their own coordinates. */
  lemma {:induction false} StatesAdvance(g: Grid<int>, p: Pt)
    requires g.Has(p) && g.cell == CountStates()
    ensures g.Val(p) == Out(g.zero + p.i + 1, g.zero + p.j + 1)
    decreases p.i + p.j
  {
    if p.i > 0 { StatesAdvance(g, Left(p)); }
    if p.j > 0 { StatesAdvance(g, Down(p)); }
    var below := if p.d == 0 then g.NOTHING else g.Val(Below(p));
    var left := if p.i == 0 then g.NOTHING else g.Val(Left(p));
    var down := if p.j == 0 then g.NOTHING else g.Val(Down(p));
    assert g.Val(p) == g.Apply(p, below, left, down) == Out(left.hx + 1, down.hy + 1);
  }

  type Maker = (nat, int, int, int, int) -> Out<int>

  /** With this cell the program's grid and the documentation's have the same value at p. */
  predicate AgreeAt(depth: nat, srcs: seq<int>, trgs: seq<int>, zero: int, m: Maker, p: Pt) {
    var g, h := Grid(depth, srcs, trgs, zero, FirstOfBoth(m)), Grid(depth, srcs, trgs, zero, EachItsOwn(m));
    g.Has(p) ==> g.Val(p) == h.Val(p)
  }

  ghost predicate Agree(depth: nat, srcs: seq<int>, trgs: seq<int>, zero: int, m: Maker) {
    forall p :: AgreeAt(depth, srcs, trgs, zero, m, p)
  }

  /** With one target word no cell has a neighbour in the y direction. */
  lemma {:induction false} OneColumnAgrees(depth: nat, srcs: seq<int>, trgs: seq<int>, zero: int, m: Maker, p: Pt)
    requires |trgs| <= 1
    ensures AgreeAt(depth, srcs, trgs, zero, m, p)
    decreases p.d + p.i
  {
    if p.d < depth && p.i < |srcs| && p.j < |trgs| {
      if p.d > 0 { OneColumnAgrees(depth, srcs, trgs, zero, m, Below(p)); }
      if p.i > 0 { OneColumnAgrees(depth, srcs, trgs, zero, m, Left(p)); }
    }
  }

  /** A cell that passes its y state on, to both components but differently. */
  function Witness(): Maker {
    (d: nat, x: int, y: int, sx: int, sy: int) => Out(sy + 1, sy + 2)
  }

  lemma SecondColumnDiffers(depth: nat, srcs: seq<int>, trgs: seq<int>, zero: int)
    requires depth > 0 && srcs != [] && |trgs| > 1
    ensures !AgreeAt(depth, srcs, trgs, zero, Witness(), Pt(0, 0, 1))
  {
    var g := Grid(depth, srcs, trgs, zero, FirstOfBoth(Witness()));
    var h := Grid(depth, srcs, trgs, zero, EachItsOwn(Witness()));
    assert g.Val(Pt(0, 0, 0)) == h.Val(Pt(0, 0, 0)) == Out(zero + 1, zero + 2);
    assert g.Val(Pt(0, 0, 1)).hx == zero + 2 && h.Val(Pt(0, 0, 1)).hx == zero + 3;
  }

  /** The program's cell and the documentation's give the same grid, whatever the cell function,
      if and only if the grid is empty or has a single target word. */
  lemma CellsAgreeIffOneColumn(depth: nat, srcs: seq<int>, trgs: seq<int>, zero: int)
    ensures (forall m :: Agree(depth, srcs, trgs, zero, m)) <==> depth == 0 || srcs == [] || |trgs| <= 1
  {
    if depth == 0 || srcs == [] || |trgs| <= 1 {
      forall m, p
        ensures AgreeAt(depth, srcs, trgs, zero, m, p)
      {
        if |trgs| <= 1 { OneColumnAgrees(depth, srcs, trgs, zero, m, p); }
      }
      assert forall m :: Agree(depth, srcs, trgs, zero, m);
    } else {
      SecondColumnDiffers(depth, srcs, trgs, zero);
      assert !Agree(depth, srcs, trgs, zero, Witness());
    }
  }

  // ---------------------------------------------------------------- the loop nest

  predicate Before(p: Pt, q: Pt) {
    p.d < q.d || (p.d == q.d && (p.i < q.i || (p.i == q.i && p.j < q.j)))
  }

  ghost predicate Shaped<V>(g: Grid<V>, h: array3<Out<V>>) {
    h.Length0 == g.depth && h.Length1 == |g.srcs| && h.Length2 == |g.trgs|
  }

  ghost predicate Holds<V>(g: Grid<V>, h: array3<Out<V>>, p: Pt)
    requires Shaped(g, h)
    reads h
  {
    g.Has(p) ==> h[p.d, p.i, p.j] == g.Val(p)
  }

  /** All cells the loop nest visits before q hold their values. */
  ghost predicate Done<V>(g: Grid<V>, h: array3<Out<V>>, q: Pt)
    requires Shaped(g, h)
    reads h
  {
    forall p | Before(p, q) :: Holds(g, h, p)
  }

  /** Cell (d, i, j) holds what the loop body computes from the cells it reads. */
  ghost predicate Computed<V>(g: Grid<V>, h: array3<Out<V>>, d: nat, i: nat, j: nat)
    requires Shaped(g, h) && d < g.depth && i < |g.srcs| && j < |g.trgs|
    reads h
  {
    h[d, i, j] == g.cell(d,
      if d == 0 then g.srcs[i] else h[d - 1, i, j].hx,
      if d == 0 then g.trgs[j] else h[d - 1, i, j].hy,
      if i == 0 then Out(g.zero, g.zero) else h[d, i - 1, j],
      if j == 0 then Out(g.zero, g.zero) else h[d, i, j - 1])
  }

  lemma Equation<V>(g: Grid<V>, h: array3<Out<V>>, d: nat, i: nat, j: nat)
    requires Shaped(g, h) && g.Has(Pt(d, i, j)) && forall p :: Holds(g, h, p)
    ensures Computed(g, h, d, i, j)
  {
    var p := Pt(d, i, j);
    assert Holds(g, h, p);
    assert d > 0 ==> Holds(g, h, Pt(d - 1, i, j));
    assert i > 0 ==> Holds(g, h, Pt(d, i - 1, j));
    assert j > 0 ==> Holds(g, h, Pt(d, i, j - 1));
  }

  /** GridRNNNaive.forward: three nested loops filling h_output in place. */
  method Forward<V>(g: Grid<V>, h: array3<Out<V>>)
    requires Shaped(g, h)
    modifies h
    ensures forall p | g.Has(p) :: h[p.d, p.i, p.j] == g.Val(p)
    ensures forall d: nat, i: nat, j: nat | d < g.depth && i < |g.srcs| && j < |g.trgs| ::
              Computed(g, h, d, i, j)
  {
    for d := 0 to g.depth
      invariant Done(g, h, Pt(d, 0, 0))
    {
      for i := 0 to |g.srcs|
        invariant Done(g, h, Pt(d, i, 0))
      {
        for j := 0 to |g.trgs|
          invariant Done(g, h, Pt(d, i, j))
        {
          Visit(g, h, d, i, j);
        }
      }
    }
    forall p | g.Has(p) ensures Holds(g, h, p) { assert Before(p, Pt(g.depth, 0, 0)); }
    forall d: nat, i: nat, j: nat | d < g.depth && i < |g.srcs| && j < |g.trgs|
      ensures Computed(g, h, d, i, j)
    {
      Equation(g, h, d, i, j);
    }
  }

  /** The body of the innermost loop. */
  method Visit<V>(g: Grid<V>, h: array3<Out<V>>, d: nat, i: nat, j: nat)
    requires Shaped(g, h) && g.Has(Pt(d, i, j)) && Done(g, h, Pt(d, i, j))
    modifies h
    ensures Done(g, h, Pt(d, i, j + 1))
  {
    ghost var p := Pt(d, i, j);
    assert d > 0 ==> Holds(g, h, Below(p));
    assert i > 0 ==> Holds(g, h, Left(p));
    assert j > 0 ==> Holds(g, h, Down(p));
    var x := if d == 0 then g.srcs[i] else h[d - 1, i, j].hx;
    var y := if d == 0 then g.trgs[j] else h[d - 1, i, j].hy;
    var left := if i == 0 then g.NOTHING else h[d, i - 1, j];
    var down := if j == 0 then g.NOTHING else h[d, i, j - 1];
    var out := g.cell(d, x, y, left, down);
    assert out == g.Val(p);
    h[d, i, j] := out;
    forall q | Before(q, Pt(d, i, j + 1))
      ensures Holds(g, h, q)
    {
      if q != p { assert Before(q, p) && old(Holds(g, h, q)); }
    }
  }

  // ---------------------------------------------------------------- any order

  /** The cells computed so far. */
  type Table<V> = map<Pt, Out<V>>

  /** A cell may run once everything it reads has been written, and only once. */
  predicate Ready<V>(g: Grid<V>, table: Table<V>, p: Pt) {
    g.Has(p) && p !in table
    && (p.d > 0 ==> Below(p) in table) && (p.i > 0 ==> Left(p) in table) && (p.j > 0 ==> Down(p) in table)
  }

  function Read<V>(g: Grid<V>, table: Table<V>, p: Pt): Out<V> { if p in table then table[p] else g.NOTHING }

  function Execute<V>(g: Grid<V>, table: Table<V>, p: Pt): Table<V>
    requires g.Has(p)
  {
    table[p := g.Apply(p,
      if p.d == 0 then g.NOTHING else Read(g, table, Below(p)),
      if p.i == 0 then g.NOTHING else Read(g, table, Left(p)),
      if p.j == 0 then g.NOTHING else Read(g, table, Down(p)))]
  }

  predicate Covers<V>(g: Grid<V>, order: seq<Pt>) { forall k | 0 <= k < |order| :: g.Has(order[k]) }

  /** The table after executing the cells of `order` one by one. */
  function RunOrder<V>(g: Grid<V>, order: seq<Pt>): Table<V>
    requires Covers(g, order)
  {
    if order == [] then map[] else Execute(g, RunOrder(g, order[..|order| - 1]), order[|order| - 1])
  }

  /** Every cell is ready when its turn comes. */
  predicate Legal<V>(g: Grid<V>, order: seq<Pt>)
    requires Covers(g, order)
  {
    forall k | 0 <= k < |order| :: Ready(g, RunOrder(g, order[..k]), order[k])
  }

  lemma {:induction false} RunKeys<V>(g: Grid<V>, order: seq<Pt>)
    requires Covers(g, order)
    ensures RunOrder(g, order).Keys == set k | 0 <= k < |order| :: order[k]
  {
    if order != [] {
      var n := |order| - 1;
      RunKeys(g, order[..n]);
      assert (set k | 0 <= k < |order| :: order[k]) == (set k | 0 <= k < n :: order[..n][k]) + {order[n]};
    }
  }

  /** Without its last step a legal order is legal, and the last cell is then ready. */
  lemma LegalPrefix<V>(g: Grid<V>, order: seq<Pt>)
    requires Covers(g, order) && Legal(g, order) && order != []
    ensures var front, p := order[..|order| - 1], order[|order| - 1];
      && Covers(g, front) && Legal(g, front) && Ready(g, RunOrder(g, front), p)
      && RunOrder(g, order) == Execute(g, RunOrder(g, front), p)
  {
    var n := |order| - 1;
    var front := order[..n];
    forall k | 0 <= k < n
      ensures Ready(g, RunOrder(g, front[..k]), front[k])
    {
      assert front[..k] == order[..k] && front[k] == order[k];
    }
    assert Ready(g, RunOrder(g, order[..n]), order[n]);
  }

  /** Whatever the legal order, every computed cell has the value the recursion defines. */
  lemma {:induction false} RunValues<V>(g: Grid<V>, order: seq<Pt>)
    requires Covers(g, order) && Legal(g, order)
    ensures forall p | p in RunOrder(g, order) :: g.Has(p) && RunOrder(g, order)[p] == g.Val(p)
  {
    if order != [] {
      var n := |order| - 1;
      LegalPrefix(g, order);
      RunValues(g, order[..n]);
      ExecuteGivesVal(g, RunOrder(g, order[..n]), order[n]);
    }
  }

  /** A ready cell reads the values of its dependences, so it computes its own. */
  lemma ExecuteGivesVal<V>(g: Grid<V>, table: Table<V>, p: Pt)
    requires Ready(g, table, p) && forall q | q in table :: g.Has(q) && table[q] == g.Val(q)
    ensures Execute(g, table, p) == table[p := g.Val(p)]
  {
  }

  /** All points of the grid. */
  function Points<V>(g: Grid<V>): (r: set<Pt>)
    ensures forall p :: p in r <==> g.Has(p)
  {
    Box(g.depth, |g.srcs|, |g.trgs|)
  }

  function Line(d: nat, i: nat, m: nat): (r: set<Pt>)
    ensures forall p :: p in r <==> p.d == d && p.i == i && p.j < m
    ensures |r| == m
  {
    if m == 0 then {} else Line(d, i, m - 1) + {Pt(d, i, m - 1)}
  }

  function Plane(d: nat, n: nat, m: nat): (r: set<Pt>)
    ensures forall p :: p in r <==> p.d == d && p.i < n && p.j < m
    ensures |r| == n * m
  {
    if n == 0 then {}
    else
      assert n * m == (n - 1) * m + m;
      assert Plane(d, n - 1, m) !! Line(d, n - 1, m);
      Plane(d, n - 1, m) + Line(d, n - 1, m)
  }

  function Box(l: nat, n: nat, m: nat): (r: set<Pt>)
    ensures forall p :: p in r <==> p.d < l && p.i < n && p.j < m
    ensures |r| == l * (n * m)
  {
    if l == 0 then {}
    else
      assert l * (n * m) == (l - 1) * (n * m) + n * m;
      assert Box(l - 1, n, m) !! Plane(l - 1, n, m);
      Box(l - 1, n, m) + Plane(l - 1, n, m)
  }

  /** Execution never gets stuck: while some cell is missing, some cell is ready. */
  lemma NeverStuck<V>(g: Grid<V>, order: seq<Pt>, missing: Pt) returns (p: Pt)
    requires Covers(g, order) && g.Has(missing) && missing !in RunOrder(g, order)
    ensures Ready(g, RunOrder(g, order), p)
    decreases missing.d + missing.i + missing.j
  {
    var table := RunOrder(g, order);
    if missing.d > 0 && Below(missing) !in table {
      p := NeverStuck(g, order, Below(missing));
    } else if missing.i > 0 && Left(missing) !in table {
      p := NeverStuck(g, order, Left(missing));
    } else if missing.j > 0 && Down(missing) !in table {
      p := NeverStuck(g, order, Down(missing));
    } else {
      p := missing;
    }
  }

  /** A legal order repeats no cell. */
  lemma {:induction false} LegalIsDistinct<V>(g: Grid<V>, order: seq<Pt>)
    requires Covers(g, order) && Legal(g, order)
    ensures |RunOrder(g, order)| == |order|
  {
    if order != [] {
      LegalPrefix(g, order);
      LegalIsDistinct(g, order[..|order| - 1]);
    }
  }

  /** A legal order that cannot be extended has run depth * src_len * trg_len steps, and its
      table is the one the loop nest computes. */
  lemma EveryOrderAgrees<V>(g: Grid<V>, order: seq<Pt>)
    requires Covers(g, order) && Legal(g, order)
    requires forall p :: !Ready(g, RunOrder(g, order), p)
    ensures |order| == g.depth * (|g.srcs| * |g.trgs|)
    ensures RunOrder(g, order) == map p | p in Points(g) :: g.Val(p)
  {
    RunValues(g, order);
    CompleteKeys(g, order);
    LegalIsDistinct(g, order);
    var table := RunOrder(g, order);
    assert |table| == |table.Keys|;
  }

  lemma CompleteKeys<V>(g: Grid<V>, order: seq<Pt>)
    requires Covers(g, order) && forall p :: !Ready(g, RunOrder(g, order), p)
    ensures RunOrder(g, order).Keys == Points(g)
  {
    var table := RunOrder(g, order);
    forall p | p in Points(g)
      ensures p in table
    {
      if p !in table { var q := NeverStuck(g, order, p); }
    }
    RunKeys(g, order);
  }

  // ---------------------------------------------------------------- which orders are legal

  /** The order lists every cell of the grid once. */
  ghost predicate Enumerates<V>(g: Grid<V>, order: seq<Pt>) {
    && Covers(g, order) && (forall p | g.Has(p) :: p in order)
    && forall a, b | 0 <= a < b < |order| :: order[a] != order[b]
  }

  /** An enumeration in which no cell reads a later one is legal, and leaves the table of the
      loop nest. */
  lemma NoForwardReadsIsLegal<V>(g: Grid<V>, order: seq<Pt>)
    requires Enumerates(g, order)
    requires forall a, b | 0 <= a < b < |order| :: !Reads(order[a], order[b])
    ensures Legal(g, order) && RunOrder(g, order) == map p | p in Points(g) :: g.Val(p)
  {
    forall k | 0 <= k < |order|
      ensures Ready(g, RunOrder(g, order[..k]), order[k])
    {
      ReadyAtItsTurn(g, order, k);
    }
    RunKeys(g, order);
    forall p
      ensures !Ready(g, RunOrder(g, order), p)
    {
      if g.Has(p) { assert p in order; }
    }
    EveryOrderAgrees(g, order);
  }

  lemma ReadyAtItsTurn<V>(g: Grid<V>, order: seq<Pt>, k: nat)
    requires Enumerates(g, order) && k < |order|
    requires forall a, b | 0 <= a < b < |order| :: !Reads(order[a], order[b])
    ensures Ready(g, RunOrder(g, order[..k]), order[k])
  {
    var p := order[k];
    RunKeys(g, order[..k]);
    forall q | Reads(p, q)
      ensures q in RunOrder(g, order[..k])
    {
      assert g.Has(q) && q != p;
      var a :| 0 <= a < |order| && order[a] == q;
      assert a < k;
      assert order[..k][a] == q;
    }
    assert p.d > 0 ==> Reads(p, Below(p));
    assert p.i > 0 ==> Reads(p, Left(p));
    assert p.j > 0 ==> Reads(p, Down(p));
  }

  /** Any enumeration of the grid in which cells come in order of a key that grows along the
      dependences. */
  lemma OrderedByKeyIsLegal<V>(g: Grid<V>, order: seq<Pt>, key: Pt -> int)
    requires Enumerates(g, order)
    requires forall a, b | 0 <= a < b < |order| :: key(order[a]) <= key(order[b])
    requires forall p, q | g.Has(p) && Reads(p, q) :: key(q) < key(p)
    ensures Legal(g, order) && RunOrder(g, order) == map p | p in Points(g) :: g.Val(p)
  {
    NoForwardReadsIsLegal(g, order);
  }

  /** Wavefronts: the cells of one anti-diagonal may run in any order, as may, with other
      weights, the cells of any skewed front. */
  lemma WavefrontIsLegal<V>(g: Grid<V>, order: seq<Pt>, wd: nat, wi: nat, wj: nat)
    requires wd > 0 && wi > 0 && wj > 0 && Enumerates(g, order)
    requires forall a, b | 0 <= a < b < |order| :: Front(order[a], wd, wi, wj) <= Front(order[b], wd, wi, wj)
    ensures Legal(g, order) && RunOrder(g, order) == map p | p in Points(g) :: g.Val(p)
  {
    forall p, q | Reads(p, q)
      ensures Front(q, wd, wi, wj) < Front(p, wd, wi, wj)
    {
      FrontAdvances(p, q, wd, wi, wj);
    }
    OrderedByKeyIsLegal(g, order, p => Front(p, wd, wi, wj));
  }

  lemma FrontAdvances(p: Pt, q: Pt, wd: nat, wi: nat, wj: nat)
    requires wd > 0 && wi > 0 && wj > 0 && Reads(p, q)
    ensures Front(q, wd, wi, wj) < Front(p, wd, wi, wj)
  {
    if p.d > 0 && q == Below(p) {
      OneLess(p.d, wd);
    } else if p.i > 0 && q == Left(p) {
      OneLess(p.i, wi);
    } else {
      OneLess(p.j, wj);
    }
  }

  lemma OneLess(x: nat, w: nat)
    ensures (x - 1) * w == x * w - w
  {
  }

  function Front(p: Pt, wd: nat, wi: nat, wj: nat): int {
    p.d * wd + p.i * wi + p.j * wj
  }

  // ---------------------------------------------------------------- permuted loop nests

  datatype Axis = Depth | Source | Target

  /** Three nested loops, each over one axis. */
  datatype Nest = Nest(outer: Axis, middle: Axis, inner: Axis) {
    predicate Proper() { outer != middle && middle != inner && outer != inner }

    /** The cell visited when the loop counters are a, b and c. */
    function Visited(a: nat, b: nat, c: nat): Pt {
      Pt(At(Depth, a, b, c), At(Source, a, b, c), At(Target, a, b, c))
    }

    function At(axis: Axis, a: nat, b: nat, c: nat): nat {
      if axis == outer then a else if axis == middle then b else c
    }

    /** The cells in the order in which the loops visit them. */
    function InnerLoop(a: nat, b: nat, m: nat): (r: seq<Pt>)
      ensures |r| == m
    {
      seq(m, c requires c >= 0 => Visited(a, b, c))
    }

    function MiddleLoop(a: nat, n: nat, m: nat): seq<Pt> {
      if n == 0 then [] else MiddleLoop(a, n - 1, m) + InnerLoop(a, n - 1, m)
    }

    function OuterLoop(l: nat, n: nat, m: nat): seq<Pt> {
      if l == 0 then [] else OuterLoop(l - 1, n, m) + MiddleLoop(l - 1, n, m)
    }

    predicate Precedes(p: Pt, q: Pt) {
      Coordinate(p, outer) < Coordinate(q, outer)
      || (Coordinate(p, outer) == Coordinate(q, outer)
          && (Coordinate(p, middle) < Coordinate(q, middle)
              || (Coordinate(p, middle) == Coordinate(q, middle) && Coordinate(p, inner) < Coordinate(q, inner))))
    }

    /** The loop counters of p are below these bounds. */
    predicate Bounds(p: Pt, l: nat, n: nat, m: nat) {
      Coordinate(p, outer) < l && Coordinate(p, middle) < n && Coordinate(p, inner) < m
    }
  }

  function Coordinate(p: Pt, axis: Axis): nat {
    match axis
    case Depth => p.d
    case Source => p.i
    case Target => p.j
  }

  function Extent<V>(g: Grid<V>, axis: Axis): nat {
    match axis
    case Depth => g.depth
    case Source => |g.srcs|
    case Target => |g.trgs|
  }

  /** The cells of g in the order of the nest's loops. */
  function Loops<V>(g: Grid<V>, nest: Nest): seq<Pt> {
    nest.OuterLoop(Extent(g, nest.outer), Extent(g, nest.middle), Extent(g, nest.inner))
  }

  /** The cells come in order of the outer, then the middle, then the inner counter. */
  ghost predicate Ascends(nest: Nest, order: seq<Pt>) {
    forall a, b | 0 <= a < b < |order| :: nest.Precedes(order[a], order[b])
  }

  lemma AscendAppend(nest: Nest, x: seq<Pt>, y: seq<Pt>)
    requires Ascends(nest, x) && Ascends(nest, y) && forall p, q | p in x && q in y :: nest.Precedes(p, q)
    ensures Ascends(nest, x + y)
  {
    forall a, b | 0 <= a < b < |x + y|
      ensures nest.Precedes((x + y)[a], (x + y)[b])
    {
      if a < |x| <= b { assert x[a] in x && y[b - |x|] in y; }
    }
  }

  lemma Counters(nest: Nest, a: nat, b: nat, c: nat)
    requires nest.Proper()
    ensures var p := nest.Visited(a, b, c);
      Coordinate(p, nest.outer) == a && Coordinate(p, nest.middle) == b && Coordinate(p, nest.inner) == c
  {
  }

  lemma InnerAscends(nest: Nest, a: nat, b: nat, m: nat)
    requires nest.Proper()
    ensures Ascends(nest, nest.InnerLoop(a, b, m))
    ensures forall p :: p in nest.InnerLoop(a, b, m) <==>
      Coordinate(p, nest.outer) == a && Coordinate(p, nest.middle) == b && Coordinate(p, nest.inner) < m
  {
    var order := nest.InnerLoop(a, b, m);
    forall c: nat | c < m
      ensures var p := order[c];
        Coordinate(p, nest.outer) == a && Coordinate(p, nest.middle) == b && Coordinate(p, nest.inner) == c
    {
      Counters(nest, a, b, c);
    }
    forall p | Coordinate(p, nest.outer) == a && Coordinate(p, nest.middle) == b && Coordinate(p, nest.inner) < m
      ensures p in order
    {
      assert order[Coordinate(p, nest.inner)] == p;
    }
  }

  lemma {:induction false} MiddleAscends(nest: Nest, a: nat, n: nat, m: nat)
    requires nest.Proper()
    ensures Ascends(nest, nest.MiddleLoop(a, n, m))
    ensures forall p :: p in nest.MiddleLoop(a, n, m) <==>
      Coordinate(p, nest.outer) == a && Coordinate(p, nest.middle) < n && Coordinate(p, nest.inner) < m
  {
    if n > 0 {
      MiddleAscends(nest, a, n - 1, m);
      InnerAscends(nest, a, n - 1, m);
      AscendAppend(nest, nest.MiddleLoop(a, n - 1, m), nest.InnerLoop(a, n - 1, m));
    }
  }

  lemma {:induction false} OuterAscends(nest: Nest, l: nat, n: nat, m: nat)
    requires nest.Proper()
    ensures Ascends(nest, nest.OuterLoop(l, n, m))
    ensures forall p :: p in nest.OuterLoop(l, n, m) <==> nest.Bounds(p, l, n, m)
  {
    if l > 0 {
      OuterAscends(nest, l - 1, n, m);
      MiddleAscends(nest, l - 1, n, m);
      AscendAppend(nest, nest.OuterLoop(l - 1, n, m), nest.MiddleLoop(l - 1, n, m));
    }
  }

  lemma BoundsAreHas<V>(g: Grid<V>, nest: Nest, p: Pt)
    requires nest.Proper()
    ensures nest.Bounds(p, Extent(g, nest.outer), Extent(g, nest.middle), Extent(g, nest.inner)) <==> g.Has(p)
  {
  }

  /** What a cell reads comes first in every nest. */
  lemma ReadsPrecede(nest: Nest, p: Pt, q: Pt)
    requires nest.Proper() && Reads(p, q)
    ensures nest.Precedes(q, p) && !nest.Precedes(p, q)
  {
  }

  /** The loop nest is fully permutable: whichever of the six orders its three loops are nested
      in, it is legal and computes the same table. */
  lemma AnyLoopNestAgrees<V>(g: Grid<V>, nest: Nest)
    requires nest.Proper()
    ensures Covers(g, Loops(g, nest)) && Legal(g, Loops(g, nest)) && Ascends(nest, Loops(g, nest))
    ensures RunOrder(g, Loops(g, nest)) == map p | p in Points(g) :: g.Val(p)
  {
    var order := Loops(g, nest);
    OuterAscends(nest, Extent(g, nest.outer), Extent(g, nest.middle), Extent(g, nest.inner));
    forall p
      ensures p in order <==> g.Has(p)
    {
      BoundsAreHas(g, nest, p);
    }
    forall a, b | 0 <= a < b < |order|
      ensures order[a] != order[b] && !Reads(order[a], order[b])
    {
      assert nest.Precedes(order[a], order[b]);
      if Reads(order[a], order[b]) { ReadsPrecede(nest, order[a], order[b]); }
    }
    NoForwardReadsIsLegal(g, order);
  }
}
