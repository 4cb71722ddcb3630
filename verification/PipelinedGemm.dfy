module PipelinedGemm {

  /** The software-pipelined GEMM kernel as one thread block executes it: the three loop
      phases, the ring pointers with their wrap-around, the two-operand asynchronous copy
      object, and registers filled one step ahead of use.

      Here copies land when a `wait_group` requires it; PipelineMachine covers copies
      landing at any moment and threads running at different speeds. */

  import opened Arith

  /** One cp.async of a tile: which operand, and which (row, col) of its copy partition. */
  datatype Key = Key(operand: nat, row: nat, col: nat)

  /** Contents of a ring slot, or of a copy group. */
  type Tile<T> = map<Key, T>

  datatype Group<T> = Group(slot: int, cells: Tile<T>)

  /** Row and column counts of the two operands' copy partitions. */
  datatype Shape = Shape(rows1: nat, cols1: nat, rows2: nat, cols2: nat) {
    predicate Proper() { rows1 > 0 && cols1 > 0 && rows2 > 0 && cols2 > 0 }

    function Rows(operand: nat): nat { if operand == 1 then rows1 else rows2 }

    function Cols(operand: nat): nat { if operand == 1 then cols1 else cols2 }

    function Size(operand: nat): nat { Rows(operand) * Cols(operand) }

    predicate Has(k: Key) {
      (k.operand == 1 || k.operand == 2) && k.row < Rows(k.operand) && k.col < Cols(k.operand)
    }

    /** copy2's translation of a position to a row and a column. */
    function KeyAt(operand: nat, pos: nat): Key
      requires Proper()
    {
      Key(operand, pos / Cols(operand), pos % Cols(operand))
    }

    function Pos(k: Key): nat { k.row * Cols(k.operand) + k.col }

    function Keys(): set<Key> {
      (set r, c | 0 <= r < rows1 && 0 <= c < cols1 :: Key(1, r, c))
      + (set r, c | 0 <= r < rows2 && 0 <= c < cols2 :: Key(2, r, c))
    }
  }

  /** The whole tile `j` of the source. */
  function TileOf<T>(shape: Shape, source: (nat, Key) -> T, j: nat): Tile<T> {
    map k | k in shape.Keys() :: source(j, k)
  }

  /** It has a cell for every row and column of both operands' copy partitions, and no other. */
  lemma TileCells<T>(shape: Shape, source: (nat, Key) -> T, j: nat, operand: nat, r: nat, c: nat)
    ensures Key(operand, r, c) in TileOf(shape, source, j) <==>
              (operand == 1 && r < shape.rows1 && c < shape.cols1)
              || (operand == 2 && r < shape.rows2 && c < shape.cols2)
    ensures Key(operand, r, c) in TileOf(shape, source, j) ==>
              TileOf(shape, source, j)[Key(operand, r, c)] == source(j, Key(operand, r, c))
  {
  }

  /** `base` overwritten with the cells of `operand` at positions lo, lo + 1, ..., hi - 1. */
  function Filled<T>(base: Tile<T>, shape: Shape, source: (nat, Key) -> T, j: nat, operand: nat, lo: nat,
                     hi: nat): Tile<T>
    requires shape.Proper()
    decreases hi - lo
  {
    if hi <= lo then base
    else
      var k := shape.KeyAt(operand, hi - 1);
      Filled(base, shape, source, j, operand, lo, hi - 1)[k := source(j, k)]
  }

  /** What the first `m` shares of a tile amount to; a share is n1 and n2 positions of the operands. */
  function Shares<T>(shape: Shape, source: (nat, Key) -> T, j: nat, n1: nat, n2: nat, m: nat): Tile<T>
    requires shape.Proper()
  {
    if m == 0 then map[] else AddShare(Shares(shape, source, j, n1, n2, m - 1), shape, source, j, n1, n2, m - 1)
  }

  function AddShare<T>(base: Tile<T>, shape: Shape, source: (nat, Key) -> T, j: nat, n1: nat, n2: nat,
                       idx: nat): Tile<T>
    requires shape.Proper()
  {
    Filled(
      Filled(base, shape, source, j, 1, idx * n1, Min(idx * n1 + n1, shape.Size(1))),
      shape, source, j, 2, idx * n2, Min(idx * n2 + n2, shape.Size(2)))
  }

  /** The cp.async operations for positions lo, lo + 1, ..., hi - 1 of an operand. */
  function KeysIn(shape: Shape, operand: nat, lo: nat, hi: nat): seq<Key>
    requires shape.Proper()
    decreases hi - lo
  {
    if hi <= lo then [] else KeysIn(shape, operand, lo, hi - 1) + [shape.KeyAt(operand, hi - 1)]
  }

  /** Those of a share that begins at positions lo1 and lo2. */
  function KeysFrom(shape: Shape, lo1: nat, n1: nat, lo2: nat, n2: nat): seq<Key>
    requires shape.Proper()
  {
    KeysIn(shape, 1, lo1, Min(lo1 + n1, shape.Size(1))) + KeysIn(shape, 2, lo2, Min(lo2 + n2, shape.Size(2)))
  }

  /** Those of the idx-th share of a tile, and of its first m shares. */
  function KeysOfShare(shape: Shape, n1: nat, n2: nat, idx: nat): seq<Key>
    requires shape.Proper()
  {
    KeysFrom(shape, idx * n1, n1, idx * n2, n2)
  }

  function KeysOfShares(shape: Shape, n1: nat, n2: nat, m: nat): seq<Key>
    requires shape.Proper()
  {
    if m == 0 then [] else KeysOfShares(shape, n1, n2, m - 1) + KeysOfShare(shape, n1, n2, m - 1)
  }

  function Min(a: nat, b: nat): nat { if a < b then a else b }

  function CeilDiv(a: nat, b: nat): nat
    requires b > 0
  {
    (a + b - 1) / b
  }

  function Land<T>(ring: seq<Tile<T>>, g: Group<T>): seq<Tile<T>>
    requires 0 <= g.slot < |ring|
  {
    ring[g.slot := ring[g.slot] + g.cells]
  }

  function LandAll<T>(ring: seq<Tile<T>>, gs: seq<Group<T>>): (r: seq<Tile<T>>)
    requires forall g | g in gs :: 0 <= g.slot < |ring|
    ensures |r| == |ring|
  {
    if gs == [] then ring else Land(LandAll(ring, gs[..|gs| - 1]), gs[|gs| - 1])
  }

  class CopyAsyncG2S<T> {
    const numStages: nat
    const shape: Shape
    const source: (nat, Key) -> T
    var src: nat
    var dst: int
    var iter: nat
    var ring: seq<Tile<T>>
    var open: Tile<T>
    var groups: seq<Group<T>>
    ghost var issued: seq<Key>

    /** The pointers agree: the destination is the slot of the tile the source denotes. */
    ghost predicate Valid()
      reads this
    {
      && numStages >= 1 && shape.Proper() && |ring| == numStages && dst == src % numStages
      && (forall g | 0 <= g < |groups| :: 0 <= groups[g].slot < numStages)
    }

    constructor (numStages: nat, shape: Shape, source: (nat, Key) -> T)
      requires numStages >= 1 && shape.Proper()
      ensures Valid() && src == 0 && iter == 0 && open == map[] && groups == [] && issued == []
      ensures this.numStages == numStages && this.shape == shape && this.source == source
      ensures forall s | 0 <= s < numStages :: ring[s] == map[]
    {
      this.numStages, this.shape, this.source := numStages, shape, source;
      src, dst, iter := 0, 0, 0;
      ring, open, groups, issued := seq(numStages, s => map[]), map[], [], [];
      new;
      DivModUnique(0, numStages, 0, 0);
    }

    method CommitCopyGroup()
      modifies this`open, this`groups
      ensures open == map[] && groups == old(groups) + [Group(dst, old(open))]
    {
      groups, open := groups + [Group(dst, open)], map[];
    }

    method Next()
      modifies this`src, this`dst
      ensures src == old(src) + 1 && dst == old(dst) + 1
    {
      src, dst := src + 1, dst + 1;
    }

    method CycleDst()
      modifies this`dst
      ensures dst == old(dst) - numStages
    {
      dst := dst - numStages;
    }

    /** Issues one cp.async, which `issued` keeps a record of. */
    method Issue(k: Key)
      modifies this`open, this`issued
      ensures open == old(open)[k := source(src, k)] && issued == old(issued) + [k]
    {
      open, issued := open[k := source(src, k)], issued + [k];
    }

    /** Loads a whole tile and moves on to the next slot, which it finds by counting its own
        calls: as long as nothing else has moved the source, that is the slot of the next tile. */
    method Copy()
      requires numStages >= 1 && shape.Proper()
      modifies this
      ensures src == old(src) + 1 && iter == old(iter) + 1 && open == map[] && ring == old(ring)
      ensures dst == old(dst) + 1 - (if iter % numStages == 0 then numStages else 0)
      ensures groups == old(groups) + [Group(old(dst), old(open) + TileOf(shape, source, old(src)))]
      ensures old(Valid() && src == iter && open == map[]) ==>
                Valid() && groups == old(groups) + [Group(old(dst), TileOf(shape, source, old(src)))]
      ensures issued == old(issued) + KeysIn(shape, 1, 0, shape.Size(1)) + KeysIn(shape, 2, 0, shape.Size(2))
    {
      ghost var base, first := open, src;
      CopyOperand(1);
      CopyOperand(2);
      FilledIsTile(base, shape, source, first);
      CommitCopyGroup();
      Next();
      if (iter + 1) % numStages == 0 {
        CycleDst();
      }
      iter := iter + 1;
      ModSucc(first, numStages);
      assert base == map[] ==> base + TileOf(shape, source, first) == TileOf(shape, source, first);
      assert groups[..|groups| - 1] == old(groups);
    }

    method CopyOperand(operand: nat)
      requires shape.Proper()
      modifies this`open, this`issued
      ensures open == Filled(old(open), shape, source, src, operand, 0, shape.Size(operand))
      ensures issued == old(issued) + KeysIn(shape, operand, 0, shape.Size(operand))
    {
      ghost var base, before := open, issued;
      for i := 0 to shape.Rows(operand)
        invariant open == Filled(base, shape, source, src, operand, 0, i * shape.Cols(operand))
        invariant issued == before + KeysIn(shape, operand, 0, i * shape.Cols(operand))
      {
        for j := 0 to shape.Cols(operand)
          invariant open == Filled(base, shape, source, src, operand, 0, i * shape.Cols(operand) + j)
          invariant issued == before + KeysIn(shape, operand, 0, i * shape.Cols(operand) + j)
        {
          KeyOfRowCol(shape, operand, i, j);
          IssuedPosition(before, shape, operand, 0, i * shape.Cols(operand) + j);
          Issue(Key(operand, i, j));
        }
        NextRow(i, shape.Cols(operand));
      }
    }

    /** Issues the idx-th share of the next tile: n1 positions of operand 1 and n2 of operand 2. */
    method Copy2(idx: nat, n1: nat, N1: nat, stride1: nat, n2: nat, N2: nat, stride2: nat)
      requires shape.Proper() && N1 == shape.Size(1) && stride1 == shape.cols1
      requires N2 == shape.Size(2) && stride2 == shape.cols2
      modifies this`open, this`issued
      ensures open == AddShare(old(open), shape, source, src, n1, n2, idx)
      ensures issued == old(issued) + KeysOfShare(shape, n1, n2, idx)
    {
      CopyShare(1, idx * n1, n1, N1, stride1);
      CopyShare(2, idx * n2, n2, N2, stride2);
    }

    /** The loop of copy2 for one operand; `first` is idx * n. */
    method CopyShare(operand: nat, first: nat, n: nat, N: nat, stride: nat)
      requires shape.Proper() && stride == shape.Cols(operand)
      modifies this`open, this`issued
      ensures open == Filled(old(open), shape, source, src, operand, first, Min(first + n, N))
      ensures issued == old(issued) + KeysIn(shape, operand, first, Min(first + n, N))
    {
      ghost var base, before := open, issued;
      var i := 0;
      while i < n && i + first < N
        invariant 0 <= i <= n && (i == 0 || i + first <= N)
        invariant open == Filled(base, shape, source, src, operand, first, i + first)
        invariant issued == before + KeysIn(shape, operand, first, i + first)
      {
        var pos := i + first;
        var row, col := pos / stride, pos % stride;
        IssuedPosition(before, shape, operand, first, pos);
        Issue(Key(operand, row, col));
        i := i + 1;
      }
    }

    /** Blocks until at most `allowed` groups are in flight; the others land in order. */
    method WaitGroup(allowed: nat)
      requires Valid()
      modifies this`ring, this`groups
      ensures Valid()
      ensures var due := if |old(groups)| <= allowed then 0 else |old(groups)| - allowed;
        groups == old(groups)[due..] && ring == LandAll(old(ring), old(groups)[..due])
    {
      ghost var k := 0;
      while |groups| > allowed
        invariant |ring| == numStages && 0 <= k <= |old(groups)| && groups == old(groups)[k..]
        invariant k > 0 ==> |groups| >= allowed
        invariant ring == LandAll(old(ring), old(groups)[..k])
        decreases |groups|
      {
        var slot := groups[0].slot;
        assert old(groups)[..k + 1][..k] == old(groups)[..k];
        ring, groups := ring[slot := ring[slot] + groups[0].cells], groups[1..];
        k := k + 1;
      }
    }
  }

  // ---------------------------------------------------------------- which cells a copy covers

  lemma KeyOfRowCol(shape: Shape, operand: nat, row: nat, col: nat)
    requires shape.Proper() && col < shape.Cols(operand)
    ensures row * shape.Cols(operand) + col >= 0
    ensures shape.KeyAt(operand, row * shape.Cols(operand) + col) == Key(operand, row, col)
  {
    MulMonotone(0, row, shape.Cols(operand));
    DivModUnique(row * shape.Cols(operand) + col, shape.Cols(operand), row, col);
  }

  lemma NextRow(row: nat, cols: nat)
    ensures row * cols + cols == (row + 1) * cols
  {
  }

  /** Positions and cells of an operand correspond one to one, so no cell is copied twice. */
  lemma KeyAtBijective(shape: Shape, operand: nat, pos: nat)
    requires shape.Proper() && (operand == 1 || operand == 2) && pos < shape.Size(operand)
    ensures shape.Has(shape.KeyAt(operand, pos)) && shape.Pos(shape.KeyAt(operand, pos)) == pos
  {
    var rows, cols := shape.Rows(operand), shape.Cols(operand);
    if pos / cols >= rows { MulMonotone(rows, pos / cols, cols); }
  }

  lemma PosInRange(shape: Shape, k: Key)
    requires shape.Proper() && shape.Has(k)
    ensures shape.Pos(k) < shape.Size(k.operand) && shape.KeyAt(k.operand, shape.Pos(k)) == k
  {
    var cols := shape.Cols(k.operand);
    MulMonotone(k.row + 1, shape.Rows(k.operand), cols);
    NextRow(k.row, cols);
    KeyOfRowCol(shape, k.operand, k.row, k.col);
  }

  /** Filling positions lo..hi touches exactly the cells at those positions. */
  lemma {:induction false} FilledCells<T>(base: Tile<T>, shape: Shape, source: (nat, Key) -> T, j: nat, operand: nat,
                                          lo: nat, hi: nat, k: Key)
    requires shape.Proper() && (operand == 1 || operand == 2) && hi <= shape.Size(operand) && shape.Has(k)
    ensures var f := Filled(base, shape, source, j, operand, lo, hi);
      if k.operand == operand && lo <= shape.Pos(k) < hi then k in f && f[k] == source(j, k)
      else (k in f <==> k in base) && (k in base ==> f[k] == base[k])
    decreases hi - lo
  {
    if lo < hi {
      FilledCells(base, shape, source, j, operand, lo, hi - 1, k);
      KeyAtBijective(shape, operand, hi - 1);
      PosInRange(shape, k);
    }
  }

  lemma {:induction false} FilledKeys<T>(base: Tile<T>, shape: Shape, source: (nat, Key) -> T, j: nat, operand: nat,
                                         lo: nat, hi: nat)
    requires shape.Proper() && (operand == 1 || operand == 2) && hi <= shape.Size(operand)
    requires forall k | k in base :: shape.Has(k)
    ensures forall k | k in Filled(base, shape, source, j, operand, lo, hi) :: shape.Has(k)
    decreases hi - lo
  {
    if lo < hi {
      FilledKeys(base, shape, source, j, operand, lo, hi - 1);
      KeyAtBijective(shape, operand, hi - 1);
    }
  }

  lemma KeysAreHas(shape: Shape, k: Key)
    ensures k in shape.Keys() <==> shape.Has(k)
  {
  }

  lemma FilledIsTile<T>(base: Tile<T>, shape: Shape, source: (nat, Key) -> T, j: nat)
    requires shape.Proper()
    ensures Filled(Filled(base, shape, source, j, 1, 0, shape.Size(1)), shape, source, j, 2, 0, shape.Size(2))
      == base + TileOf(shape, source, j)
  {
    var f1 := Filled(base, shape, source, j, 1, 0, shape.Size(1));
    var f2 := Filled(f1, shape, source, j, 2, 0, shape.Size(2));
    forall k | shape.Has(k)
      ensures k in f2 && f2[k] == source(j, k) && k in shape.Keys()
    {
      PosInRange(shape, k);
      KeysAreHas(shape, k);
      FilledCells(base, shape, source, j, 1, 0, shape.Size(1), k);
      FilledCells(f1, shape, source, j, 2, 0, shape.Size(2), k);
    }
    forall k | !shape.Has(k)
      ensures k !in shape.Keys() && (k in f2 <==> k in base) && (k in base ==> f2[k] == base[k])
    {
      KeysAreHas(shape, k);
      FilledElsewhere(base, shape, source, j, 1, 0, shape.Size(1), k);
      FilledElsewhere(f1, shape, source, j, 2, 0, shape.Size(2), k);
    }
  }

  lemma {:induction false} FilledElsewhere<T>(base: Tile<T>, shape: Shape, source: (nat, Key) -> T, j: nat,
                                              operand: nat, lo: nat, hi: nat, k: Key)
    requires shape.Proper() && (operand == 1 || operand == 2) && hi <= shape.Size(operand) && !shape.Has(k)
    ensures var f := Filled(base, shape, source, j, operand, lo, hi);
      (k in f <==> k in base) && (k in base ==> f[k] == base[k])
    decreases hi - lo
  {
    if lo < hi {
      FilledElsewhere(base, shape, source, j, operand, lo, hi - 1, k);
      KeyAtBijective(shape, operand, hi - 1);
    }
  }

  /** The shares of all k-steps together are the whole tile. */
  lemma SharesAreTile<T>(shape: Shape, source: (nat, Key) -> T, j: nat, n1: nat, n2: nat, kTiles: nat)
    requires shape.Proper() && kTiles > 0
    requires n1 == CeilDiv(shape.Size(1), kTiles) && n2 == CeilDiv(shape.Size(2), kTiles)
    ensures Shares(shape, source, j, n1, n2, kTiles) == TileOf(shape, source, j)
  {
    var f := Shares(shape, source, j, n1, n2, kTiles);
    CeilCovers(shape.Size(1), kTiles);
    CeilCovers(shape.Size(2), kTiles);
    SharesKeys(shape, source, j, n1, n2, kTiles);
    forall k | shape.Has(k)
      ensures k in f && f[k] == source(j, k) && k in shape.Keys()
    {
      PosInRange(shape, k);
      KeysAreHas(shape, k);
      SharesCells(shape, source, j, n1, n2, kTiles, k);
    }
    forall k | k in shape.Keys() ensures shape.Has(k) { KeysAreHas(shape, k); }
  }

  lemma CeilCovers(a: nat, b: nat)
    requires b > 0
    ensures b * CeilDiv(a, b) >= a
  {
    var x := a + b - 1;
    assert x == x / b * b + x % b;
  }

  /** Of the positions from lo up to hi every one is issued once. */
  lemma {:induction false} KeysInOnce(shape: Shape, operand: nat, lo: nat, hi: nat, k: Key)
    requires shape.Proper() && (operand == 1 || operand == 2) && hi <= shape.Size(operand)
    ensures multiset(KeysIn(shape, operand, lo, hi))[k] ==
      if shape.Has(k) && k.operand == operand && lo <= shape.Pos(k) < hi then 1 else 0
    decreases hi - lo
  {
    if lo < hi {
      KeysInOnce(shape, operand, lo, hi - 1, k);
      CountAppend(KeysIn(shape, operand, lo, hi - 1), [shape.KeyAt(operand, hi - 1)], k);
      IsKeyAt(shape, operand, hi - 1, k);
    }
  }

  lemma IsKeyAt(shape: Shape, operand: nat, pos: nat, k: Key)
    requires shape.Proper() && (operand == 1 || operand == 2) && pos < shape.Size(operand)
    ensures k == shape.KeyAt(operand, pos) <==> shape.Has(k) && k.operand == operand && shape.Pos(k) == pos
  {
    KeyAtBijective(shape, operand, pos);
    if shape.Has(k) { PosInRange(shape, k); }
  }

  /** One more position issued. */
  lemma IssuedPosition(before: seq<Key>, shape: Shape, operand: nat, lo: nat, hi: nat)
    requires shape.Proper() && lo <= hi
    ensures (before + KeysIn(shape, operand, lo, hi)) + [shape.KeyAt(operand, hi)]
         == before + KeysIn(shape, operand, lo, hi + 1)
  {
  }

  /** Positions of k's operand in one share. */
  function PerShare(k: Key, n1: nat, n2: nat): nat { if k.operand == 1 then n1 else n2 }

  lemma PartOnce(shape: Shape, operand: nat, lo: nat, n: nat, k: Key)
    requires shape.Proper() && (operand == 1 || operand == 2)
    ensures multiset(KeysIn(shape, operand, lo, Min(lo + n, shape.Size(operand))))[k] ==
      if shape.Has(k) && k.operand == operand && lo <= shape.Pos(k) < lo + n then 1 else 0
  {
    KeysInOnce(shape, operand, lo, Min(lo + n, shape.Size(operand)), k);
    if shape.Has(k) { PosBelowSize(shape, k); }
  }

  lemma ShareOnce(shape: Shape, lo1: nat, n1: nat, lo2: nat, n2: nat, k: Key)
    requires shape.Proper()
    ensures var lo := if k.operand == 1 then lo1 else lo2;
      multiset(KeysFrom(shape, lo1, n1, lo2, n2))[k] ==
      if shape.Has(k) && lo <= shape.Pos(k) < lo + PerShare(k, n1, n2) then 1 else 0
  {
    PartOnce(shape, 1, lo1, n1, k);
    PartOnce(shape, 2, lo2, n2, k);
    CountAppend(KeysIn(shape, 1, lo1, Min(lo1 + n1, shape.Size(1))),
                KeysIn(shape, 2, lo2, Min(lo2 + n2, shape.Size(2))), k);
  }

  lemma PosBelowSize(shape: Shape, k: Key)
    requires shape.Proper() && shape.Has(k)
    ensures shape.Pos(k) < shape.Size(k.operand)
  {
    PosInRange(shape, k);
  }

  /** Cell k is issued once if its position is from lo up to hi, and otherwise not at all. */
  ghost predicate OnceWithin(s: seq<Key>, shape: Shape, k: Key, lo: nat, hi: nat) {
    multiset(s)[k] == if shape.Has(k) && lo <= shape.Pos(k) < hi then 1 else 0
  }

  lemma Adjoin(a: seq<Key>, b: seq<Key>, shape: Shape, k: Key, lo: nat, mid: nat, hi: nat)
    requires lo <= mid <= hi && OnceWithin(a, shape, k, lo, mid) && OnceWithin(b, shape, k, mid, hi)
    ensures OnceWithin(a + b, shape, k, lo, hi)
  {
    CountAppend(a, b, k);
  }

  lemma IthShareOnce(shape: Shape, n1: nat, n2: nat, idx: nat, k: Key, lo: nat)
    requires shape.Proper() && lo == idx * PerShare(k, n1, n2)
    ensures OnceWithin(KeysOfShare(shape, n1, n2, idx), shape, k, lo, lo + PerShare(k, n1, n2))
  {
    ShareOnce(shape, idx * n1, n1, idx * n2, n2, k);
  }

  /** The first m shares issue the cells at positions below m shares' worth, each exactly once,
      and no others. */
  lemma {:induction false} SharesOnce(shape: Shape, n1: nat, n2: nat, m: nat, k: Key, bound: nat)
    requires shape.Proper() && bound == m * PerShare(k, n1, n2)
    ensures multiset(KeysOfShares(shape, n1, n2, m))[k] == if shape.Has(k) && shape.Pos(k) < bound then 1 else 0
  {
    if m > 0 {
      var w := PerShare(k, n1, n2);
      var lo := (m - 1) * w;
      NextRow(m - 1, w);
      SharesOnce(shape, n1, n2, m - 1, k, lo);
      IthShareOnce(shape, n1, n2, m - 1, k, lo);
      Adjoin(KeysOfShares(shape, n1, n2, m - 1), KeysOfShare(shape, n1, n2, m - 1), shape, k, 0, lo, lo + w);
    }
  }

  lemma CountAppend(a: seq<Key>, b: seq<Key>, k: Key)
    ensures multiset(a + b)[k] == multiset(a)[k] + multiset(b)[k]
  {
  }

  /** So the shares of all k-steps issue every (row, col) of both operands exactly once. */
  lemma TileIssuedOnce(shape: Shape, n1: nat, n2: nat, kTiles: nat)
    requires shape.Proper() && kTiles > 0
    requires n1 == CeilDiv(shape.Size(1), kTiles) && n2 == CeilDiv(shape.Size(2), kTiles)
    ensures multiset(KeysOfShares(shape, n1, n2, kTiles)) == multiset(shape.Keys())
  {
    CeilCovers(shape.Size(1), kTiles);
    CeilCovers(shape.Size(2), kTiles);
    forall k: Key
      ensures multiset(KeysOfShares(shape, n1, n2, kTiles))[k] == multiset(shape.Keys())[k]
    {
      SharesOnce(shape, n1, n2, kTiles, k, kTiles * PerShare(k, n1, n2));
      KeysAreHas(shape, k);
      if shape.Has(k) { PosBelowSize(shape, k); }
    }
  }

  /** One more share issued. */
  lemma IssuedShare(before: seq<Key>, shape: Shape, n1: nat, n2: nat, m: nat)
    requires shape.Proper()
    ensures (before + KeysOfShares(shape, n1, n2, m)) + KeysOfShare(shape, n1, n2, m)
         == before + KeysOfShares(shape, n1, n2, m + 1)
  {
  }

  lemma {:induction false} SharesKeys<T>(shape: Shape, source: (nat, Key) -> T, j: nat, n1: nat, n2: nat, m: nat)
    requires shape.Proper()
    ensures forall k | k in Shares(shape, source, j, n1, n2, m) :: shape.Has(k)
  {
    if m > 0 {
      SharesKeys(shape, source, j, n1, n2, m - 1);
      var base := Shares(shape, source, j, n1, n2, m - 1);
      ShareKeys(base, shape, source, j, 1, (m - 1) * n1, n1);
      ShareKeys(Filled(base, shape, source, j, 1, (m - 1) * n1, Min((m - 1) * n1 + n1, shape.Size(1))),
        shape, source, j, 2, (m - 1) * n2, n2);
    }
  }

  lemma ShareKeys<T>(base: Tile<T>, shape: Shape, source: (nat, Key) -> T, j: nat, operand: nat, first: nat, n: nat)
    requires shape.Proper() && (operand == 1 || operand == 2)
    requires forall k | k in base :: shape.Has(k)
    ensures forall k | k in Filled(base, shape, source, j, operand, first, Min(first + n, shape.Size(operand))) ::
              shape.Has(k)
  {
    FilledKeys(base, shape, source, j, operand, first, Min(first + n, shape.Size(operand)));
  }

  /** After m shares, the cells at positions below m shares' worth hold the tile's data. */
  lemma {:induction false} SharesCells<T>(shape: Shape, source: (nat, Key) -> T, j: nat, n1: nat, n2: nat, m: nat,
                                          k: Key)
    requires shape.Proper() && shape.Has(k)
    ensures var f := Shares(shape, source, j, n1, n2, m);
      (k.operand == 1 && shape.Pos(k) < m * n1) || (k.operand == 2 && shape.Pos(k) < m * n2) ==>
        k in f && f[k] == source(j, k)
  {
    if m > 0 {
      SharesCells(shape, source, j, n1, n2, m - 1, k);
      PosInRange(shape, k);
      var base := Shares(shape, source, j, n1, n2, m - 1);
      if k.operand == 1 {
        NextRow(m - 1, n1);
        ShareCells1(base, shape, source, j, n1, n2, m - 1, k, (m - 1) * n1);
      } else {
        NextRow(m - 1, n2);
        ShareCells2(base, shape, source, j, n1, n2, m - 1, k, (m - 1) * n2);
      }
    }
  }

  lemma ShareCells1<T>(base: Tile<T>, shape: Shape, source: (nat, Key) -> T, j: nat, n1: nat, n2: nat, idx: nat,
                       k: Key, lo: nat)
    requires shape.Proper() && shape.Has(k) && k.operand == 1 && shape.Pos(k) < shape.Size(1) && lo == idx * n1
    requires shape.Pos(k) < lo ==> k in base && base[k] == source(j, k)
    ensures var f := AddShare(base, shape, source, j, n1, n2, idx);
      shape.Pos(k) < lo + n1 ==> k in f && f[k] == source(j, k)
  {
    var f1 := Filled(base, shape, source, j, 1, lo, Min(lo + n1, shape.Size(1)));
    FilledCells(base, shape, source, j, 1, lo, Min(lo + n1, shape.Size(1)), k);
    FilledCells(f1, shape, source, j, 2, idx * n2, Min(idx * n2 + n2, shape.Size(2)), k);
  }

  lemma ShareCells2<T>(base: Tile<T>, shape: Shape, source: (nat, Key) -> T, j: nat, n1: nat, n2: nat, idx: nat,
                       k: Key, lo: nat)
    requires shape.Proper() && shape.Has(k) && k.operand == 2 && shape.Pos(k) < shape.Size(2) && lo == idx * n2
    requires shape.Pos(k) < lo ==> k in base && base[k] == source(j, k)
    ensures var f := AddShare(base, shape, source, j, n1, n2, idx);
      shape.Pos(k) < lo + n2 ==> k in f && f[k] == source(j, k)
  {
    var f1 := Filled(base, shape, source, j, 1, idx * n1, Min(idx * n1 + n1, shape.Size(1)));
    FilledCells(base, shape, source, j, 1, idx * n1, Min(idx * n1 + n1, shape.Size(1)), k);
    FilledCells(f1, shape, source, j, 2, lo, Min(lo + n2, shape.Size(2)), k);
  }

  // ---------------------------------------------------------------- the kernel

  /** The accumulator of a plain loop over K-tiles and register steps, up to step (blk, i). `slice`
      is what a register step loads of a tile, `mma` what multiplying it adds. */
  function KSum<T, R>(shape: Shape, source: (nat, Key) -> T, slice: (Tile<T>, nat) -> R, mma: R -> int,
                      kTiles: nat, blk: nat, i: nat): int
    decreases blk, i
  {
    if i > 0 then
      KSum(shape, source, slice, mma, kTiles, blk, i - 1) + mma(slice(TileOf(shape, source, blk), i - 1))
    else if blk > 0 then KSum(shape, source, slice, mma, kTiles, blk - 1, kTiles)
    else 0
  }

  /** At the start of block `blk`: its tile sits in the slot being read, the next tile is in
      flight, and the first register step is loaded. */
  ghost predicate Steady<T, R>(g2s: CopyAsyncG2S<T>, slice: (Tile<T>, nat) -> R, rd: int, regs: seq<R>,
                               kTiles: nat, blk: nat)
    reads g2s
  {
    && g2s.Valid() && g2s.numStages >= 2 && kTiles >= 2 && |regs| == kTiles
    && g2s.src == blk + 2 && g2s.open == map[]
    && g2s.groups == [Group((blk + 1) % g2s.numStages, TileOf(g2s.shape, g2s.source, blk + 1))]
    && Clean(g2s.ring, g2s.shape)
    && rd == blk % g2s.numStages && g2s.ring[rd] == TileOf(g2s.shape, g2s.source, blk)
    && regs[0] == slice(TileOf(g2s.shape, g2s.source, blk), 0)
  }

  ghost predicate Clean<T>(ring: seq<Tile<T>>, shape: Shape) {
    forall s | 0 <= s < |ring| :: ring[s].Keys <= shape.Keys()
  }

  lemma Landing<T>(ring: seq<Tile<T>>, shape: Shape, source: (nat, Key) -> T, j: nat, slot: nat)
    requires slot < |ring| && Clean(ring, shape)
    ensures var ring' := Land(ring, Group(slot, TileOf(shape, source, j)));
      Clean(ring', shape) && ring'[slot] == TileOf(shape, source, j)
      && forall s | 0 <= s < |ring| && s != slot :: ring'[s] == ring[s]
  {
  }

  /** One iteration of the stage 1 loop. */
  method StageOne<T, R>(g2s: CopyAsyncG2S<T>, slice: (Tile<T>, nat) -> R, mma: R -> int, kTiles: nat, blk: nat,
                        rd0: int, regs0: seq<R>, acc0: int)
    returns (rd: int, regs: seq<R>, acc: int)
    requires g2s.numStages >= 3 && Steady(g2s, slice, rd0, regs0, kTiles, blk)
    requires acc0 == KSum(g2s.shape, g2s.source, slice, mma, kTiles, blk, 0)
    modifies g2s
    ensures Steady(g2s, slice, rd, regs, kTiles, blk + 1)
    ensures acc == KSum(g2s.shape, g2s.source, slice, mma, kTiles, blk + 1, 0)
    ensures multiset(g2s.issued) == multiset(old(g2s.issued)) + multiset(g2s.shape.Keys())
  {
    ghost var before := g2s.issued;
    rd, regs, acc := rd0, regs0, acc0;
    var Na, Nb := g2s.shape.Size(1), g2s.shape.Size(2);
    var na, nb := CeilDiv(Na, kTiles), CeilDiv(Nb, kTiles);
    for i := 0 to kTiles
      invariant |regs| == kTiles
      invariant if i < kTiles then regs[i] == slice(TileOf(g2s.shape, g2s.source, blk), i)
        else regs[0] == slice(TileOf(g2s.shape, g2s.source, blk + 1), 0)
      invariant if i < kTiles - 1 then
          Filling(g2s, kTiles, blk, na, nb, i) && rd == rd0 && g2s.ring[rd] == TileOf(g2s.shape, g2s.source, blk)
        else Switched(g2s, rd, blk)
      invariant acc == KSum(g2s.shape, g2s.source, slice, mma, kTiles, blk, i)
      invariant g2s.issued == before + KeysOfShares(g2s.shape, na, nb, if i < kTiles - 1 then i else kTiles)
    {
      var pos := (i + 1) % kTiles;
      DivModUnique(i + 1, kTiles, if i < kTiles - 1 then 0 else 1, if i < kTiles - 1 then i + 1 else 0);
      regs := regs[pos := slice(g2s.ring[rd], pos)];
      if i < kTiles - 1 {
        IssuedShare(before, g2s.shape, na, nb, i);
        g2s.Copy2(i, na, Na, g2s.shape.cols1, nb, Nb, g2s.shape.cols2);
      }
      if i == kTiles - 2 {
        IssuedShare(before, g2s.shape, na, nb, kTiles - 1);
        rd := SwitchSlot(g2s, kTiles, blk, rd, na, nb);
      }
      acc := acc + mma(regs[i]);
    }
    TileIssuedOnce(g2s.shape, na, nb, kTiles);
  }

  ghost predicate Filling<T>(g2s: CopyAsyncG2S<T>, kTiles: nat, blk: nat, na: nat, nb: nat, i: nat)
    reads g2s
  {
    && g2s.Valid() && g2s.numStages >= 3 && kTiles >= 2 && g2s.src == blk + 2
    && g2s.open == Shares(g2s.shape, g2s.source, blk + 2, na, nb, i)
    && g2s.groups == [Group((blk + 1) % g2s.numStages, TileOf(g2s.shape, g2s.source, blk + 1))]
    && Clean(g2s.ring, g2s.shape)
  }

  /** The read pointer has moved to the next tile, which has landed; a new tile is in flight. */
  ghost predicate Switched<T>(g2s: CopyAsyncG2S<T>, rd: int, blk: nat)
    reads g2s
  {
    && g2s.Valid() && g2s.numStages >= 3 && g2s.src == blk + 3 && g2s.open == map[]
    && g2s.groups == [Group((blk + 2) % g2s.numStages, TileOf(g2s.shape, g2s.source, blk + 2))]
    && Clean(g2s.ring, g2s.shape)
    && rd == (blk + 1) % g2s.numStages && g2s.ring[rd] == TileOf(g2s.shape, g2s.source, blk + 1)
  }

  /** The body of `if (i == k_tiles - 2)` in stage 1. */
  method SwitchSlot<T>(g2s: CopyAsyncG2S<T>, kTiles: nat, blk: nat, rd0: int, na: nat, nb: nat) returns (rd: int)
    requires kTiles >= 2 && Filling(g2s, kTiles, blk, na, nb, kTiles - 1) && rd0 == blk % g2s.numStages
    requires na == CeilDiv(g2s.shape.Size(1), kTiles) && nb == CeilDiv(g2s.shape.Size(2), kTiles)
    modifies g2s
    ensures Switched(g2s, rd, blk) && g2s.issued == old(g2s.issued) + KeysOfShare(g2s.shape, na, nb, kTiles - 1)
  {
    ModSucc(blk, g2s.numStages);
    rd := rd0 + 1;
    if (blk + 1) % g2s.numStages == 0 {
      rd := rd - g2s.numStages;
    }
    FinishTile(g2s, kTiles, blk, na, nb);
    Landing(g2s.ring, g2s.shape, g2s.source, blk + 1, (blk + 1) % g2s.numStages);
    g2s.WaitGroup(1);
  }

  /** The last share of the tile being fetched completes it. */
  method LastShare<T>(g2s: CopyAsyncG2S<T>, kTiles: nat, blk: nat, na: nat, nb: nat)
    requires kTiles >= 2 && Filling(g2s, kTiles, blk, na, nb, kTiles - 1)
    requires na == CeilDiv(g2s.shape.Size(1), kTiles) && nb == CeilDiv(g2s.shape.Size(2), kTiles)
    modifies g2s`open, g2s`issued
    ensures g2s.open == TileOf(g2s.shape, g2s.source, blk + 2)
    ensures g2s.issued == old(g2s.issued) + KeysOfShare(g2s.shape, na, nb, kTiles - 1)
  {
    g2s.Copy2(kTiles - 1, na, g2s.shape.Size(1), g2s.shape.cols1, nb, g2s.shape.Size(2), g2s.shape.cols2);
    SharesAreTile(g2s.shape, g2s.source, blk + 2, na, nb, kTiles);
  }

  /** The last share, and the step to the next tile. */
  method FinishTile<T>(g2s: CopyAsyncG2S<T>, kTiles: nat, blk: nat, na: nat, nb: nat)
    requires kTiles >= 2 && Filling(g2s, kTiles, blk, na, nb, kTiles - 1)
    requires na == CeilDiv(g2s.shape.Size(1), kTiles) && nb == CeilDiv(g2s.shape.Size(2), kTiles)
    modifies g2s
    ensures g2s.Valid() && g2s.src == blk + 3 && g2s.open == map[] && g2s.ring == old(g2s.ring)
    ensures g2s.groups == old(g2s.groups) + [Group((blk + 2) % g2s.numStages, TileOf(g2s.shape, g2s.source, blk + 2))]
    ensures g2s.issued == old(g2s.issued) + KeysOfShare(g2s.shape, na, nb, kTiles - 1)
  {
    ModSucc(blk + 2, g2s.numStages);
    LastShare(g2s, kTiles, blk, na, nb);
    g2s.CommitCopyGroup();
    g2s.Next();
    if (blk + 2 + 1) % g2s.numStages == 0 {
      g2s.CycleDst();
    }
  }

  /** The stage 2 loop: no more tiles to fetch, so it waits for the last one. */
  method StageTwo<T, R>(g2s: CopyAsyncG2S<T>, slice: (Tile<T>, nat) -> R, mma: R -> int, kTiles: nat, n: nat,
                        rd0: int, regs0: seq<R>, acc0: int)
    returns (rd: int, regs: seq<R>, acc: int)
    requires n >= 2 && Steady(g2s, slice, rd0, regs0, kTiles, n - 2)
    requires acc0 == KSum(g2s.shape, g2s.source, slice, mma, kTiles, n - 2, 0)
    modifies g2s
    ensures |regs| == kTiles && 0 <= rd < |g2s.ring|
    ensures g2s.ring[rd] == TileOf(g2s.shape, g2s.source, n - 1) && regs[0] == slice(g2s.ring[rd], 0)
    ensures acc == KSum(g2s.shape, g2s.source, slice, mma, kTiles, n - 1, 0)
  {
    rd, regs, acc := rd0, regs0, acc0;
    for i := 0 to kTiles
      invariant |regs| == kTiles
      invariant if i < kTiles then regs[i] == slice(TileOf(g2s.shape, g2s.source, n - 2), i)
        else regs[0] == slice(TileOf(g2s.shape, g2s.source, n - 1), 0)
      invariant if i < kTiles - 1 then
          rd == rd0 && Steady(g2s, slice, rd, regs0, kTiles, n - 2)
        else 0 <= rd < |g2s.ring| && g2s.ring[rd] == TileOf(g2s.shape, g2s.source, n - 1)
      invariant acc == KSum(g2s.shape, g2s.source, slice, mma, kTiles, n - 2, i)
    {
      var pos := (i + 1) % kTiles;
      DivModUnique(i + 1, kTiles, if i < kTiles - 1 then 0 else 1, if i < kTiles - 1 then i + 1 else 0);
      regs := regs[pos := slice(g2s.ring[rd], pos)];
      if i == kTiles - 2 {
        ModSucc(n - 2, g2s.numStages);
        rd := rd + 1;
        if (n - 2 + 1) % g2s.numStages == 0 {
          rd := rd - g2s.numStages;
        }
        Landing(g2s.ring, g2s.shape, g2s.source, n - 1, (n - 1) % g2s.numStages);
        g2s.WaitGroup(0);
      }
      acc := acc + mma(regs[i]);
    }
  }

  /** The stage 3 loop, on the last tile. */
  method StageThree<T, R>(g2s: CopyAsyncG2S<T>, slice: (Tile<T>, nat) -> R, mma: R -> int, kTiles: nat, n: nat,
                          rd: int, regs0: seq<R>, acc0: int)
    returns (acc: int)
    requires n >= 1 && |regs0| == kTiles && kTiles >= 2 && 0 <= rd < |g2s.ring|
    requires g2s.ring[rd] == TileOf(g2s.shape, g2s.source, n - 1) && regs0[0] == slice(g2s.ring[rd], 0)
    requires acc0 == KSum(g2s.shape, g2s.source, slice, mma, kTiles, n - 1, 0)
    ensures acc == KSum(g2s.shape, g2s.source, slice, mma, kTiles, n, 0)
  {
    var regs := regs0;
    acc := acc0;
    for i := 0 to kTiles
      invariant |regs| == kTiles && (i < kTiles ==> regs[i] == slice(TileOf(g2s.shape, g2s.source, n - 1), i))
      invariant acc == KSum(g2s.shape, g2s.source, slice, mma, kTiles, n - 1, i)
    {
      if i < kTiles - 1 {
        var pos := (i + 1) % kTiles;
        DivModUnique(i + 1, kTiles, 0, i + 1);
        regs := regs[pos := slice(g2s.ring[rd], pos)];
      }
      acc := acc + mma(regs[i]);
    }
  }

  /** Two tiles are requested, the first has landed, and its first register step is loaded. */
  method Prologue<T, R>(g2s: CopyAsyncG2S<T>, slice: (Tile<T>, nat) -> R, kTiles: nat)
    returns (rd: int, regs: seq<R>)
    requires g2s.Valid() && g2s.numStages >= 2 && kTiles >= 2
    requires g2s.src == 0 && g2s.iter == 0 && g2s.open == map[] && g2s.groups == []
    requires forall s | 0 <= s < g2s.numStages :: g2s.ring[s] == map[]
    modifies g2s
    ensures Steady(g2s, slice, rd, regs, kTiles, 0)
  {
    DivModUnique(0, g2s.numStages, 0, 0);
    DivModUnique(1, g2s.numStages, 0, 1);
    g2s.Copy();
    g2s.Copy();
    Landing(g2s.ring, g2s.shape, g2s.source, 0, 0);
    g2s.WaitGroup(1);
    rd := 0;
    regs := seq(kTiles, i requires i >= 0 => slice(map[], i));
    regs := regs[0 := slice(g2s.ring[rd], 0)];
  }

  /** The whole kernel accumulates what a plain, unpipelined K loop would, if the ring has
      three stages or as many as there are K-tiles. */
  method KeGemmPipelined<T, R>(numStages: nat, shape: Shape, source: (nat, Key) -> T,
                               slice: (Tile<T>, nat) -> R, mma: R -> int, kTiles: nat, n: nat)
    returns (acc: int)
    requires (numStages >= 3 || numStages >= n) && kTiles >= 2 && n >= 2 && shape.Proper()
    ensures acc == KSum(shape, source, slice, mma, kTiles, n, 0)
  {
    var g2s := new CopyAsyncG2S(numStages, shape, source);
    var rd, regs := Prologue(g2s, slice, kTiles);
    acc := 0;
    for blk := 0 to n - 2
      invariant g2s.numStages == numStages && g2s.shape == shape && g2s.source == source && fresh(g2s)
      invariant Steady(g2s, slice, rd, regs, kTiles, blk)
      invariant acc == KSum(shape, source, slice, mma, kTiles, blk, 0)
    {
      rd, regs, acc := StageOne(g2s, slice, mma, kTiles, blk, rd, regs, acc);
    }
    rd, regs, acc := StageTwo(g2s, slice, mma, kTiles, n, rd, regs, acc);
    acc := StageThree(g2s, slice, mma, kTiles, n, rd, regs, acc);
  }

  /** Sum of f over lo <= k < hi. */
  function Sum(f: int -> int, lo: int, hi: int): int
    decreases hi - lo
  {
    if hi <= lo then 0 else Sum(f, lo, hi - 1) + f(hi - 1)
  }

  lemma {:induction false} SumSplit(f: int -> int, lo: int, mid: int, hi: int)
    requires lo <= mid <= hi
    ensures Sum(f, lo, hi) == Sum(f, lo, mid) + Sum(f, mid, hi)
    decreases hi - mid
  {
    if mid < hi { SumSplit(f, lo, mid, hi - 1); }
  }

  /** Where step i of tile blk starts along the K dimension. */
  function Start(kTiles: nat, w: nat, blk: nat, i: nat): nat
    decreases blk, i
  {
    if i > 0 then Start(kTiles, w, blk, i - 1) + w
    else if blk > 0 then Start(kTiles, w, blk - 1, kTiles)
    else 0
  }

  lemma {:induction false} StartIsLinear(kTiles: nat, w: nat, blk: nat, i: nat)
    ensures Start(kTiles, w, blk, i) == (blk * kTiles + i) * w
    decreases blk, i
  {
    if i > 0 {
      StartIsLinear(kTiles, w, blk, i - 1);
      var m := blk * kTiles + (i - 1);
      assert (m + 1) * w == m * w + w;
    } else if blk > 0 {
      StartIsLinear(kTiles, w, blk - 1, kTiles);
      assert (blk - 1) * kTiles + kTiles == blk * kTiles;
    } else {
      assert (0 * kTiles + 0) * w == 0;
    }
  }

  /** Step s of tile j contributes the products f(k) of its part of the K dimension. */
  ghost predicate MultipliesSlice<T, R>(shape: Shape, source: (nat, Key) -> T, slice: (Tile<T>, nat) -> R,
                                        mma: R -> int, kTiles: nat, w: nat, f: int -> int, j: nat, s: nat) {
    mma(slice(TileOf(shape, source, j), s)) == Sum(f, Start(kTiles, w, j, s), Start(kTiles, w, j, s) + w)
  }

  /** If step s of tile j multiplies the w products f(k) of its part of the K dimension, the
      kernel's accumulator after n tiles is the inner product over all n * kTiles * w of them. */
  lemma {:induction false} KSumIsInnerProduct<T, R>(shape: Shape, source: (nat, Key) -> T,
                              slice: (Tile<T>, nat) -> R, mma: R -> int, kTiles: nat, w: nat, f: int -> int,
                              blk: nat, i: nat)
    requires forall j: nat, s: nat | s < kTiles :: MultipliesSlice(shape, source, slice, mma, kTiles, w, f, j, s)
    requires i <= kTiles
    ensures KSum(shape, source, slice, mma, kTiles, blk, i) == Sum(f, 0, Start(kTiles, w, blk, i))
    decreases blk, i
  {
    if i > 0 {
      KSumIsInnerProduct(shape, source, slice, mma, kTiles, w, f, blk, i - 1);
      assert MultipliesSlice(shape, source, slice, mma, kTiles, w, f, blk, i - 1);
      SumSplit(f, 0, Start(kTiles, w, blk, i - 1), Start(kTiles, w, blk, i));
    } else if blk > 0 {
      KSumIsInnerProduct(shape, source, slice, mma, kTiles, w, f, blk - 1, kTiles);
    }
  }

  /** So the whole kernel's accumulator is the inner product over n * kTiles * w products. */
  lemma WholeProduct<T, R>(shape: Shape, source: (nat, Key) -> T, slice: (Tile<T>, nat) -> R, mma: R -> int,
                           kTiles: nat, w: nat, f: int -> int, n: nat)
    requires forall j: nat, s: nat | s < kTiles :: MultipliesSlice(shape, source, slice, mma, kTiles, w, f, j, s)
    ensures KSum(shape, source, slice, mma, kTiles, n, 0) == Sum(f, 0, n * kTiles * w)
  {
    KSumIsInnerProduct(shape, source, slice, mma, kTiles, w, f, n, 0);
    StartIsLinear(kTiles, w, n, 0);
  }

  /** A sum takes in every index of its range once: it is linear and finds a single entry. */
  lemma {:induction false} SumSelects(f: int -> int, a: int, v: int, lo: int, hi: int)
    requires lo <= a < hi
    ensures Sum(k => if k == a then f(k) + v else f(k), lo, hi) == Sum(f, lo, hi) + v
    decreases hi - lo
  {
    if a == hi - 1 {
      SumAgrees(k => if k == a then f(k) + v else f(k), f, lo, hi - 1);
    } else {
      SumSelects(f, a, v, lo, hi - 1);
    }
  }

  lemma {:induction false} SumAgrees(f: int -> int, g: int -> int, lo: int, hi: int)
    requires forall k | lo <= k < hi :: f(k) == g(k)
    ensures Sum(f, lo, hi) == Sum(g, lo, hi)
    decreases hi - lo
  {
    if lo < hi { SumAgrees(f, g, lo, hi - 1); }
  }
}
