module Back2BackGemm {

  /** The fused kernel D = (A x B) x C. A is M x K, D is M x P, both row-major; B and C are
      column-major, that is, stored as N x K and P x N row-major arrays. Each thread block owns
      one tile of D and keeps the matching rows of A x B in registers.

      The entries may come from any type with an addition and a multiplication: no law is needed,
      because the tiled loops perform for every entry the multiply-adds of the plain definition,
      in the same order. */

  import opened Arith

  datatype Ring<!T> = Ring(add: (T, T) -> T, mul: (T, T) -> T, zero: T)

  /** Element (r, c) of a row-major matrix. */
  function Index(r: nat, stride: nat, c: nat): nat { r * stride + c }

  function At<T>(ring: Ring<T>, s: seq<T>, stride: nat, r: nat, c: nat): T {
    if Index(r, stride, c) < |s| then s[Index(r, stride, c)] else ring.zero
  }

  function RowOf<T>(ring: Ring<T>, s: seq<T>, stride: nat, r: nat): nat -> T {
    (c: nat) => At(ring, s, stride, r, c)
  }

  /** f(0) * g(0) + ... + f(t-1) * g(t-1), accumulated from the left. */
  function Dot<T>(ring: Ring<T>, f: nat -> T, g: nat -> T, t: nat): T {
    if t == 0 then ring.zero else ring.add(Dot(ring, f, g, t - 1), ring.mul(f(t - 1), g(t - 1)))
  }

  /** Whole sizes, tile sizes and operands. The tile sizes divide the whole sizes. */
  datatype Problem<!T> = Problem(ring: Ring<T>, M: nat, N: nat, K: nat, P: nat,
                                tM: nat, tN: nat, tK: nat, tP: nat, A: seq<T>, B: seq<T>, C: seq<T>) {
    predicate Valid() {
      && tM > 0 && tN > 0 && tK > 0 && tP > 0
      && M % tM == 0 && N % tN == 0 && K % tK == 0 && P % tP == 0
      && |A| == M * K && |B| == N * K && |C| == P * N
    }

    /** Row m of A x B. */
    function FirstProduct(m: nat): nat -> T {
      (n: nat) => Dot(ring, RowOf(ring, A, K, m), RowOf(ring, B, K, n), K)
    }

    /** Entry (m, p) of (A x B) x C. */
    function Result(m: nat, p: nat): T {
      Dot(ring, FirstProduct(m), RowOf(ring, C, N, p), N)
    }
  }

  // ---------------------------------------------------------------- indices

  lemma IndexSplits(r: nat, stride: nat, c: nat)
    requires c < stride
    ensures Index(r, stride, c) / stride == r && Index(r, stride, c) % stride == c
  {
    DivModUnique(Index(r, stride, c), stride, r, c);
  }

  lemma IndexInBounds(r: nat, rows: nat, stride: nat, c: nat)
    requires r < rows && c < stride
    ensures Index(r, stride, c) < rows * stride
  {
    MulMonotone(r + 1, rows, stride);
  }

  /** A pointer to (r0, c0), moved down by i rows and right by j columns, points to
      (r0 + i, c0 + j). */
  lemma PointerMoves(r0: nat, stride: nat, c0: nat, i: nat, j: nat)
    ensures Index(r0, stride, c0) + Index(i, stride, j) == Index(r0 + i, stride, c0 + j)
  {
  }

  /** Block b of a dimension that the tile size divides. */
  lemma TileFits(total: nat, tile: nat, b: nat)
    requires tile > 0 && total % tile == 0 && b < total / tile
    ensures b * tile + tile <= total
  {
    MulMonotone(b + 1, total / tile, tile);
  }

  /** The next tile after a prefix of whole tiles fits too. */
  lemma ZeroMod(t: nat)
    requires t > 0
    ensures 0 % t == 0
  {
  }

  lemma NextTileFits(total: nat, tile: nat, x: nat)
    requires tile > 0 && total % tile == 0 && x % tile == 0 && x < total
    ensures x + tile <= total && (x + tile) % tile == 0
  {
    var q, g := x / tile, total / tile;
    if q >= g { MulMonotone(g, q, tile); }
    MulMonotone(q + 1, g, tile);
    DivModUnique(x + tile, tile, q + 1, 0);
  }

  lemma TileOwner(x: nat, tile: nat, b: nat)
    requires tile > 0
    ensures x / tile == b <==> b * tile <= x < b * tile + tile
  {
    if b * tile <= x < b * tile + tile {
      DivModUnique(x, tile, b, x - b * tile);
    }
  }

  // ---------------------------------------------------------------- tiles

  /** Copy to shared memory the tile of `src` whose first element is at `off`. */
  method LoadTile<T>(ring: Ring<T>, src: seq<T>, off: nat, stride: nat, dst: array2<T>,
                     ghost rows: nat, ghost r0: nat, ghost c0: nat)
    requires |src| == rows * stride && off == Index(r0, stride, c0)
    requires r0 + dst.Length0 <= rows && c0 + dst.Length1 <= stride
    modifies dst
    ensures forall i, j :: 0 <= i < dst.Length0 && 0 <= j < dst.Length1 ==>
              dst[i, j] == At(ring, src, stride, r0 + i, c0 + j)
  {
    for i := 0 to dst.Length0
      invariant forall i', j :: 0 <= i' < i && 0 <= j < dst.Length1 ==>
                  dst[i', j] == At(ring, src, stride, r0 + i', c0 + j)
    {
      for j := 0 to dst.Length1
        invariant forall i', j' :: 0 <= i' < i && 0 <= j' < dst.Length1 ==>
                    dst[i', j'] == At(ring, src, stride, r0 + i', c0 + j')
        invariant forall j' :: 0 <= j' < j ==> dst[i, j'] == At(ring, src, stride, r0 + i, c0 + j')
      {
        PointerMoves(r0, stride, c0, i, j);
        IndexInBounds(r0 + i, rows, stride, c0 + j);
        dst[i, j] := src[off + Index(i, stride, j)];
      }
    }
  }

  /** v plus the products of the first t elements of row i of a and row j of b. */
  function Accumulated<T>(ring: Ring<T>, v: T, a: array2<T>, i: nat, b: array2<T>, j: nat, t: nat): T
    requires i < a.Length0 && j < b.Length0 && t <= a.Length1 && t <= b.Length1
    reads a, b
  {
    if t == 0 then v
    else ring.add(Accumulated(ring, v, a, i, b, j, t - 1), ring.mul(a[i, t - 1], b[j, t - 1]))
  }

  /** The tensor-core loop over one pair of shared tiles: acc += a x b^T. */
  method MultiplyAdd<T>(ring: Ring<T>, a: array2<T>, b: array2<T>, acc: array2<T>)
    requires a.Length1 == b.Length1 && acc.Length0 == a.Length0 && acc.Length1 == b.Length0
    requires acc != a && acc != b
    modifies acc
    ensures forall i, j :: 0 <= i < acc.Length0 && 0 <= j < acc.Length1 ==>
              acc[i, j] == Accumulated(ring, old(acc[i, j]), a, i, b, j, a.Length1)
  {
    for t := 0 to a.Length1
      invariant forall i, j :: 0 <= i < acc.Length0 && 0 <= j < acc.Length1 ==>
                  acc[i, j] == Accumulated(ring, old(acc[i, j]), a, i, b, j, t)
    {
      forall i, j | 0 <= i < acc.Length0 && 0 <= j < acc.Length1 {
        acc[i, j] := ring.add(acc[i, j], ring.mul(a[i, t], b[j, t]));
      }
    }
  }

  /** Accumulating the products of positions s .. s + t on top of those before s. */
  lemma {:induction false} AccumulatedIsDot<T>(ring: Ring<T>, a: array2<T>, i: nat, b: array2<T>, j: nat, t: nat,
                                               f: nat -> T, g: nat -> T, s: nat)
    requires i < a.Length0 && j < b.Length0 && t <= a.Length1 && t <= b.Length1
    requires forall x :: 0 <= x < t ==> a[i, x] == f(s + x) && b[j, x] == g(s + x)
    ensures Accumulated(ring, Dot(ring, f, g, s), a, i, b, j, t) == Dot(ring, f, g, s + t)
  {
    if t > 0 {
      AccumulatedIsDot(ring, a, i, b, j, t - 1, f, g, s);
    }
  }

  // ---------------------------------------------------------------- the kernel

  /** The loop over K: one tile of A x B, rows m0.. and columns n0.., into cleared registers.
      `gA` and `gB` point to the tile rows' first elements and advance by one tile each step. */
  method FirstGemm<T>(p: Problem<T>, ghost m0: nat, ghost n0: nat, A: nat, B: nat,
                      sA: array2<T>, sB: array2<T>, acc1: array2<T>)
    requires p.Valid() && A == Index(m0, p.K, 0) && B == Index(n0, p.K, 0)
    requires m0 + p.tM <= p.M && n0 + p.tN <= p.N
    requires sA.Length0 == p.tM && sA.Length1 == p.tK && sB.Length0 == p.tN && sB.Length1 == p.tK
    requires acc1.Length0 == p.tM && acc1.Length1 == p.tN && acc1 != sA && acc1 != sB && sA != sB
    requires forall i, j :: 0 <= i < p.tM && 0 <= j < p.tN ==> acc1[i, j] == p.ring.zero
    modifies sA, sB, acc1
    ensures forall i, j :: 0 <= i < p.tM && 0 <= j < p.tN ==>
              acc1[i, j] == p.FirstProduct(m0 + i)(n0 + j)
  {
    var gA, gB := A, B;
    var k := 0;
    ZeroMod(p.tK);
    while k < p.K
      invariant 0 <= k <= p.K && k % p.tK == 0
      invariant gA == Index(m0, p.K, k) && gB == Index(n0, p.K, k)
      invariant forall i, j :: 0 <= i < p.tM && 0 <= j < p.tN ==>
                  acc1[i, j] == Dot(p.ring, RowOf(p.ring, p.A, p.K, m0 + i), RowOf(p.ring, p.B, p.K, n0 + j), k)
    {
      NextTileFits(p.K, p.tK, k);
      LoadTile(p.ring, p.A, gA, p.K, sA, p.M, m0, k);
      LoadTile(p.ring, p.B, gB, p.K, sB, p.N, n0, k);
      label Loaded:
      MultiplyAdd(p.ring, sA, sB, acc1);
      forall i, j | 0 <= i < p.tM && 0 <= j < p.tN
        ensures acc1[i, j] ==
                Dot(p.ring, RowOf(p.ring, p.A, p.K, m0 + i), RowOf(p.ring, p.B, p.K, n0 + j), k + p.tK)
      {
        AccumulatedIsDot(p.ring, sA, i, sB, j, p.tK, RowOf(p.ring, p.A, p.K, m0 + i),
                         RowOf(p.ring, p.B, p.K, n0 + j), k);
      }
      gA := gA + p.tK;
      gB := gB + p.tK;
      k := k + p.tK;
    }
  }

  /** Is (m, p) in the output tile of block (blockX, blockY)? */
  predicate Owns<T>(g: Problem<T>, blockX: nat, blockY: nat, m: nat, p: nat)
    requires g.Valid()
  {
    m / g.tM == blockX && p / g.tP == blockY
  }

  /** The two pointers a block starts from. */
  lemma StartPointer(block: nat, tile: nat, stride: nat, c: nat)
    ensures block * (tile * stride) + c == Index(block * tile, stride, c)
  {
  }

  /** One thread block. It leaves its tile of D complete and every other entry alone. */
  method Kernel<T>(p: Problem<T>, D: array<T>, blockX: nat, blockY: nat)
    requires p.Valid() && D.Length == p.M * p.P
    requires blockX < p.M / p.tM && blockY < p.P / p.tP
    modifies D
    ensures forall m: nat, q: nat :: m < p.M && q < p.P ==>
              Index(m, p.P, q) < D.Length &&
              D[Index(m, p.P, q)] ==
                if Owns(p, blockX, blockY, m, q) then p.Result(m, q) else old(D[Index(m, p.P, q)])
  {
    var A := blockX * (p.tM * p.K);
    var gC := blockY * (p.tP * p.N);
    var gD := blockX * (p.tM * p.P) + (blockY * p.tP);
    ghost var m0, p0 := blockX * p.tM, blockY * p.tP;
    TileFits(p.M, p.tM, blockX);
    TileFits(p.P, p.tP, blockY);
    StartPointer(blockX, p.tM, p.K, 0);
    StartPointer(blockY, p.tP, p.N, 0);
    StartPointer(blockX, p.tM, p.P, p0);
    var acc2 := FusedLoops(p, m0, p0, A, gC);
    StoreTile(p, D, gD, m0, p0, acc2);
    forall m: nat, q: nat | m < p.M && q < p.P
      ensures Owns(p, blockX, blockY, m, q) <==> m0 <= m < m0 + p.tM && p0 <= q < p0 + p.tP
    {
      TileOwner(m, p.tM, blockX);
      TileOwner(q, p.tP, blockY);
    }
  }

  /** One iteration over N: a tile of A x B, then its contribution to D. */
  method FusedStep<T>(p: Problem<T>, ghost m0: nat, ghost p0: nat, n: nat, A: nat, gC: nat,
                      sA: array2<T>, sB: array2<T>, sC: array2<T>, acc1: array2<T>, acc2: array2<T>)
    requires p.Valid() && m0 + p.tM <= p.M && p0 + p.tP <= p.P && n + p.tN <= p.N
    requires A == Index(m0, p.K, 0) && gC == Index(p0, p.N, n)
    requires sA.Length0 == p.tM && sA.Length1 == p.tK && sB.Length0 == p.tN && sB.Length1 == p.tK
    requires acc1.Length0 == p.tM && acc1.Length1 == p.tN && sC.Length0 == p.tP && sC.Length1 == p.tN
    requires acc2.Length0 == p.tM && acc2.Length1 == p.tP
    requires sA != sB && sA != acc1 && sB != acc1 && sC != acc1
    requires acc2 != sA && acc2 != sB && acc2 != sC && acc2 != acc1
    requires forall i, j :: 0 <= i < p.tM && 0 <= j < p.tN ==> acc1[i, j] == p.ring.zero
    requires forall i, q :: 0 <= i < p.tM && 0 <= q < p.tP ==>
               acc2[i, q] == Dot(p.ring, p.FirstProduct(m0 + i), RowOf(p.ring, p.C, p.N, p0 + q), n)
    modifies sA, sB, sC, acc1, acc2
    ensures forall i, j :: 0 <= i < p.tM && 0 <= j < p.tN ==> acc1[i, j] == p.ring.zero
    ensures forall i, q :: 0 <= i < p.tM && 0 <= q < p.tP ==>
              acc2[i, q] == Dot(p.ring, p.FirstProduct(m0 + i), RowOf(p.ring, p.C, p.N, p0 + q), n + p.tN)
  {
    FirstGemm(p, m0, n, A, n * p.K, sA, sB, acc1);
    SecondGemm(p, m0, p0, n, gC, acc1, sC, acc2);
    forall i, j | 0 <= i < p.tM && 0 <= j < p.tN {
      acc1[i, j] := p.ring.zero;
    }
  }

  /** The loop over N: the tile of D with rows m0.. and columns p0.., in registers. */
  method FusedLoops<T>(p: Problem<T>, ghost m0: nat, ghost p0: nat, A: nat, C: nat) returns (acc2: array2<T>)
    requires p.Valid() && m0 + p.tM <= p.M && p0 + p.tP <= p.P
    requires A == Index(m0, p.K, 0) && C == Index(p0, p.N, 0)
    ensures fresh(acc2) && acc2.Length0 == p.tM && acc2.Length1 == p.tP
    ensures forall i, q :: 0 <= i < p.tM && 0 <= q < p.tP ==> acc2[i, q] == p.Result(m0 + i, p0 + q)
  {
    var sA := new T[p.tM, p.tK]((i, j) => p.ring.zero);
    var sB := new T[p.tN, p.tK]((i, j) => p.ring.zero);
    var sC := new T[p.tP, p.tN]((i, j) => p.ring.zero);
    var acc1 := new T[p.tM, p.tN]((i, j) => p.ring.zero);
    acc2 := new T[p.tM, p.tP]((i, j) => p.ring.zero);
    var gC := C;
    var n := 0;
    ZeroMod(p.tN);
    while n < p.N
      invariant 0 <= n <= p.N && n % p.tN == 0 && gC == Index(p0, p.N, n)
      invariant forall i, j :: 0 <= i < p.tM && 0 <= j < p.tN ==> acc1[i, j] == p.ring.zero
      invariant forall i, q :: 0 <= i < p.tM && 0 <= q < p.tP ==>
                  acc2[i, q] == Dot(p.ring, p.FirstProduct(m0 + i), RowOf(p.ring, p.C, p.N, p0 + q), n)
    {
      NextTileFits(p.N, p.tN, n);
      FusedStep(p, m0, p0, n, A, gC, sA, sB, sC, acc1, acc2);
      gC := gC + p.tN;
      n := n + p.tN;
    }
  }

  /** One step of the loop over N: the tile of A x B in registers times one tile of C. */
  method SecondGemm<T>(p: Problem<T>, ghost m0: nat, ghost p0: nat, ghost n: nat, gC: nat,
                       acc1: array2<T>, sC: array2<T>, acc2: array2<T>)
    requires p.Valid() && gC == Index(p0, p.N, n)
    requires m0 + p.tM <= p.M && p0 + p.tP <= p.P && n + p.tN <= p.N
    requires acc1.Length0 == p.tM && acc1.Length1 == p.tN && sC.Length0 == p.tP && sC.Length1 == p.tN
    requires acc2.Length0 == p.tM && acc2.Length1 == p.tP && acc2 != acc1 && acc2 != sC && acc1 != sC
    requires forall i, j :: 0 <= i < p.tM && 0 <= j < p.tN ==> acc1[i, j] == p.FirstProduct(m0 + i)(n + j)
    requires forall i, q :: 0 <= i < p.tM && 0 <= q < p.tP ==>
               acc2[i, q] == Dot(p.ring, p.FirstProduct(m0 + i), RowOf(p.ring, p.C, p.N, p0 + q), n)
    modifies sC, acc2
    ensures forall i, q :: 0 <= i < p.tM && 0 <= q < p.tP ==>
              acc2[i, q] == Dot(p.ring, p.FirstProduct(m0 + i), RowOf(p.ring, p.C, p.N, p0 + q), n + p.tN)
  {
    LoadTile(p.ring, p.C, gC, p.N, sC, p.P, p0, n);
    MultiplyAdd(p.ring, acc1, sC, acc2);
    forall i, q | 0 <= i < p.tM && 0 <= q < p.tP
      ensures acc2[i, q] == Dot(p.ring, p.FirstProduct(m0 + i), RowOf(p.ring, p.C, p.N, p0 + q), n + p.tN)
    {
      AccumulatedIsDot(p.ring, acc1, i, sC, q, p.tN, p.FirstProduct(m0 + i),
                       RowOf(p.ring, p.C, p.N, p0 + q), n);
    }
  }

  /** Has entry (m, q) been stored once rows < i and, in row i, columns < j of the tile are? */
  predicate Stored<T>(p: Problem<T>, m0: nat, p0: nat, m: nat, q: nat, i: nat, j: nat) {
    p0 <= q < p0 + p.tP && (m0 <= m < m0 + i || (m == m0 + i && q < p0 + j))
  }

  /** Copy the registers to the tile of D whose first element is at `gD`. */
  method StoreTile<T>(p: Problem<T>, D: array<T>, gD: nat, ghost m0: nat, ghost p0: nat, acc2: array2<T>)
    requires p.Valid() && D.Length == p.M * p.P && m0 + p.tM <= p.M && p0 + p.tP <= p.P
    requires acc2.Length0 == p.tM && acc2.Length1 == p.tP && gD == Index(m0, p.P, p0)
    modifies D
    ensures forall m: nat, q: nat :: m < p.M && q < p.P ==>
              Index(m, p.P, q) < D.Length &&
              D[Index(m, p.P, q)] ==
                if m0 <= m < m0 + p.tM && p0 <= q < p0 + p.tP then acc2[m - m0, q - p0]
                else old(D[Index(m, p.P, q)])
  {
    AllInBounds(p.M, p.P);
    for i := 0 to p.tM
      invariant forall m: nat, q: nat :: m < p.M && q < p.P ==>
                  D[Index(m, p.P, q)] ==
                    if Stored(p, m0, p0, m, q, i, 0) then acc2[m - m0, q - p0]
                    else old(D[Index(m, p.P, q)])
    {
      for j := 0 to p.tP
        invariant forall m: nat, q: nat :: m < p.M && q < p.P ==>
                    D[Index(m, p.P, q)] ==
                      if Stored(p, m0, p0, m, q, i, j) then acc2[m - m0, q - p0]
                      else old(D[Index(m, p.P, q)])
      {
        PointerMoves(m0, p.P, p0, i, j);
        OneIndex(m0 + i, p.P, p0 + j);
        D[gD + Index(i, p.P, j)] := acc2[i, j];
      }
    }
  }

  lemma AllInBounds(rows: nat, stride: nat)
    ensures forall m: nat, q: nat :: m < rows && q < stride ==> Index(m, stride, q) < rows * stride
  {
    forall m: nat, q: nat | m < rows && q < stride
      ensures Index(m, stride, q) < rows * stride
    {
      IndexInBounds(m, rows, stride, q);
    }
  }

  /** No other (m, q) has the index of (r, c). */
  lemma OneIndex(r: nat, stride: nat, c: nat)
    requires c < stride
    ensures forall m: nat, q: nat :: q < stride && Index(m, stride, q) == Index(r, stride, c) ==> m == r && q == c
  {
    forall m: nat, q: nat | q < stride && Index(m, stride, q) == Index(r, stride, c)
      ensures m == r && q == c
    {
      IndexSplits(m, stride, q);
      IndexSplits(r, stride, c);
    }
  }

  // ---------------------------------------------------------------- the launch

  /** Every entry of D belongs to exactly one block of the grid. */
  lemma OneOwner<T>(p: Problem<T>, m: nat, q: nat)
    requires p.Valid() && m < p.M && q < p.P
    ensures m / p.tM < p.M / p.tM && q / p.tP < p.P / p.tP
    ensures forall x: nat, y: nat :: Owns(p, x, y, m, q) <==> x == m / p.tM && y == q / p.tP
  {
    if m / p.tM >= p.M / p.tM { MulMonotone(p.M / p.tM, m / p.tM, p.tM); }
    if q / p.tP >= p.P / p.tP { MulMonotone(p.P / p.tP, q / p.tP, p.tP); }
  }

  /** Running the blocks of the grid, in any order, leaves D = (A x B) x C in every entry. */
  method Launch<T>(p: Problem<T>, D: array<T>, order: seq<(nat, nat)>)
    requires p.Valid() && D.Length == p.M * p.P
    requires forall i :: 0 <= i < |order| ==> order[i].0 < p.M / p.tM && order[i].1 < p.P / p.tP
    requires forall x: nat, y: nat :: x < p.M / p.tM && y < p.P / p.tP ==> (x, y) in order
    modifies D
    ensures forall m: nat, q: nat :: m < p.M && q < p.P ==>
              Index(m, p.P, q) < D.Length && D[Index(m, p.P, q)] == p.Result(m, q)
  {
    AllInBounds(p.M, p.P);
    for n := 0 to |order|
      invariant forall m: nat, q: nat :: m < p.M && q < p.P && RunBy(p, order, n, m, q) ==>
                  D[Index(m, p.P, q)] == p.Result(m, q)
    {
      Kernel(p, D, order[n].0, order[n].1);
      forall m: nat, q: nat | RunBy(p, order, n + 1, m, q)
        ensures RunBy(p, order, n, m, q) || Owns(p, order[n].0, order[n].1, m, q)
      {
        RunByStep(p, order, n, m, q);
      }
    }
    forall m: nat, q: nat | m < p.M && q < p.P
      ensures RunBy(p, order, |order|, m, q)
    {
      OneOwner(p, m, q);
      InOrder(p, order, m / p.tM, q / p.tP, m, q);
    }
  }

  lemma InOrder<T>(p: Problem<T>, order: seq<(nat, nat)>, x: nat, y: nat, m: nat, q: nat)
    requires p.Valid() && (x, y) in order && Owns(p, x, y, m, q)
    ensures RunBy(p, order, |order|, m, q)
  {
    var i :| 0 <= i < |order| && order[i] == (x, y);
    assert Owns(p, order[i].0, order[i].1, m, q);
  }

  lemma RunByStep<T>(p: Problem<T>, order: seq<(nat, nat)>, n: nat, m: nat, q: nat)
    requires p.Valid() && n < |order| && RunBy(p, order, n + 1, m, q)
    ensures RunBy(p, order, n, m, q) || Owns(p, order[n].0, order[n].1, m, q)
  {
  }

  /** Did one of the first n blocks own entry (m, q)? */
  predicate RunBy<T>(p: Problem<T>, order: seq<(nat, nat)>, n: nat, m: nat, q: nat)
    requires p.Valid() && n <= |order|
  {
    exists i :: 0 <= i < n && Owns(p, order[i].0, order[i].1, m, q)
  }

  // ---------------------------------------------------------------- the other bracketing

  const INTEGERS: Ring<int> := Ring((x: int, y: int) => x + y, (x: int, y: int) => x * y, 0)

  /** Column k of B x C, whose entries are sums over n. */
  function SecondProduct(p: Problem<int>, q: nat): nat -> int {
    (k: nat) => Dot(p.ring, ColumnOf(p, k), RowOf(p.ring, p.C, p.N, q), p.N)
  }

  function ColumnOf(p: Problem<int>, k: nat): nat -> int {
    (n: nat) => At(p.ring, p.B, p.K, n, k)
  }

  lemma {:induction false} DotOfSum(f: nat -> int, u: nat -> int, g: nat -> int, w: int, v: nat -> int, t: nat)
    requires forall k: nat :: v(k) == u(k) + g(k) * w
    ensures Dot(INTEGERS, f, v, t) == Dot(INTEGERS, f, u, t) + Dot(INTEGERS, f, g, t) * w
  {
    if t > 0 {
      DotOfSum(f, u, g, w, v, t - 1);
      var b, x, y, z := Dot(INTEGERS, f, g, t - 1), f(t - 1), u(t - 1), g(t - 1);
      assert x * (y + z * w) == x * y + (x * z) * w;
      assert (b + x * z) * w == b * w + (x * z) * w;
    }
  }

  lemma {:induction false} DotOfZero(f: nat -> int, v: nat -> int, t: nat)
    requires forall k: nat :: v(k) == 0
    ensures Dot(INTEGERS, f, v, t) == 0
  {
    if t > 0 {
      DotOfZero(f, v, t - 1);
    }
  }

  /** Over the integers the result is also that of A x (B x C): the sums over k and n swap. */
  lemma {:induction false} SumsSwap(p: Problem<int>, m: nat, q: nat, t: nat)
    requires p.ring == INTEGERS
    ensures Dot(INTEGERS, p.FirstProduct(m), RowOf(p.ring, p.C, p.N, q), t)
         == Dot(INTEGERS, RowOf(p.ring, p.A, p.K, m),
                (k: nat) => Dot(INTEGERS, ColumnOf(p, k), RowOf(p.ring, p.C, p.N, q), t), p.K)
  {
    var a, c := RowOf(p.ring, p.A, p.K, m), RowOf(p.ring, p.C, p.N, q);
    if t == 0 {
      DotOfZero(a, (k: nat) => Dot(INTEGERS, ColumnOf(p, k), c, 0), p.K);
    } else {
      SumsSwap(p, m, q, t - 1);
      DotOfSum(a, (k: nat) => Dot(INTEGERS, ColumnOf(p, k), c, t - 1),
               RowOf(p.ring, p.B, p.K, t - 1), c(t - 1),
               (k: nat) => Dot(INTEGERS, ColumnOf(p, k), c, t), p.K);
    }
  }

  lemma Rebracket(p: Problem<int>, m: nat, q: nat)
    requires p.ring == INTEGERS
    ensures p.Result(m, q) == Dot(INTEGERS, RowOf(p.ring, p.A, p.K, m), SecondProduct(p, q), p.K)
  {
    SumsSwap(p, m, q, p.N);
    SameDot(RowOf(p.ring, p.A, p.K, m),
            (k: nat) => Dot(INTEGERS, ColumnOf(p, k), RowOf(p.ring, p.C, p.N, q), p.N), SecondProduct(p, q), p.K);
  }

  lemma {:induction false} SameDot(f: nat -> int, g: nat -> int, h: nat -> int, t: nat)
    requires forall k: nat :: g(k) == h(k)
    ensures Dot(INTEGERS, f, g, t) == Dot(INTEGERS, f, h, t)
  {
    if t > 0 {
      SameDot(f, g, h, t - 1);
    }
  }

  // ---------------------------------------------------------------- entry by entry

  /** In any ring, products are taken with the first factor on the left and added on the right. */
  lemma DotOfTwo<T>(ring: Ring<T>, f: nat -> T, g: nat -> T)
    ensures Dot(ring, f, g, 2)
         == ring.add(ring.add(ring.zero, ring.mul(f(0), g(0))), ring.mul(f(1), g(1)))
  {
    assert Dot(ring, f, g, 1) == ring.add(Dot(ring, f, g, 0), ring.mul(f(0), g(0)));
  }

  function IntSum(f: nat -> int, n: nat): int {
    if n == 0 then 0 else IntSum(f, n - 1) + f(n - 1)
  }

  lemma {:induction false} IntSumAgrees(f: nat -> int, g: nat -> int, n: nat)
    requires forall i: nat | i < n :: f(i) == g(i)
    ensures IntSum(f, n) == IntSum(g, n)
  {
    if n > 0 { IntSumAgrees(f, g, n - 1); }
  }

  /** Every index below n counts once. */
  lemma {:induction false} IntSumSelects(f: nat -> int, a: nat, v: int, n: nat)
    ensures IntSum((i: nat) => if i == a then f(i) + v else f(i), n) == IntSum(f, n) + (if a < n then v else 0)
  {
    if n > 0 { IntSumSelects(f, a, v, n - 1); }
  }

  lemma {:induction false} DotIsSum(f: nat -> int, g: nat -> int, t: nat)
    ensures Dot(INTEGERS, f, g, t) == IntSum((i: nat) => f(i) * g(i), t)
  {
    if t > 0 { DotIsSum(f, g, t - 1); }
  }

  function Entry(s: seq<int>, i: nat): int { if i < |s| then s[i] else 0 }

  /** Entry (m, q) of the result, from the three arrays alone: the sum over n and k of
      A[m * K + k] * B[n * K + k] * C[q * N + n]. */
  lemma ResultEntry(p: Problem<int>, m: nat, q: nat)
    requires p.ring == INTEGERS
    ensures p.Result(m, q) == IntSum((n: nat) =>
              IntSum((k: nat) => Entry(p.A, m * p.K + k) * Entry(p.B, n * p.K + k), p.K)
              * Entry(p.C, q * p.N + n), p.N)
  {
    var f, g := p.FirstProduct(m), RowOf(p.ring, p.C, p.N, q);
    var h := (n: nat) =>
      IntSum((k: nat) => Entry(p.A, m * p.K + k) * Entry(p.B, n * p.K + k), p.K) * Entry(p.C, q * p.N + n);
    DotIsSum(f, g, p.N);
    forall n: nat | n < p.N
      ensures f(n) * g(n) == h(n)
    {
      FirstEntry(p, m, n);
      AtIsEntry(p.C, p.N, q, n);
    }
    IntSumAgrees((i: nat) => f(i) * g(i), h, p.N);
  }

  lemma AtIsEntry(s: seq<int>, stride: nat, r: nat, c: nat)
    ensures Index(r, stride, c) == r * stride + c
    ensures At(INTEGERS, s, stride, r, c) == Entry(s, r * stride + c)
  {
  }

  /** Entry (m, n) of A x B. */
  lemma FirstEntry(p: Problem<int>, m: nat, n: nat)
    requires p.ring == INTEGERS
    ensures p.FirstProduct(m)(n)
         == IntSum((k: nat) => Entry(p.A, m * p.K + k) * Entry(p.B, n * p.K + k), p.K)
  {
    var f, g := RowOf(p.ring, p.A, p.K, m), RowOf(p.ring, p.B, p.K, n);
    DotIsSum(f, g, p.K);
    forall k: nat | k < p.K
      ensures f(k) == Entry(p.A, m * p.K + k) && g(k) == Entry(p.B, n * p.K + k)
    {
      AtIsEntry(p.A, p.K, m, k);
      AtIsEntry(p.B, p.K, n, k);
    }
    IntSumAgrees((i: nat) => f(i) * g(i), (k: nat) => Entry(p.A, m * p.K + k) * Entry(p.B, n * p.K + k), p.K);
  }
}
