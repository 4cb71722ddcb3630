module FlashAttention {

  /** Blockwise attention with a running maximum and renormalisation, against plain softmax
      attention over all keys at once.

      Arithmetic is over the reals, and the exponential is any function E with
      E(a + b) = E(a) * E(b) and E > 0.  Both programs treat query rows independently, so one
      row is modelled; `score` is its product with a key, and a row vector of the value and
      output matrices is a function of the column. */

  import opened Common
  import opened Exponential

  type Row = nat -> real

  /** A key together with its value, as ops.zip pairs them. */
  datatype Item<K> = Item(key: K, value: Row)

  type Items<K> = seq<Item<K>>

  // ---------------------------------------------------------------- tensor operations

  function Sum(xs: seq<real>): real {
    if xs == [] then 0.0 else Sum(xs[..|xs| - 1]) + xs[|xs| - 1]
  }

  function Maximum(a: real, b: real): real { if a >= b then a else b }

  function MaxOf(xs: seq<real>): real
    requires xs != []
  {
    if |xs| == 1 then xs[0] else Maximum(MaxOf(xs[..|xs| - 1]), xs[|xs| - 1])
  }

  function Scores<K>(score: K -> real, items: Items<K>): seq<real> {
    seq(|items|, i requires 0 <= i < |items| => score(items[i].key))
  }

  function ExpShifted(E: real -> real, ss: seq<real>, m: real): seq<real> {
    seq(|ss|, i requires 0 <= i < |ss| => E(ss[i] - m))
  }

  /** Entry c of the row vector `ws @ values`. */
  function Combine<K>(ws: seq<real>, items: Items<K>, c: nat): real
    requires |ws| == |items|
  {
    if ws == [] then 0.0
    else Combine(ws[..|ws| - 1], items[..|items| - 1], c) + ws[|ws| - 1] * items[|items| - 1].value(c)
  }

  // ---------------------------------------------------------------- plain attention

  /** attn_func of multi-head-attention: every weight is normalised before it is used. */
  function PlainAttention<K>(E: real -> real, lowest: real, score: K -> real, items: Items<K>): Row
    requires items != [] && ExpLike(E)
  {
    var dots := Scores(score, items);
    var maxValue := Maximum(lowest, MaxOf(dots));
    var exps := ExpShifted(E, dots, maxValue);
    var norm := Sum(exps);
    assert norm > 0.0 by { SumPositive(E, dots, maxValue); }
    (c: nat) => Combine(Divided(exps, norm), items, c)
  }

  function Divided(ws: seq<real>, d: real): seq<real>
    requires d != 0.0
  {
    seq(|ws|, i requires 0 <= i < |ws| => ws[i] / d)
  }

  // ---------------------------------------------------------------- blockwise attention

  /** The running (max, sum, output) of one query row. */
  datatype RowState = RowState(max: real, sum: real, out: Row)

  /** Softmax of one block before normalisation: maximum, sum, and weights @ values. */
  datatype BlockSoftmax = BlockSoftmax(max: real, sum: real, expValues: Row)

  function SoftmaxOf<K>(E: real -> real, score: K -> real, block: Items<K>): BlockSoftmax
    requires block != []
  {
    var weights := Scores(score, block);
    var curMax := MaxOf(weights);
    var exps := ExpShifted(E, weights, curMax);
    BlockSoftmax(curMax, Sum(exps), (c: nat) => Combine(exps, block, c))
  }

  /** Merges a block into the running state; None stands for a division by zero. */
  function Merge(E: real -> real, prev: RowState, cur: BlockSoftmax): Option<RowState> {
    var newMax := Maximum(cur.max, prev.max);
    var renormPrev := E(prev.max - newMax);
    var renormCur := E(cur.max - newMax);
    var newSum := renormPrev * prev.sum + renormCur * cur.sum;
    if newSum == 0.0 then None
    else Some(RowState(newMax, newSum, (c: nat) =>
      Renormalise(prev.out(c), prev.sum, renormPrev, renormCur, cur.expValues(c), newSum)))
  }

  /** attn_func of flash_attention for one row; a block without keys has no maximum. */
  function AttnFunc<K>(E: real -> real, score: K -> real): (RowState, Items<K>) -> Option<RowState> {
    (prev: RowState, block: Items<K>) => if block == [] then None else Merge(E, prev, SoftmaxOf(E, score, block))
  }

  function Renormalise(prevOut: real, prevSum: real, renormPrev: real, renormCur: real, expValue: real,
                       newSum: real): real
    requires newSum != 0.0
  {
    (prevOut * prevSum * renormPrev + renormCur * expValue) / newSum
  }

  predicate NonEmpty<K>(blocks: seq<Items<K>>) {
    forall i | 0 <= i < |blocks| :: blocks[i] != []
  }

  /** ops.reduce, for a step that may fail. */
  function Reduce<S, X>(step: (S, X) -> Option<S>, init: S, xs: seq<X>): Option<S> {
    if xs == [] then Some(init)
    else match Reduce(step, init, xs[..|xs| - 1])
      case None => None
      case Some(st) => step(st, xs[|xs| - 1])
  }

  /** The reduction over blocks in per_block_func, from any initial state. */
  function Flash<K>(E: real -> real, score: K -> real, init: RowState, blocks: seq<Items<K>>): Option<RowState> {
    Reduce(AttnFunc(E, score), init, blocks)
  }

  function Flatten<K>(blocks: seq<Items<K>>): Items<K> {
    if blocks == [] then [] else Flatten(blocks[..|blocks| - 1]) + blocks[|blocks| - 1]
  }

  // ---------------------------------------------------------------- sums of exponentials

  /** Sum of E(score). */
  function Mass<K>(E: real -> real, score: K -> real, items: Items<K>): real {
    if items == [] then 0.0
    else Mass(E, score, items[..|items| - 1]) + E(score(items[|items| - 1].key))
  }

  /** Sum of E(score) * value, in column c. */
  function Moment<K>(E: real -> real, score: K -> real, items: Items<K>, c: nat): real {
    if items == [] then 0.0
    else Moment(E, score, items[..|items| - 1], c) + E(score(items[|items| - 1].key)) * items[|items| - 1].value(c)
  }

  lemma {:induction false} MassPositive<K>(E: real -> real, score: K -> real, items: Items<K>)
    requires ExpLike(E)
    ensures Mass(E, score, items) >= 0.0 && (items != [] ==> Mass(E, score, items) > 0.0)
  {
    if items != [] {
      MassPositive(E, score, items[..|items| - 1]);
      assert Positive(E, score(items[|items| - 1].key));
    }
  }

  lemma {:induction false} Concat<K>(E: real -> real, score: K -> real, a: Items<K>, b: Items<K>, c: nat)
    ensures Mass(E, score, a + b) == Mass(E, score, a) + Mass(E, score, b)
    ensures Moment(E, score, a + b, c) == Moment(E, score, a, c) + Moment(E, score, b, c)
  {
    if b == [] {
      assert a + b == a;
    } else {
      Concat(E, score, a, b[..|b| - 1], c);
      assert (a + b)[..|a + b| - 1] == a + b[..|b| - 1];
    }
  }

  /** Shifting all scores by m divides the sum of exponentials by E(m). */
  lemma {:induction false} ShiftedSum<K>(E: real -> real, score: K -> real, items: Items<K>, m: real)
    requires ExpLike(E)
    ensures Sum(ExpShifted(E, Scores(score, items), m)) * E(m) == Mass(E, score, items)
  {
    var xs := ExpShifted(E, Scores(score, items), m);
    if items != [] {
      var n := |items| - 1;
      ShiftedSum(E, score, items[..n], m);
      assert xs[..n] == ExpShifted(E, Scores(score, items[..n]), m);
      Shift(E, score(items[n].key), m);
    }
  }

  lemma {:induction false} SumPositive(E: real -> real, ss: seq<real>, m: real)
    requires ExpLike(E) && ss != []
    ensures Sum(ExpShifted(E, ss, m)) > 0.0
  {
    var xs, n := ExpShifted(E, ss, m), |ss| - 1;
    assert Positive(E, ss[n] - m);
    if n > 0 {
      SumPositive(E, ss[..n], m);
      assert xs[..n] == ExpShifted(E, ss[..n], m);
    }
  }

  lemma {:induction false} ShiftedCombine<K>(E: real -> real, score: K -> real, items: Items<K>, m: real, c: nat)
    requires ExpLike(E)
    ensures Combine(ExpShifted(E, Scores(score, items), m), items, c) * E(m) == Moment(E, score, items, c)
  {
    var xs := ExpShifted(E, Scores(score, items), m);
    if items != [] {
      var n := |items| - 1;
      ShiftedCombine(E, score, items[..n], m, c);
      assert xs[..n] == ExpShifted(E, Scores(score, items[..n]), m);
      Shift(E, score(items[n].key), m);
      Scaled(Combine(xs[..n], items[..n], c), Moment(E, score, items[..n], c), xs[n], items[n].value(c),
        E(m), E(score(items[n].key)));
    }
  }

  lemma Scaled(a: real, b: real, x: real, v: real, e: real, y: real)
    requires a * e == b && x * e == y
    ensures (a + x * v) * e == b + y * v
  {
    Distribute(a, x, v, e);
  }

  lemma Distribute(a: real, x: real, v: real, e: real)
    ensures (a + x * v) * e == a * e + (x * e) * v
  {
  }

  lemma {:induction false} ScaledCombine<K>(ws: seq<real>, d: real, items: Items<K>, c: nat)
    requires d != 0.0 && |ws| == |items|
    ensures Combine(Divided(ws, d), items, c) * d == Combine(ws, items, c)
  {
    var xs := Divided(ws, d);
    if ws != [] {
      var n := |ws| - 1;
      ScaledCombine(ws[..n], d, items[..n], c);
      assert xs[..n] == Divided(ws[..n], d);
      Distribute(Combine(xs[..n], items[..n], c), xs[n], items[n].value(c), d);
    }
  }

  /** Plain attention is the softmax-weighted mean of the values. */
  lemma PlainMeaning<K>(E: real -> real, lowest: real, score: K -> real, items: Items<K>, c: nat)
    requires ExpLike(E) && items != []
    ensures IsMean(PlainAttention(E, lowest, score, items)(c), Mass(E, score, items), Moment(E, score, items, c))
  {
    var p := PlainAttention(E, lowest, score, items)(c);
    var s, q, e := PlainParts(E, lowest, score, items, c, p);
    MeanFromParts(p, s, q, e, Mass(E, score, items), Moment(E, score, items, c));
  }

  /** The sum of the shifted exponentials, the weighted values, and the factor they are shifted by. */
  lemma PlainParts<K>(E: real -> real, lowest: real, score: K -> real, items: Items<K>, c: nat, p: real)
    returns (s: real, q: real, e: real)
    requires ExpLike(E) && items != [] && p == PlainAttention(E, lowest, score, items)(c)
    ensures p * s == q && s * e == Mass(E, score, items) > 0.0 && q * e == Moment(E, score, items, c)
  {
    var m := Maximum(lowest, MaxOf(Scores(score, items)));
    var exps := ExpShifted(E, Scores(score, items), m);
    var s', q' := PlainQuotient(E, lowest, score, items, c, exps, p);
    s, q, e := Rescaled(E, score, items, m, c, exps);
    MassPositive(E, score, items);
  }

  /** Undoing the division by the sum. */
  lemma PlainQuotient<K>(E: real -> real, lowest: real, score: K -> real, items: Items<K>, c: nat, exps: seq<real>,
                         p: real)
    returns (s: real, q: real)
    requires ExpLike(E) && items != [] && p == PlainAttention(E, lowest, score, items)(c)
    requires exps == ExpShifted(E, Scores(score, items), Maximum(lowest, MaxOf(Scores(score, items))))
    ensures s == Sum(exps) && q == Combine(exps, items, c) && p * s == q
  {
    SumPositive(E, Scores(score, items), Maximum(lowest, MaxOf(Scores(score, items))));
    PlainIsDivided(E, lowest, score, items, c, exps);
    s, q := Sum(exps), Combine(exps, items, c);
    Multiplied(exps, s, items, c, p);
  }

  lemma PlainIsDivided<K>(E: real -> real, lowest: real, score: K -> real, items: Items<K>, c: nat, exps: seq<real>)
    requires ExpLike(E) && items != [] && Sum(exps) > 0.0
    requires exps == ExpShifted(E, Scores(score, items), Maximum(lowest, MaxOf(Scores(score, items))))
    ensures PlainAttention(E, lowest, score, items)(c) == Combine(Divided(exps, Sum(exps)), items, c)
  {
  }

  lemma Multiplied<K>(ws: seq<real>, d: real, items: Items<K>, c: nat, p: real)
    requires d != 0.0 && |ws| == |items| && p == Combine(Divided(ws, d), items, c)
    ensures p * d == Combine(ws, items, c)
  {
    ScaledCombine(ws, d, items, c);
  }

  /** Undoing the shift by m. */
  lemma Rescaled<K>(E: real -> real, score: K -> real, items: Items<K>, m: real, c: nat, exps: seq<real>)
    returns (s: real, q: real, e: real)
    requires ExpLike(E) && exps == ExpShifted(E, Scores(score, items), m)
    ensures s == Sum(exps) && q == Combine(exps, items, c) && e == E(m)
    ensures s * e == Mass(E, score, items) && q * e == Moment(E, score, items, c)
  {
    s, q, e := Sum(exps), Combine(exps, items, c), E(m);
    ShiftedSum(E, score, items, m);
    ShiftedCombine(E, score, items, m, c);
  }

  /** A quotient p of a moment q by a sum s, both rescaled by e. */
  lemma MeanFromParts(p: real, s: real, q: real, e: real, mass: real, moment: real)
    requires p * s == q && s * e == mass && q * e == moment && mass > 0.0
    ensures IsMean(p, mass, moment)
  {
    assert p * (s * e) == (p * s) * e;
  }

  // ---------------------------------------------------------------- the running state

  /** The running state carries mass w and, in output column c, moment u. */
  ghost predicate Stands(E: real -> real, st: RowState, c: nat, w: real, u: real) {
    st.sum * E(st.max) == w && st.out(c) * w == u
  }

  /** The algebra of the new sum. */
  lemma SumAlgebra(s: real, ep: real, w: real, rp: real, rc: real, e: real, ec: real, cs: real, mass: real)
    requires s * ep == w && rp * e == ep && rc * e == ec && cs * ec == mass && e > 0.0
    ensures (rp * s + rc * cs) * e == w + mass
    ensures rp * s + rc * cs == 0.0 <==> w + mass == 0.0
  {
    var ns := rp * s + rc * cs;
    assert (rp * s) * e == s * (rp * e);
    assert (rc * cs) * e == cs * (rc * e);
    if ns * e == 0.0 { Cancel(ns, 0.0, e); }
  }

  /** The algebra of the new output. */
  lemma OutputAlgebra(o: real, s: real, ep: real, w: real, u: real, rp: real, rc: real, e: real, ec: real, v: real,
                      mom: real, ns: real)
    requires s * ep == w && o * w == u && rp * e == ep && rc * e == ec && v * ec == mom && ns != 0.0
    ensures Renormalise(o, s, rp, rc, v, ns) * (ns * e) == u + mom
  {
    var o' := Renormalise(o, s, rp, rc, v, ns);
    assert o' * ns == o * s * rp + rc * v;
    assert o' * (ns * e) == (o' * ns) * e;
    assert (o * s * rp) * e == o * (s * (rp * e));
    assert (rc * v) * e == v * (rc * e);
  }

  lemma MergeMass(E: real -> real, prev: RowState, cur: BlockSoftmax, w: real, mass: real)
    requires ExpLike(E) && prev.sum * E(prev.max) == w && cur.sum * E(cur.max) == mass
    ensures var r := Merge(E, prev, cur);
      && (r.None? <==> w + mass == 0.0)
      && (r.Some? ==> r.value.sum * E(r.value.max) == w + mass)
  {
    var newMax := Maximum(cur.max, prev.max);
    Shift(E, prev.max, newMax);
    Shift(E, cur.max, newMax);
    SumAlgebra(prev.sum, E(prev.max), w, E(prev.max - newMax), E(cur.max - newMax), E(newMax), E(cur.max),
      cur.sum, mass);
  }

  lemma MergeMoment(E: real -> real, prev: RowState, cur: BlockSoftmax, c: nat, w: real, u: real, mom: real)
    requires ExpLike(E) && Stands(E, prev, c, w, u) && cur.expValues(c) * E(cur.max) == mom
    requires Merge(E, prev, cur).Some?
    ensures var st := Merge(E, prev, cur).value; st.out(c) * (st.sum * E(st.max)) == u + mom
  {
    var newMax := Maximum(cur.max, prev.max);
    Shift(E, prev.max, newMax);
    Shift(E, cur.max, newMax);
    MergeParts(E, prev, cur, c);
    OutputAlgebra(prev.out(c), prev.sum, E(prev.max), w, u, E(prev.max - newMax), E(cur.max - newMax),
      E(newMax), E(cur.max), cur.expValues(c), mom, Merge(E, prev, cur).value.sum);
  }

  lemma MergeParts(E: real -> real, prev: RowState, cur: BlockSoftmax, c: nat)
    requires Merge(E, prev, cur).Some?
    ensures var st, m := Merge(E, prev, cur).value, Maximum(cur.max, prev.max);
      && st.max == m && st.sum != 0.0
      && st.out(c) == Renormalise(prev.out(c), prev.sum, E(prev.max - m), E(cur.max - m), cur.expValues(c), st.sum)
  {
  }

  lemma MergeMeaning(E: real -> real, prev: RowState, cur: BlockSoftmax, c: nat, w: real, u: real, mass: real,
                     mom: real)
    requires ExpLike(E) && Stands(E, prev, c, w, u)
    requires cur.sum * E(cur.max) == mass && cur.expValues(c) * E(cur.max) == mom
    ensures var r := Merge(E, prev, cur);
      && (r.None? <==> w + mass == 0.0)
      && (r.Some? ==> Stands(E, r.value, c, w + mass, u + mom))
  {
    MergeMass(E, prev, cur, w, mass);
    if Merge(E, prev, cur).Some? { MergeMoment(E, prev, cur, c, w, u, mom); }
  }

  /** Step `step` on `block` adds the block's mass and moment to those of the running state,
      and is undefined exactly when the resulting mass is zero. */
  ghost predicate Adds<K>(E: real -> real, score: K -> real, step: (RowState, Items<K>) -> Option<RowState>,
                          prev: RowState, block: Items<K>, c: nat, w: real, u: real) {
    block != [] && Stands(E, prev, c, w, u) ==>
      var r := step(prev, block);
      && (r.None? <==> w + Mass(E, score, block) == 0.0)
      && (r.Some? ==> Stands(E, r.value, c, w + Mass(E, score, block), u + Moment(E, score, block, c)))
  }

  lemma AttnFuncAdds<K>(E: real -> real, score: K -> real, prev: RowState, block: Items<K>, c: nat, w: real, u: real)
    requires ExpLike(E)
    ensures Adds(E, score, AttnFunc(E, score), prev, block, c, w, u)
  {
    if block != [] && Stands(E, prev, c, w, u) {
      var m := MaxOf(Scores(score, block));
      ShiftedSum(E, score, block, m);
      ShiftedCombine(E, score, block, m, c);
      MergeMeaning(E, prev, SoftmaxOf(E, score, block), c, w, u, Mass(E, score, block), Moment(E, score, block, c));
    }
  }

  /** Mass and moment of the items of all blocks, block by block. */
  function BlockMass<K>(E: real -> real, score: K -> real, blocks: seq<Items<K>>): real {
    if blocks == [] then 0.0
    else BlockMass(E, score, blocks[..|blocks| - 1]) + Mass(E, score, blocks[|blocks| - 1])
  }

  function BlockMoment<K>(E: real -> real, score: K -> real, blocks: seq<Items<K>>, c: nat): real {
    if blocks == [] then 0.0
    else BlockMoment(E, score, blocks[..|blocks| - 1], c) + Moment(E, score, blocks[|blocks| - 1], c)
  }

  lemma {:induction false} Flattened<K>(E: real -> real, score: K -> real, blocks: seq<Items<K>>, c: nat)
    requires NonEmpty(blocks)
    ensures BlockMass(E, score, blocks) == Mass(E, score, Flatten(blocks))
    ensures BlockMoment(E, score, blocks, c) == Moment(E, score, Flatten(blocks), c)
    ensures blocks != [] ==> Flatten(blocks) != []
  {
    if blocks != [] {
      var n := |blocks| - 1;
      Flattened(E, score, blocks[..n], c);
      Concat(E, score, Flatten(blocks[..n]), blocks[n], c);
    }
  }

  /** Folding blocks with a step that adds their masses and moments gives the totals. */
  lemma {:induction false} ReduceMeaning<K>(E: real -> real, score: K -> real,
                                            step: (RowState, Items<K>) -> Option<RowState>,
                                            init: RowState, blocks: seq<Items<K>>, c: nat, w: real, u: real)
    requires NonEmpty(blocks) && Stands(E, init, c, w, u)
    requires forall st, b, x, y :: Adds(E, score, step, st, b, c, x, y)
    requires Reduce(step, init, blocks).Some?
    ensures Stands(E, Reduce(step, init, blocks).value, c,
                   w + BlockMass(E, score, blocks), u + BlockMoment(E, score, blocks, c))
    ensures blocks != [] ==> w + BlockMass(E, score, blocks) != 0.0
  {
    if blocks != [] {
      var n := |blocks| - 1;
      ReduceMeaning(E, score, step, init, blocks[..n], c, w, u);
      var st := Reduce(step, init, blocks[..n]).value;
      var x, y := w + BlockMass(E, score, blocks[..n]), u + BlockMoment(E, score, blocks[..n], c);
      assert Adds(E, score, step, st, blocks[n], c, x, y);
    }
  }

  /** Compared with the weighted mean p of all items, the reduction from sum s and output 0
      is right in column c exactly when s or p is zero. */
  lemma ReduceIsMean<K>(E: real -> real, score: K -> real, step: (RowState, Items<K>) -> Option<RowState>,
                        init: RowState, blocks: seq<Items<K>>, c: nat, p: real)
    requires NonEmpty(blocks) && blocks != [] && init.out(c) == 0.0 && E(init.max) > 0.0
    requires forall st, b, x, y :: Adds(E, score, step, st, b, c, x, y)
    requires Reduce(step, init, blocks).Some?
    requires IsMean(p, BlockMass(E, score, blocks), BlockMoment(E, score, blocks, c))
    ensures Reduce(step, init, blocks).value.out(c) == p <==> init.sum == 0.0 || p == 0.0
  {
    var w := init.sum * E(init.max);
    ReduceMeaning(E, score, step, init, blocks, c, w, 0.0);
    Perturbed(Reduce(step, init, blocks).value.out(c), p, init.sum, E(init.max), w,
      BlockMass(E, score, blocks), BlockMoment(E, score, blocks, c));
  }

  ghost predicate IsMean(p: real, mass: real, moment: real) { mass > 0.0 && p * mass == moment }

  /** An extra mass w == s * e in the denominator is harmless only if it, or the quotient, is zero. */
  lemma Perturbed(o: real, p: real, s: real, e: real, w: real, z: real, u: real)
    requires e > 0.0 && IsMean(p, z, u) && s * e == w && w + z != 0.0 && o * (w + z) == 0.0 + u
    ensures o == p <==> s == 0.0 || p == 0.0
  {
    assert o * (w + z) == o * w + o * z;
    if o == p {
      assert p * w == 0.0;
      if p != 0.0 { Cancel(w, 0.0, p); Cancel(s, 0.0, e); }
    }
    if s == 0.0 { Cancel(o, p, z); }
    if p == 0.0 { Cancel(o, 0.0, w + z); }
  }

  /** Starting from a sum that is not negative, no step divides by zero. */
  lemma {:induction false} FlashDefined<K>(E: real -> real, score: K -> real, init: RowState, blocks: seq<Items<K>>)
    requires ExpLike(E) && NonEmpty(blocks) && init.sum >= 0.0
    ensures Flash(E, score, init, blocks).Some? && Flash(E, score, init, blocks).value.sum >= 0.0
  {
    if blocks != [] {
      var n := |blocks| - 1;
      FlashDefined(E, score, init, blocks[..n]);
      AttnFuncDefined(E, score, Flash(E, score, init, blocks[..n]).value, blocks[n]);
    }
  }

  lemma AttnFuncDefined<K>(E: real -> real, score: K -> real, st: RowState, block: Items<K>)
    requires ExpLike(E) && block != [] && st.sum >= 0.0
    ensures AttnFunc(E, score)(st, block).Some? && AttnFunc(E, score)(st, block).value.sum >= 0.0
  {
    var cur := SoftmaxOf(E, score, block);
    SumPositive(E, Scores(score, block), cur.max);
    var newMax := Maximum(cur.max, st.max);
    assert Positive(E, st.max - newMax) && Positive(E, cur.max - newMax);
    SumGrows(E(st.max - newMax), st.sum, E(cur.max - newMax), cur.sum);
  }

  lemma SumGrows(a: real, s: real, b: real, t: real)
    requires a > 0.0 && b > 0.0 && s >= 0.0 && t > 0.0
    ensures a * s + b * t > 0.0
  {
  }

  const ZERO_ROW: Row := (c: nat) => 0.0

  /** With sum 0 and output 0, whatever the initial maximum and however the keys and values
      are split into blocks, blockwise attention equals plain attention. */
  lemma FlashEqualsPlain<K>(E: real -> real, score: K -> real, initMax: real, lowest: real, blocks: seq<Items<K>>)
    requires ExpLike(E) && NonEmpty(blocks) && blocks != []
    ensures Flatten(blocks) != []
    ensures Flash(E, score, RowState(initMax, 0.0, ZERO_ROW), blocks).Some?
    ensures forall c: nat ::
      Flash(E, score, RowState(initMax, 0.0, ZERO_ROW), blocks).value.out(c)
        == PlainAttention(E, lowest, score, Flatten(blocks))(c)
  {
    var init := RowState(initMax, 0.0, ZERO_ROW);
    FlashDefined(E, score, init, blocks);
    InitialSumMatters(E, score, init, lowest, blocks, 0);
    forall c: nat
      ensures Flash(E, score, init, blocks).value.out(c) == PlainAttention(E, lowest, score, Flatten(blocks))(c)
    {
      InitialSumMatters(E, score, init, lowest, blocks, c);
    }
  }

  // ---------------------------------------------------------------- the initial state as written

  /** From a nonzero initial sum an output entry is right only where the right entry is zero. */
  lemma InitialSumMatters<K>(E: real -> real, score: K -> real, init: RowState, lowest: real, blocks: seq<Items<K>>,
                             c: nat)
    requires ExpLike(E) && NonEmpty(blocks) && blocks != [] && init.out(c) == 0.0
    requires Flash(E, score, init, blocks).Some?
    ensures Flatten(blocks) != []
    ensures var plain := PlainAttention(E, lowest, score, Flatten(blocks))(c);
      Flash(E, score, init, blocks).value.out(c) == plain <==> init.sum == 0.0 || plain == 0.0
  {
    AlwaysAdds(E, score, c);
    Flattened(E, score, blocks, c);
    PlainMeaning(E, lowest, score, Flatten(blocks), c);
    assert Positive(E, init.max);
    ReduceIsMean(E, score, AttnFunc(E, score), init, blocks, c, PlainAttention(E, lowest, score, Flatten(blocks))(c));
  }

  /** The intended initial maximum, -kaleido.float32.max. */
  const INIT_MAX: real := -340282346638528859811704183484516925440.0

  /** per_block_func passes (init_sum, init_max, init_o) to parameters (prev_maxes, prev_sums,
      prev_out): the running maximum starts at 0 and the running sum at -float32.max. */
  function PerBlockFunc<K>(E: real -> real, score: K -> real, blocks: seq<Items<K>>): Option<Row>
  {
    match Flash(E, score, RowState(0.0, INIT_MAX, ZERO_ROW), blocks)
    case None => None
    case Some(st) => Some(st.out)
  }

  /** The initial state, of mass w, and the first k blocks have some mass together. */
  ghost predicate HasMass<K>(E: real -> real, score: K -> real, w: real, blocks: seq<Items<K>>, k: nat)
    requires k <= |blocks|
  {
    w + BlockMass(E, score, blocks[..k]) != 0.0
  }

  lemma AlwaysAdds<K>(E: real -> real, score: K -> real, c: nat)
    requires ExpLike(E)
    ensures forall st, b, x, y :: Adds(E, score, AttnFunc(E, score), st, b, c, x, y)
  {
    forall st, b, x, y
      ensures Adds(E, score, AttnFunc(E, score), st, b, c, x, y)
    {
      AttnFuncAdds(E, score, st, b, c, x, y);
    }
  }

  /** The reduction is defined exactly when no block is empty and the running mass, of which
      the initial state contributes w, is never zero. */
  lemma {:induction false} FlashDefinedIff<K>(E: real -> real, score: K -> real, init: RowState,
                                              blocks: seq<Items<K>>, w: real, u: real)
    requires ExpLike(E) && Stands(E, init, 0, w, u)
    ensures Flash(E, score, init, blocks).Some? <==>
              NonEmpty(blocks) && forall k | 1 <= k <= |blocks| :: HasMass(E, score, w, blocks, k)
  {
    if blocks != [] {
      var n := |blocks| - 1;
      FlashDefinedIff(E, score, init, blocks[..n], w, u);
      forall k | 1 <= k <= n
        ensures HasMass(E, score, w, blocks[..n], k) <==> HasMass(E, score, w, blocks, k)
      {
        assert blocks[..n][..k] == blocks[..k];
      }
      if Flash(E, score, init, blocks[..n]).Some? && blocks[n] != [] {
        LastBlockDefined(E, score, init, blocks, w, u);
        assert HasMass(E, score, w, blocks, n + 1) <==> Flash(E, score, init, blocks).Some?;
      }
    }
  }

  lemma LastBlockDefined<K>(E: real -> real, score: K -> real, init: RowState, blocks: seq<Items<K>>, w: real, u: real)
    requires ExpLike(E) && Stands(E, init, 0, w, u) && blocks != [] && blocks[|blocks| - 1] != []
    requires Flash(E, score, init, blocks[..|blocks| - 1]).Some? && NonEmpty(blocks[..|blocks| - 1])
    ensures HasMass(E, score, w, blocks, |blocks|) <==> Flash(E, score, init, blocks).Some?
  {
    var n := |blocks| - 1;
    var front := blocks[..n];
    AlwaysAdds(E, score, 0);
    ReduceMeaning(E, score, AttnFunc(E, score), init, front, 0, w, u);
    var st := Flash(E, score, init, front).value;
    var x, y := w + BlockMass(E, score, front), u + BlockMoment(E, score, front, 0);
    assert Adds(E, score, AttnFunc(E, score), st, blocks[n], 0, x, y);
    assert blocks[..n + 1] == blocks;
  }

  lemma ExpOfZero(E: real -> real, zero: real)
    requires ExpLike(E) && zero == 0.0
    ensures E(zero) == 1.0
  {
    Shift(E, zero, zero);
    assert zero - zero == zero;
    Cancel(E(zero), 1.0, E(zero));
  }

  /** As written, the per-block program is defined unless some first blocks have mass
      float32.max exactly, and then gives a right output entry exactly where the values
      weighted by the exponentials sum to zero. */
  lemma PerBlockFuncAgreesIffZero<K>(E: real -> real, score: K -> real, lowest: real, blocks: seq<Items<K>>, c: nat)
    requires ExpLike(E) && NonEmpty(blocks) && blocks != []
    ensures Flatten(blocks) != []
    ensures PerBlockFunc(E, score, blocks).Some? <==>
              forall k | 1 <= k <= |blocks| :: HasMass(E, score, INIT_MAX, blocks, k)
    ensures PerBlockFunc(E, score, blocks).Some? ==>
      var right := PlainAttention(E, lowest, score, Flatten(blocks))(c);
      PerBlockFunc(E, score, blocks).value(c) == right <==> Moment(E, score, Flatten(blocks), c) == 0.0
  {
    var init := RowState(0.0, INIT_MAX, ZERO_ROW);
    ExpOfZero(E, init.max);
    Scale(INIT_MAX, E(init.max), ZERO_ROW(0));
    FlashDefinedIff(E, score, init, blocks, INIT_MAX, 0.0);
    Flattened(E, score, blocks, c);
    PlainMeaning(E, lowest, score, Flatten(blocks), c);
    var all := Flatten(blocks);
    ZeroMean(PlainAttention(E, lowest, score, all)(c), Mass(E, score, all), Moment(E, score, all, c));
    if PerBlockFunc(E, score, blocks).Some? { InitialSumMatters(E, score, init, lowest, blocks, c); }
  }

  lemma Scale(w: real, one: real, zero: real)
    requires one == 1.0 && zero == 0.0
    ensures w * one == w && zero * w == 0.0
  {
  }

  lemma ZeroMean(p: real, mass: real, moment: real)
    requires IsMean(p, mass, moment)
    ensures p == 0.0 <==> moment == 0.0
  {
    if moment == 0.0 { Cancel(p, 0.0, mass); }
  }

  /** For a single key with value 1 the right answer is 1, and the program gives something else. */
  lemma PerBlockFuncIsWrong(E: real -> real, score: int -> real, lowest: real)
    requires ExpLike(E)
    ensures var item := Item(0, (c: nat) => 1.0);
      PlainAttention(E, lowest, score, [item])(0) == 1.0
      && (PerBlockFunc(E, score, [[item]]).Some? ==> PerBlockFunc(E, score, [[item]]).value(0) != 1.0)
  {
    var item := Item(0, (c: nat) => 1.0);
    PlainMeaning(E, lowest, score, [item], 0);
    assert [item][..0] == [] && [[item]][..0] == [];
    assert Moment(E, score, [item], 0) == Mass(E, score, [item]);
    Cancel(PlainAttention(E, lowest, score, [item])(0), 1.0, Mass(E, score, [item]));
    assert Flatten([[item]]) == [item];
    if PerBlockFunc(E, score, [[item]]).Some? {
      PerBlockFuncAgreesIffZero(E, score, lowest, [[item]], 0);
      MassPositive(E, score, [item]);
    }
  }

  /** With the initialisers in that order a first block of mass float32.max divides by zero. */
  lemma PerBlockFuncStops<K>(E: real -> real, score: K -> real, block: Items<K>)
    requires ExpLike(E) && block != [] && Mass(E, score, block) == 340282346638528859811704183484516925440.0
    ensures PerBlockFunc(E, score, [block]).None?
  {
    PerBlockFuncAgreesIffZero(E, score, 0.0, [block], 0);
    assert [block][..1] == [block] && [block][..0] == [];
    assert BlockMass(E, score, [block]) == 0.0 + Mass(E, score, block);
    assert !HasMass(E, score, INIT_MAX, [block], 1);
  }

  // ---------------------------------------------------------------- the running maximum

  lemma {:induction false} MaxOfMeaning(xs: seq<real>)
    requires xs != []
    ensures forall i | 0 <= i < |xs| :: xs[i] <= MaxOf(xs)
    ensures exists i | 0 <= i < |xs| :: xs[i] == MaxOf(xs)
  {
    var n := |xs| - 1;
    if n == 0 {
      assert xs[0] == MaxOf(xs);
    } else {
      MaxOfMeaning(xs[..n]);
      var i :| 0 <= i < n && xs[..n][i] == MaxOf(xs[..n]);
      assert xs[if xs[i] >= xs[n] then i else n] == MaxOf(xs);
    }
  }

  /** No score of the first k blocks exceeds m. */
  predicate Bounds<K>(score: K -> real, blocks: seq<Items<K>>, k: nat, m: real)
    requires k <= |blocks|
  {
    forall i, j | 0 <= i < k && 0 <= j < |blocks[i]| :: score(blocks[i][j].key) <= m
  }

  predicate Attains<K>(score: K -> real, blocks: seq<Items<K>>, k: nat, m: real)
    requires k <= |blocks|
  {
    exists i, j | 0 <= i < k && 0 <= j < |blocks[i]| :: score(blocks[i][j].key) == m
  }

  /** The running maximum is that of the initial one and of all scores so far. */
  lemma {:induction false} FlashMaximum<K>(E: real -> real, score: K -> real, init: RowState, blocks: seq<Items<K>>)
    requires Flash(E, score, init, blocks).Some?
    ensures var m := Flash(E, score, init, blocks).value.max;
      && init.max <= m && Bounds(score, blocks, |blocks|, m)
      && (m == init.max || Attains(score, blocks, |blocks|, m))
  {
    if blocks != [] {
      var n := |blocks| - 1;
      FlashMaximum(E, score, init, blocks[..n]);
      var scores := Scores(score, blocks[n]);
      MaxOfMeaning(scores);
      var before, after := Flash(E, score, init, blocks[..n]).value.max, Flash(E, score, init, blocks).value.max;
      assert after == Maximum(MaxOf(scores), before);
      forall i, j | 0 <= i < |blocks| && 0 <= j < |blocks[i]|
        ensures score(blocks[i][j].key) <= after
      {
        if i < n {
          assert score(blocks[..n][i][j].key) <= before;
        } else {
          assert scores[j] <= MaxOf(scores);
        }
      }
      if after == MaxOf(scores) {
        var j :| 0 <= j < |scores| && scores[j] == MaxOf(scores);
        assert score(blocks[n][j].key) == after;
      } else if after != init.max {
        var i, j :| 0 <= i < n && 0 <= j < |blocks[..n][i]| && score(blocks[..n][i][j].key) == before;
        assert score(blocks[i][j].key) == after;
      }
    }
  }

  // ---------------------------------------------------------------- what the sums are

  /** One key contributes its exponential, and its exponential times its value in that column. */
  lemma OneKey<K>(E: real -> real, score: K -> real, item: Item<K>, c: nat)
    ensures Mass(E, score, [item]) == E(score(item.key))
    ensures Moment(E, score, [item], c) == E(score(item.key)) * item.value(c)
  {
    assert [item][..0] == [];
  }

  /** With two keys, attention weighs the two values by the exponentials of their scores. */
  lemma PlainOfTwo<K>(E: real -> real, lowest: real, score: K -> real, a: Item<K>, b: Item<K>, c: nat)
    requires ExpLike(E)
    ensures E(score(a.key)) + E(score(b.key)) > 0.0
    ensures PlainAttention(E, lowest, score, [a, b])(c)
         == (E(score(a.key)) * a.value(c) + E(score(b.key)) * b.value(c)) / (E(score(a.key)) + E(score(b.key)))
  {
    PlainMeaning(E, lowest, score, [a, b], c);
    assert [a, b] == [a] + [b];
    Concat(E, score, [a], [b], c);
    OneKey(E, score, a, c);
    OneKey(E, score, b, c);
  }

  /** Attention averages: where all values are equal it returns that value, whatever the scores. */
  lemma EqualValues<K>(E: real -> real, lowest: real, score: K -> real, items: Items<K>, c: nat, v: real)
    requires ExpLike(E) && items != [] && forall i | 0 <= i < |items| :: items[i].value(c) == v
    ensures PlainAttention(E, lowest, score, items)(c) == v
  {
    PlainMeaning(E, lowest, score, items, c);
    EqualMoment(E, score, items, c, v);
    Cancel(PlainAttention(E, lowest, score, items)(c), v, Mass(E, score, items));
  }

  lemma {:induction false} EqualMoment<K>(E: real -> real, score: K -> real, items: Items<K>, c: nat, v: real)
    requires forall i | 0 <= i < |items| :: items[i].value(c) == v
    ensures Moment(E, score, items, c) == v * Mass(E, score, items)
  {
    if items != [] {
      var n := |items| - 1;
      EqualMoment(E, score, items[..n], c, v);
      Spread(v, Mass(E, score, items[..n]), E(score(items[n].key)));
    }
  }

  lemma Spread(v: real, a: real, b: real)
    ensures v * a + b * v == v * (a + b)
  {
  }

  lemma {:induction false} FlattenAppend<K>(a: seq<Items<K>>, b: seq<Items<K>>)
    ensures Flatten(a + b) == Flatten(a) + Flatten(b)
    ensures forall block: Items<K> :: Flatten([block]) == block
  {
    forall block: Items<K>
      ensures Flatten([block]) == block
    {
      assert [block][..0] == [];
    }
    if b == [] {
      assert a + b == a;
    } else {
      FlattenAppend(a, b[..|b| - 1]);
      assert (a + b)[..|a + b| - 1] == a + b[..|b| - 1];
    }
  }
}
