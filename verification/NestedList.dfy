/** The two halves of a FractalTensor's representation, an index tree and a flat buffer, and the
    plain nested list they stand for. */
module NestedList {

  /** How an operation ends: with a value, with an IndexError, or with another exception. */
  datatype Outcome<+T> = Ok(value: T) | IndexError | Failed

  /** A node of the index tree: a position in a depth-1 list, or a list of subtrees. */
  datatype Tree = Leaf(id: int) | Node(kids: seq<Tree>)

  /** The list a FractalTensor denotes; a cell holds the values of one tensor. */
  datatype Nest<T> = Cell(values: seq<T>) | Row(items: seq<Nest<T>>)

  // ---------------------------------------------------------------- index trees

  /** Number of tensors below a tree. */
  function Numel(t: Tree): nat {
    match t
    case Leaf(_) => 1
    case Node(kids) => NumelAll(kids)
  }

  function NumelAll(ts: seq<Tree>): nat {
    if ts == [] then 0 else Numel(ts[0]) + NumelAll(ts[1..])
  }

  /** Number of buffer entries below a tree when each tensor takes `es`. */
  function Size(t: Tree, es: nat): nat {
    match t
    case Leaf(_) => es
    case Node(kids) => SizeAll(kids, es)
  }

  function SizeAll(ts: seq<Tree>, es: nat): nat {
    if ts == [] then 0 else Size(ts[0], es) + SizeAll(ts[1..], es)
  }

  lemma {:induction false} SizeIsNumel(t: Tree, es: nat)
    ensures Size(t, es) == Numel(t) * es
    decreases t, 0
  {
    if t.Node? { SizeAllIsNumel(t.kids, es); }
  }

  lemma {:induction false} SizeAllIsNumel(ts: seq<Tree>, es: nat)
    ensures SizeAll(ts, es) == NumelAll(ts) * es
    decreases ts, 1
  {
    if ts != [] {
      SizeIsNumel(ts[0], es);
      SizeAllIsNumel(ts[1..], es);
      assert (Numel(ts[0]) + NumelAll(ts[1..])) * es == Numel(ts[0]) * es + NumelAll(ts[1..]) * es;
    }
  }

  /** Every leaf of the list is at level d. Sublists may be empty. */
  predicate Uniform(ts: seq<Tree>, d: nat)
    decreases d
  {
    d > 0 && forall i :: 0 <= i < |ts| ==>
      if d == 1 then ts[i].Leaf? else ts[i].Node? && Uniform(ts[i].kids, d - 1)
  }

  /** The depth of an index list along its first path. An empty list is refused; running into an
      empty list further down is an IndexError. */
  function FirstDepth(ts: seq<Tree>): Outcome<nat> {
    if ts == [] then Failed else Descend(ts[0], 1)
  }

  function Descend(t: Tree, d: nat): Outcome<nat> {
    match t
    case Leaf(_) => Ok(d)
    case Node(kids) => if kids == [] then IndexError else Descend(kids[0], d + 1)
  }

  lemma {:induction false} DescendUniform(t: Tree, e: nat, d: nat)
    requires if d == 0 then t.Leaf? else t.Node? && Uniform(t.kids, d)
    ensures Descend(t, e) == Ok(e + d) || Descend(t, e) == IndexError
    decreases d
  {
    if d > 0 && t.kids != [] {
      DescendUniform(t.kids[0], e + 1, d - 1);
    }
  }

  lemma {:induction false} DescendDeeper(t: Tree, d: nat)
    ensures Descend(t, d + 1) == match Descend(t, d) case Ok(e) => Ok(e + 1) case other => other
    decreases t
  {
    if t.Node? && t.kids != [] { DescendDeeper(t.kids[0], d + 1); }
  }

  /** Only the first path counts: a leaf ends it, and a list makes it one longer than its own. */
  lemma FirstDepthMeaning(id: int, kids: seq<Tree>, rest: seq<Tree>)
    ensures FirstDepth([]) == Failed && FirstDepth([Leaf(id)] + rest) == Ok(1)
    ensures FirstDepth([Node(kids)] + rest) ==
            match FirstDepth(kids) case Ok(d) => Ok(d + 1) case _ => IndexError
  {
    if kids != [] {
      DescendDeeper(kids[0], 1);
      NeverFails(kids[0], 1);
    }
  }

  lemma {:induction false} NeverFails(t: Tree, d: nat)
    ensures Descend(t, d) != Failed
    decreases t
  {
    if t.Node? && t.kids != [] { NeverFails(t.kids[0], d + 1); }
  }

  // ---------------------------------------------------------------- from representation to list

  /** The subtree `t` filled with the buffer entries that belong to it. */
  function Fill<T>(t: Tree, data: seq<T>, es: nat): Nest<T>
    requires |data| == Size(t, es)
    decreases t, 0
  {
    match t
    case Leaf(_) => Cell(data)
    case Node(kids) => Row(FillAll(kids, data, es))
  }

  function FillAll<T>(ts: seq<Tree>, data: seq<T>, es: nat): seq<Nest<T>>
    requires |data| == SizeAll(ts, es)
    decreases ts, 1
  {
    if ts == [] then []
    else [Fill(ts[0], data[..Size(ts[0], es)], es)] + FillAll(ts[1..], data[Size(ts[0], es)..], es)
  }

  lemma {:induction false} SizeAppend(xs: seq<Tree>, ys: seq<Tree>, es: nat)
    ensures SizeAll(xs + ys, es) == SizeAll(xs, es) + SizeAll(ys, es)
  {
    if xs == [] {
      assert xs + ys == ys;
    } else {
      assert (xs + ys)[1..] == xs[1..] + ys;
      SizeAppend(xs[1..], ys, es);
    }
  }

  lemma Associate<T>(a: seq<T>, b: seq<T>, c: seq<T>)
    ensures a + (b + c) == (a + b) + c
  {
  }

  lemma FillSplit<T>(ts: seq<Tree>, data: seq<T>, t: Tree, rest: seq<Tree>, d: seq<T>, ds: seq<T>, es: nat)
    requires ts == [t] + rest && data == d + ds && |d| == Size(t, es) && |ds| == SizeAll(rest, es)
    ensures |data| == SizeAll(ts, es)
    ensures FillAll(ts, data, es) == [Fill(t, d, es)] + FillAll(rest, ds, es)
  {
    assert ts[0] == t && ts[1..] == rest && data[..|d|] == d && data[|d|..] == ds;
  }

  lemma FillGlue<T>(t: Tree, d: seq<T>, rest: seq<Tree>, ds: seq<T>, es: nat, a: seq<Nest<T>>, b: seq<Nest<T>>)
    requires |d| == Size(t, es) && |ds| == SizeAll(rest, es) && FillAll(rest, ds, es) == a + b
    ensures |d + ds| == SizeAll([t] + rest, es)
    ensures FillAll([t] + rest, d + ds, es) == ([Fill(t, d, es)] + a) + b
  {
    FillSplit([t] + rest, d + ds, t, rest, d, ds, es);
    Associate([Fill(t, d, es)], a, b);
  }

  lemma Reassemble<X>(s: seq<X>, n: nat, t: seq<X>)
    requires n <= |s|
    ensures s[..n] + (s[n..] + t) == s + t
  {
  }

  /** Concatenating index lists and buffers concatenates lists. */
  lemma {:induction false} FillAppend<T>(xs: seq<Tree>, ys: seq<Tree>, dx: seq<T>, dy: seq<T>, es: nat)
    requires |dx| == SizeAll(xs, es) && |dy| == SizeAll(ys, es)
    ensures |dx + dy| == SizeAll(xs + ys, es)
    ensures FillAll(xs + ys, dx + dy, es) == FillAll(xs, dx, es) + FillAll(ys, dy, es)
    decreases |xs|
  {
    if xs == [] {
      assert xs + ys == ys && dx + dy == dy;
    } else {
      var n := Size(xs[0], es);
      FillAppend(xs[1..], ys, dx[n..], dy, es);
      FillGlue(xs[0], dx[..n], xs[1..] + ys, dx[n..] + dy, es, FillAll(xs[1..], dx[n..], es), FillAll(ys, dy, es));
      Reassemble(xs, 1, ys);
      Reassemble(dx, n, dy);
      assert xs[..1] == [xs[0]];
    }
  }

  /** Where the entries of child k start. */
  function Offset(ts: seq<Tree>, k: nat, es: nat): nat
    requires k <= |ts|
  {
    SizeAll(ts[..k], es)
  }

  lemma OffsetStep(ts: seq<Tree>, k: nat, es: nat)
    requires k < |ts|
    ensures Offset(ts, k + 1, es) == Offset(ts, k, es) + Size(ts[k], es) <= SizeAll(ts, es)
  {
    assert ts[..k + 1] == ts[..k] + [ts[k]];
    SizeAppend(ts[..k], [ts[k]], es);
    assert ts == ts[..k + 1] + ts[k + 1..];
    SizeAppend(ts[..k + 1], ts[k + 1..], es);
  }

  lemma FillHead<T>(ts: seq<Tree>, data: seq<T>, es: nat)
    requires |data| == SizeAll(ts, es) && ts != []
    ensures |FillAll(ts, data, es)| == |ts| && Offset(ts, 0, es) == 0
    ensures FillAll(ts, data, es)[0] == Fill(ts[0], data[0..0 + Size(ts[0], es)], es)
  {
    FillLength(ts, data, es);
    assert data[0..0 + Size(ts[0], es)] == data[..Size(ts[0], es)];
  }

  lemma OffsetTail(ts: seq<Tree>, k: nat, es: nat)
    requires 0 < k < |ts|
    ensures Offset(ts, k, es) == Size(ts[0], es) + Offset(ts[1..], k - 1, es)
  {
    assert ts[..k][1..] == ts[1..][..k - 1];
  }

  lemma SliceOfRest<T>(s: seq<T>, n: nat, o: nat, m: nat)
    requires n + o + m <= |s|
    ensures s[n..][o..o + m] == s[n + o..n + o + m]
  {
  }

  /** Entry k of `items` is subtree k filled with the entries from its offset on. */
  predicate ChildAt<T(==)>(ts: seq<Tree>, data: seq<T>, es: nat, items: seq<Nest<T>>, k: nat) {
    k < |ts| == |items| && Offset(ts, k, es) + Size(ts[k], es) <= |data|
    && items[k] == Fill(ts[k], data[Offset(ts, k, es)..Offset(ts, k, es) + Size(ts[k], es)], es)
  }

  lemma ChildOfRest<T>(ts: seq<Tree>, data: seq<T>, es: nat, items: seq<Nest<T>>, k: nat)
    requires 0 < k < |ts| == |items| && Size(ts[0], es) <= |data|
    requires ChildAt(ts[1..], data[Size(ts[0], es)..], es, items[1..], k - 1)
    ensures ChildAt(ts, data, es, items, k)
  {
    OffsetTail(ts, k, es);
    SliceOfRest(data, Size(ts[0], es), Offset(ts[1..], k - 1, es), Size(ts[k], es));
  }

  /** Child k of the list is subtree k filled with the entries from its offset on. */
  lemma {:induction false} FillAt<T>(ts: seq<Tree>, data: seq<T>, es: nat, k: nat)
    requires |data| == SizeAll(ts, es) && k < |ts|
    ensures ChildAt(ts, data, es, FillAll(ts, data, es), k)
    decreases |ts|
  {
    if k == 0 {
      OffsetStep(ts, k, es);
      FillHead(ts, data, es);
    } else {
      FillAt(ts[1..], data[Size(ts[0], es)..], es, k - 1);
      FillLength(ts, data, es);
      assert FillAll(ts, data, es)[1..] == FillAll(ts[1..], data[Size(ts[0], es)..], es);
      ChildOfRest(ts, data, es, FillAll(ts, data, es), k);
    }
  }

  lemma {:induction false} FillLength<T>(ts: seq<Tree>, data: seq<T>, es: nat)
    requires |data| == SizeAll(ts, es)
    ensures |FillAll(ts, data, es)| == |ts|
    decreases |ts|
  {
    if ts != [] {
      FillLength(ts[1..], data[Size(ts[0], es)..], es);
    }
  }

  // ---------------------------------------------------------------- left-to-right order

  function Flat<T>(n: Nest<T>): seq<T>
    decreases n, 0
  {
    match n
    case Cell(values) => values
    case Row(items) => FlatAll(items)
  }

  function FlatAll<T>(ns: seq<Nest<T>>): seq<T>
    decreases ns, 1
  {
    if ns == [] then [] else Flat(ns[0]) + FlatAll(ns[1..])
  }

  /** The buffer is the list's values from left to right. */
  lemma {:induction false} FlatFill<T>(t: Tree, data: seq<T>, es: nat)
    requires |data| == Size(t, es)
    ensures Flat(Fill(t, data, es)) == data
    decreases t, 0
  {
    if t.Node? { FlatFillAll(t.kids, data, es); }
  }

  lemma FlatCons<T>(n: Nest<T>, ns: seq<Nest<T>>)
    ensures FlatAll([n] + ns) == Flat(n) + FlatAll(ns)
  {
    assert ([n] + ns)[1..] == ns;
  }

  lemma {:induction false} FlatFillAll<T>(ts: seq<Tree>, data: seq<T>, es: nat)
    requires |data| == SizeAll(ts, es)
    ensures FlatAll(FillAll(ts, data, es)) == data
    decreases ts, 1
  {
    if ts != [] {
      var n := Size(ts[0], es);
      FlatFill(ts[0], data[..n], es);
      FlatFillAll(ts[1..], data[n..], es);
      FlatCons(Fill(ts[0], data[..n], es), FillAll(ts[1..], data[n..], es));
      assert data == data[..n] + data[n..];
    }
  }

  /** The leaf labels of a depth-1 list do not matter. */
  lemma {:induction false} LabelsDoNotMatter<T>(xs: seq<Tree>, ys: seq<Tree>, data: seq<T>, es: nat)
    requires Uniform(xs, 1) && Uniform(ys, 1) && |xs| == |ys| && |data| == SizeAll(xs, es)
    ensures SizeAll(ys, es) == SizeAll(xs, es) && FillAll(xs, data, es) == FillAll(ys, data, es)
    decreases |xs|
  {
    if xs != [] {
      LabelsDoNotMatter(xs[1..], ys[1..], data[es..], es);
    }
  }

  /** The index list [0, 1, ..., n - 1]. */
  function Range(n: nat): (r: seq<Tree>)
    ensures |r| == n && Uniform(r, 1)
  {
    seq(n, i => Leaf(i))
  }

  lemma {:induction false} RangeSize(xs: seq<Tree>, es: nat)
    requires Uniform(xs, 1)
    ensures SizeAll(xs, es) == |xs| * es
  {
    if xs != [] {
      RangeSize(xs[1..], es);
      assert (|xs[1..]| + 1) * es == |xs[1..]| * es + es;
    }
  }
}
