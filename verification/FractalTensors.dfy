module FractalTensors {

  /** FractalTensor: a list of tensors, or a list of FractalTensors, kept as one flat buffer and an
      index tree (kaleido/frontend/fractal_tensor.py). Every operation is specified by the plain
      nested list it denotes. Objects here hold data; type-only FractalTensors are left out. */

  import opened Arith
  import opened Common
  import opened NestedList

  /** The type of the stored tensors. */
  datatype Elem = Elem(shape: seq<nat>, dtype: string, device: string) {
    /** Type equality ignores the device. */
    predicate SameAs(e: Elem) { shape == e.shape && dtype == e.dtype }

    function Numel(): nat { Product(shape) }
  }

  datatype Tensor<T> = Tensor(elem: Elem, values: seq<T>) {
    predicate Valid() { |values| == elem.Numel() }
  }

  /** What indexing returns: a tensor at depth 1, a FractalTensor above. */
  datatype Item<!T> = TensorItem(tensor: Tensor<T>) | ListItem(list: FractalTensor<T>)

  /** Can a child of a FractalTensor of this depth be given a type of its own? Not if its first
      path runs into an empty list. */
  predicate Indexable(t: Tree, depth: nat) {
    depth == 1 || (t.Node? && FirstDepth(t.kids).Ok?)
  }

  /** Which error the index setter raises for such a child. */
  function Refusal<X>(t: Tree): Outcome<X> {
    if t.Node? && t.kids == [] then Failed else IndexError
  }

  method CountTensors(t: Tree) returns (n: nat)
    ensures n == Numel(t)
    decreases t
  {
    if t.Leaf? { return 1; }
    n := 0;
    for i := 0 to |t.kids|
      invariant n + NumelAll(t.kids[i..]) == NumelAll(t.kids)
    {
      var m := CountTensors(t.kids[i]);
      assert t.kids[i..][1..] == t.kids[i + 1..];
      n := n + m;
    }
  }

  class FractalTensor<T> {
    const depth: nat
    const elem: Elem
    var length: nat
    var indices: seq<Tree>
    var data: seq<T>

    constructor (depth: nat, elem: Elem)
      ensures this.depth == depth && this.elem == elem
    {
      this.depth := depth;
      this.elem := elem;
      this.length := 0;
      this.indices := [];
      this.data := [];
    }

    function ElementSize(): nat { elem.Numel() }

    /** The buffer holds numel * element_size entries and the tree has the declared depth. */
    ghost predicate Valid()
      reads this
    {
      && Uniform(indices, depth) && FirstDepth(indices) == Ok(depth) && length == |indices|
      && |data| == SizeAll(indices, ElementSize())
    }

    ghost function Items(): seq<Nest<T>>
      requires Valid()
      reads this
    {
      FillAll(indices, data, ElementSize())
    }

    /** The nested list this object stands for. */
    ghost function Value(): Nest<T>
      requires Valid()
      reads this
    {
      Row(Items())
    }

    /** The setter of `indices`: it measures the depth along the first path and compares it with
        the declared depth. */
    method SetIndices(value: seq<Tree>) returns (r: Outcome<()>)
      modifies this`indices, this`length
      ensures r == (match FirstDepth(value)
                    case Ok(d) => if d == depth then Ok(()) else Failed
                    case IndexError => IndexError
                    case Failed => Failed)
      ensures r.Ok? ==> indices == value && length == |value|
    {
      if value == [] { return Failed; }
      var x, d := value[0], 1;
      while x.Node?
        invariant Descend(x, d) == FirstDepth(value)
        decreases x
      {
        if x.kids == [] { return IndexError; }
        x, d := x.kids[0], d + 1;
      }
      if d != depth { return Failed; }
      indices := value;
      length := |value|;
      r := Ok(());
    }

    /** A new object with these indices and buffer. */
    static method Create(depth: nat, elem: Elem, value: seq<Tree>, data: seq<T>)
      returns (r: Outcome<FractalTensor<T>>)
      requires Uniform(value, depth) && |data| == SizeAll(value, elem.Numel())
      ensures r.Ok? <==> FirstDepth(value) == Ok(depth)
      ensures !r.Ok? ==> r == (if value == [] then Failed else IndexError)
      ensures r.Ok? ==> fresh(r.value) && r.value.Valid() && r.value.depth == depth && r.value.elem == elem
                        && r.value.indices == value && r.value.data == data
    {
      UniformDepth(value, depth);
      var x := new FractalTensor<T>(depth, elem);
      var s := x.SetIndices(value);
      match s
      case IndexError => r := IndexError;
      case Failed => r := Failed;
      case Ok(_) =>
        x.data := data;
        r := Ok(x);
    }

    /** `self.data[start * element_size : end * element_size]`. */
    method Slab(start: nat, n: nat) returns (v: seq<T>)
      requires Valid() && start * ElementSize() + n * ElementSize() <= |data|
      ensures v == data[start * ElementSize()..start * ElementSize() + n * ElementSize()]
    {
      ghost var es := ElementSize();
      assert (start + n) * es == start * es + n * es;
      v := data[start * ElementSize()..(start + n) * ElementSize()];
    }

    /** The loop of index: the number of tensors before position idx, none if idx is negative. */
    method CountBefore(idx: int) returns (start: nat)
      requires Valid() && InRange(idx, length)
      ensures start == NumelAll(indices[..if idx < 0 then 0 else idx])
    {
      start := 0;
      var i := 0;
      while i < idx
        invariant 0 <= i && (i <= idx || i == 0) && i <= length
        invariant start == NumelAll(indices[..i])
      {
        var n := CountTensors(indices[i]);
        NumelStep(indices, i);
        start := start + n;
        i := i + 1;
      }
    }

    /** index(idx). A negative idx selects the subtree from the end, as Python lists do, but the
        buffer is still read from its beginning. */
    method Index(idx: int) returns (r: Outcome<Item<T>>)
      requires Valid()
      ensures !InRange(idx, length) ==> r == IndexError
      ensures InRange(idx, length) ==>
                var t := indices[if idx < 0 then length + idx else idx];
                if Indexable(t, depth) then r.Ok? && ItemValid(r.value) else r == Refusal(t)
      ensures r.Ok? && r.value.ListItem? ==> fresh(r.value.list)
      ensures r.Ok? ==> InRange(idx, length) && ItemValid(r.value) && ItemValue(r.value) == Denoted(idx)
    {
      if !InRange(idx, length) { return IndexError; }
      var start := CountBefore(idx);
      var k := if idx < 0 then length + idx else idx;
      var n := CountTensors(indices[k]);
      SlabIsChild(k, if idx < 0 then 0 else idx, start, n);
      HeadFits(k);
      var v := Slab(start, n);
      r := Wrap(indices[k], v);
    }

    /** The second half of index: give the slab the element type. */
    method Wrap(t: Tree, v: seq<T>) returns (r: Outcome<Item<T>>)
      requires Valid() && |v| == Size(t, ElementSize())
      requires if depth == 1 then t.Leaf? else t.Node? && Uniform(t.kids, depth - 1)
      ensures if Indexable(t, depth) then r.Ok? && ItemValid(r.value) && ItemValue(r.value) == Fill(t, v, ElementSize())
              else r == Refusal(t)
      ensures r.Ok? && r.value.ListItem? ==> fresh(r.value.list)
    {
      if depth > 1 {
        UniformDepth(t.kids, depth - 1);
        var x := FractalTensor.Create(depth - 1, elem, t.kids, v);
        match x
        case IndexError => r := IndexError;
        case Failed => r := Failed;
        case Ok(list) => r := Ok(ListItem(list));
      } else {
        r := Ok(TensorItem(Tensor(elem, v)));
      }
    }

    /** What index reads is child k's slab when the loop ran k times, else the buffer's head. */
    lemma SlabIsChild(k: nat, i: nat, start: nat, n: nat)
      requires Valid() && k < length && (i == k || i == 0) && start == NumelAll(indices[..i]) && n == Numel(indices[k])
      ensures start * ElementSize() == (if i == 0 then 0 else Offset(indices, k, ElementSize()))
      ensures n * ElementSize() == Size(indices[k], ElementSize())
      ensures start * ElementSize() + n * ElementSize() <= |data|
      ensures ChildAt(indices, data, ElementSize(), Items(), k)
    {
      var es := ElementSize();
      FillAt(indices, data, es, k);
      SizeAllIsNumel(indices[..i], es);
      SizeIsNumel(indices[k], es);
      OffsetStep(indices, k, es);
    }

    lemma HeadFits(k: nat)
      requires Valid() && k < length
      ensures Size(indices[k], ElementSize()) <= |data|
    {
      OffsetStep(indices, k, ElementSize());
    }

    /** Child k filled with the first entries of the buffer. */
    ghost function Head(k: nat): Nest<T>
      requires Valid() && k < length
      reads this
    {
      HeadFits(k);
      Fill(indices[k], data[..Size(indices[k], ElementSize())], ElementSize())
    }

    /** What index gives for a position it accepts. */
    ghost function Denoted(idx: int): Nest<T>
      requires Valid() && InRange(idx, length)
      reads this
    {
      FillLength(indices, data, ElementSize());
      if idx >= 0 then Items()[idx] else Head(length + idx)
    }

    ghost predicate ItemValid(it: Item<T>)
      reads this, if it.ListItem? then {it.list} else {}
    {
      match it
      case TensorItem(t) => depth == 1 && t.elem == elem && t.Valid()
      case ListItem(x) => x.Valid() && x.depth + 1 == depth && x.elem == elem
    }
  }

  /** Positions a Python list of length n accepts. */
  predicate InRange(idx: int, n: int) { -n <= idx < n }

  lemma NumelStep(ts: seq<Tree>, i: nat)
    requires i < |ts|
    ensures NumelAll(ts[..i + 1]) == NumelAll(ts[..i]) + Numel(ts[i])
  {
    OffsetStep(ts, i, 1);
    SizeAllIsNumel(ts[..i], 1);
    SizeAllIsNumel(ts[..i + 1], 1);
    SizeIsNumel(ts[i], 1);
  }

  lemma UniformDepth(ts: seq<Tree>, d: nat)
    requires Uniform(ts, d)
    ensures FirstDepth(ts) == Ok(d) || FirstDepth(ts) == (if ts == [] then Failed else IndexError)
  {
    if ts != [] {
      DescendUniform(ts[0], 1, d - 1);
    }
  }

  ghost function ItemValue<T>(it: Item<T>): Nest<T>
    requires it.ListItem? ==> it.list.Valid()
    reads if it.ListItem? then {it.list} else {}
  {
    match it
    case TensorItem(t) => Cell(t.values)
    case ListItem(x) => x.Value()
  }

  /** The denoted lists of several objects. */
  ghost function ListValues<T>(xs: seq<FractalTensor<T>>): seq<Nest<T>>
    requires forall i :: 0 <= i < |xs| ==> xs[i].Valid()
    reads xs
  {
    if xs == [] then [] else ListValues(xs[..|xs| - 1]) + [xs[|xs| - 1].Value()]
  }

  // ---------------------------------------------------------------- building

  /** The cells a list of tensors fills. */
  function Cells<T>(xs: seq<Tensor<T>>): (r: seq<Nest<T>>)
    ensures |r| == |xs| && forall i :: 0 <= i < |xs| ==> r[i] == Cell(xs[i].values)
  {
    seq(|xs|, i requires 0 <= i < |xs| => Cell(xs[i].values))
  }

  /** ops.stack: the values of all tensors, one after the other. */
  method Stack<T>(xs: seq<Tensor<T>>, es: nat) returns (data: seq<T>)
    requires forall i :: 0 <= i < |xs| ==> |xs[i].values| == es
    ensures |data| == SizeAll(Range(|xs|), es) && FillAll(Range(|xs|), data, es) == Cells(xs)
  {
    data := [];
    for i := 0 to |xs|
      invariant |data| == SizeAll(Range(i), es) && FillAll(Range(i), data, es) == Cells(xs[..i])
    {
      FillOne(xs[i].values, i, es);
      FillAppend(Range(i), [Leaf(i)], data, xs[i].values, es);
      assert Range(i + 1) == Range(i) + [Leaf(i)];
      assert Cells(xs[..i + 1]) == Cells(xs[..i]) + [Cell(xs[i].values)];
      data := data + xs[i].values;
    }
    assert xs[..|xs|] == xs;
  }

  /** from_tensors: a depth-1 list. Its own checks ignore the device, but stacking the tensors fails
      if they are not all on one. */
  method FromTensors<T>(xs: seq<Tensor<T>>) returns (r: Outcome<FractalTensor<T>>)
    requires forall i :: 0 <= i < |xs| ==> xs[i].Valid()
    ensures r.Ok? <==> xs != [] && forall i :: 0 <= i < |xs| ==> xs[i].elem == xs[0].elem
    ensures !r.Ok? ==> r == Failed
    ensures r.Ok? ==> fresh(r.value) && r.value.Valid() && r.value.depth == 1 && r.value.elem == xs[0].elem
                      && r.value.Items() == Cells(xs)
  {
    if xs == [] { return Failed; }
    var head := xs[0];
    for i := 0 to |xs|
      invariant forall k :: 0 <= k < i ==> head.elem.SameAs(xs[k].elem)
    {
      if !head.elem.SameAs(xs[i].elem) { return Failed; }
    }
    if exists k :: 0 <= k < |xs| && xs[k].elem.device != head.elem.device { return Failed; }
    var data := Stack(xs, head.elem.Numel());
    r := FractalTensor.Create(1, head.elem, Range(|xs|), data);
  }

  lemma FillOne<T>(v: seq<T>, id: int, es: nat)
    requires |v| == es
    ensures SizeAll([Leaf(id)], es) == es && FillAll([Leaf(id)], v, es) == [Cell(v)]
  {
    assert v[..es] == v && v[es..] == [];
  }

  /** Can these be elements of one FractalTensor? */
  ghost predicate Homogeneous<T>(xs: seq<FractalTensor<T>>) {
    forall i :: 0 <= i < |xs| ==> xs[i].depth == xs[0].depth && xs[0].elem.SameAs(xs[i].elem)
  }

  /** Can their buffers be concatenated? */
  predicate OnOneDevice<T>(xs: seq<FractalTensor<T>>) {
    forall i :: 0 <= i < |xs| ==> xs[i].elem.device == xs[0].elem.device
  }

  /** The checks of from_fractaltensors, which ignore the device. */
  method CheckHomogeneous<T>(xs: seq<FractalTensor<T>>) returns (ok: bool)
    requires xs != []
    ensures ok == Homogeneous(xs)
  {
    for i := 0 to |xs|
      invariant forall k :: 0 <= k < i ==> xs[k].depth == xs[0].depth && xs[0].elem.SameAs(xs[k].elem)
    {
      if xs[i].depth != xs[0].depth || !xs[0].elem.SameAs(xs[i].elem) { return false; }
    }
    return true;
  }

  /** The index lists and buffers of several objects, one after the other. */
  method Concatenate<T>(xs: seq<FractalTensor<T>>, ghost d: nat, ghost es: nat)
    returns (trees: seq<Tree>, data: seq<T>)
    requires forall i :: 0 <= i < |xs| ==> xs[i].Valid() && xs[i].depth == d && xs[i].ElementSize() == es
    ensures |trees| == |xs| && (xs != [] ==> trees[0] == Node(xs[0].indices))
    ensures Uniform(trees, d + 1) && |data| == SizeAll(trees, es)
    ensures FillAll(trees, data, es) == ListValues(xs)
  {
    trees, data := [], [];
    for i := 0 to |xs|
      invariant |trees| == i && (i > 0 ==> trees[0] == Node(xs[0].indices))
      invariant Uniform(trees, d + 1) && |data| == SizeAll(trees, es)
      invariant FillAll(trees, data, es) == ListValues(xs[..i])
    {
      NestOne(xs[i], es);
      FillAppend(trees, [Node(xs[i].indices)], data, xs[i].data, es);
      ListValuesStep(xs, i);
      trees := trees + [Node(xs[i].indices)];
      data := data + xs[i].data;
    }
    assert xs[..|xs|] == xs;
  }

  /** from_fractaltensors: a list one level deeper whose elements are the given ones. */
  method FromFractalTensors<T>(xs: seq<FractalTensor<T>>) returns (r: Outcome<FractalTensor<T>>)
    requires forall i :: 0 <= i < |xs| ==> xs[i].Valid()
    ensures r.Ok? <==> xs != [] && Homogeneous(xs) && OnOneDevice(xs)
    ensures xs == [] ==> r == IndexError
    ensures xs != [] && !r.Ok? ==> r == Failed
    ensures r.Ok? ==> fresh(r.value) && r.value.Valid() && r.value.depth == xs[0].depth + 1
                      && r.value.elem == xs[0].elem && r.value.Items() == ListValues(xs)
  {
    if xs == [] { return IndexError; }
    var ok := CheckHomogeneous(xs);
    if !ok || !OnOneDevice(xs) { return Failed; }
    var trees, data := Concatenate(xs, xs[0].depth, xs[0].ElementSize());
    DescendShift(xs[0].indices[0], 1, 1);
    r := FractalTensor.Create(xs[0].depth + 1, xs[0].elem, trees, data);
  }

  lemma ListValuesStep<T>(xs: seq<FractalTensor<T>>, i: nat)
    requires i < |xs| && forall k :: 0 <= k < |xs| ==> xs[k].Valid()
    ensures ListValues(xs[..i + 1]) == ListValues(xs[..i]) + [xs[i].Value()]
  {
    assert xs[..i + 1][..i] == xs[..i];
  }

  lemma NestOne<T>(x: FractalTensor<T>, es: nat)
    requires x.Valid() && es == x.ElementSize()
    ensures SizeAll([Node(x.indices)], es) == |x.data|
    ensures FillAll([Node(x.indices)], x.data, es) == [x.Value()]
  {
    assert x.data[..|x.data|] == x.data && x.data[|x.data|..] == [];
  }

  lemma {:induction false} DescendShift(t: Tree, d: nat, e: nat)
    requires Descend(t, d).Ok?
    ensures Descend(t, d + e) == Ok(Descend(t, d).value + e)
    decreases t
  {
    if t.Node? { DescendShift(t.kids[0], d + 1, e); }
  }

  // ---------------------------------------------------------------- Join

  /** Join: append two lists of one type, on one device. The type it declares for the result nests the
      element type at most once, whatever the depth of the operands. */
  method Join<T>(x: FractalTensor<T>, y: FractalTensor<T>) returns (r: Outcome<FractalTensor<T>>)
    requires x.Valid() && y.Valid()
    ensures r.Ok? <==> x.depth == y.depth && x.elem == y.elem && x.depth <= 2
    ensures !r.Ok? ==> r == Failed
    ensures r.Ok? ==> fresh(r.value) && r.value.Valid() && r.value.depth == x.depth
                      && r.value.elem == x.elem && r.value.Items() == x.Items() + y.Items()
  {
    if x.depth != y.depth || !x.elem.SameAs(y.elem) { return Failed; }
    var depth := if x.depth > 1 then 2 else 1;
    var joined := new FractalTensor<T>(depth, x.elem);
    var indices := if x.depth > 1 then x.indices + y.indices else Range(x.length + y.length);
    var s := joined.SetIndices(indices);
    FillAppend(x.indices, y.indices, x.data, y.data, x.ElementSize());
    if x.depth == 1 {
      LabelsDoNotMatter(x.indices + y.indices, indices, x.data + y.data, x.ElementSize());
    }
    match s
    case IndexError => r := IndexError;
    case Failed => r := Failed;
    case Ok(_) =>
      if x.elem.device != y.elem.device { return Failed; }
      joined.data := x.data + y.data;
      r := Ok(joined);
  }

  // ---------------------------------------------------------------- Flatten

  lemma {:induction false} ScaleOneDimension(shape: seq<nat>, dim: nat, n: nat)
    requires dim < |shape|
    ensures Product(shape[dim := n * shape[dim]]) == n * Product(shape)
  {
    var scaled := shape[dim := n * shape[dim]];
    if dim == 0 {
      assert scaled[1..] == shape[1..];
      assert n * shape[0] * Product(shape[1..]) == n * (shape[0] * Product(shape[1..]));
    } else {
      assert scaled[1..] == shape[1..][dim - 1 := n * shape[1..][dim - 1]];
      ScaleOneDimension(shape[1..], dim - 1, n);
      assert shape[0] * (n * Product(shape[1..])) == n * (shape[0] * Product(shape[1..]));
    }
  }

  /** Flatten: one tensor whose values are those of the nested list from left to right, the chosen
      dimension being scaled.  A negative dimension counts from the end, as Python lists do. */
  method Flatten<T>(x: FractalTensor<T>, dim: int) returns (r: Outcome<Tensor<T>>)
    requires x.Valid()
    ensures var rank := if x.elem.Numel() == 1 then 1 else |x.elem.shape|;
            if dim >= |x.elem.shape| then r == Failed else if !InRange(dim, rank) then r == IndexError else r.Ok?
    ensures r.Ok? ==> r.value.Valid() && r.value.values == Flat(x.Value())
                      && r.value.elem.dtype == x.elem.dtype && r.value.elem.device == x.elem.device
    ensures r.Ok? && x.elem.Numel() == 1 ==> r.value.elem.shape == [NumelAll(x.indices)]
    ensures r.Ok? && x.elem.Numel() != 1 ==>
              var d := if dim < 0 then |x.elem.shape| + dim else dim;
              r.value.elem.shape == x.elem.shape[d := NumelAll(x.indices) * x.elem.shape[d]]
  {
    var numel := CountTensors(Node(x.indices));
    var shape := if x.elem.Numel() == 1 then [1] else x.elem.shape;
    if dim >= |x.elem.shape| { return Failed; }
    if !InRange(dim, |shape|) { return IndexError; }
    var d := if dim < 0 then |shape| + dim else dim;
    ViewFits(x, shape, d, numel);
    r := Ok(Tensor(Elem(shape[d := numel * shape[d]], x.elem.dtype, x.elem.device), x.data));
  }

  /** The new shape has as many entries as the buffer. */
  lemma ViewFits<T>(x: FractalTensor<T>, shape: seq<nat>, dim: nat, numel: nat)
    requires x.Valid() && numel == NumelAll(x.indices) && dim < |shape|
    requires shape == x.elem.shape || (x.elem.Numel() == 1 && shape == [1])
    ensures Product(shape[dim := numel * shape[dim]]) == |x.data| && Flat(x.Value()) == x.data
  {
    ScaleOneDimension(shape, dim, numel);
    assert Product([1]) == 1 * Product([]);
    SizeAllIsNumel(x.indices, x.ElementSize());
    FlatFillAll(x.indices, x.data, x.ElementSize());
  }

  // ---------------------------------------------------------------- Unbind

  /** The first child index refuses, or the number of children. */
  function FirstRefused(ts: seq<Tree>, depth: nat): (k: nat)
    ensures k <= |ts| && (k < |ts| ==> !Indexable(ts[k], depth))
    ensures forall i :: 0 <= i < k ==> Indexable(ts[i], depth)
  {
    if ts == [] || !Indexable(ts[0], depth) then 0 else 1 + FirstRefused(ts[1..], depth)
  }

  /** Unbind iterates with index until IndexError. A child whose first path runs into an empty
      list below its top raises IndexError too, so iteration ends there without complaint; a
      child that is itself an empty list raises another error. */
  method Unbind<T>(x: FractalTensor<T>) returns (r: Outcome<seq<Item<T>>>)
    requires x.Valid()
    ensures var k := FirstRefused(x.indices, x.depth);
            if k < x.length && x.indices[k] == Node([]) then r == Failed
            else r.Ok? && |r.value| == k && |x.Items()| == x.length
                 && forall i :: 0 <= i < k ==> x.ItemValid(r.value[i]) && ItemValue(r.value[i]) == x.Items()[i]
  {
    var items: seq<Item<T>> := [];
    FillLength(x.indices, x.data, x.ElementSize());
    while true
      invariant |items| <= FirstRefused(x.indices, x.depth)
      invariant forall k :: 0 <= k < |items| ==> x.ItemValid(items[k]) && ItemValue(items[k]) == x.Items()[k]
      decreases x.length - |items|
    {
      var v := x.Index(|items|);
      match v
      case IndexError => return Ok(items);
      case Failed => return Failed;
      case Ok(item) => items := items + [item];
    }
  }

  // ---------------------------------------------------------------- selection and slices

  /** A selection of positions, all accepted by index. */
  predicate Selectable(ids: seq<int>, ts: seq<Tree>, depth: nat) {
    forall k :: 0 <= k < |ids| ==>
      InRange(ids[k], |ts|) && Indexable(ts[if ids[k] < 0 then |ts| + ids[k] else ids[k]], depth)
  }

  /** What index gives for each of the positions. */
  ghost function Picked<T>(x: FractalTensor<T>, ids: seq<int>): (r: seq<Nest<T>>)
    requires x.Valid() && forall k :: 0 <= k < |ids| ==> InRange(ids[k], x.length)
    reads x
    ensures |r| == |ids| && forall k :: 0 <= k < |ids| ==> r[k] == x.Denoted(ids[k])
  {
    if ids == [] then [] else Picked(x, ids[..|ids| - 1]) + [x.Denoted(ids[|ids| - 1])]
  }

  /** The elements at the given positions of a depth-1 list. */
  method PickTensors<T>(x: FractalTensor<T>, ids: seq<int>) returns (r: Outcome<seq<Tensor<T>>>)
    requires x.Valid() && x.depth == 1
    ensures r.Ok? <==> Selectable(ids, x.indices, 1)
    ensures r.Ok? ==> |r.value| == |ids|
    ensures r.Ok? ==> forall k :: 0 <= k < |ids| ==>
              r.value[k].Valid() && r.value[k].elem == x.elem && Cell(r.value[k].values) == x.Denoted(ids[k])
  {
    var out: seq<Tensor<T>> := [];
    for i := 0 to |ids|
      invariant |out| == i && Selectable(ids[..i], x.indices, 1)
      invariant forall k :: 0 <= k < i ==>
                  out[k].Valid() && out[k].elem == x.elem
                  && InRange(ids[k], x.length) && Cell(out[k].values) == x.Denoted(ids[k])
    {
      var v := x.Index(ids[i]);
      match v
      case IndexError => return IndexError;
      case Failed => return Failed;
      case Ok(item) => out := out + [item.tensor];
    }
    assert ids[..|ids|] == ids;
    r := Ok(out);
  }

  /** The elements at the given positions of a deeper list. */
  method PickLists<T>(x: FractalTensor<T>, ids: seq<int>) returns (r: Outcome<seq<FractalTensor<T>>>)
    requires x.Valid() && x.depth > 1
    ensures r.Ok? <==> Selectable(ids, x.indices, x.depth)
    ensures r.Ok? ==> |r.value| == |ids|
    ensures r.Ok? ==> forall k :: 0 <= k < |ids| ==>
              r.value[k].Valid() && r.value[k].elem == x.elem && r.value[k].depth + 1 == x.depth
              && r.value[k].Value() == x.Denoted(ids[k])
  {
    var out: seq<FractalTensor<T>> := [];
    for i := 0 to |ids|
      invariant |out| == i && Selectable(ids[..i], x.indices, x.depth)
      invariant forall k :: 0 <= k < i ==>
                  out[k].Valid() && out[k].elem == x.elem && out[k].depth + 1 == x.depth
                  && InRange(ids[k], x.length) && out[k].Value() == x.Denoted(ids[k])
    {
      var v := x.Index(ids[i]);
      match v
      case IndexError => return IndexError;
      case Failed => return Failed;
      case Ok(item) => out := out + [item.list];
    }
    assert ids[..|ids|] == ids;
    r := Ok(out);
  }

  lemma {:induction false} ListValuesAre<T>(xs: seq<FractalTensor<T>>, vs: seq<Nest<T>>)
    requires |xs| == |vs| && forall k :: 0 <= k < |xs| ==> xs[k].Valid() && xs[k].Value() == vs[k]
    ensures ListValues(xs) == vs
    decreases |xs|
  {
    if xs != [] {
      var n := |xs| - 1;
      ListValuesAre(xs[..n], vs[..n]);
      assert vs == vs[..n] + [vs[n]];
    }
  }

  /** Indexing by a list of positions, the common part of slicing and gathering. */
  method Select<T>(x: FractalTensor<T>, ids: seq<int>) returns (r: Outcome<FractalTensor<T>>)
    requires x.Valid()
    ensures r.Ok? <==> ids != [] && Selectable(ids, x.indices, x.depth)
    ensures r.Ok? ==> fresh(r.value) && r.value.Valid() && r.value.depth == x.depth && r.value.elem == x.elem
    ensures r.Ok? ==> r.value.Items() == Picked(x, ids)
  {
    if x.depth == 1 {
      r := SelectTensors(x, ids);
    } else {
      r := SelectLists(x, ids);
    }
  }

  method SelectTensors<T>(x: FractalTensor<T>, ids: seq<int>) returns (r: Outcome<FractalTensor<T>>)
    requires x.Valid() && x.depth == 1
    ensures r.Ok? <==> ids != [] && Selectable(ids, x.indices, 1)
    ensures r.Ok? ==> fresh(r.value) && r.value.Valid() && r.value.depth == 1 && r.value.elem == x.elem
    ensures r.Ok? ==> r.value.Items() == Picked(x, ids)
  {
    var ts := PickTensors(x, ids);
    match ts
    case IndexError => return IndexError;
    case Failed => return Failed;
    case Ok(out) => r := FromTensors(out);
  }

  method SelectLists<T>(x: FractalTensor<T>, ids: seq<int>) returns (r: Outcome<FractalTensor<T>>)
    requires x.Valid() && x.depth > 1
    ensures r.Ok? <==> ids != [] && Selectable(ids, x.indices, x.depth)
    ensures r.Ok? ==> fresh(r.value) && r.value.Valid() && r.value.depth == x.depth && r.value.elem == x.elem
    ensures r.Ok? ==> r.value.Items() == Picked(x, ids)
  {
    var xs := PickLists(x, ids);
    match xs
    case IndexError => return IndexError;
    case Failed => return Failed;
    case Ok(out) =>
      r := FromFractalTensors(out);
      ListValuesAre(out, Picked(x, ids));
  }

  /** range(start, stop, step) */
  function PyRange(start: int, stop: int, step: int): (r: seq<int>)
    requires step != 0
    decreases if step > 0 then stop - start else start - stop
  {
    if (step > 0 && start >= stop) || (step < 0 && start <= stop) then []
    else [start] + PyRange(start + step, stop, step)
  }

  lemma {:induction false} UnitRange(start: int, stop: int)
    requires start <= stop
    ensures PyRange(start, stop, 1) == seq(stop - start, k => start + k)
    decreases stop - start
  {
    if start < stop { UnitRange(start + 1, stop); }
  }

  /** Position k of a range is start + k * step, and it ends with the last position before `stop`. */
  lemma {:induction false} RangeMeaning(start: int, stop: int, step: int, k: nat)
    requires step != 0
    ensures var r := PyRange(start, stop, step);
            && (k < |r| ==> r[k] == start + k * step)
            && (k < |r| <==> if step > 0 then start + k * step < stop else start + k * step > stop)
    decreases k
  {
    var more := if step > 0 then start < stop else start > stop;
    if k == 0 {
      assert start + 0 * step == start;
    } else {
      assert start + step + (k - 1) * step == start + k * step;
      if more {
        RangeMeaning(start + step, stop, step, k - 1);
      } else {
        PastTheEnd(start, stop, step, k);
      }
    }
  }

  lemma PastTheEnd(start: int, stop: int, step: int, k: nat)
    requires step != 0 && if step > 0 then start >= stop else start <= stop
    ensures if step > 0 then start + k * step >= stop else start + k * step <= stop
  {
    if step > 0 { MulMonotone(0, k, step); } else { MulMonotone(0, k, -step); }
  }

  /** x[start:stop:step]. Neither bound is clipped to the list, so a slice is the sublist only if
      it lies within the list. */
  method Slice<T>(x: FractalTensor<T>, start: int, stop: int, step: int) returns (r: Outcome<FractalTensor<T>>)
    requires x.Valid()
    ensures var end := if stop < 0 then stop + x.length else stop;
            r.Ok? <==> step != 0 && PyRange(start, end, step) != []
                       && Selectable(PyRange(start, end, step), x.indices, x.depth)
    ensures step != 0 && r.Ok? ==>
              var ids := PyRange(start, if stop < 0 then stop + x.length else stop, step);
              r.value.Valid() && r.value.depth == x.depth && r.value.elem == x.elem && r.value.Items() == Picked(x, ids)
  {
    var end := if stop < 0 then stop + x.length else stop;
    if step == 0 { return Failed; }
    var ids := PyRange(start, end, step);
    r := Select(x, ids);
  }

  /** Within the list, the positions of a slice with step 1 denote the sublist. */
  lemma UnitSlice<T>(x: FractalTensor<T>, start: int, stop: int)
    requires x.Valid() && 0 <= start < stop && Uniformly(x.indices, x.depth)
    ensures Selectable(PyRange(start, stop, 1), x.indices, x.depth) <==> stop <= x.length
    ensures stop <= x.length ==> |x.Items()| == x.length && Picked(x, PyRange(start, stop, 1)) == x.Items()[start..stop]
  {
    UnitRange(start, stop);
    var ids := PyRange(start, stop, 1);
    assert ids[|ids| - 1] == stop - 1;
    FillLength(x.indices, x.data, x.ElementSize());
  }

  /** A bound as Python slices clip it: counted from the end if negative, and kept within the list. */
  function Clipped(bound: int, n: nat): (r: nat)
    ensures r <= n
  {
    var b := if bound < 0 then bound + n else bound;
    if b < 0 then 0 else if b > n then n else b
  }

  /** What x[start:stop] is for a Python list. */
  function PySlice<X>(s: seq<X>, start: int, stop: int): seq<X> {
    var lo, hi := Clipped(start, |s|), Clipped(stop, |s|);
    if lo <= hi then s[lo..hi] else []
  }

  /** x[start:stop] succeeds and is what the same slice of a Python list is. */
  ghost predicate SliceIsPythons<T>(x: FractalTensor<T>, start: int, stop: int)
    requires x.Valid()
    reads x
  {
    var ids := PyRange(start, if stop < 0 then stop + x.length else stop, 1);
    ids != [] && Selectable(ids, x.indices, x.depth) && Picked(x, ids) == PySlice(x.Items(), start, stop)
  }

  /** For all bounds: exactly when the range is not empty and lies within the list, only its end
      being counted from the end of the list. */
  lemma SliceIsPythonsIff<T>(x: FractalTensor<T>, start: int, stop: int)
    requires x.Valid() && Uniformly(x.indices, x.depth)
    ensures SliceIsPythons(x, start, stop) <==> 0 <= start < (if stop < 0 then stop + x.length else stop) <= x.length
  {
    var end := if stop < 0 then stop + x.length else stop;
    if end <= start {
      EmptyIsNotPythons(x, start, stop);
    } else if start < 0 {
      NegativeStartIsNotPythons(x, start, stop);
    } else {
      InsideIsPythons(x, start, stop, end);
    }
  }

  lemma EmptyIsNotPythons<T>(x: FractalTensor<T>, start: int, stop: int)
    requires x.Valid() && (if stop < 0 then stop + x.length else stop) <= start
    ensures !SliceIsPythons(x, start, stop)
  {
  }

  lemma InsideIsPythons<T>(x: FractalTensor<T>, start: int, stop: int, end: int)
    requires x.Valid() && Uniformly(x.indices, x.depth)
    requires end == (if stop < 0 then stop + x.length else stop) && 0 <= start < end
    ensures SliceIsPythons(x, start, stop) <==> end <= x.length
  {
    UnitSlice(x, start, end);
    if end <= x.length {
      InsidePythons(x.Items(), start, stop);
      assert PyRange(start, end, 1) != [];
    }
  }

  lemma InsidePythons<X>(s: seq<X>, start: int, stop: int)
    requires 0 <= start < (if stop < 0 then stop + |s| else stop) <= |s|
    ensures PySlice(s, start, stop) == s[start..if stop < 0 then stop + |s| else stop]
  {
  }

  /** From a negative start the range is longer than the Python slice. */
  lemma NegativeStartIsNotPythons<T>(x: FractalTensor<T>, start: int, stop: int)
    requires x.Valid() && start < 0 && start < (if stop < 0 then stop + x.length else stop)
    ensures !SliceIsPythons(x, start, stop)
  {
    var end := if stop < 0 then stop + x.length else stop;
    var ids := PyRange(start, end, 1);
    UnitRange(start, end);
    FillLength(x.indices, x.data, x.ElementSize());
    if Selectable(ids, x.indices, x.depth) {
      assert InRange(ids[0], x.length) && InRange(ids[|ids| - 1], x.length);
      LongerThanPythons(x.Items(), start, stop);
      assert |Picked(x, ids)| == end - start;
    }
  }

  lemma LongerThanPythons<X>(s: seq<X>, start: int, stop: int)
    requires s != [] && start < 0 && start < (if stop < 0 then stop + |s| else stop) <= |s|
    ensures |PySlice(s, start, stop)| < (if stop < 0 then stop + |s| else stop) - start
  {
  }

  /** Index accepts every child: no first path runs into an empty list. */
  predicate Uniformly(ts: seq<Tree>, depth: nat) {
    forall k :: 0 <= k < |ts| ==> Indexable(ts[k], depth)
  }

  // ---------------------------------------------------------------- round trip, and negative positions

  function Lists<T>(items: seq<Item<T>>): (r: seq<FractalTensor<T>>)
    requires forall k :: 0 <= k < |items| ==> items[k].ListItem?
    ensures |r| == |items| && forall k :: 0 <= k < |items| ==> r[k] == items[k].list
  {
    if items == [] then [] else [items[0].list] + Lists(items[1..])
  }

  function Tensors<T>(items: seq<Item<T>>): (r: seq<Tensor<T>>)
    requires forall k :: 0 <= k < |items| ==> items[k].TensorItem?
    ensures |r| == |items| && forall k :: 0 <= k < |items| ==> r[k] == items[k].tensor
  {
    if items == [] then [] else [items[0].tensor] + Tensors(items[1..])
  }

  /** Nesting undoes unbind, when unbind reaches every element: from_tensors at depth 1 and
      from_fractaltensors above. */
  method UnbindThenNest<T>(x: FractalTensor<T>) returns (r: Outcome<FractalTensor<T>>)
    requires x.Valid() && Uniformly(x.indices, x.depth)
    ensures r.Ok? && r.value.Valid() && r.value.depth == x.depth && r.value.elem == x.elem
    ensures r.value.Value() == x.Value()
  {
    var items := Unbind(x);
    FillLength(x.indices, x.data, x.ElementSize());
    assert FirstRefused(x.indices, x.depth) == x.length;
    if x.depth == 1 {
      r := NestTensors(x, items.value);
    } else {
      r := NestLists(x, items.value);
    }
  }

  method NestTensors<T>(x: FractalTensor<T>, items: seq<Item<T>>) returns (r: Outcome<FractalTensor<T>>)
    requires x.Valid() && x.depth == 1 && |items| == |x.Items()| == x.length
    requires forall k :: 0 <= k < |items| ==> x.ItemValid(items[k]) && ItemValue(items[k]) == x.Items()[k]
    ensures r.Ok? && r.value.Valid() && r.value.depth == 1 && r.value.elem == x.elem && r.value.Items() == x.Items()
  {
    assert forall k :: 0 <= k < |items| ==> items[k].TensorItem? by {
      forall k | 0 <= k < |items| ensures items[k].TensorItem? { assert x.ItemValid(items[k]); }
    }
    var tensors := Tensors(items);
    assert forall k :: 0 <= k < |tensors| ==>
      tensors[k].Valid() && tensors[k].elem == x.elem && Cell(tensors[k].values) == x.Items()[k] by {
      forall k | 0 <= k < |tensors|
        ensures tensors[k].Valid() && tensors[k].elem == x.elem && Cell(tensors[k].values) == x.Items()[k]
      {
        assert x.ItemValid(items[k]);
      }
    }
    r := FromTensors(tensors);
  }

  method NestLists<T>(x: FractalTensor<T>, items: seq<Item<T>>) returns (r: Outcome<FractalTensor<T>>)
    requires x.Valid() && x.depth > 1 && |items| == |x.Items()| == x.length
    requires forall k :: 0 <= k < |items| ==> x.ItemValid(items[k]) && ItemValue(items[k]) == x.Items()[k]
    ensures r.Ok? && r.value.Valid() && r.value.depth == x.depth && r.value.elem == x.elem
    ensures r.value.Items() == x.Items()
  {
    assert forall k :: 0 <= k < |items| ==> items[k].ListItem? by {
      forall k | 0 <= k < |items| ensures items[k].ListItem? { assert x.ItemValid(items[k]); }
    }
    var lists := Lists(items);
    assert forall k :: 0 <= k < |lists| ==>
      && lists[k].Valid() && lists[k].elem == x.elem
      && lists[k].depth + 1 == x.depth && lists[k].Value() == x.Items()[k]
    by {
      forall k | 0 <= k < |lists|
        ensures lists[k].Valid() && lists[k].elem == x.elem
        ensures lists[k].depth + 1 == x.depth && lists[k].Value() == x.Items()[k]
      {
        assert x.ItemValid(items[k]);
      }
    }
    ListValuesAre(lists, x.Items());
    assert Homogeneous(lists);
    r := FromFractalTensors(lists);
  }

  /** A negative position reads the right entries, whatever the buffer holds, exactly when no
      entries come before the selected child or it has none. */
  lemma NegativeIndexIff(ts: seq<Tree>, es: nat, k: nat)
    requires k < |ts|
    ensures (forall data: seq<int> :: |data| == SizeAll(ts, es) ==> HeadAgrees(ts, es, k, data))
            <==> Offset(ts, k, es) == 0 || Size(ts[k], es) == 0
  {
    OffsetStep(ts, k, es);
    var o, n := Offset(ts, k, es), Size(ts[k], es);
    if o == 0 || n == 0 {
      forall data: seq<int> | |data| == SizeAll(ts, es)
        ensures HeadAgrees(ts, es, k, data)
      {
        FillAt(ts, data, es, k);
        assert data[..n] == data[o..o + n];
      }
    } else {
      var data := seq(SizeAll(ts, es), i => i);
      FillAt(ts, data, es, k);
      FlatFill(ts[k], data[..n], es);
      FlatFill(ts[k], data[o..o + n], es);
      assert data[..n][0] == 0 && data[o..o + n][0] == o;
      assert !HeadAgrees(ts, es, k, data);
    }
  }

  /** The list that index gives at a negative position holds the first entries of the buffer, as many
      as the subtree counted from the end takes. */
  lemma NegativeReadsHead<T>(x: FractalTensor<T>, idx: int)
    requires x.Valid() && InRange(idx, x.length) && idx < 0
    ensures Size(x.indices[x.length + idx], x.elem.Numel()) <= |x.data|
    ensures Flat(x.Denoted(idx)) == x.data[..Size(x.indices[x.length + idx], x.elem.Numel())]
  {
    var k: nat := x.length + idx;
    var t := x.indices[k];
    x.HeadFits(k);
    FlatFill(t, x.data[..Size(t, x.elem.Numel())], x.elem.Numel());
  }

  /** Does the buffer's head, cut to child k, give child k? */
  ghost predicate HeadAgrees(ts: seq<Tree>, es: nat, k: nat, data: seq<int>)
    requires k < |ts| && |data| == SizeAll(ts, es)
  {
    Size(ts[k], es) <= |data| && k < |FillAll(ts, data, es)|
    && Fill(ts[k], data[..Size(ts[k], es)], es) == FillAll(ts, data, es)[k]
  }
}
