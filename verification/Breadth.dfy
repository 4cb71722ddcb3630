module Breadth {

  /** The breadth-first parts of FractalTensor: building one from a nested Python list, and
      counting children by depth. */

  import opened Common
  import opened NestedList
  import opened FractalTensors

  /** A nested Python list of ints. */
  datatype Py = Int(v: int) | List(items: seq<Py>)

  // ---------------------------------------------------------------- what is to be built

  /** Every int is at nesting level d below these items. */
  predicate Level(q: seq<Py>, d: nat)
    decreases d
  {
    forall i :: 0 <= i < |q| ==> if d == 0 then q[i].Int? else q[i].List? && Level(q[i].items, d - 1)
  }

  /** The list the source program sees. */
  function Nested(x: Py): Nest<int>
    decreases x, 0
  {
    match x
    case Int(v) => Cell([v])
    case List(items) => Row(NestedAll(items))
  }

  function NestedAll(q: seq<Py>): seq<Nest<int>>
    decreases q, 1
  {
    if q == [] then [] else [Nested(q[0])] + NestedAll(q[1..])
  }

  /** An int is a cell of its own, and a list the row of its elements in their order. */
  lemma {:induction false} NestedAt(items: seq<Py>, i: nat)
    requires i < |items|
    ensures Nested(List(items)) == Row(NestedAll(items)) && |NestedAll(items)| == |items|
    ensures NestedAll(items)[i] == Nested(items[i])
    ensures items[i].Int? ==> NestedAll(items)[i] == Cell([items[i].v])
    decreases |items|
  {
    if |items| > 1 { NestedAt(items[1..], if i == 0 then 0 else i - 1); }
  }

  /** Its ints from left to right. */
  function Ints(x: Py): seq<int>
    decreases x, 0
  {
    match x
    case Int(v) => [v]
    case List(items) => IntsAll(items)
  }

  function IntsAll(q: seq<Py>): seq<int>
    decreases q, 1
  {
    if q == [] then [] else Ints(q[0]) + IntsAll(q[1..])
  }

  /** Its index tree: positions counted afresh in every innermost list. */
  function TreeOf(x: Py, d: nat): Tree
    requires d > 0 && x.List? && Level(x.items, d - 1)
    decreases x, 0
  {
    Node(TreesOf(x.items, d - 1))
  }

  function TreesOf(q: seq<Py>, d: nat): seq<Tree>
    requires Level(q, d)
    decreases q, 1
  {
    if d == 0 then Range(|q|)
    else if q == [] then [] else [TreeOf(q[0], d)] + TreesOf(q[1..], d)
  }

  /** Filled with the ints in order, the index tree is the list. */
  lemma {:induction false} TreesFill(q: seq<Py>, d: nat)
    requires Level(q, d)
    ensures SizeAll(TreesOf(q, d), 1) == |IntsAll(q)|
    ensures FillAll(TreesOf(q, d), IntsAll(q), 1) == NestedAll(q)
    decreases q
  {
    if d == 0 {
      LeavesFill(q, Range(|q|));
    } else if q != [] {
      TreesFill(q[0].items, d - 1);
      TreesFill(q[1..], d);
      var a, b := Ints(q[0]), IntsAll(q[1..]);
      assert (a + b)[..|a|] == a && (a + b)[|a|..] == b;
    }
  }

  lemma {:induction false} LeavesFill(q: seq<Py>, ts: seq<Tree>)
    requires Level(q, 0) && Uniform(ts, 1) && |ts| == |q|
    ensures SizeAll(ts, 1) == |IntsAll(q)| && FillAll(ts, IntsAll(q), 1) == NestedAll(q)
    decreases |q|
  {
    if q != [] {
      LeavesFill(q[1..], ts[1..]);
      assert IntsAll(q) == [q[0].v] + IntsAll(q[1..]);
      assert IntsAll(q)[..1] == [q[0].v] && IntsAll(q)[1..] == IntsAll(q[1..]);
    }
  }

  lemma {:induction false} TreesUniform(q: seq<Py>, d: nat)
    requires Level(q, d)
    ensures |TreesOf(q, d)| == |q| && Uniform(TreesOf(q, d), d + 1)
    decreases q
  {
    if d > 0 && q != [] {
      TreesUniform(q[0].items, d - 1);
      TreesUniform(q[1..], d);
    }
  }

  // ---------------------------------------------------------------- one level of the queue

  function KidsOf(x: Py): seq<Py> { if x.List? then x.items else [] }

  function ValueOf(x: Py): seq<int> { if x.Int? then [x.v] else [] }

  /** What the queue holds after one level has been popped. */
  function Next(q: seq<Py>): seq<Py> {
    if q == [] then [] else KidsOf(q[0]) + Next(q[1..])
  }

  /** What the level contributes to `lens`. */
  function Lens(q: seq<Py>): (r: seq<nat>)
    ensures |r| == |q|
  {
    if q == [] then [] else [if q[0].List? then |q[0].items| else 1] + Lens(q[1..])
  }

  /** What the level contributes to `data`. */
  function Here(q: seq<Py>): seq<int> {
    if q == [] then [] else ValueOf(q[0]) + Here(q[1..])
  }

  function Weight(x: Py): nat
    decreases x, 0
  {
    match x
    case Int(_) => 1
    case List(items) => 1 + WeightAll(items)
  }

  function WeightAll(q: seq<Py>): nat
    decreases q, 1
  {
    if q == [] then 0 else Weight(q[0]) + WeightAll(q[1..])
  }

  lemma {:induction false} WeightAppend(a: seq<Py>, b: seq<Py>)
    ensures WeightAll(a + b) == WeightAll(a) + WeightAll(b)
  {
    if a == [] {
      assert a + b == b;
    } else {
      assert (a + b)[1..] == a[1..] + b;
      WeightAppend(a[1..], b);
    }
  }

  lemma {:induction false} WeightNext(q: seq<Py>)
    ensures WeightAll(Next(q)) + |q| <= WeightAll(q)
  {
    if q != [] {
      WeightNext(q[1..]);
      WeightAppend(KidsOf(q[0]), Next(q[1..]));
    }
  }

  /** All of `lens` and `data`. */
  function BfsLens(q: seq<Py>): seq<seq<nat>>
    decreases WeightAll(q)
  {
    WeightNext(q);
    if q == [] then [] else [Lens(q)] + BfsLens(Next(q))
  }

  function BfsData(q: seq<Py>): seq<int>
    decreases WeightAll(q)
  {
    WeightNext(q);
    if q == [] then [] else Here(q) + BfsData(Next(q))
  }

  lemma BfsUnfold(q: seq<Py>)
    requires q != []
    ensures BfsLens(q) == [Lens(q)] + BfsLens(Next(q)) && BfsData(q) == Here(q) + BfsData(Next(q))
  {
    WeightNext(q);
  }

  /** What has been collected, followed by what the queue still gives, is everything. */
  ghost predicate Collected(x: seq<Py>, q: seq<Py>, lens: seq<seq<nat>>, data: seq<int>) {
    lens + BfsLens(q) == BfsLens(x) && data + BfsData(q) == BfsData(x)
  }

  /** Popping one level. */
  lemma CollectLevel(x: seq<Py>, q: seq<Py>, lens: seq<seq<nat>>, data: seq<int>)
    requires q != [] && Collected(x, q, lens, data)
    ensures WeightAll(Next(q)) < WeightAll(q) && Collected(x, Next(q), lens + [Lens(q)], data + Here(q))
  {
    WeightNext(q);
    BfsUnfold(q);
    Associate(lens, [Lens(q)], BfsLens(Next(q)));
    Associate(data, Here(q), BfsData(Next(q)));
  }

  lemma CollectedAll(x: seq<Py>, lens: seq<seq<nat>>, data: seq<int>)
    ensures Collected(x, x, [], [])
    ensures Collected(x, [], lens, data) ==> lens == BfsLens(x) && data == BfsData(x)
  {
    assert [] + BfsLens(x) == BfsLens(x) && [] + BfsData(x) == BfsData(x);
    assert lens + BfsLens([]) == lens && data + BfsData([]) == data;
  }

  lemma {:induction false} NextAppend(a: seq<Py>, b: seq<Py>)
    ensures Next(a + b) == Next(a) + Next(b)
  {
    if a == [] {
      assert a + b == b;
    } else {
      assert (a + b)[1..] == a[1..] + b;
      NextAppend(a[1..], b);
      Associate(KidsOf(a[0]), Next(a[1..]), Next(b));
    }
  }

  lemma {:induction false} LensAppend(a: seq<Py>, b: seq<Py>)
    ensures Lens(a + b) == Lens(a) + Lens(b)
  {
    if a == [] {
      assert a + b == b;
    } else {
      assert (a + b)[1..] == a[1..] + b;
      LensAppend(a[1..], b);
    }
  }

  lemma {:induction false} HereAppend(a: seq<Py>, b: seq<Py>)
    ensures Here(a + b) == Here(a) + Here(b)
  {
    if a == [] {
      assert a + b == b;
    } else {
      assert (a + b)[1..] == a[1..] + b;
      HereAppend(a[1..], b);
      Associate(ValueOf(a[0]), Here(a[1..]), Here(b));
    }
  }

  lemma {:induction false} IntsAppend(a: seq<Py>, b: seq<Py>)
    ensures IntsAll(a + b) == IntsAll(a) + IntsAll(b)
  {
    if a == [] {
      assert a + b == b;
    } else {
      assert (a + b)[1..] == a[1..] + b;
      IntsAppend(a[1..], b);
      Associate(Ints(a[0]), IntsAll(a[1..]), IntsAll(b));
    }
  }

  /** One more item popped. */
  lemma LevelStep(q: seq<Py>, i: nat)
    requires i < |q|
    ensures Next(q[..i + 1]) == Next(q[..i]) + KidsOf(q[i])
    ensures Lens(q[..i + 1]) == Lens(q[..i]) + [if q[i].List? then |q[i].items| else 1]
    ensures Here(q[..i + 1]) == Here(q[..i]) + ValueOf(q[i])
  {
    assert q[..i + 1] == q[..i] + [q[i]];
    NextAppend(q[..i], [q[i]]);
    LensAppend(q[..i], [q[i]]);
    HereAppend(q[..i], [q[i]]);
    OneLevel(q[i]);
  }

  /** The inner loop of _bfs: pop one level, appending the next. */
  method PopLevel(q: seq<Py>) returns (next: seq<Py>, lens: seq<nat>, data: seq<int>)
    ensures next == Next(q) && lens == Lens(q) && data == Here(q)
  {
    var toVisit := q;
    lens, data := [], [];
    for i := 0 to |q|
      invariant toVisit == q[i..] + Next(q[..i])
      invariant lens == Lens(q[..i]) && data == Here(q[..i])
    {
      var top := toVisit[0];
      LevelStep(q, i);
      QueueStep(q, i, Next(q[..i]), KidsOf(top));
      toVisit := toVisit[1..];
      if top.List? {
        lens := lens + [|top.items|];
        toVisit := toVisit + top.items;
      } else {
        lens := lens + [1];
        data := data + [top.v];
      }
    }
    assert q[..|q|] == q;
    next := toVisit;
  }

  /** Popping the head of the queue and appending to its end. */
  lemma QueueStep<X>(q: seq<X>, i: nat, after: seq<X>, kids: seq<X>)
    requires i < |q|
    ensures (q[i..] + after)[0] == q[i]
    ensures (q[i..] + after)[1..] + kids == q[i + 1..] + (after + kids)
  {
    assert q[i..][1..] == q[i + 1..];
  }

  lemma OneLevel(x: Py)
    ensures Next([x]) == KidsOf(x) && Here([x]) == ValueOf(x)
    ensures Lens([x]) == [if x.List? then |x.items| else 1]
  {
  }

  /** _bfs: the lengths level by level, without the last level, and the ints as they are met. */
  method Bfs(x: seq<Py>) returns (lens: seq<seq<nat>>, data: seq<int>)
    requires x != []
    ensures |BfsLens(x)| > 0 && lens == BfsLens(x)[..|BfsLens(x)| - 1] && data == BfsData(x)
  {
    var toVisit := x;
    lens, data := [], [];
    CollectedAll(x, lens, data);
    while toVisit != []
      invariant Collected(x, toVisit, lens, data)
      invariant toVisit == [] ==> lens != []
      decreases WeightAll(toVisit)
    {
      CollectLevel(x, toVisit, lens, data);
      var next, ls, ds := PopLevel(toVisit);
      toVisit, lens, data := next, lens + [ls], data + ds;
    }
    CollectedAll(x, lens, data);
    lens := lens[..|lens| - 1];
  }

  // ---------------------------------------------------------------- uniform lists, level by level

  /** The first path goes through d more lists and ends in an int. */
  predicate FirstPath(x: Py, d: nat)
    decreases d
  {
    if d == 0 then x.Int? else x.List? && x.items != [] && FirstPath(x.items[0], d - 1)
  }

  lemma {:induction false} NextLevel(q: seq<Py>, d: nat)
    requires Level(q, d) && d > 0
    ensures Level(Next(q), d - 1) && Here(q) == [] && IntsAll(Next(q)) == IntsAll(q)
    ensures Sum(Lens(q)) == |Next(q)|
    ensures q != [] && FirstPath(q[0], d) ==> Next(q) != [] && FirstPath(Next(q)[0], d - 1)
    decreases |q|
  {
    if q != [] {
      NextLevel(q[1..], d);
      IntsAppend(q[0].items, Next(q[1..]));
    }
  }

  lemma {:induction false} LastLevel(q: seq<Py>)
    requires Level(q, 0)
    ensures Next(q) == [] && Here(q) == IntsAll(q)
    decreases |q|
  {
    if q != [] { LastLevel(q[1..]); }
  }

  /** On a uniform list breadth-first order is left-to-right order. */
  lemma {:induction false} DataInOrder(q: seq<Py>, d: nat)
    requires Level(q, d)
    ensures BfsData(q) == IntsAll(q)
    decreases d
  {
    WeightNext(q);
    if q != [] {
      if d == 0 {
        LastLevel(q);
      } else {
        NextLevel(q, d);
        DataInOrder(Next(q), d - 1);
      }
    }
  }

  function Sum(s: seq<nat>): nat {
    if s == [] then 0 else s[0] + Sum(s[1..])
  }

  /** Each level has as many entries as the level above announces. */
  predicate Chain(lens: seq<seq<nat>>) {
    && (forall t :: 0 <= t < |lens| ==> lens[t] != [])
    && forall t :: 0 <= t < |lens| - 1 ==> Sum(lens[t]) == |lens[t + 1]|
  }

  /** The levels of a uniform list. */
  function LevelLens(q: seq<Py>, d: nat): seq<seq<nat>>
    requires Level(q, d)
    decreases d
  {
    if d == 0 then [] else
      NextLevel(q, d);
      [Lens(q)] + LevelLens(Next(q), d - 1)
  }

  lemma FirstOfLevels(q: seq<Py>, d: nat)
    requires Level(q, d) && d > 0
    ensures Level(Next(q), d - 1) && LevelLens(q, d) == [Lens(q)] + LevelLens(Next(q), d - 1)
  {
    NextLevel(q, d);
  }

  lemma {:induction false} LevelsChain(q: seq<Py>, d: nat)
    requires Level(q, d) && q != [] && FirstPath(q[0], d)
    ensures |LevelLens(q, d)| == d && Chain(LevelLens(q, d))
    decreases d
  {
    if d > 0 {
      NextLevel(q, d);
      LevelsChain(Next(q), d - 1);
      FirstOfLevels(q, d);
      if d > 1 { FirstOfLevels(Next(q), d - 1); }
      ChainCons(Lens(q), LevelLens(Next(q), d - 1));
    }
  }

  /** Without its last level, the breadth-first search finds these levels. */
  lemma {:induction false} LensByLevel(q: seq<Py>, d: nat)
    requires Level(q, d) && q != [] && FirstPath(q[0], d)
    ensures |BfsLens(q)| == d + 1 && BfsLens(q)[..d] == LevelLens(q, d)
    decreases d
  {
    if d == 0 {
      LastLevel(q);
      BfsUnfold(q);
    } else {
      NextLevel(q, d);
      LensByLevel(Next(q), d - 1);
      BfsUnfold(q);
      TakeCons(Lens(q), BfsLens(Next(q)), d - 1);
    }
  }

  lemma TakeCons<X>(x: X, s: seq<X>, n: nat)
    requires n <= |s|
    ensures ([x] + s)[..n + 1] == [x] + s[..n]
  {
  }

  lemma ChainCons(l: seq<nat>, ls: seq<seq<nat>>)
    requires Chain(ls) && l != [] && (ls != [] ==> Sum(l) == |ls[0]|)
    ensures Chain([l] + ls)
  {
    var all := [l] + ls;
    assert forall t :: 1 <= t < |all| ==> all[t] == ls[t - 1];
  }

  // ---------------------------------------------------------------- _gen_indices

  /** One Range per length. */
  function Ranges(lens: seq<nat>): (r: seq<Tree>)
    ensures |r| == |lens| && forall i :: 0 <= i < |r| ==> r[i] == Node(Range(lens[i]))
  {
    if lens == [] then [] else [Node(Range(lens[0]))] + Ranges(lens[1..])
  }

  /** Consecutive trees grouped into lists of the given lengths. */
  function Groups(lens: seq<nat>, trees: seq<Tree>): (r: seq<Tree>)
    requires Sum(lens) == |trees|
    ensures |r| == |lens|
  {
    if lens == [] then [] else [Node(trees[..lens[0]])] + Groups(lens[1..], trees[lens[0]..])
  }

  /** Groups already made from the first `start` trees, followed by those still to be made. */
  ghost predicate Grouped(cur: seq<Tree>, lens: seq<nat>, prev: seq<Tree>, start: nat, i: nat, all: seq<Tree>) {
    && i <= |lens| && start <= |prev| && Sum(lens[i..]) == |prev[start..]|
    && cur + Groups(lens[i..], prev[start..]) == all
  }

  lemma GroupStep(cur: seq<Tree>, lens: seq<nat>, prev: seq<Tree>, start: nat, i: nat, all: seq<Tree>)
    requires i < |lens| && Grouped(cur, lens, prev, start, i, all)
    ensures start + lens[i] <= |prev|
    ensures Grouped(cur + [Node(prev[start..start + lens[i]])], lens, prev, start + lens[i], i + 1, all)
  {
    var end := start + lens[i];
    assert lens[i..][0] == lens[i] && lens[i..][1..] == lens[i + 1..];
    assert prev[start..][..lens[i]] == prev[start..end] && prev[start..][lens[i]..] == prev[end..];
    Associate(cur, [Node(prev[start..end])], Groups(lens[i + 1..], prev[end..]));
  }

  lemma GroupsStart(cur: seq<Tree>, lens: seq<nat>, prev: seq<Tree>)
    requires Sum(lens) == |prev|
    ensures Grouped(cur, lens, prev, 0, 0, cur + Groups(lens, prev))
  {
    assert lens[0..] == lens && prev[0..] == prev;
  }

  lemma GroupsDone(cur: seq<Tree>, lens: seq<nat>, prev: seq<Tree>, start: nat, all: seq<Tree>)
    requires Grouped(cur, lens, prev, start, |lens|, all)
    ensures cur == all
  {
    assert lens[|lens|..] == [];
  }

  lemma PrefixSlice<X>(s: seq<X>, t: seq<X>, a: nat, b: nat)
    requires s <= t && a <= b <= |s|
    ensures t[a..b] == s[a..b]
  {
  }

  /** The inner loop: slice the previous level into lists, appending them to cur_ids. From the
      second level on `prev_ids` is `cur_ids` itself, which grows while it is being sliced. */
  method Regroup(lens: seq<nat>, flat: seq<Tree>, cur0: seq<Tree>, aliased: bool) returns (cur: seq<Tree>)
    requires Sum(lens) == if aliased then |cur0| else |flat|
    ensures cur == cur0 + Groups(lens, if aliased then cur0 else flat)
  {
    ghost var prev := if aliased then cur0 else flat;
    ghost var all := cur0 + Groups(lens, prev);
    cur := cur0;
    var start := 0;
    GroupsStart(cur, lens, prev);
    for i := 0 to |lens|
      invariant Grouped(cur, lens, prev, start, i, all) && cur0 <= cur
    {
      var end := start + lens[i];
      GroupStep(cur, lens, prev, start, i, all);
      if aliased { PrefixSlice(cur0, cur, start, end); }
      var piece := if aliased then cur[start..end] else flat[start..end];
      cur := cur + [Node(piece)];
      start := end;
    }
    GroupsDone(cur, lens, prev, start, all);
  }

  method FlatIds(lens: seq<nat>) returns (flat: seq<Tree>)
    ensures flat == Ranges(lens)
  {
    flat := [];
    for i := 0 to |lens|
      invariant |flat| == i && forall k :: 0 <= k < i ==> flat[k] == Node(Range(lens[k]))
    {
      flat := flat + [Node(Range(lens[i]))];
    }
  }

  /** cur_ids after the levels from the last but one up to t.  The first of them groups the flat
      index lists, the others group cur_ids itself, which is never emptied. */
  function Regrouped(lens: seq<seq<nat>>, t: nat): Option<seq<Tree>>
    requires t < |lens|
    decreases |lens| - t
  {
    var m := |lens|;
    if t == m - 1 then Some([])
    else match Regrouped(lens, t + 1)
      case None => None
      case Some(cur) => Extended(cur, lens[t], if t == m - 2 then Ranges(lens[m - 1]) else cur)
  }

  function Extended(cur: seq<Tree>, lens: seq<nat>, prev: seq<Tree>): Option<seq<Tree>> {
    if Sum(lens) == |prev| then Some(cur + Groups(lens, prev)) else None
  }

  function Generated(lens: seq<seq<nat>>, depth: nat): Outcome<seq<Tree>> {
    if lens == [] || |lens| != depth - 1 then Failed
    else if |lens| == 1 then Ok(Ranges(lens[0]))
    else Checked(Regrouped(lens, 0))
  }

  function Checked(r: Option<seq<Tree>>): Outcome<seq<Tree>> { if r.Some? then Ok(r.value) else Failed }

  lemma {:induction false} FailureStays(lens: seq<seq<nat>>, t: nat)
    requires t < |lens| && Regrouped(lens, t) == None
    ensures Regrouped(lens, 0) == None
    decreases t
  {
    if t > 0 { FailureStays(lens, t - 1); }
  }

  /** _gen_indices. */
  method GenIndices(lens: seq<seq<nat>>, depth: nat) returns (r: Outcome<seq<Tree>>)
    requires depth >= 2
    ensures r == Generated(lens, depth)
  {
    if |lens| != depth - 1 { return Failed; }
    var m := |lens|;
    var flat := FlatIds(lens[m - 1]);
    var cur: seq<Tree>, aliased := [], false;
    var t := m - 1;
    while t > 0
      invariant 0 <= t < m && aliased == (t < m - 1)
      invariant Regrouped(lens, t) == Some(cur)
    {
      t := t - 1;
      if Sum(lens[t]) != (if aliased then |cur| else |flat|) {
        FailureStays(lens, t);
        return Failed;
      }
      cur := Regroup(lens[t], flat, cur, aliased);
      aliased := true;
    }
    r := Ok(if cur != [] then cur else if aliased then cur else flat);
  }

  /** The flat index lists `low` grouped by `mid`. */
  function TwoLevels(mid: seq<nat>, low: seq<nat>): Option<seq<Tree>> {
    Extended([], mid, Ranges(low))
  }

  /** The two-level lists, followed by the three-level ones. */
  function ThreeLevels(top: seq<nat>, mid: seq<nat>, low: seq<nat>): Option<seq<Tree>> {
    match TwoLevels(mid, low)
    case None => None
    case Some(inner) => Extended(inner, top, inner)
  }

  /** It is right for one and two levels of lengths.  For three it returns the two-level lists
      as well as the three-level ones, and for more its own check fails, because `cur_ids` is
      never emptied between levels. */
  lemma GeneratedMeaning(lens: seq<seq<nat>>, depth: nat)
    requires |lens| == depth - 1
    ensures |lens| == 1 ==> Generated(lens, depth) == Ok(Ranges(lens[0]))
    ensures |lens| == 2 ==> Generated(lens, depth) == Checked(TwoLevels(lens[0], lens[1]))
    ensures |lens| == 3 ==> Generated(lens, depth) == Checked(ThreeLevels(lens[0], lens[1], lens[2]))
    ensures |lens| >= 4 && Chain(lens) ==> Generated(lens, depth) == Failed
  {
    if |lens| >= 4 && Chain(lens) { GroupThrice(lens); }
    if |lens| >= 3 { GroupTwice(lens); }
    if |lens| >= 2 { GroupOnce(lens); }
  }

  lemma GroupOnce(lens: seq<seq<nat>>)
    requires |lens| >= 2
    ensures Regrouped(lens, |lens| - 2) == TwoLevels(lens[|lens| - 2], lens[|lens| - 1])
  {
    assert Regrouped(lens, |lens| - 1) == Some([]);
  }

  lemma GroupTwice(lens: seq<seq<nat>>)
    requires |lens| >= 3
    ensures Regrouped(lens, |lens| - 3) == ThreeLevels(lens[|lens| - 3], lens[|lens| - 2], lens[|lens| - 1])
  {
    GroupOnce(lens);
  }

  /** By then cur_ids holds two levels, but the next one only announces the upper. */
  lemma GroupThrice(lens: seq<seq<nat>>)
    requires |lens| >= 4 && Chain(lens)
    ensures Regrouped(lens, 0) == None
  {
    var m := |lens|;
    GroupTwice(lens);
    assert Sum(lens[m - 2]) == |lens[m - 1]| by { assert Sum(lens[m - 2]) == |lens[m - 2 + 1]|; }
    assert Sum(lens[m - 3]) == |lens[m - 2]| by { assert Sum(lens[m - 3]) == |lens[m - 3 + 1]|; }
    assert Sum(lens[m - 4]) == |lens[m - 3]| by { assert Sum(lens[m - 4]) == |lens[m - 4 + 1]|; }
    ThreeLevelsLength(lens[m - 3], lens[m - 2], lens[m - 1]);
    assert lens[m - 2] != [];
    assert Regrouped(lens, m - 4) == None;
    FailureStays(lens, m - 4);
  }

  lemma ThreeLevelsLength(top: seq<nat>, mid: seq<nat>, low: seq<nat>)
    requires Sum(mid) == |low| && Sum(top) == |mid|
    ensures TwoLevels(mid, low) == Some(Groups(mid, Ranges(low)))
    ensures ThreeLevels(top, mid, low).Some? && |ThreeLevels(top, mid, low).value| == |mid| + |top|
    ensures mid != [] ==> ThreeLevels(top, mid, low).value != []
                          && ThreeLevels(top, mid, low).value[0] == Groups(mid, Ranges(low))[0]
  {
    var inner := Groups(mid, Ranges(low));
    assert [] + inner == inner;
  }

  // ---------------------------------------------------------------- from_pylist

  lemma {:induction false} TreesAppend(a: seq<Py>, b: seq<Py>, d: nat)
    requires Level(a, d) && Level(b, d) && d > 0
    ensures Level(a + b, d) && TreesOf(a + b, d) == TreesOf(a, d) + TreesOf(b, d)
    decreases |a|
  {
    if a == [] {
      assert a + b == b;
    } else {
      assert (a + b)[1..] == a[1..] + b;
      TreesAppend(a[1..], b, d);
      assert Level(a + b, d) by {
        forall i | 0 <= i < |a + b|
          ensures (a + b)[i].List? && Level((a + b)[i].items, d - 1)
        {
          if i > 0 { assert (a + b)[i] == (a[1..] + b)[i - 1]; }
        }
      }
      assert (a + b)[0] == a[0];
      Associate([TreeOf(a[0], d)], TreesOf(a[1..], d), TreesOf(b, d));
    }
  }

  lemma {:induction false} RangesAreTrees(q: seq<Py>)
    requires Level(q, 1)
    ensures Ranges(Lens(q)) == TreesOf(q, 1)
    decreases |q|
  {
    if q != [] {
      RangesAreTrees(q[1..]);
      assert Lens(q)[1..] == Lens(q[1..]);
      assert TreeOf(q[0], 1) == Node(Range(Lens(q)[0]));
    }
  }

  lemma GroupsCons(lens: seq<nat>, a: seq<Tree>, b: seq<Tree>)
    requires Sum(lens) == |b|
    ensures Sum([|a|] + lens) == |a + b| && Groups([|a|] + lens, a + b) == [Node(a)] + Groups(lens, b)
  {
    assert ([|a|] + lens)[1..] == lens;
    assert (a + b)[..|a|] == a && (a + b)[|a|..] == b;
  }

  lemma NextTrees(q: seq<Py>, d: nat)
    requires Level(q, d) && d > 1 && q != []
    ensures Level(Next(q), d - 1) && Level(Next(q[1..]), d - 1)
    ensures TreesOf(Next(q), d - 1) == TreesOf(q[0].items, d - 1) + TreesOf(Next(q[1..]), d - 1)
  {
    NextLevel(q, d);
    NextLevel(q[1..], d);
    TreesAppend(q[0].items, Next(q[1..]), d - 1);
  }

  /** Grouping the trees of the next level gives the trees of this one. */
  lemma {:induction false} GroupsAreTrees(q: seq<Py>, d: nat)
    requires Level(q, d) && d > 1
    ensures Level(Next(q), d - 1) && Sum(Lens(q)) == |TreesOf(Next(q), d - 1)|
    ensures Groups(Lens(q), TreesOf(Next(q), d - 1)) == TreesOf(q, d)
    decreases |q|
  {
    if q == [] {
      assert Next(q) == [];
    } else {
      GroupsAreTrees(q[1..], d);
      NextTrees(q, d);
      var a, b := TreesOf(q[0].items, d - 1), TreesOf(Next(q[1..]), d - 1);
      TreesUniform(q[0].items, d - 1);
      GroupsCons(Lens(q[1..]), a, b);
      assert Lens(q) == [|a|] + Lens(q[1..]);
      assert TreesOf(q, d) == [Node(a)] + TreesOf(q[1..], d);
    }
  }

  lemma {:induction false} FirstDepthOfTrees(q: seq<Py>, d: nat)
    requires Level(q, d) && q != [] && FirstPath(q[0], d)
    ensures FirstDepth(TreesOf(q, d)) == Ok(d + 1)
    decreases d
  {
    TreesUniform(q, d);
    var t := TreesOf(q, d)[0];
    assert FirstDepth(TreesOf(q, d)) == Descend(t, 1);
    if d == 0 {
      assert t.Leaf?;
    } else {
      var kids := TreesOf(q[0].items, d - 1);
      FirstDepthOfTrees(q[0].items, d - 1);
      TreesUniform(q[0].items, d - 1);
      DescendShift(kids[0], 1, 1);
      assert t == Node(kids);
      assert FirstDepth(kids) == Descend(kids[0], 1) == Ok(d);
    }
  }

  lemma {:induction false} OneFirstPath(x: Py, a: nat, b: nat)
    requires FirstPath(x, a) && FirstPath(x, b)
    ensures a == b
    decreases a
  {
    if a > 0 { OneFirstPath(x.items[0], a - 1, b - 1); }
  }

  /** _gen_indices on the levels of a uniform list of depth d + 1. */
  lemma IndicesOfUniform(lens: seq<seq<nat>>, q: seq<Py>, d: nat)
    requires d > 0 && Level(q, d) && q != [] && FirstPath(q[0], d) && lens == LevelLens(q, d)
    ensures var r := Generated(lens, d + 1);
      && (d <= 2 ==> r == Ok(TreesOf(q, d)))
      && (d > 2 ==> r.Ok? ==> FirstDepth(r.value) != Ok(d + 1))
  {
    LevelsChain(q, d);
    GeneratedMeaning(lens, d + 1);
    if d == 1 {
      assert lens == [Lens(q)];
      RangesAreTrees(q);
    } else if d == 2 {
      NextLevel(q, 2);
      assert lens == [Lens(q), Lens(Next(q))];
      GroupsAreTrees(q, 2);
      RangesAreTrees(Next(q));
      assert [] + TreesOf(q, 2) == TreesOf(q, 2);
    } else if d == 3 {
      assert lens[1] != [] && Sum(lens[1]) == |lens[2]| && Sum(lens[0]) == |lens[1]|;
      ShallowGroup(lens[1], Ranges(lens[2]));
      ThreeLevelsLength(lens[0], lens[1], lens[2]);
    }
  }

  /** The first group of flat index lists is two levels deep. */
  lemma ShallowGroup(lens: seq<nat>, trees: seq<Tree>)
    requires Sum(lens) == |trees| && lens != []
    requires forall i :: 0 <= i < |trees| ==> exists n: nat :: trees[i] == Node(Range(n))
    ensures Descend(Groups(lens, trees)[0], 1) == Ok(3) || Descend(Groups(lens, trees)[0], 1) == IndexError
  {
    var kids := trees[..lens[0]];
    assert Groups(lens, trees)[0] == Node(kids);
    if kids != [] {
      assert kids[0] == trees[0];
      var n: nat :| trees[0] == Node(Range(n));
      assert Descend(Node(kids), 1) == Descend(Node(Range(n)), 2);
      assert n > 0 ==> Range(n)[0].Leaf? && Descend(Node(Range(n)), 2) == Descend(Range(n)[0], 3);
    }
  }

  /** The flat case of from_pylist: every position is labelled 1. */
  method FromFlat(items: seq<Py>, ta: FractalTensor<int>) returns (r: Outcome<FractalTensor<int>>)
    requires items != [] && ta.ElementSize() == 1
    modifies ta
    ensures r.Ok? ==> r.value == ta
    ensures Level(items, 0) && ta.depth == 1 ==>
              r == Ok(ta) && ta.Valid() && ta.Value() == Row(NestedAll(items))
  {
    var data: seq<int> := [];
    for i := 0 to |items|
      invariant forall k :: 0 <= k < i ==> items[k].Int?
      invariant data + Here(items[i..]) == Here(items)
    {
      if items[i].List? { return Failed; }
      assert items[i..][1..] == items[i + 1..];
      assert data + Here(items[i..]) == (data + [items[i].v]) + Here(items[i + 1..]);
      data := data + [items[i].v];
    }
    assert data + [] == data && items[|items|..] == [];
    var labels := seq(|items|, _ => Leaf(1));
    var s := ta.SetIndices(labels);
    if !s.Ok? { return Failed; }
    ta.data := data;
    r := Ok(ta);
    LastLevel(items);
    LeavesFill(items, labels);
  }

  /** The nested case of from_pylist. */
  method FromNested(items: seq<Py>, ta: FractalTensor<int>) returns (r: Outcome<FractalTensor<int>>)
    requires items != [] && ta.ElementSize() == 1 && ta.depth >= 2
    modifies ta
    ensures r.Ok? ==> r.value == ta
    ensures Level(items, ta.depth - 1) && FirstPath(items[0], ta.depth - 1) ==>
              if ta.depth <= 3 then r == Ok(ta) && ta.Valid() && ta.Value() == Row(NestedAll(items))
              else !r.Ok?
  {
    var indices, data := IndicesAndData(items, ta.depth);
    match indices
    case IndexError => r := IndexError;
    case Failed => r := Failed;
    case Ok(value) => r := Install(ta, value, data);
  }

  /** What the object will be made of. */
  method IndicesAndData(items: seq<Py>, depth: nat) returns (indices: Outcome<seq<Tree>>, data: seq<int>)
    requires items != [] && depth >= 2
    ensures Level(items, depth - 1) && FirstPath(items[0], depth - 1) ==> Converted(items, depth - 1, indices, data)
  {
    var lens;
    lens, data := Bfs(items);
    indices := GenIndices(lens, depth);
    OutcomeIfUniform(items, depth - 1, lens, data, indices);
  }

  /** Right for lists of depth d + 1 up to 3, and of no use for deeper ones. */
  ghost predicate Converted(q: seq<Py>, d: nat, r: Outcome<seq<Tree>>, data: seq<int>) {
    && (d > 2 ==> r.Ok? ==> FirstDepth(r.value) != Ok(d + 1))
    && (d <= 2 ==> r.Ok? && FirstDepth(r.value) == Ok(d + 1) && Uniform(r.value, d + 1)
                   && SizeAll(r.value, 1) == |data| && FillAll(r.value, data, 1) == NestedAll(q))
  }

  /** Set the index tree and the buffer. */
  method Install(ta: FractalTensor<int>, indices: seq<Tree>, data: seq<int>) returns (r: Outcome<FractalTensor<int>>)
    modifies ta
    ensures if FirstDepth(indices) == Ok(ta.depth) then r == Ok(ta) && ta.indices == indices && ta.data == data
                                                        && ta.length == |indices|
            else !r.Ok?
  {
    var s := ta.SetIndices(indices);
    match s
    case IndexError => r := IndexError;
    case Failed => r := Failed;
    case Ok(_) =>
      ta.data := data;
      r := Ok(ta);
  }

  lemma UniformOutcome(q: seq<Py>, d: nat, lens: seq<seq<nat>>, data: seq<int>, r: Outcome<seq<Tree>>)
    requires d > 0 && Level(q, d) && q != [] && FirstPath(q[0], d)
    requires |BfsLens(q)| > 0 && lens == BfsLens(q)[..|BfsLens(q)| - 1] && data == BfsData(q)
    requires r == Generated(lens, d + 1)
    ensures Converted(q, d, r, data)
  {
    LensByLevel(q, d);
    assert lens == LevelLens(q, d);
    IndicesOfUniform(lens, q, d);
    DataInOrder(q, d);
    TreesFill(q, d);
    TreesUniform(q, d);
    FirstDepthOfTrees(q, d);
  }

  lemma OutcomeIfUniform(q: seq<Py>, d: nat, lens: seq<seq<nat>>, data: seq<int>, r: Outcome<seq<Tree>>)
    requires d > 0 && q != []
    requires |BfsLens(q)| > 0 && lens == BfsLens(q)[..|BfsLens(q)| - 1] && data == BfsData(q)
    requires r == Generated(lens, d + 1)
    ensures Level(q, d) && FirstPath(q[0], d) ==> Converted(q, d, r, data)
  {
    if Level(q, d) && FirstPath(q[0], d) { UniformOutcome(q, d, lens, data, r); }
  }

  /** Is x a list of depth d, with no empty list on its first path? */
  predicate ListOfDepth(x: Py, d: nat) {
    d > 0 && FirstPath(x, d) && Level(x.items, d - 1)
  }

  /** The first subtree denotes the first element, the others the rest. */
  lemma FirstDenoted(q: seq<Py>, ts: seq<Tree>, data: seq<int>, es: nat)
    requires ts != [] && |data| == SizeAll(ts, es) && FillAll(ts, data, es) == NestedAll(q)
    ensures q != [] && Fill(ts[0], data[..Size(ts[0], es)], es) == Nested(q[0])
    ensures FillAll(ts[1..], data[Size(ts[0], es)..], es) == NestedAll(q[1..])
  {
    var first, rest := Fill(ts[0], data[..Size(ts[0], es)], es), FillAll(ts[1..], data[Size(ts[0], es)..], es);
    assert FillAll(ts, data, es) == [first] + rest;
    assert q != [];
    assert NestedAll(q) == [Nested(q[0])] + NestedAll(q[1..]);
    SameParts(first, rest, Nested(q[0]), NestedAll(q[1..]));
  }

  lemma SameParts(a: Nest<int>, x: seq<Nest<int>>, b: Nest<int>, y: seq<Nest<int>>)
    requires [a] + x == [b] + y
    ensures a == b && x == y
  {
    assert ([a] + x)[0] == a && ([b] + y)[0] == b;
    assert ([a] + x)[1..] == x && ([b] + y)[1..] == y;
  }

  /** A list that some FractalTensor denotes has all its ints at one level. */
  lemma {:induction false} DenotedIsLevel(q: seq<Py>, ts: seq<Tree>, data: seq<int>, es: nat, d: nat)
    requires Uniform(ts, d) && |data| == SizeAll(ts, es) && FillAll(ts, data, es) == NestedAll(q)
    ensures Level(q, d - 1)
    decreases ts
  {
    if ts != [] {
      var n := Size(ts[0], es);
      FirstDenoted(q, ts, data, es);
      DenotedIsLevel(q[1..], ts[1..], data[n..], es, d);
      if d > 1 { DenotedIsLevel(q[0].items, ts[0].kids, data[..n], es, d - 1); }
      LevelCons(q, d - 1);
    } else {
      assert NestedAll(q) == [];
    }
  }

  lemma LevelCons(q: seq<Py>, d: nat)
    requires q != [] && Level(q[1..], d) && if d == 0 then q[0].Int? else q[0].List? && Level(q[0].items, d - 1)
    ensures Level(q, d)
  {
    forall i | 0 <= i < |q|
      ensures if d == 0 then q[i].Int? else q[i].List? && Level(q[i].items, d - 1)
    {
      if i > 0 { assert q[i] == q[1..][i - 1]; }
    }
  }

  /** The object stands for the list. */
  ghost predicate Denotes(r: Outcome<FractalTensor<int>>, x: Py)
    reads if r.Ok? then {r.value} else {}
  {
    r.Ok? && r.value.Valid() && r.value.Value() == Nested(x)
  }

  /** from_pylist. Of all Python lists, the object denotes exactly those of depth up to 3 whose
      ints all are at the same level and whose first path meets no empty list; a deeper list of
      that kind is never converted. */
  method FromPylist(x: Py, device: string) returns (r: Outcome<FractalTensor<int>>)
    ensures Denotes(r, x) <==> exists d: nat :: d <= 3 && ListOfDepth(x, d)
    ensures r.Ok? ==> fresh(r.value) && FirstPath(x, r.value.depth)
    ensures forall d: nat :: d > 3 && ListOfDepth(x, d) ==> !r.Ok?
  {
    if x.Int? { return Failed; }
    var measured := MeasureDepth(x);
    if !measured.Ok? { return IndexError; }
    var depth := measured.value;
    forall d: nat | FirstPath(x, d)
      ensures d == depth
    {
      OneFirstPath(x, d, depth);
    }
    var ta := new FractalTensor<int>(depth, Elem([1], "int64", device));
    assert Product([1]) == 1 * Product([]);
    if x.items[0].Int? {
      r := FromFlat(x.items, ta);
    } else {
      r := FromNested(x.items, ta);
    }
    if Denotes(r, x) {
      DenotedIsLevel(x.items, ta.indices, ta.data, ta.ElementSize(), depth);
      assert ListOfDepth(x, depth);
    }
  }

  /** The loop that follows the first elements down to an int. */
  method MeasureDepth(x: Py) returns (r: Outcome<nat>)
    ensures r.Ok? ==> FirstPath(x, r.value)
    ensures !r.Ok? ==> forall d: nat :: !FirstPath(x, d)
  {
    var elem, depth := x, 0;
    while elem.List?
      invariant forall d: nat :: FirstPath(x, d) ==> d >= depth && FirstPath(elem, d - depth)
      invariant forall d: nat :: FirstPath(elem, d) ==> FirstPath(x, d + depth)
      decreases elem
    {
      if elem.items == [] { return IndexError; }
      forall d: nat | FirstPath(elem.items[0], d)
        ensures FirstPath(x, d + depth + 1)
      {
        assert FirstPath(elem, d + 1);
      }
      elem, depth := elem.items[0], depth + 1;
    }
    assert FirstPath(elem, 0);
    r := Ok(depth);
  }

  // ---------------------------------------------------------------- width_by_depth

  /** The number of children of every subtree `level` levels down, left to right. */
  function Widths(t: Tree, level: nat): seq<nat>
    decreases t, 0
  {
    match t
    case Leaf(_) => []
    case Node(kids) => if level == 0 then [|kids|] else WidthsAll(kids, level - 1)
  }

  function WidthsAll(ts: seq<Tree>, level: nat): seq<nat>
    decreases ts, 1
  {
    if ts == [] then [] else Widths(ts[0], level) + WidthsAll(ts[1..], level)
  }

  function Kids(ts: seq<Tree>): seq<Tree> {
    if ts == [] then [] else (if ts[0].Node? then ts[0].kids else []) + Kids(ts[1..])
  }

  lemma {:induction false} WidthsAppend(a: seq<Tree>, b: seq<Tree>, level: nat)
    ensures WidthsAll(a + b, level) == WidthsAll(a, level) + WidthsAll(b, level)
  {
    if a == [] {
      assert a + b == b;
    } else {
      assert (a + b)[1..] == a[1..] + b;
      WidthsAppend(a[1..], b, level);
    }
  }

  /** One level further down. */
  lemma {:induction false} WidthsOfKids(ts: seq<Tree>, level: nat)
    requires level > 0
    ensures WidthsAll(ts, level) == WidthsAll(Kids(ts), level - 1)
    decreases |ts|
  {
    if ts != [] {
      WidthsOfKids(ts[1..], level);
      WidthsAppend(if ts[0].Node? then ts[0].kids else [], Kids(ts[1..]), level - 1);
    }
  }

  /** The queue at a level d above the leaves of a uniform tree. */
  predicate Above(ts: seq<Tree>, d: nat) {
    forall i :: 0 <= i < |ts| ==> if d == 0 then ts[i].Leaf? else ts[i].Node? && Uniform(ts[i].kids, d)
  }

  lemma {:induction false} KidsAbove(ts: seq<Tree>, d: nat)
    requires Above(ts, d) && d > 0
    ensures Above(Kids(ts), d - 1) && NumelAll(Kids(ts)) == NumelAll(ts)
    ensures ts != [] && Descend(ts[0], 0).Ok? ==> Kids(ts) != [] && Descend(Kids(ts)[0], 0).Ok?
    decreases |ts|
  {
    if ts != [] {
      KidsAbove(ts[1..], d);
      NumelAppend(ts[0].kids, Kids(ts[1..]));
      if Descend(ts[0], 0).Ok? { DescendFrom(ts[0].kids[0], 1, 0); }
    }
  }

  lemma NumelAppend(a: seq<Tree>, b: seq<Tree>)
    ensures NumelAll(a + b) == NumelAll(a) + NumelAll(b)
  {
    SizeAppend(a, b, 1);
    SizeAllIsNumel(a, 1);
    SizeAllIsNumel(b, 1);
    SizeAllIsNumel(a + b, 1);
  }

  lemma {:induction false} DescendFrom(t: Tree, d: nat, e: nat)
    ensures Descend(t, d).Ok? <==> Descend(t, e).Ok?
    decreases t
  {
    if t.Node? && t.kids != [] { DescendFrom(t.kids[0], d + 1, e + 1); }
  }

  /** `[len(x) for x in to_visit]`, which fails on a leaf. */
  method Lengths(q: seq<Tree>) returns (ok: bool, widths: seq<nat>)
    ensures ok <==> forall i :: 0 <= i < |q| ==> q[i].Node?
    ensures ok ==> widths == WidthsAll(q, 0)
  {
    widths := [];
    for i := 0 to |q|
      invariant forall k :: 0 <= k < i ==> q[k].Node?
      invariant widths == WidthsAll(q[..i], 0)
    {
      if q[i].Leaf? { return false, []; }
      assert q[..i + 1] == q[..i] + [q[i]];
      WidthsAppend(q[..i], [q[i]], 0);
      assert WidthsAll([q[i]], 0) == [|q[i].kids|];
      widths := widths + [|q[i].kids|];
    }
    assert q[..|q|] == q;
    ok := true;
  }

  /** Pop one level of trees, appending the next; a leaf is an error. */
  method PopTrees(q: seq<Tree>) returns (ok: bool, next: seq<Tree>)
    ensures ok <==> forall i :: 0 <= i < |q| ==> q[i].Node?
    ensures ok ==> next == Kids(q)
  {
    next := q;
    for i := 0 to |q|
      invariant forall k :: 0 <= k < i ==> q[k].Node?
      invariant next == q[i..] + Kids(q[..i])
    {
      var top := next[0];
      assert next[1..] == q[i + 1..] + Kids(q[..i]);
      if top.Leaf? { return false, []; }
      KidsStep(q, i);
      next := next[1..] + top.kids;
    }
    assert q[..|q|] == q;
    ok := true;
  }

  lemma {:induction false} KidsStep(q: seq<Tree>, i: nat)
    requires i < |q| && q[i].Node?
    ensures Kids(q[..i + 1]) == Kids(q[..i]) + q[i].kids
    decreases i
  {
    if i == 0 {
      assert q[..1][1..] == [];
    } else {
      KidsStep(q[1..], i - 1);
      assert q[..i + 1][1..] == q[1..][..i] && q[..i][1..] == q[1..][..i - 1];
    }
  }

  /** The breadth-first loop of width_by_depth, on a one-element queue above d levels. */
  method WidthLoop(root: seq<Tree>, target: nat, ghost d: nat) returns (r: Outcome<seq<nat>>)
    requires Above(root, d) && root != [] && Descend(root[0], 0).Ok?
    ensures if target < d then r == Ok(WidthsAll(root, target)) else r == Failed
  {
    var cur, toVisit := 0, root;
    while toVisit != []
      invariant cur <= target && cur <= d && Above(toVisit, d - cur)
      invariant toVisit != [] && Descend(toVisit[0], 0).Ok?
      invariant WidthsAll(toVisit, target - cur) == WidthsAll(root, target)
      decreases target - cur
    {
      if cur == target {
        var ok, widths := Lengths(toVisit);
        return if ok then Ok(widths) else Failed;
      }
      var ok, next := PopTrees(toVisit);
      if !ok { return Failed; }
      KidsAbove(toVisit, d - cur);
      WidthsOfKids(toVisit, target - cur);
      toVisit, cur := next, cur + 1;
    }
    assert false;
  }

  lemma OnlyRoot(t: Tree, level: nat)
    ensures WidthsAll([t], level) == Widths(t, level)
  {
    assert [t][1..] == [] && Widths(t, level) + [] == Widths(t, level);
  }

  /** width_by_depth: positive depths count levels from the innermost lists, negative ones from
      the outermost. */
  method WidthByDepth<T>(x: FractalTensor<T>, depth: int) returns (r: Outcome<seq<nat>>)
    requires x.Valid()
    ensures var k := if depth >= 0 then depth else x.depth + depth + 1;
            if 1 <= k <= x.depth then r == Ok(Widths(Node(x.indices), x.depth - k)) else r == Failed
  {
    var k := if depth >= 0 then depth else x.depth + depth + 1;
    if k > x.depth || k == 0 { return Failed; }
    var root := Node(x.indices);
    DescendFrom(x.indices[0], 1, 1);
    r := WidthLoop([root], x.depth - k, x.depth);
    OnlyRoot(root, x.depth - k);
  }

  /** The widths of the innermost lists add up to the number of tensors. */
  lemma {:induction false} InnermostWidths(ts: seq<Tree>, d: nat)
    requires Above(ts, d) && d > 0
    ensures Sum(WidthsAll(ts, d - 1)) == NumelAll(ts)
    decreases d, |ts|
  {
    if d > 1 {
      KidsAbove(ts, d);
      WidthsOfKids(ts, d - 1);
      InnermostWidths(Kids(ts), d - 1);
    } else if ts != [] {
      InnermostWidths(ts[1..], 1);
      LeafCount(ts[0].kids);
    }
  }

  lemma {:induction false} LeafCount(ts: seq<Tree>)
    requires Uniform(ts, 1)
    ensures NumelAll(ts) == |ts|
  {
    RangeSize(ts, 1);
    SizeAllIsNumel(ts, 1);
  }

  lemma WidthsAddUp<T>(x: FractalTensor<T>)
    requires x.Valid()
    ensures Sum(Widths(Node(x.indices), x.depth - 1)) == NumelAll(x.indices)
  {
    var root := [Node(x.indices)];
    InnermostWidths(root, x.depth);
    OnlyRoot(Node(x.indices), x.depth - 1);
    assert NumelAll(root) == Numel(Node(x.indices)) + NumelAll([]);
  }

  /** The widths of a list are those of its elements, one level less far down, from left to right;
      at the top there is one, the number of elements. */
  lemma WidthsInOrder(a: seq<Tree>, t: Tree, b: seq<Tree>, level: nat)
    ensures Widths(Node(a), 0) == [|a|]
    ensures Widths(Node(a + [t] + b), level + 1)
         == Widths(Node(a), level + 1) + Widths(t, level) + Widths(Node(b), level + 1)
  {
    WidthsAppend(a + [t], b, level);
    WidthsAppend(a, [t], level);
    OnlyRoot(t, level);
  }

  /** Every subtree of a level is a child counted one level further up. */
  lemma {:induction false} WidthsCountNext(ts: seq<Tree>, d: nat, level: nat)
    requires Above(ts, d) && level + 1 < d
    ensures Sum(WidthsAll(ts, level)) == |WidthsAll(ts, level + 1)|
    decreases level
  {
    KidsAbove(ts, d);
    if level > 0 {
      WidthsOfKids(ts, level);
      WidthsOfKids(ts, level + 1);
      WidthsCountNext(Kids(ts), d - 1, level - 1);
    } else {
      WidthsOfKids(ts, 1);
      TopWidths(ts, d);
      TopWidths(Kids(ts), d - 1);
    }
  }

  /** At the top of a queue there is one width for each tree, and together they count the children. */
  lemma {:induction false} TopWidths(ts: seq<Tree>, d: nat)
    requires Above(ts, d) && d > 0
    ensures |WidthsAll(ts, 0)| == |ts| && Sum(WidthsAll(ts, 0)) == |Kids(ts)|
    decreases |ts|
  {
    if ts != [] {
      TopWidths(ts[1..], d);
      assert WidthsAll(ts, 0) == [|ts[0].kids|] + WidthsAll(ts[1..], 0);
    }
  }

  /** The widths of one level add up to the number of widths one level further down. */
  lemma WidthsChain<T>(x: FractalTensor<T>, level: nat)
    requires x.Valid() && level + 1 < x.depth
    ensures Sum(Widths(Node(x.indices), level)) == |Widths(Node(x.indices), level + 1)|
  {
    var root := [Node(x.indices)];
    WidthsCountNext(root, x.depth, level);
    OnlyRoot(Node(x.indices), level);
    OnlyRoot(Node(x.indices), level + 1);
  }
}
