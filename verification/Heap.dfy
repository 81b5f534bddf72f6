/** The indexed binary heap that orders the decision variables. */
module Heaps {
  type Order = (nat, nat) -> bool

  /** A strict weak order: what comparing activities gives. */
  ghost predicate StrictWeak(lt: Order) {
    && (forall x, y :: lt(x, y) ==> !lt(y, x))
    && (forall x, y, z :: lt(x, z) ==> lt(x, y) || lt(y, z))
  }

  function Left(i: int): int { i * 2 + 1 }
  function Right(i: int): int { (i + 1) * 2 }
  function Parent(i: int): int { (i - 1) / 2 }

  lemma Family(i: nat, j: int)
    ensures j > 0 ==> (Parent(j) == i <==> j == Left(i) || j == Right(i)) && 0 <= Parent(j) < j
    ensures Left(i) > i && Right(i) > i && Parent(Left(i)) == i && Parent(Right(i)) == i
  {}

  /** Each table is the inverse of the other; -1 marks what is not in the heap. */
  ghost predicate Inverse(heap: seq<nat>, indices: seq<int>) {
    && (forall i {:trigger heap[i]} :: 0 <= i < |heap| ==> heap[i] < |indices| && indices[heap[i]] == i)
    && (forall n {:trigger indices[n]} :: 0 <= n < |indices| && indices[n] >= 0 ==>
      indices[n] < |heap| && heap[indices[n]] == n)
  }

  /** Element j is not before its parent. */
  ghost predicate Sits(lt: Order, h: seq<nat>, j: int) {
    0 < j < |h| && Parent(j) < |h| && Parent(j) >= 0 ==> !lt(h[j], h[Parent(j)])
  }

  /** The heap order at every pair whose upper end is at position lo or later. */
  ghost predicate OrderedFrom(lt: Order, h: seq<nat>, lo: int) {
    forall j :: 0 < j < |h| && Parent(j) >= lo ==> Sits(lt, h, j)
  }

  ghost predicate Ordered(lt: Order, h: seq<nat>) { OrderedFrom(lt, h, 0) }

  /** The children of i are not before the parent of i. */
  ghost predicate Spans(lt: Order, h: seq<nat>, i: int, lo: int) {
    forall j :: 0 < i < |h| && Parent(i) >= lo >= 0 && 0 < j < |h| && Parent(j) == i ==> !lt(h[j], h[Parent(i)])
  }

  ghost predicate ChildrenSit(lt: Order, h: seq<nat>, i: int) {
    forall j :: 0 < j < |h| && Parent(j) == i ==> Sits(lt, h, j)
  }

  /** Ordered but for the element at position i, which may be out of place in both directions. */
  ghost predicate Except(lt: Order, h: seq<nat>, i: int, lo: int) {
    (forall j :: 0 < j < |h| && Parent(j) >= lo && j != i && Parent(j) != i ==> Sits(lt, h, j)) && Spans(lt, h, i, lo)
  }

  function Swapped(h: seq<nat>, i: nat, p: nat): (s: seq<nat>)
    requires i < |h| && p < |h|
    ensures |s| == |h|
  {
    h[i := h[p]][p := h[i]]
  }

  ghost function Elements(h: seq<nat>): set<nat> { set x | x in h }

  lemma SwappedElements(h: seq<nat>, i: nat, p: nat)
    requires i < |h| && p < |h|
    ensures Elements(Swapped(h, i, p)) == Elements(h)
  {
    var s := Swapped(h, i, p);
    forall x | x in h ensures x in s {
      var k :| 0 <= k < |h| && h[k] == x;
      if k == i { assert s[p] == x; } else if k == p { assert s[i] == x; } else { assert s[k] == x; }
    }
  }

  lemma SwappedInverse(h: seq<nat>, ix: seq<int>, i: nat, p: nat)
    requires Inverse(h, ix) && i < |h| && p < |h| && i != p
    ensures h[i] < |ix| && h[p] < |ix| && Inverse(Swapped(h, i, p), ix[h[p] := i][h[i] := p])
  {
    var s, ix' := Swapped(h, i, p), ix[h[p] := i][h[i] := p];
    assert ix[h[i]] == i && ix[h[p]] == p;
    forall k {:trigger s[k]} | 0 <= k < |s| ensures s[k] < |ix'| && ix'[s[k]] == k {
      assert ix[h[k]] == k;
    }
    forall n {:trigger ix'[n]} | 0 <= n < |ix'| && ix'[n] >= 0 ensures ix'[n] < |s| && s[ix'[n]] == n {
      if n != h[i] && n != h[p] { assert h[ix[n]] == n; }
    }
  }

  lemma Asym(lt: Order, x: nat, y: nat)
    requires StrictWeak(lt) && lt(x, y)
    ensures !lt(y, x)
  {}

  lemma NotThrough(lt: Order, x: nat, y: nat, z: nat)
    requires StrictWeak(lt) && !lt(x, y) && !lt(y, z)
    ensures !lt(x, z)
  {}

  /** Moving up past a parent that it is before: the hole moves to the parent, and its children are fine there. */
  lemma UpStep(lt: Order, h: seq<nat>, i: nat)
    requires StrictWeak(lt) && 0 < i < |h| && Except(lt, h, i, 0) && lt(h[i], h[Parent(i)])
    ensures 0 <= Parent(i) < i
    ensures Except(lt, Swapped(h, i, Parent(i)), Parent(i), 0) && ChildrenSit(lt, Swapped(h, i, Parent(i)), Parent(i))
  {
    hide StrictWeak;
    var p := Parent(i);
    Family(p, i);
    Asym(lt, h[i], h[p]);
    UpSits(lt, h, i, p);
    UpSpans(lt, h, i, p);
    var s := Swapped(h, i, p);
    forall j | 0 < j < |s| && Parent(j) == p ensures Sits(lt, s, j) {
      Family(p, j);
      if j != i {
        assert Sits(lt, h, j);
        NotThrough(lt, h[j], h[p], h[i]);
      }
    }
  }

  lemma UpSits(lt: Order, h: seq<nat>, i: nat, p: nat)
    requires p < i < |h| && p == Parent(i) && Except(lt, h, i, 0)
    ensures forall j :: 0 < j < |h| && j != p && Parent(j) != p ==> Sits(lt, Swapped(h, i, p), j)
  {
    var s := Swapped(h, i, p);
    forall j | 0 < j < |s| && j != p && Parent(j) != p ensures Sits(lt, s, j) {
      Family(i, j);
      if Parent(j) != i { assert Sits(lt, h, j); }
    }
  }

  lemma UpSpans(lt: Order, h: seq<nat>, i: nat, p: nat)
    requires StrictWeak(lt) && p < i < |h| && p == Parent(i) && Except(lt, h, i, 0)
    ensures Spans(lt, Swapped(h, i, p), p, 0)
  {
    hide StrictWeak, Except, Parent;
    var s := Swapped(h, i, p);
    Family(0, p);
    forall j | 0 < p && 0 < j < |s| && Parent(j) == p ensures !lt(s[j], s[Parent(p)]) {
      Family(p, j);
      UpSits1(lt, h, i, p, p);
      if j != i {
        UpSits1(lt, h, i, p, j);
        NotThrough(lt, h[j], h[p], h[Parent(p)]);
      }
    }
  }

  lemma UpSits1(lt: Order, h: seq<nat>, i: nat, p: nat, j: nat)
    requires Except(lt, h, i, 0) && 0 < j < |h| && j != i && (j == p || Parent(j) == p) && p < i && 0 <= Parent(j) < j
    ensures !lt(h[j], h[Parent(j)])
  {
    assert Sits(lt, h, j);
  }

  /** The one of the two children that is not after the other. */
  ghost predicate LesserChild(lt: Order, h: seq<nat>, i: nat, c: int) {
    && Left(i) < |h| && (c == Left(i) || (c == Right(i) && c < |h|))
    && (c == Left(i) && Right(i) < |h| ==> !lt(h[Right(i)], h[Left(i)]))
    && (c == Right(i) ==> lt(h[Right(i)], h[Left(i)]))
  }

  /** Moving down past the lesser child: the hole moves to the child, and is not before its parent there. */
  lemma DownStep(lt: Order, h: seq<nat>, i: nat, c: nat, lo: nat)
    requires StrictWeak(lt) && lo <= i < |h| && Except(lt, h, i, lo) && (Parent(i) >= lo ==> Sits(lt, h, i))
    requires LesserChild(lt, h, i, c) && lt(h[c], h[i])
    ensures i < c < |h| && Except(lt, Swapped(h, i, c), c, lo) && Sits(lt, Swapped(h, i, c), c)
  {
    hide StrictWeak;
    Family(i, c);
    Asym(lt, h[c], h[i]);
    if c == Right(i) { Asym(lt, h[c], h[Left(i)]); }
    DownSits(lt, h, i, c, lo);
    var s := Swapped(h, i, c);
    forall j | 0 < j < |s| && Parent(j) == c ensures !lt(s[j], s[i]) {
      Family(c, j);
      assert Sits(lt, h, j);
    }
  }

  lemma DownSits(lt: Order, h: seq<nat>, i: nat, c: nat, lo: nat)
    requires lo <= i < c < |h| && Except(lt, h, i, lo) && Parent(c) == i
    requires forall j :: 0 < j < |h| && Parent(j) == i && j != c ==> !lt(h[j], h[c])
    ensures forall j :: 0 < j < |h| && Parent(j) >= lo && j != c && Parent(j) != c ==> Sits(lt, Swapped(h, i, c), j)
  {
    var s := Swapped(h, i, c);
    forall j | 0 < j < |s| && Parent(j) >= lo && j != c && Parent(j) != c ensures Sits(lt, s, j) {
      Family(i, j);
      if j == i {
        Family(Parent(i), i);
      } else if Parent(j) != i {
        assert Sits(lt, h, j);
      }
    }
  }

  /** Nothing smaller below and nothing larger above: in order. */
  lemma Settles(lt: Order, h: seq<nat>, i: nat, lo: nat)
    requires Except(lt, h, i, lo) && (Parent(i) >= lo ==> Sits(lt, h, i)) && ChildrenSit(lt, h, i)
    ensures OrderedFrom(lt, h, lo)
  {
    forall j | 0 < j < |h| && Parent(j) >= lo ensures Sits(lt, h, j) {}
  }

  lemma NoLesser(lt: Order, h: seq<nat>, i: nat, c: int)
    requires StrictWeak(lt) && i < |h| && (Left(i) < |h| ==> LesserChild(lt, h, i, c) && !lt(h[c], h[i]))
    ensures ChildrenSit(lt, h, i)
  {
    forall j | 0 < j < |h| && Parent(j) == i ensures Sits(lt, h, j) { Family(i, j); }
  }

  /** The root is least. */
  lemma {:induction false} RootLeast(lt: Order, h: seq<nat>, j: nat)
    requires StrictWeak(lt) && Ordered(lt, h) && j < |h|
    ensures !lt(h[j], h[0])
  {
    if j > 0 {
      Family(0, j);
      RootLeast(lt, h, Parent(j));
      assert Sits(lt, h, j);
    }
  }

  lemma ExceptOf(lt: Order, h: seq<nat>, i: nat)
    requires StrictWeak(lt) && Ordered(lt, h) && i < |h|
    ensures Except(lt, h, i, 0) && ChildrenSit(lt, h, i) && Sits(lt, h, i)
  {
    forall j | 0 < i && 0 < j < |h| && Parent(j) == i ensures !lt(h[j], h[Parent(i)]) {
      Family(i, j);
      Family(Parent(i), i);
      assert Sits(lt, h, j) && Sits(lt, h, i);
    }
    if i > 0 { Family(Parent(i), i); }
  }

  /** The two orders agree on everything but n. */
  ghost predicate OnlyMoves(lt: Order, lt': Order, n: nat) {
    forall x, y :: x != n && y != n ==> lt'(x, y) == lt(x, y)
  }

  /** n has moved towards the front. */
  ghost predicate Lowers(lt: Order, lt': Order, n: nat) {
    OnlyMoves(lt, lt', n) && forall x :: lt'(x, n) ==> lt(x, n)
  }

  ghost predicate Raises(lt: Order, lt': Order, n: nat) {
    OnlyMoves(lt, lt', n) && forall x :: lt'(n, x) ==> lt(n, x)
  }

  /** After the order changed at one element only, only that element can be out of place. */
  lemma Reorder(lt: Order, lt': Order, h: seq<nat>, ix: seq<int>, i: nat)
    requires StrictWeak(lt) && Ordered(lt, h) && Inverse(h, ix) && i < |h| && OnlyMoves(lt, lt', h[i])
    ensures Except(lt', h, i, 0)
    ensures Lowers(lt, lt', h[i]) ==> ChildrenSit(lt', h, i)
    ensures Raises(lt, lt', h[i]) ==> Sits(lt', h, i)
  {
    ExceptOf(lt, h, i);
    forall j | 0 <= j < |h| && j != i ensures h[j] != h[i] {}
    forall j | 0 < j < |h| && j != i && Parent(j) != i ensures Sits(lt', h, j) {
      Family(i, j);
      assert Sits(lt, h, j);
      assert h[Parent(j)] != h[i];
    }
    forall j | 0 < j < |h| && Parent(j) == i
      ensures Lowers(lt, lt', h[i]) ==> Sits(lt', h, j)
    {
      assert Sits(lt, h, j);
    }
    if i > 0 { Family(Parent(i), i); }
    forall j | 0 < i && 0 < j < |h| && Parent(j) == i ensures !lt'(h[j], h[Parent(i)]) {
      Family(i, j);
      assert h[Parent(i)] != h[i] && h[j] != h[i];
    }
  }

  function Activity(act: seq<real>, v: nat): real { if v < |act| then act[v] else 0.0 }

  /** More active variables first. */
  function ByActivity(act: seq<real>): Order { (x: nat, y: nat) => Activity(act, x) > Activity(act, y) }

  /** Activities order the variables weakly; a bump moves one variable forward only, and rescaling moves none. */
  lemma ActivityOrder(act: seq<real>, v: nat, inc: real, scale: real)
    requires v < |act| && inc >= 0.0 && scale > 0.0
    ensures StrictWeak(ByActivity(act)) && Lowers(ByActivity(act), ByActivity(act[v := act[v] + inc]), v)
    ensures forall x, y :: ByActivity(Scaled(act, scale))(x, y) <==> ByActivity(act)(x, y)
  {
    forall x, y ensures ByActivity(Scaled(act, scale))(x, y) <==> ByActivity(act)(x, y) {
      var a, b := Activity(act, x), Activity(act, y);
      assert Activity(Scaled(act, scale), x) == a * scale && Activity(Scaled(act, scale), y) == b * scale;
      ScaleKeeps(a, b, scale);
    }
  }

  lemma ScaleKeeps(a: real, b: real, scale: real)
    requires scale > 0.0
    ensures a * scale > b * scale <==> a > b
  {
    assert a * scale - b * scale == (a - b) * scale;
  }

  function Scaled(act: seq<real>, scale: real): seq<real> { seq(|act|, (i: nat) requires i < |act| => act[i] * scale) }

  class Heap {
    var lt: Order
    var heap: seq<nat>
    var indices: seq<int>

    /** What holds between calls. */
    ghost predicate Valid()
      reads this
    {
      StrictWeak(lt) && Inverse(heap, indices) && Ordered(lt, heap)
    }

    constructor (order: Order)
      requires StrictWeak(order)
      ensures Valid() && heap == [] && indices == [] && lt == order
    {
      lt, heap, indices := order, [], [];
    }

    predicate InHeap(n: nat): (r: bool)
      requires Valid()
      reads this
      ensures r <==> n in Elements(heap)
    {
      assert n < |indices| && indices[n] >= 0 ==> heap[indices[n]] in heap;
      n < |indices| && indices[n] >= 0
    }

    method PercolateUp(start: nat)
      requires StrictWeak(lt) && Inverse(heap, indices) && start < |heap| && Except(lt, heap, start, 0)
      modifies `heap, `indices
      ensures Inverse(heap, indices) && |heap| == old(|heap|) && |indices| == old(|indices|)
      ensures Elements(heap) == old(Elements(heap))
      ensures old(heap[start] < |indices|) && 0 <= indices[old(heap[start])] < |heap|
      ensures heap[indices[old(heap[start])]] == old(heap[start])
      ensures Except(lt, heap, indices[old(heap[start])], 0) && Sits(lt, heap, indices[old(heap[start])])
      ensures old(ChildrenSit(lt, heap, start)) ==> Ordered(lt, heap)
    {
      hide Inverse, Except, ChildrenSit, Sits, StrictWeak, Elements;
      var i: nat := start;
      var x := heap[i];
      var p := Parent(i);
      ghost var h, ix := heap, indices;
      Ends(h, ix, i, x);
      while i != 0 && lt(x, heap[p])
        invariant p == Parent(i) && i < |h| && |h| == old(|heap|) && x < |ix| && |ix| == old(|indices|)
        invariant |heap| == |h| && |indices| == |ix| && h == heap[i := x] && ix == indices[x := i]
        invariant (i != 0 ==> 0 <= p < i)
        invariant Inverse(h, ix) && Elements(h) == old(Elements(heap)) && Except(lt, h, i, 0)
        invariant old(ChildrenSit(lt, heap, start)) ==> ChildrenSit(lt, h, i)
      {
        UpStep(lt, h, i);
        SwappedInverse(h, ix, i, p);
        SwappedElements(h, i, p);
        HoleMoves(h, ix, heap, indices, i, p, x);
        h, ix := Swapped(h, i, p), ix[h[p] := i][h[i] := p];
        indices := indices[heap[p] := i];
        heap := heap[i := heap[p]];
        i := p;
        p := Parent(p);
        Family(i, i);
        if i > 0 { Family(Parent(i), i); }
      }
      heap := heap[i := x];
      indices := indices[x := i];
      SitsHere(lt, heap, i, x);
      Ends(heap, indices, i, x);
      if old(ChildrenSit(lt, heap, start)) { Settles(lt, heap, i, 0); }
    }

    method PercolateDown(start: nat, ghost lo: nat)
      requires StrictWeak(lt) && Inverse(heap, indices) && lo <= start < |heap| && Except(lt, heap, start, lo)
      requires Parent(start) >= lo ==> Sits(lt, heap, start)
      modifies `heap, `indices
      ensures Inverse(heap, indices) && |heap| == old(|heap|) && |indices| == old(|indices|)
      ensures Elements(heap) == old(Elements(heap))
      ensures OrderedFrom(lt, heap, lo)
    {
      hide Inverse, Except, ChildrenSit, Sits, StrictWeak, Elements;
      var i: nat := start;
      var x := heap[i];
      ghost var h, ix := heap, indices;
      Ends(h, ix, i, x);
      while Left(i) < |heap|
        invariant lo <= i < |h| && |h| == old(|heap|) && x < |ix| && |ix| == old(|indices|)
        invariant |heap| == |h| && |indices| == |ix| && h == heap[i := x] && ix == indices[x := i]
        invariant Inverse(h, ix) && Elements(h) == old(Elements(heap)) && Except(lt, h, i, lo)
        invariant (Parent(i) >= lo ==> Sits(lt, h, i))
        decreases |heap| - i
      {
        var child: nat := if Right(i) < |heap| && lt(heap[Right(i)], heap[Left(i)]) then Right(i) else Left(i);
        Family(i, child);
        Lesser(lt, h, heap, i, x, child);
        if !lt(heap[child], x) {
          NoLesser(lt, h, i, child);
          break;
        }
        DownStep(lt, h, i, child, lo);
        SwappedInverse(h, ix, i, child);
        SwappedElements(h, i, child);
        HoleMoves(h, ix, heap, indices, i, child, x);
        h, ix := Swapped(h, i, child), ix[h[child] := i][h[i] := child];
        heap := heap[i := heap[child]];
        indices := indices[heap[i] := i];
        i := child;
      }
      if Left(i) >= |heap| { NoLesser(lt, h, i, 0); }
      heap := heap[i := x];
      indices := indices[x := i];
      Settles(lt, heap, i, lo);
    }

    /** n has moved towards the front of the order. */
    method Decrease(n: nat, order: Order)
      requires Valid() && n in Elements(heap) && StrictWeak(order) && Lowers(lt, order, n)
      modifies this
      ensures Valid() && lt == order && Elements(heap) == old(Elements(heap))
    {
      hide StrictWeak, OnlyMoves, Except, ChildrenSit, Sits;
      Position(heap, indices, n);
      Reorder(lt, order, heap, indices, indices[n]);
      lt := order;
      PercolateUp(indices[n]);
    }

    /** n has moved towards the end of the order. */
    method Increase(n: nat, order: Order)
      requires Valid() && n in Elements(heap) && StrictWeak(order) && Raises(lt, order, n)
      modifies this
      ensures Valid() && lt == order && Elements(heap) == old(Elements(heap))
    {
      hide StrictWeak, OnlyMoves, Except, ChildrenSit, Sits;
      Position(heap, indices, n);
      Reorder(lt, order, heap, indices, indices[n]);
      lt := order;
      PercolateDown(indices[n], 0);
    }

    method Insert(n: nat)
      requires Valid() && n !in Elements(heap)
      modifies `heap, `indices
      ensures Valid() && Elements(heap) == old(Elements(heap)) + {n} && |indices| >= n + 1
    {
      hide StrictWeak, Except, ChildrenSit, Sits;
      while |indices| < n + 1
        invariant Inverse(heap, indices) && heap == old(heap)
        decreases n + 1 - |indices|
      {
        indices := indices + [-1];
      }
      Appended(lt, heap, indices, n);
      indices := indices[n := |heap|];
      heap := heap + [n];
      PercolateUp(indices[n]);
    }

    /** Inserts n, or finds its new place after the order changed at n. */
    method Update(n: nat, order: Order)
      requires Valid() && StrictWeak(order) && OnlyMoves(lt, order, n)
      modifies this
      ensures Valid() && lt == order && Elements(heap) == old(Elements(heap)) + {n}
    {
      hide StrictWeak, Except, ChildrenSit, Sits, OnlyMoves;
      if !InHeap(n) {
        OrderElsewhere(lt, order, heap, n);
        lt := order;
        Insert(n);
      } else {
        Position(heap, indices, n);
        Reorder(lt, order, heap, indices, indices[n]);
        lt := order;
        PercolateUp(indices[n]);
        PercolateDown(indices[n], 0);
        assert Elements(heap) + {n} == Elements(heap);
      }
    }

    /** Takes out an element that no other is before. */
    method RemoveMin() returns (x: nat)
      requires Valid() && heap != []
      modifies `heap, `indices
      ensures Valid() && x in old(Elements(heap)) && Elements(heap) == old(Elements(heap)) - {x}
      ensures forall y :: y in old(Elements(heap)) ==> !lt(y, x)
    {
      hide StrictWeak, Except, ChildrenSit, Sits;
      x := heap[0];
      forall y | y in Elements(heap) ensures !lt(y, x) {
        var j :| 0 <= j < |heap| && heap[j] == y;
        RootLeast(lt, heap, j);
      }
      LastToRoot(lt, heap, indices);
      var last := heap[|heap| - 1];
      heap := heap[0 := last];
      indices := indices[last := 0];
      indices := indices[x := -1];
      heap := heap[..|heap| - 1];
      if |heap| > 1 {
        PercolateDown(0, 0);
      } else {
        Short(lt, heap);
      }
    }

    /** Starts over with the given elements. */
    method Build(ns: seq<nat>)
      requires Valid() && (forall i, j :: 0 <= i < j < |ns| ==> ns[i] != ns[j])
      requires forall i :: 0 <= i < |ns| ==> ns[i] < |indices|
      modifies `heap, `indices
      ensures Valid() && Elements(heap) == Elements(ns) && |indices| == old(|indices|)
    {
      hide StrictWeak, Ordered, Elements;
      Clear();
      for i := 0 to |ns|
        invariant Inverse(heap, indices) && heap == ns[..i] && |indices| == old(|indices|)
      {
        Append(heap, indices, ns[i]);
        indices := indices[ns[i] := i];
        heap := heap + [ns[i]];
      }
      assert ns[..|ns|] == ns;
      Heapify();
    }

    method Heapify()
      requires StrictWeak(lt) && Inverse(heap, indices)
      modifies `heap, `indices
      ensures Valid() && Elements(heap) == old(Elements(heap)) && |indices| == old(|indices|)
    {
      hide StrictWeak, Inverse, Elements, Except, ChildrenSit, Sits;
      LeavesSit(lt, heap);
      var i := |heap| / 2 - 1;
      while i >= 0
        invariant -1 <= i < |heap| && Inverse(heap, indices) && Elements(heap) == old(Elements(heap))
        invariant |indices| == old(|indices|)
        invariant OrderedFrom(lt, heap, i + 1)
      {
        OneMore(lt, heap, i);
        PercolateDown(i, i);
        i := i - 1;
      }
    }

    method Clear()
      requires StrictWeak(lt) && Inverse(heap, indices)
      modifies `heap, `indices
      ensures heap == [] && Inverse(heap, indices) && |indices| == old(|indices|) && Valid()
    {
      hide StrictWeak;
      for i := 0 to |heap|
        invariant heap == old(heap) && |indices| == old(|indices|)
        invariant forall n :: 0 <= n < |indices| ==> indices[n] == if 0 <= old(indices)[n] < i then -1
          else old(indices)[n]
      {
        indices := indices[heap[i] := -1];
      }
      heap := [];
    }
  }

  // ---------------------------------------------------------------- steps of the methods

  lemma Ends(h: seq<nat>, ix: seq<int>, i: nat, x: nat)
    requires Inverse(h, ix) && i < |h| && h[i] == x
    ensures x < |ix| && ix[x] == i && h == h[i := x] && ix == ix[x := i]
  {}

  lemma SitsHere(lt: Order, h: seq<nat>, i: nat, x: nat)
    requires i < |h| && h[i] == x && (i == 0 || (0 <= Parent(i) < i && !lt(x, h[Parent(i)])))
    ensures Sits(lt, h, i)
  {}

  /** Shifting the neighbour into the hole moves the hole, and keeps the tables inverse. */
  lemma HoleMoves(h: seq<nat>, ix: seq<int>, heap: seq<nat>, indices: seq<int>, i: nat, p: nat, x: nat)
    requires Inverse(h, ix) && i < |h| && p < |h| && i != p && x < |indices| && |heap| == |h|
    requires h == heap[i := x] && ix == indices[x := i]
    ensures h[i] == x && heap[p] == h[p] && h[p] < |indices| && h[p] != x
    ensures Swapped(h, i, p) == heap[i := heap[p]][p := x]
    ensures ix[h[p] := i][h[i] := p] == indices[heap[p] := i][x := p]
  {
    assert ix[h[i]] == i && ix[h[p]] == p;
  }

  lemma Lesser(lt: Order, h: seq<nat>, heap: seq<nat>, i: nat, x: nat, c: nat)
    requires i < |heap| && h == heap[i := x] && Left(i) < |heap| && StrictWeak(lt)
    requires c == if Right(i) < |heap| && lt(heap[Right(i)], heap[Left(i)]) then Right(i) else Left(i)
    ensures LesserChild(lt, h, i, c) && c < |heap| && heap[c] == h[c] && i < c && h[i] == x
  {}

  lemma Position(h: seq<nat>, ix: seq<int>, n: nat)
    requires Inverse(h, ix) && n in Elements(h)
    ensures n < |ix| && 0 <= ix[n] < |h| && h[ix[n]] == n
  {
    var j :| 0 <= j < |h| && h[j] == n;
  }

  lemma Append(h: seq<nat>, ix: seq<int>, n: nat)
    requires Inverse(h, ix) && n < |ix| && n !in h
    ensures Inverse(h + [n], ix[n := |h|])
  {
    assert forall i :: 0 <= i < |h| ==> h[i] in h;
    var h', ix' := h + [n], ix[n := |h|];
    forall m {:trigger ix'[m]} | 0 <= m < |ix'| && ix'[m] >= 0 ensures ix'[m] < |h'| && h'[ix'[m]] == m {}
  }

  /** A new last element is the only one that can be out of place. */
  lemma Appended(lt: Order, h: seq<nat>, ix: seq<int>, n: nat)
    requires StrictWeak(lt) && Ordered(lt, h) && Inverse(h, ix) && n < |ix| && n !in Elements(h)
    ensures Inverse(h + [n], ix[n := |h|]) && Except(lt, h + [n], |h|, 0) && ChildrenSit(lt, h + [n], |h|)
    ensures Elements(h + [n]) == Elements(h) + {n}
  {
    Append(h, ix, n);
    var h' := h + [n];
    forall j | 0 < j < |h'| ensures Parent(j) != |h| { Family(|h|, j); }
    forall j | 0 < j < |h'| && j != |h| ensures Sits(lt, h', j) {
      Family(0, j);
      assert Sits(lt, h, j);
    }
  }

  lemma OrderElsewhere(lt: Order, lt': Order, h: seq<nat>, n: nat)
    requires Ordered(lt, h) && OnlyMoves(lt, lt', n) && n !in Elements(h)
    ensures Ordered(lt', h)
  {
    assert forall i :: 0 <= i < |h| ==> h[i] in h;
    forall j | 0 < j < |h| ensures Sits(lt', h, j) {
      Family(0, j);
      assert Sits(lt, h, j);
    }
  }

  /** Removing the root: the last element in its place is the only one that can be out of place. */
  lemma LastToRoot(lt: Order, h: seq<nat>, ix: seq<int>)
    requires StrictWeak(lt) && Ordered(lt, h) && Inverse(h, ix) && h != []
    ensures var x, last := h[0], h[|h| - 1]; var h' := h[0 := last][..|h| - 1];
      && x < |ix| && last < |ix|
      && Inverse(h', ix[last := 0][x := -1]) && (h' != [] ==> Except(lt, h', 0, 0) && Sits(lt, h', 0))
      && Elements(h') == Elements(h) - {x}
  {
    var x, last, m := h[0], h[|h| - 1], |h| - 1;
    var h', ix' := h[0 := last][..m], ix[last := 0][x := -1];
    assert ix[x] == 0 && ix[last] == m;
    forall i {:trigger h'[i]} | 0 <= i < |h'| ensures h'[i] < |ix'| && ix'[h'[i]] == i { assert ix[h[i]] == i; }
    forall n {:trigger ix'[n]} | 0 <= n < |ix'| && ix'[n] >= 0 ensures ix'[n] < |h'| && h'[ix'[n]] == n {
      if n != last && n != x { assert h[ix[n]] == n; }
    }
    forall j | 0 < j < |h'| && Parent(j) != 0 ensures Sits(lt, h', j) {
      Family(0, j);
      assert Sits(lt, h, j);
    }
    WithoutRoot(h, ix);
  }

  lemma WithoutRoot(h: seq<nat>, ix: seq<int>)
    requires Inverse(h, ix) && h != []
    ensures Elements(h[0 := h[|h| - 1]][..|h| - 1]) == Elements(h) - {h[0]}
  {
    var m := |h| - 1;
    var h' := h[0 := h[m]][..m];
    forall y | y in h && y != h[0] ensures y in h' {
      var k :| 0 <= k < |h| && h[k] == y;
      if k == m { assert h'[0] == y; } else { assert h'[k] == y; }
    }
    forall y | y in h' ensures y in h && y != h[0] {
      var k :| 0 <= k < |h'| && h'[k] == y;
      assert y == h[if k == 0 then m else k];
      assert ix[h[0]] == 0 && ix[h[if k == 0 then m else k]] == if k == 0 then m else k;
    }
  }

  lemma Short(lt: Order, h: seq<nat>)
    requires |h| <= 1
    ensures Ordered(lt, h)
  {}

  /** No position in the upper half is a parent. */
  lemma LeavesSit(lt: Order, h: seq<nat>)
    ensures OrderedFrom(lt, h, |h| / 2)
  {
    forall j | 0 < j < |h| ensures Parent(j) < |h| / 2 { }
  }

  lemma OneMore(lt: Order, h: seq<nat>, i: int)
    requires 0 <= i < |h| && OrderedFrom(lt, h, i + 1)
    ensures Except(lt, h, i, i) && Parent(i) < i
  {
    Family(0, i);
  }
}
