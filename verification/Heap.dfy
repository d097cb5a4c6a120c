/** The binary heap of Go's container/heap, which every priority structure of the node
    (nonce heap, price heap, price/nonce iterator) keeps in a slice. A slice is a `seq`
    that each operation replaces; `less` is the slice's own Less method. */
module Heap {

  /** What container/heap asks of Less: a strict weak order. */
  ghost predicate StrictWeakOrder<T(!new)>(less: (T, T) -> bool) {
    && (forall x :: !less(x, x))
    && (forall x, y, z :: less(x, y) && less(y, z) ==> less(x, z))
    && (forall x, y, z :: !less(x, y) && !less(y, z) ==> !less(x, z))
  }

  function Parent(i: int): int { (i - 1) / 2 }

  /** Entry `k` does not come before its parent. */
  ghost predicate Ok<T>(less: (T, T) -> bool, h: seq<T>, k: int)
    requires 0 < k < |h|
  {
    !less(h[k], h[Parent(k)])
  }

  ghost predicate IsHeap<T>(less: (T, T) -> bool, h: seq<T>) {
    forall k :: 0 < k < |h| ==> Ok(less, h, k)
  }

  /** Every entry below `n` whose parent is at or after `lo` is in order, except `hole` and its children. */
  ghost predicate OkAround<T>(less: (T, T) -> bool, h: seq<T>, n: int, lo: int, hole: int)
    requires n <= |h|
  {
    forall k :: 0 < k < n && Parent(k) >= lo && Parent(k) != hole && k != hole ==> Ok(less, h, k)
  }

  /** The children of `hole` do not come before its parent. */
  ghost predicate Bridged<T>(less: (T, T) -> bool, h: seq<T>, n: int, lo: int, hole: int)
    requires n <= |h|
  {
    hole > 0 && Parent(hole) >= lo ==>
      forall k :: 0 < k < n && Parent(k) == hole ==> 0 <= Parent(hole) < |h| && !less(h[k], h[Parent(hole)])
  }

  function Swap<T>(h: seq<T>, i: int, j: int): (r: seq<T>)
    requires 0 <= i < |h| && 0 <= j < |h|
    ensures |r| == |h| && multiset(r) == multiset(h)
  {
    h[i := h[j]][j := h[i]]
  }

  /** No element of a heap comes before its root. */
  lemma {:induction false} RootIsMinimal<T(!new)>(less: (T, T) -> bool, h: seq<T>, k: int)
    requires StrictWeakOrder(less) && IsHeap(less, h) && 0 <= k < |h|
    ensures !less(h[k], h[0])
    decreases k
  {
    if k > 0 {
      RootIsMinimal(less, h, Parent(k));
      assert Ok(less, h, k);
    }
  }

  lemma RootBelowAll<T(!new)>(less: (T, T) -> bool, h: seq<T>)
    requires StrictWeakOrder(less) && IsHeap(less, h) && |h| > 0
    ensures forall x :: x in h ==> !less(x, h[0])
  {
    forall x | x in h ensures !less(x, h[0]) {
      var k :| 0 <= k < |h| && h[k] == x;
      RootIsMinimal(less, h, k);
    }
  }

  method Up<T(!new)>(less: (T, T) -> bool, h0: seq<T>, j0: int) returns (h: seq<T>)
    requires StrictWeakOrder(less) && 0 <= j0 < |h0|
    requires OkAround(less, h0, |h0|, 0, j0) && Bridged(less, h0, |h0|, 0, j0)
    requires forall k :: 0 < k < |h0| && Parent(k) == j0 ==> Ok(less, h0, k)
    ensures IsHeap(less, h) && |h| == |h0| && multiset(h) == multiset(h0)
  {
    h := h0;
    var j := j0;
    while true
      invariant 0 <= j < |h| == |h0|
      invariant multiset(h) == multiset(h0)
      invariant OkAround(less, h, |h|, 0, j) && Bridged(less, h, |h|, 0, j)
      invariant forall k :: 0 < k < |h| && Parent(k) == j ==> Ok(less, h, k)
      decreases j
    {
      var i := if j == 0 then 0 else Parent(j);
      if i == j || !less(h[j], h[i]) { break; }
      ghost var before := h;
      h := Swap(h, i, j);
      UpStep(less, before, h, i, j);
      j := i;
    }
  }

  lemma UpStep<T(!new)>(less: (T, T) -> bool, before: seq<T>, h: seq<T>, i: int, j: int)
    requires StrictWeakOrder(less) && 0 < j < |before| && i == Parent(j) && h == Swap(before, i, j)
    requires less(before[j], before[i])
    requires OkAround(less, before, |before|, 0, j) && Bridged(less, before, |before|, 0, j)
    requires forall k :: 0 < k < |before| && Parent(k) == j ==> Ok(less, before, k)
    ensures OkAround(less, h, |h|, 0, i) && Bridged(less, h, |h|, 0, i)
    ensures forall k :: 0 < k < |h| && Parent(k) == i ==> Ok(less, h, k)
  {
    forall k | 0 < k < |h| && k != i ensures Ok(less, h, k) {
      if Parent(k) == i && k != j { assert Ok(less, before, k); }
      if Parent(k) != i && Parent(k) != j { assert Ok(less, before, k); }
    }
    if i > 0 {
      assert Ok(less, before, i);
      forall k | 0 < k < |h| && Parent(k) == i ensures !less(h[k], h[Parent(i)]) {
        if k != j { assert Ok(less, before, k); }
      }
    }
  }

  /** The right child of `i` if it comes before the left one, otherwise the left one. */
  function LesserChild<T>(less: (T, T) -> bool, h: seq<T>, i: int, n: int): (j: int)
    requires 0 <= i && 2 * i + 1 < n <= |h|
    ensures i < j < n && Parent(j) == i
  {
    var j1 := 2 * i + 1;
    if j1 + 1 < n && less(h[j1 + 1], h[j1]) then j1 + 1 else j1
  }

  /** What sinking an entry from `i0` keeps once it has reached `i`. */
  ghost predicate Sinking<T>(less: (T, T) -> bool, h: seq<T>, i0: int, i: int, n: int, lo: int)
    requires 0 <= i0 && n <= |h|
  {
    && (i > i0 ==> i < n && Parent(i) >= i0 && Ok(less, h, i))
    && (i > i0 > 0 && Parent(i0) >= lo ==> Ok(less, h, i0))
    && (forall k :: 0 < k < n && Parent(k) >= lo && Parent(k) != i && k != i0 ==> Ok(less, h, k))
    && Bridged(less, h, n, lo, i)
  }

  /** Sinks entry `i0` among the first `n`. It may leave `i0` before its parent only when it did not move. */
  method Down<T(!new)>(less: (T, T) -> bool, h0: seq<T>, i0: int, n: int, ghost lo: int)
    returns (h: seq<T>, moved: bool)
    requires StrictWeakOrder(less) && 0 <= lo <= i0 && 0 <= n <= |h0|
    requires OkAround(less, h0, n, lo, i0) && Bridged(less, h0, n, lo, i0)
    ensures |h| == |h0| && multiset(h) == multiset(h0) && h[n..] == h0[n..]
    ensures forall k :: 0 < k < n && Parent(k) >= lo && k != i0 ==> Ok(less, h, k)
    ensures moved ==> i0 < n && (i0 > 0 && Parent(i0) >= lo ==> Ok(less, h, i0))
    ensures !moved ==> h == h0
  {
    h := h0;
    var i := i0;
    while true
      invariant i0 <= i && |h| == |h0| && multiset(h) == multiset(h0) && h[n..] == h0[n..]
      invariant i == i0 ==> h == h0
      invariant i > i0 ==> i < n
      invariant Sinking(less, h, i0, i, n, lo)
      decreases n - i
    {
      var j1 := 2 * i + 1;
      if j1 >= n {
        Settled(less, h, i0, i, j1, n, lo);
        break;
      }
      var j := LesserChild(less, h, i, n);
      if !less(h[j], h[i]) {
        Settled(less, h, i0, i, j, n, lo);
        break;
      }
      SinkStep(less, h, i0, i, j, n, lo);
      h := Swap(h, i, j);
      i := j;
    }
    moved := i > i0;
  }

  /** Where the sinking stops, nothing is out of place any more. */
  lemma Settled<T(!new)>(less: (T, T) -> bool, h: seq<T>, i0: int, i: int, j: int, n: int, lo: int)
    requires StrictWeakOrder(less) && 0 <= i0 <= i && n <= |h| && Sinking(less, h, i0, i, n, lo)
    requires 2 * i + 1 < n ==> j == LesserChild(less, h, i, n) && !less(h[j], h[i])
    ensures forall k :: 0 < k < n && Parent(k) >= lo && k != i0 ==> Ok(less, h, k)
  {
    LeastChild(less, h, i, n);
    forall k | 0 < k < n && Parent(k) >= lo && k != i0 ensures Ok(less, h, k) { }
  }

  /** If the lesser of the two children of `i` does not come before it, neither child does. */
  lemma LeastChild<T(!new)>(less: (T, T) -> bool, h: seq<T>, i: int, n: int)
    requires StrictWeakOrder(less) && 0 <= i && n <= |h|
    requires 2 * i + 1 < n ==> !less(h[LesserChild(less, h, i, n)], h[i])
    ensures forall k :: 0 < k < n && Parent(k) == i ==> Ok(less, h, k)
  {
    forall k | 0 < k < n && Parent(k) == i ensures Ok(less, h, k) {
      assert k == 2 * i + 1 || k == 2 * i + 2;
    }
  }

  lemma SinkStep<T(!new)>(less: (T, T) -> bool, h: seq<T>, i0: int, i: int, j: int, n: int, lo: int)
    requires StrictWeakOrder(less) && 0 <= lo <= i0 <= i < n <= |h| && 2 * i + 1 < n && j == LesserChild(less, h, i, n)
    requires less(h[j], h[i]) && Sinking(less, h, i0, i, n, lo)
    ensures Sinking(less, Swap(h, i, j), i0, j, n, lo)
    ensures Swap(h, i, j)[n..] == h[n..]
  {
    var r := Swap(h, i, j);
    SinkChildren(less, h, r, i, j, n);
    SinkOthers(less, h, r, i0, i, j, n, lo);
    assert Parent(j) == i;
    forall k | 0 < k < n && Parent(k) == j ensures !less(r[k], r[Parent(j)]) {
      assert Ok(less, h, k);
    }
  }

  /** The lesser child swapped up comes after neither child. */
  lemma SinkChildren<T(!new)>(less: (T, T) -> bool, h: seq<T>, r: seq<T>, i: int, j: int, n: int)
    requires StrictWeakOrder(less) && 0 <= i < n <= |h| && 2 * i + 1 < n && j == LesserChild(less, h, i, n)
    requires less(h[j], h[i]) && r == Swap(h, i, j)
    ensures forall k :: 0 < k < n && Parent(k) == i ==> Ok(less, r, k)
  {
    forall k | 0 < k < n && Parent(k) == i ensures Ok(less, r, k) {
      assert k == 2 * i + 1 || k == 2 * i + 2;
    }
  }

  lemma SinkOthers<T(!new)>(less: (T, T) -> bool, h: seq<T>, r: seq<T>, i0: int, i: int, j: int, n: int, lo: int)
    requires StrictWeakOrder(less) && 0 <= lo <= i0 <= i < j < n <= |h| && Parent(j) == i && r == Swap(h, i, j)
    requires less(h[j], h[i]) && Sinking(less, h, i0, i, n, lo)
    requires forall k :: 0 < k < n && Parent(k) == i ==> Ok(less, r, k)
    ensures forall k :: 0 < k < n && Parent(k) >= lo && Parent(k) != j && k != i0 ==> Ok(less, r, k)
  {
    forall k | 0 < k < n && Parent(k) >= lo && Parent(k) != j && Parent(k) != i && k != i0 ensures Ok(less, r, k) {
      assert Ok(less, h, k);
    }
  }

  method Init<T(!new)>(less: (T, T) -> bool, h0: seq<T>) returns (h: seq<T>)
    requires StrictWeakOrder(less)
    ensures IsHeap(less, h) && |h| == |h0| && multiset(h) == multiset(h0)
  {
    h := h0;
    var i := |h| / 2 - 1;
    while i >= 0
      invariant -1 <= i < |h| == |h0| || (i == -1 && |h| == |h0|)
      invariant multiset(h) == multiset(h0)
      invariant forall k :: 0 < k < |h| && Parent(k) > i ==> Ok(less, h, k)
    {
      var moved;
      h, moved := Down(less, h, i, |h|, i);
      i := i - 1;
    }
  }

  method Push<T(!new)>(less: (T, T) -> bool, h0: seq<T>, x: T) returns (h: seq<T>)
    requires StrictWeakOrder(less) && IsHeap(less, h0)
    ensures IsHeap(less, h) && |h| == |h0| + 1 && multiset(h) == multiset(h0) + multiset{x}
  {
    h := h0 + [x];
    assert forall k :: 0 < k < |h0| ==> Ok(less, h0, k) ==> Ok(less, h, k);
    h := Up(less, h, |h| - 1);
  }

  /** Removes and returns an element that no other comes before. */
  method Pop<T(!new)>(less: (T, T) -> bool, h0: seq<T>) returns (h: seq<T>, x: T)
    requires StrictWeakOrder(less) && IsHeap(less, h0) && |h0| > 0
    ensures IsHeap(less, h) && |h| == |h0| - 1 && multiset(h0) == multiset(h) + multiset{x}
    ensures x == h0[0] && (forall y :: y in h0 ==> !less(y, x))
  {
    RootBelowAll(less, h0);
    var n := |h0| - 1;
    h := Swap(h0, 0, n);
    forall k | 0 < k < n && Parent(k) != 0 ensures Ok(less, h, k) { assert Ok(less, h0, k); }
    var moved;
    h, moved := Down(less, h, 0, n, 0);
    assert h[n..] == [h0[0]];
    assert h == h[..n] + [h[n]];
    x := h[n];
    forall k | 0 < k < n ensures Ok(less, h[..n], k) { assert Ok(less, h, k); }
    h := h[..n];
  }

  /** Restores the heap after entry `i` was overwritten. */
  method Fix<T(!new)>(less: (T, T) -> bool, h0: seq<T>, i: int) returns (h: seq<T>)
    requires StrictWeakOrder(less) && 0 <= i < |h0|
    requires OkAround(less, h0, |h0|, 0, i) && Bridged(less, h0, |h0|, 0, i)
    ensures IsHeap(less, h) && |h| == |h0| && multiset(h) == multiset(h0)
  {
    var moved;
    h, moved := Down(less, h0, i, |h0|, 0);
    if !moved { h := Up(less, h, i); }
  }

  /** Overwriting any entry of a heap leaves what Fix needs. */
  lemma OverwriteIsFixable<T(!new)>(less: (T, T) -> bool, h: seq<T>, i: int, x: T)
    requires StrictWeakOrder(less) && IsHeap(less, h) && 0 <= i < |h|
    ensures OkAround(less, h[i := x], |h|, 0, i) && Bridged(less, h[i := x], |h|, 0, i)
  {
    var r := h[i := x];
    forall k | 0 < k < |h| && Parent(k) != i && k != i ensures Ok(less, r, k) { assert Ok(less, h, k); }
    if i > 0 {
      assert Ok(less, h, i);
      forall k | 0 < k < |h| && Parent(k) == i ensures !less(r[k], r[Parent(i)]) { assert Ok(less, h, k); }
    }
  }

  method Remove<T(!new)>(less: (T, T) -> bool, h0: seq<T>, i: int) returns (h: seq<T>, x: T)
    requires StrictWeakOrder(less) && IsHeap(less, h0) && 0 <= i < |h0|
    ensures IsHeap(less, h) && |h| == |h0| - 1
    ensures x == h0[i] && multiset(h0) == multiset(h) + multiset{x}
  {
    var n := |h0| - 1;
    assert h0 == h0[..n] + [h0[n]];
    forall k | 0 < k < n ensures Ok(less, h0[..n], k) { assert Ok(less, h0, k); }
    x := h0[i];
    h := h0[..n];
    if n != i {
      OverwriteIsFixable(less, h, i, h0[n]);
      h := h[i := h0[n]];
      h := Fix(less, h, i);
    }
  }

  /** Go's sort.Sort, as far as its callers can tell. */
  method Sort<T(!new)>(less: (T, T) -> bool, s: seq<T>) returns (r: seq<T>)
    requires StrictWeakOrder(less)
    ensures multiset(r) == multiset(s) && |r| == |s|
    ensures forall i, j :: 0 <= i < j < |r| ==> !less(r[j], r[i])
  {
    var h := Init(less, s);
    r := [];
    while h != []
      invariant IsHeap(less, h) && multiset(r) + multiset(h) == multiset(s) && |r| + |h| == |s|
      invariant forall i, j :: 0 <= i < j < |r| ==> !less(r[j], r[i])
      invariant forall i, y :: 0 <= i < |r| && y in h ==> !less(y, r[i])
      decreases |h|
    {
      var x;
      ghost var before := h;
      h, x := Pop(less, h);
      assert x in before;
      forall y | y in h ensures y in before { assert y in multiset(h); assert y in multiset(before); }
      r := r + [x];
    }
  }
}
