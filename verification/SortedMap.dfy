/** The nonce-indexed map behind every account list (core/tx_list.go): the transactions by
    nonce, a heap of their nonces, and a cached flattening that survives some updates. */
module SortedMap {
  import opened Types
  import opened Nonces
  import Heap

  function NonceLess(x: nat, y: nat): bool { x < y }

  function TxNonceLess(x: Tx, y: Tx): bool { x.nonce < y.nonce }

  /** The heap's root is the lowest nonce when the index holds exactly the keys. */
  lemma RootIsLowest(items: map<nat, Tx>, index: seq<nat>)
    requires IndexOf(index, items)
    ensures |index| == |items|
    ensures index != [] ==> items != map[] && index[0] == Lowest(items)
  {
    assert |multiset(index)| == |index|;
    if index != [] {
      Heap.RootBelowAll(NonceLess, index);
      assert index[0] in multiset(index);
      assert index[0] in items;
      assert Lowest(items) in multiset(index);
      assert Lowest(items) in index;
    }
  }

  lemma ForwardStep(m: map<nat, Tx>, t: nat)
    requires m != map[] && Lowest(m) < t
    ensures AtLeast(Drop(m, Lowest(m)), t) == AtLeast(m, t)
    ensures Flatten(Below(m, t)) == [m[Lowest(m)]] + Flatten(Below(Drop(m, Lowest(m)), t))
    ensures |Drop(m, Lowest(m))| < |m|
  {
    assert Lowest(m) in Below(m, t);
    SplitStep(m, t);
    Uncons(Below(m, t));
    Uncons(m);
  }

  lemma SnocCat(a: seq<Tx>, x: Tx, b: seq<Tx>)
    ensures (a + [x]) + b == a + ([x] + b)
  {
  }

  /** The index is a min-heap holding each key of the map exactly once. */
  ghost predicate IndexOf(index: seq<nat>, items: map<nat, Tx>) {
    Heap.IsHeap(NonceLess, index) && multiset(index) == multiset(items.Keys)
  }

  lemma PutKeys(items: map<nat, Tx>, nonce: nat, tx: Tx)
    ensures multiset(items[nonce := tx].Keys) ==
        multiset(items.Keys) + if nonce in items then multiset{} else multiset{nonce}
  {
    assert items[nonce := tx].Keys == if nonce in items then items.Keys else items.Keys + {nonce};
  }

  /** Takes the root off the heap and its transaction out of the map. */
  method PopLowest(items: map<nat, Tx>, index: seq<nat>)
    returns (rest: map<nat, Tx>, heap: seq<nat>, tx: Tx)
    requires IndexOf(index, items) && items != map[]
    ensures IndexOf(heap, rest) && rest == Drop(items, Lowest(items)) && |rest| == |items| - 1
    ensures tx == items[Lowest(items)]
  {
    RootIsLowest(items, index);
    var nonce;
    heap, nonce := Heap.Pop(NonceLess, index);
    KeysAfterRemoval(items, heap, nonce);
    tx := items[nonce];
    rest := Drop(items, nonce);
  }

  lemma RunStep(m: map<nat, Tx>, n: nat)
    ensures AtLeast(m, n + 1) == Drop(AtLeast(m, n), n)
  {
  }

  lemma RunStart(m: map<nat, Tx>)
    requires m != map[]
    ensures AtLeast(m, Lowest(m)) == m
  {
    assert Below(m, Lowest(m)) == map[];
    NothingBelow(m, Lowest(m));
  }

  lemma CancelSuffix(a: seq<Tx>, b: seq<Tx>, c: seq<Tx>)
    requires a + c == b + c
    ensures a == b
  {
    assert a == (a + c)[..|a|] && b == (b + c)[..|b|];
  }

  lemma RunStops(m: map<nat, Tx>, n: nat)
    requires AtLeast(m, n) == map[] || Lowest(AtLeast(m, n)) != n
    ensures n !in m
  {
    assert n in m ==> n in AtLeast(m, n);
  }

  class TxSortedMap {
    var items: map<nat, Tx>
    var index: seq<nat>
    var cache: Option<seq<Tx>>

    ghost predicate Valid()
      reads this
    {
      && Keyed(items) && IndexOf(index, items)
      && (cache.Some? ==> cache.value == Flatten(items))
    }

    constructor ()
      ensures Valid() && items == map[]
    {
      items, index, cache := map[], [], None;
    }

    method Put(tx: Tx)
      requires Valid()
      modifies this
      ensures Valid() && items == old(items)[tx.nonce := tx]
    {
      var nonce := tx.nonce;
      PutKeys(items, nonce, tx);
      if nonce !in items {
        index := Heap.Push(NonceLess, index, nonce);
      }
      items, cache := items[nonce := tx], None;
    }

    /** Drops every nonce below the threshold, lowest first. */
    method Forward(threshold: nat) returns (removed: seq<Tx>)
      requires Valid()
      modifies this
      ensures Valid() && items == AtLeast(old(items), threshold)
      ensures removed == Flatten(Below(old(items), threshold))
    {
      items, index, removed := Advance(items, index, threshold);
      FlattenSplit(old(items), threshold);
      if cache.Some? {
        cache := Some(cache.value[|removed|..]);
      }
    }

    /** Removes and returns, in no particular order, every transaction `drop` holds of. */
    method Filter(drop: Tx -> bool) returns (removed: seq<Tx>)
      requires Valid()
      modifies this
      ensures Valid() && items == Without(old(items), drop)
      ensures multiset(removed) == multiset(TxSet(Only(old(items), drop)))
    {
      removed, items := FilterPass(items, drop);
      if |removed| > 0 {
        Reindex();
        cache := None;
      }
    }

    /** Rebuilds the nonce heap from the map's keys. */
    method Reindex()
      modifies this`index
      ensures IndexOf(index, items)
    {
      index := [];
      var todo := items.Keys;
      while todo != {}
        invariant todo <= items.Keys && multiset(index) == multiset(items.Keys - todo)
        decreases todo
      {
        var n :| n in todo;
        assert items.Keys - (todo - {n}) == (items.Keys - todo) + {n};
        todo := todo - {n};
        index := index + [n];
      }
      index := Heap.Init(NonceLess, index);
    }

    /** Keeps the `threshold` lowest nonces and returns the others, highest first. */
    method Cap(threshold: nat) returns (drops: seq<Tx>)
      requires Valid()
      modifies this
      ensures Valid() && items == Keep(old(items), threshold)
      ensures drops == Excess(old(items), threshold)
    {
      drops := [];
      if |items| <= threshold { return; }
      ghost var was := items;
      var kept, rest;
      kept, rest, drops := CutBack(items, index, threshold);
      rest := Heap.Init(NonceLess, rest);
      CutCache(was, threshold, kept, drops);
      if cache.Some? {
        cache := Some(cache.value[..|cache.value| - |drops|]);
      }
      items, index := kept, rest;
    }

    method Remove(nonce: nat) returns (found: bool)
      requires Valid()
      modifies this
      ensures Valid() && found == (nonce in old(items)) && items == Drop(old(items), nonce)
    {
      if nonce !in items {
        assert Drop(items, nonce) == items;
        return false;
      }
      assert nonce in multiset(index);
      var i := 0;
      while i < |index| && index[i] != nonce
        invariant 0 <= i <= |index| && nonce !in index[..i]
      { i := i + 1; }
      var x;
      index, x := Heap.Remove(NonceLess, index, i);
      KeysAfterRemoval(items, index, nonce);
      items := Drop(items, nonce);
      cache := None;
      found := true;
    }

    /** Takes out the run of consecutive nonces at the front, if it starts no later than `start`. */
    method Ready(start: nat) returns (ready: seq<Tx>)
      requires Valid()
      modifies this
      ensures Valid()
      ensures
        if old(items) == map[] || Lowest(old(items)) > start then ready == [] && items == old(items)
        else
          var e := RunEnd(old(items), Lowest(old(items)));
          ready == Flatten(Below(old(items), e)) && items == AtLeast(old(items), e)
    {
      RootIsLowest(items, index);
      ready := [];
      if |index| == 0 || index[0] > start {
        return;
      }
      items, index, ready := TakeRun(items, index);
      cache := None;
    }

    method FlattenCached() returns (txs: seq<Tx>)
      requires Valid()
      modifies this`cache
      ensures Valid() && txs == Flatten(items)
    {
      if cache.None? {
        var c := Collect(items);
        c := Heap.Sort(TxNonceLess, c);
        SortedIsFlatten(items, c);
        cache := Some(c);
      }
      txs := cache.value;
    }
  }

  /** The transactions of a map, in no particular order. */
  method Collect(items: map<nat, Tx>) returns (s: seq<Tx>)
    requires Keyed(items)
    ensures multiset(s) == multiset(TxSet(items))
  {
    s := [];
    var todo := items.Keys;
    while todo != {}
      invariant todo <= items.Keys && multiset(s) == multiset(Gone(items, todo))
      decreases todo
    {
      var n :| n in todo;
      GoneGrows(items, todo, n);
      todo := todo - {n};
      s := s + [items[n]];
    }
    assert Gone(items, {}) == TxSet(items);
  }

  /** Ready's loop: pops nonces while they follow each other. */
  method TakeRun(was: map<nat, Tx>, heap: seq<nat>)
    returns (items: map<nat, Tx>, index: seq<nat>, ready: seq<Tx>)
    requires was != map[]
    requires Keyed(was) && IndexOf(heap, was)
    ensures
      var e := RunEnd(was, Lowest(was));
      items == AtLeast(was, e) && ready == Flatten(Below(was, e))
    ensures IndexOf(index, items)
  {
    items, index, ready := was, heap, [];
    RootIsLowest(was, heap);
    var next := index[0];
    ghost var low := next;
    RunStart(was);
    while true
      invariant IndexOf(index, items)
      invariant low <= next && items == AtLeast(was, next) && ready + Flatten(items) == Flatten(was)
      invariant RunEnd(was, low) == RunEnd(was, next)
      decreases |items|
    {
      RootIsLowest(items, index);
      if |index| == 0 || index[0] != next { break; }
      RunStep(was, next);
      Uncons(items);
      var tx;
      items, index, tx := PopLowest(items, index);
      ready := ready + [tx];
      next := next + 1;
    }
    RunStops(was, next);
    FlattenSplit(was, next);
    CancelSuffix(ready, Flatten(Below(was, next)), Flatten(items));
  }

  /** Cap's loop: sorts the nonces and deletes from the back. */
  method CutBack(was: map<nat, Tx>, heap: seq<nat>, threshold: nat)
    returns (items: map<nat, Tx>, index: seq<nat>, drops: seq<Tx>)
    requires multiset(heap) == multiset(was.Keys) && threshold < |was|
    ensures items == Keep(was, threshold) && multiset(index) == multiset(items.Keys)
    ensures drops == Excess(was, threshold)
  {
    items, drops := was, [];
    index := Heap.Sort(NonceLess, heap);
    assert |multiset(index)| == |index|;
    assert [] + Excess(was, threshold) == Excess(was, threshold);
    while |items| > threshold
      invariant threshold <= |items| && Cutting(was, items, index, drops, threshold)
      decreases |items|
    {
      var size := |items|;
      var nonce := index[size - 1];
      CutStep(was, items, index, drops, threshold);
      drops := drops + [items[nonce]];
      items := Drop(items, nonce);
      index := index[..size - 1];
    }
    assert drops + [] == drops;
  }

  /** Cap's loop so far: the sorted index lists what is left, and what is still to be cut completes
      what was cut. */
  ghost predicate Cutting(was: map<nat, Tx>, items: map<nat, Tx>, index: seq<nat>, drops: seq<Tx>, threshold: nat) {
    && |items| == |index| && multiset(index) == multiset(items.Keys)
    && (forall i, j :: 0 <= i < j < |index| ==> index[i] <= index[j])
    && Keep(items, threshold) == Keep(was, threshold)
    && drops + Excess(items, threshold) == Excess(was, threshold)
  }

  lemma CutStep(was: map<nat, Tx>, items: map<nat, Tx>, index: seq<nat>, drops: seq<Tx>, threshold: nat)
    requires |items| > threshold && Cutting(was, items, index, drops, threshold)
    ensures
      var nonce := index[|items| - 1];
      nonce in items && |Drop(items, nonce)| == |items| - 1 &&
      Cutting(was, Drop(items, nonce), index[..|items| - 1], drops + [items[nonce]], threshold)
  {
    var nonce := index[|items| - 1];
    LastIsHighest(items, index);
    KeysAfterRemoval(items, index[..|items| - 1], nonce);
    assert (drops + [items[nonce]]) + Excess(Drop(items, nonce), threshold)
        == drops + ([items[nonce]] + Excess(Drop(items, nonce), threshold));
  }

  lemma LastIsHighest(items: map<nat, Tx>, index: seq<nat>)
    requires multiset(index) == multiset(items.Keys) && |index| > 0
    requires forall i, j :: 0 <= i < j < |index| ==> index[i] <= index[j]
    ensures items != map[] && index[|index| - 1] == Highest(items)
    ensures multiset(items.Keys) == multiset(index[..|index| - 1]) + multiset{Highest(items)}
  {
    var n := |index| - 1;
    assert index[n] in multiset(index);
    assert Highest(items) in multiset(index);
    assert index == index[..n] + [index[n]];
  }

  lemma CutCache(was: map<nat, Tx>, threshold: nat, kept: map<nat, Tx>, drops: seq<Tx>)
    requires Keyed(was) && kept == Keep(was, threshold) && drops == Excess(was, threshold)
    ensures Keyed(kept) && |drops| <= |Flatten(was)| && Flatten(kept) == Flatten(was)[..|Flatten(was)| - |drops|]
  {
    KeepFlat(was, threshold);
    KeepKeyed(was, threshold);
  }

  /** Forward's loop: pops nonces until the threshold is reached. */
  method Advance(was: map<nat, Tx>, heap: seq<nat>, threshold: nat)
    returns (items: map<nat, Tx>, index: seq<nat>, removed: seq<Tx>)
    requires Keyed(was) && IndexOf(heap, was)
    ensures items == AtLeast(was, threshold) && removed == Flatten(Below(was, threshold))
    ensures IndexOf(index, items)
  {
    items, index, removed := was, heap, [];
    while true
      invariant IndexOf(index, items)
      invariant AtLeast(items, threshold) == AtLeast(was, threshold)
      invariant removed + Flatten(Below(items, threshold)) == Flatten(Below(was, threshold))
      decreases |items|
    {
      RootIsLowest(items, index);
      if |index| == 0 || index[0] >= threshold { break; }
      ForwardStep(items, threshold);
      SnocCat(removed, items[Lowest(items)], Flatten(Below(Drop(items, Lowest(items)), threshold)));
      var tx;
      items, index, tx := PopLowest(items, index);
      removed := removed + [tx];
    }
    assert Below(items, threshold) == map[];
    NothingBelow(items, threshold);
  }

  /** Filter's pass over the map: deletes what `drop` holds of. */
  method FilterPass(was: map<nat, Tx>, drop: Tx -> bool) returns (removed: seq<Tx>, items: map<nat, Tx>)
    requires Keyed(was)
    ensures items == Without(was, drop) && multiset(removed) == multiset(TxSet(Only(was, drop)))
    ensures removed == [] ==> items == was
  {
    removed, items := [], was;
    var todo := was.Keys;
    while todo != {}
      invariant Filtering(was, drop, items, todo)
      invariant multiset(removed) == multiset(Gone(was, items.Keys))
      invariant removed == [] ==> items == was
      decreases todo
    {
      var n :| n in todo;
      FilteringStep(was, drop, items, todo, n);
      todo := todo - {n};
      if drop(items[n]) {
        removed := removed + [items[n]];
        GoneGrows(was, items.Keys, n);
        items := Drop(items, n);
      }
    }
    GoneIs(was, items.Keys, drop);
  }

  /** Midway through the pass: what is left of `was` with the nonces in `todo` not looked at yet. */
  ghost predicate Filtering(was: map<nat, Tx>, drop: Tx -> bool, items: map<nat, Tx>, todo: set<nat>) {
    && todo <= items.Keys <= was.Keys
    && (forall n :: n in items ==> items[n] == was[n])
    && (forall n :: n in items && n !in todo ==> !drop(was[n]))
    && (forall n :: n in was && n !in items ==> drop(was[n]))
  }

  lemma FilteringStep(was: map<nat, Tx>, drop: Tx -> bool, items: map<nat, Tx>, todo: set<nat>, n: nat)
    requires Filtering(was, drop, items, todo) && n in todo
    ensures items[n] == was[n] && n in items && n in was
    ensures Filtering(was, drop, if drop(items[n]) then Drop(items, n) else items, todo - {n})
    ensures Drop(items, n).Keys == items.Keys - {n}
  {
  }

  /** The transactions of `was` whose nonces are no longer among `kept`. */
  ghost function Gone(was: map<nat, Tx>, kept: set<nat>): set<Tx> {
    set n | n in was && n !in kept :: was[n]
  }

  lemma GoneGrows(was: map<nat, Tx>, kept: set<nat>, n: nat)
    requires Keyed(was) && n in was && n in kept
    ensures multiset(Gone(was, kept - {n})) == multiset(Gone(was, kept)) + multiset{was[n]}
  {
    assert Gone(was, kept - {n}) == Gone(was, kept) + {was[n]};
    assert was[n] !in Gone(was, kept);
  }

  lemma GoneIs(was: map<nat, Tx>, kept: set<nat>, drop: Tx -> bool)
    requires kept == Without(was, drop).Keys
    ensures Gone(was, kept) == TxSet(Only(was, drop))
  {
    forall tx | tx in TxSet(Only(was, drop)) ensures tx in Gone(was, kept) {
      var n :| n in Only(was, drop) && was[n] == tx;
    }
    forall tx | tx in Gone(was, kept) ensures tx in TxSet(Only(was, drop)) {
      var n :| n in was && n !in kept && was[n] == tx;
      assert n in Only(was, drop);
    }
  }
}
