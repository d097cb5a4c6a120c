/** An account's transaction list (core/tx_list.go) as a value: what each operation makes of it.
    The class `Lists.List` below carries the operations out on a heap-indexed map. */
module Lists {
  import opened Types
  import opened Nonces
  import opened SortedMap

  datatype TxList = TxList(strict: bool, items: map<nat, Tx>, costcap: int, gascap: nat)

  function NewList(strict: bool): TxList { TxList(strict, map[], 0, 0) }

  /** The caps bound every transaction in the list. */
  ghost predicate Capped(l: TxList) {
    forall n :: n in l.items ==> l.items[n].Cost() <= l.costcap && l.items[n].gas <= l.gascap
  }

  /** Lists of one kind, each within its caps. */
  ghost predicate AllCapped(lists: map<Address, TxList>, strict: bool) {
    forall a :: a in lists ==> lists[a].strict == strict && Capped(lists[a])
  }

  /** A transaction enters unless its nonce is taken by one it does not outbid by the price bump. */
  predicate Accepts(items: map<nat, Tx>, tx: Tx, priceBump: nat) {
    tx.nonce in items ==>
      var cur := items[tx.nonce];
      cur.price < tx.price && cur.price * (100 + priceBump) / 100 <= tx.price
  }

  /** Outbidding, without the division: a higher price, and no more than rounding short of the bump. */
  lemma AcceptsIff(items: map<nat, Tx>, tx: Tx, priceBump: nat)
    ensures Accepts(items, tx, priceBump) <==>
      (tx.nonce in items ==>
         && tx.price > items[tx.nonce].price
         && 100 * (tx.price + 1) > items[tx.nonce].price * (100 + priceBump))
  {
    if tx.nonce in items {
      Rounded(items[tx.nonce].price * (100 + priceBump), tx.price);
    }
  }

  lemma Rounded(x: int, y: int)
    ensures x / 100 <= y <==> x < 100 * (y + 1)
  {
  }

  function Insert(l: TxList, tx: Tx): TxList {
    TxList(l.strict, l.items[tx.nonce := tx],
           if l.costcap < tx.Cost() then tx.Cost() else l.costcap,
           if l.gascap < tx.gas then tx.gas else l.gascap)
  }

  predicate Unpayable(tx: Tx, costLimit: int, gasLimit: nat) { tx.Cost() > costLimit || tx.gas > gasLimit }

  function UnpayableBy(costLimit: int, gasLimit: nat): Tx -> bool { (tx: Tx) => Unpayable(tx, costLimit, gasLimit) }

  function NonceAbove(x: nat): Tx -> bool { (tx: Tx) => tx.nonce > x }

  datatype Sifted = Sifted(kept: map<nat, Tx>, removed: map<nat, Tx>, invalids: map<nat, Tx>)

  /** The full scan that Filter's short circuit stands for: the unpayable transactions go, and in a
      strict list so does everything after the first of them. */
  function Scan(strict: bool, items: map<nat, Tx>, costLimit: int, gasLimit: nat): Sifted {
    var p := UnpayableBy(costLimit, gasLimit);
    var removed, kept := Only(items, p), Without(items, p);
    if strict && removed != map[] then
      Sifted(Below(kept, Lowest(removed)), removed, AtLeast(kept, Lowest(removed) + 1))
    else
      Sifted(kept, removed, map[])
  }

  /** The list Filter leaves: the scan's, with the caps lowered to the limits unless both already are below. */
  function Filtered(l: TxList, costLimit: int, gasLimit: nat): TxList {
    var kept := Scan(l.strict, l.items, costLimit, gasLimit).kept;
    if l.costcap <= costLimit && l.gascap <= gasLimit then l.(items := kept)
    else TxList(l.strict, kept, costLimit, gasLimit)
  }

  /** Removing a nonce from a strict list invalidates the ones above it. */
  function RemoveNonce(strict: bool, items: map<nat, Tx>, nonce: nat): Sifted
    requires nonce in items
  {
    var rest := Drop(items, nonce);
    if strict then Sifted(Below(rest, nonce), map[nonce := items[nonce]], AtLeast(rest, nonce + 1))
    else Sifted(rest, map[nonce := items[nonce]], map[])
  }

  /** Nonces from `a` up to but not including `b`. */
  ghost predicate Interval(m: map<nat, Tx>, a: nat, b: nat) {
    forall n :: n in m <==> a <= n < b
  }

  /** Three maps that are the parts of a fourth. */
  ghost predicate Parts(whole: map<nat, Tx>, a: map<nat, Tx>, b: map<nat, Tx>, c: map<nat, Tx>) {
    && a.Keys !! b.Keys !! c.Keys
    && whole == a + b + c
  }

  /** With caps that bound the list, the short circuit changes nothing. */
  lemma ShortCircuit(l: TxList, costLimit: int, gasLimit: nat)
    requires Capped(l) && l.costcap <= costLimit && l.gascap <= gasLimit
    ensures Scan(l.strict, l.items, costLimit, gasLimit) == Sifted(l.items, map[], map[])
    ensures Filtered(l, costLimit, gasLimit) == l
  {
    var p := UnpayableBy(costLimit, gasLimit);
    assert Only(l.items, p) == map[];
    assert Without(l.items, p) == l.items;
  }

  /** Kept, removed and invalidated transactions are the old contents; the removed ones are exactly the
      unpayable ones; nothing kept in a strict list lies above something that is not. */
  lemma ScanSound(strict: bool, items: map<nat, Tx>, costLimit: int, gasLimit: nat)
    ensures
      var r := Scan(strict, items, costLimit, gasLimit);
      && Parts(items, r.kept, r.removed, r.invalids)
      && (forall n :: n in r.removed <==> n in items && (items[n].Cost() > costLimit || items[n].gas > gasLimit))
      && (forall n, k :: strict && n in r.kept && k in items && k !in r.kept ==> n < k)
      && (r.invalids != map[] ==> strict && r.removed != map[])
      && (!strict ==> r.invalids == map[])
      && (r.removed == map[] ==> r.kept == items)
  {
  }

  /** The caps still bound what Filter leaves. */
  lemma FilteredCapped(l: TxList, costLimit: int, gasLimit: nat)
    requires Capped(l)
    ensures Capped(Filtered(l, costLimit, gasLimit))
    ensures l.costcap <= costLimit && l.gascap <= gasLimit ==>
              && Filtered(l, costLimit, gasLimit) == l
              && Scan(l.strict, l.items, costLimit, gasLimit) == Sifted(l.items, map[], map[])
  {
    if l.costcap <= costLimit && l.gascap <= gasLimit {
      ShortCircuit(l, costLimit, gasLimit);
    }
  }

  lemma StrictPrefix(items: map<nat, Tx>, costLimit: int, gasLimit: nat, a: nat, b: nat)
    requires a <= b && Interval(items, a, b)
    ensures
      var r := Scan(true, items, costLimit, gasLimit);
      Interval(r.kept, a, if r.removed == map[] then b else Lowest(r.removed))
  {
    var p := UnpayableBy(costLimit, gasLimit);
    var removed, kept := Only(items, p), Without(items, p);
    if removed == map[] {
      forall n | n in items ensures n in kept { assert n in removed || n in kept; }
    } else {
      var c := Lowest(removed);
      assert c in items;
      forall n | a <= n < c ensures n in kept { assert n in items; assert n !in removed; }
    }
  }

  lemma RemovePrefix(items: map<nat, Tx>, nonce: nat, a: nat, b: nat)
    requires nonce in items && Interval(items, a, b)
    ensures Interval(RemoveNonce(true, items, nonce).kept, a, nonce)
    ensures Interval(RemoveNonce(true, items, nonce).invalids, nonce + 1, b)
  {
  }

  lemma RemoveSound(strict: bool, items: map<nat, Tx>, nonce: nat)
    requires nonce in items
    ensures
      var r := RemoveNonce(strict, items, nonce);
      Parts(items, r.kept, r.removed, r.invalids) && r.removed.Keys == {nonce}
  {
  }

  lemma {:induction false} KeepPrefix(m: map<nat, Tx>, k: nat, a: nat, b: nat)
    requires a <= b && Interval(m, a, b)
    ensures Interval(Keep(m, k), a, if b - a <= k then b else a + k)
    decreases |m|
  {
    IntervalSize(m, a, b);
    if |m| > k {
      var h := Highest(m);
      assert b - 1 in m;
      DropSize(m, h);
      KeepPrefix(Drop(m, h), k, a, b - 1);
    }
  }

  lemma {:induction false} IntervalSize(m: map<nat, Tx>, a: nat, b: nat)
    requires a <= b && Interval(m, a, b)
    ensures |m| == b - a
    decreases b - a
  {
    if a < b {
      DropSize(m, b - 1);
      IntervalSize(Drop(m, b - 1), a, b - 1);
    } else {
      assert m == map[];
    }
  }

  /** Dropping every nonce above `x`, as a filter. */
  lemma AboveFilter(m: map<nat, Tx>, x: nat)
    requires Keyed(m) && x !in m
    ensures Without(m, NonceAbove(x)) == Below(m, x)
    ensures Only(m, NonceAbove(x)) == AtLeast(m, x + 1)
  {
  }

  lemma InMultiset(s: seq<Tx>, contents: set<Tx>)
    requires multiset(s) == multiset(contents)
    ensures forall tx :: tx in s <==> tx in contents
  {
    forall tx ensures tx in s <==> tx in contents {
      assert tx in s <==> tx in multiset(s);
    }
  }

  lemma EmptyContents(s: seq<Tx>, m: map<nat, Tx>)
    requires multiset(s) == multiset(TxSet(m))
    ensures s == [] <==> m == map[]
  {
    InMultiset(s, TxSet(m));
    if m != map[] {
      var n :| n in m;
      assert m[n] in TxSet(m);
    }
    if s != [] {
      assert s[0] in TxSet(m);
    }
  }

  method LowestNonce(txs: seq<Tx>, ghost m: map<nat, Tx>) returns (lowest: nat)
    requires txs != [] && Keyed(m) && multiset(txs) == multiset(TxSet(m))
    ensures m != map[] && lowest == Lowest(m)
  {
    InMultiset(txs, TxSet(m));
    lowest := txs[0].nonce;
    for i := 0 to |txs|
      invariant exists j :: 0 <= j < |txs| && txs[j].nonce == lowest
      invariant forall j :: 0 <= j < i ==> lowest <= txs[j].nonce
    {
      if lowest > txs[i].nonce { lowest := txs[i].nonce; }
    }
    assert txs[0] in TxSet(m);
    assert m[Lowest(m)] in TxSet(m);
    assert m[Lowest(m)] in txs;
    var j :| 0 <= j < |txs| && txs[j].nonce == lowest;
    assert txs[j] in TxSet(m);
  }

  class List {
    const strict: bool
    const txs: TxSortedMap
    var costcap: int
    var gascap: nat

    ghost function Model(): TxList
      reads this, txs
    {
      TxList(strict, txs.items, costcap, gascap)
    }

    ghost predicate Valid()
      reads this, txs
    {
      txs.Valid() && Capped(Model())
    }

    constructor (strict: bool)
      ensures Valid() && fresh(txs) && Model() == NewList(strict)
    {
      this.strict := strict;
      txs := new TxSortedMap();
      costcap, gascap := 0, 0;
    }

    method Add(tx: Tx, priceBump: nat) returns (inserted: bool, replaced: Option<Tx>)
      requires Valid()
      modifies this, txs
      ensures Valid()
      ensures
        var items := old(Model()).items;
        inserted <==>
          (tx.nonce in items ==>
             && tx.price > items[tx.nonce].price
             && 100 * (tx.price + 1) > items[tx.nonce].price * (100 + priceBump))
      ensures Model() == if inserted then Insert(old(Model()), tx) else old(Model())
      ensures replaced ==
              if inserted && tx.nonce in old(Model()).items then Some(old(Model()).items[tx.nonce]) else None
    {
      replaced := None;
      AcceptsIff(txs.items, tx, priceBump);
      if tx.nonce in txs.items {
        var cur := txs.items[tx.nonce];
        if cur.price >= tx.price || cur.price * (100 + priceBump) / 100 > tx.price {
          return false, None;
        }
        replaced := Some(cur);
      }
      txs.Put(tx);
      if costcap < tx.Cost() { costcap := tx.Cost(); }
      if gascap < tx.gas { gascap := tx.gas; }
      inserted := true;
    }

    method Forward(threshold: nat) returns (removed: seq<Tx>)
      requires Valid()
      modifies txs
      ensures Valid() && Model() == old(Model()).(items := AtLeast(old(Model()).items, threshold))
      ensures removed == Flatten(Below(old(Model()).items, threshold))
    {
      removed := txs.Forward(threshold);
    }

    method Filter(costLimit: int, gasLimit: nat) returns (removed: seq<Tx>, invalids: seq<Tx>)
      requires Valid()
      modifies this, txs
      ensures Valid() && Model() == Filtered(old(Model()), costLimit, gasLimit)
      ensures multiset(removed) == multiset(TxSet(Scan(strict, old(Model()).items, costLimit, gasLimit).removed))
      ensures multiset(invalids) == multiset(TxSet(Scan(strict, old(Model()).items, costLimit, gasLimit).invalids))
    {
      FilteredCapped(Model(), costLimit, gasLimit);
      if costcap <= costLimit && gascap <= gasLimit {
        return [], [];
      }
      costcap, gascap := costLimit, gasLimit;
      removed, invalids := FilterScan(costLimit, gasLimit);
    }

    method FilterScan(costLimit: int, gasLimit: nat) returns (removed: seq<Tx>, invalids: seq<Tx>)
      requires txs.Valid()
      modifies txs
      ensures txs.Valid() && txs.items == Scan(strict, old(txs.items), costLimit, gasLimit).kept
      ensures multiset(removed) == multiset(TxSet(Scan(strict, old(txs.items), costLimit, gasLimit).removed))
      ensures multiset(invalids) == multiset(TxSet(Scan(strict, old(txs.items), costLimit, gasLimit).invalids))
    {
      invalids := [];
      ghost var gone := Scan(strict, txs.items, costLimit, gasLimit).removed;
      removed := txs.Filter(UnpayableBy(costLimit, gasLimit));
      EmptyContents(removed, gone);
      if strict && |removed| > 0 {
        invalids := FilterAfterLowest(removed, gone);
      }
    }

    /** Strict mode: drops everything above the lowest removed nonce. */
    method FilterAfterLowest(removed: seq<Tx>, ghost gone: map<nat, Tx>) returns (invalids: seq<Tx>)
      requires txs.Valid() && removed != [] && Keyed(gone) && multiset(removed) == multiset(TxSet(gone))
      requires gone != map[] && Lowest(gone) !in txs.items
      modifies txs
      ensures txs.Valid() && txs.items == Below(old(txs.items), Lowest(gone))
      ensures multiset(invalids) == multiset(TxSet(AtLeast(old(txs.items), Lowest(gone) + 1)))
    {
      var lowest := LowestNonce(removed, gone);
      AboveFilter(txs.items, lowest);
      invalids := txs.Filter(NonceAbove(lowest));
    }

    method Cap(threshold: nat) returns (drops: seq<Tx>)
      requires Valid()
      modifies txs
      ensures Valid() && Model() == old(Model()).(items := Keep(old(Model()).items, threshold))
      ensures drops == Excess(old(Model()).items, threshold)
    {
      KeepIsLowest(txs.items, threshold);
      drops := txs.Cap(threshold);
    }

    method Remove(tx: Tx) returns (found: bool, invalids: seq<Tx>)
      requires Valid()
      modifies txs
      ensures Valid() && found == (tx.nonce in old(Model()).items)
      ensures !found ==> Model() == old(Model()) && invalids == []
      ensures found ==> Model() == old(Model()).(items := RemoveNonce(strict, old(Model()).items, tx.nonce).kept)
      ensures found ==>
          multiset(invalids) == multiset(TxSet(RemoveNonce(strict, old(Model()).items, tx.nonce).invalids))
    {
      var nonce := tx.nonce;
      invalids := [];
      found := txs.Remove(nonce);
      if !found {
        assert Drop(old(txs.items), nonce) == old(txs.items);
      } else if strict {
        AboveFilter(txs.items, nonce);
        invalids := txs.Filter(NonceAbove(nonce));
      }
    }

    method Ready(start: nat) returns (ready: seq<Tx>)
      requires Valid()
      modifies txs
      ensures Valid()
      ensures Model() == old(Model()).(items := AtLeast(old(Model()).items, ReadyEnd(old(Model()).items, start)))
      ensures ready == Flatten(Below(old(Model()).items, ReadyEnd(old(Model()).items, start)))
    {
      ReadyNone(txs.items, start);
      ready := txs.Ready(start);
    }

    method FlattenAll() returns (flat: seq<Tx>)
      requires Valid()
      modifies txs`cache
      ensures Valid() && Model() == old(Model()) && flat == Flatten(Model().items)
    {
      flat := txs.FlattenCached();
    }
  }

  /** Where the run of ready nonces stops: after the consecutive nonces from the lowest on, provided
      the lowest is no later than `start`; otherwise nothing is ready. */
  function ReadyEnd(m: map<nat, Tx>, start: nat): nat {
    if m == map[] || Lowest(m) > start then 0 else RunEnd(m, Lowest(m))
  }

  lemma ReadyNone(m: map<nat, Tx>, start: nat)
    ensures AtLeast(m, 0) == m && Flatten(Below(m, 0)) == []
  {
    assert Below(m, 0) == map[];
  }

  /** On a list with nothing before `start`, the ready run is the maximal run from `start`. */
  lemma ReadyFromStart(m: map<nat, Tx>, start: nat)
    requires forall n :: n in m ==> start <= n
    ensures AtLeast(m, ReadyEnd(m, start)) == AtLeast(m, RunEnd(m, start))
    ensures Below(m, ReadyEnd(m, start)) == Below(m, RunEnd(m, start))
    ensures Interval(Below(m, ReadyEnd(m, start)), start, RunEnd(m, start))
    ensures forall n :: n in AtLeast(m, ReadyEnd(m, start)) ==> n > RunEnd(m, start)
  {
  }
}
