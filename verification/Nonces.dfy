/** Nonce-keyed transaction maps read in nonce order. */
module Nonces {
  import opened Types

  lemma LowestExists(m: map<nat, Tx>)
    requires m != map[]
    ensures exists n :: n in m && forall k :: k in m ==> n <= k
  {
    var n :| n in m;
    LowestBelow(m, n);
  }

  lemma {:induction false} LowestBelow(m: map<nat, Tx>, n: nat)
    requires n in m
    ensures exists l :: l in m && forall k :: k in m ==> l <= k
    decreases n
  {
    if k :| k in m && k < n { LowestBelow(m, k); }
  }

  function Lowest(m: map<nat, Tx>): (n: nat)
    requires m != map[]
    ensures n in m && forall k :: k in m ==> n <= k
  {
    LowestExists(m);
    var n :| n in m && forall k :: k in m ==> n <= k;
    n
  }

  /** The first nonce from `from` on that `m` does not hold. */
  function RunEnd(m: map<nat, Tx>, from: nat): (e: nat)
    ensures from <= e && e !in m && forall k :: from <= k < e ==> k in m
    decreases AtLeast(m, from).Keys
  {
    if from !in m then from
    else
      assert from in AtLeast(m, from) && from !in AtLeast(m, from + 1);
      RunEnd(m, from + 1)
  }

  function Drop(m: map<nat, Tx>, x: nat): map<nat, Tx> {
    map n | n in m && n != x :: m[n]
  }

  /** The contents of `m` in increasing nonce order. */
  function Flatten(m: map<nat, Tx>): (s: seq<Tx>)
    ensures |s| == |m|
    decreases |m|
  {
    if m == map[] then []
    else
      var x := Lowest(m);
      assert Drop(m, x).Keys == m.Keys - {x};
      [m[x]] + Flatten(Drop(m, x))
  }

  lemma Uncons(m: map<nat, Tx>)
    requires m != map[]
    ensures Flatten(m) == [m[Lowest(m)]] + Flatten(Drop(m, Lowest(m)))
    ensures |Drop(m, Lowest(m))| == |m| - 1
  {
    assert Drop(m, Lowest(m)).Keys == m.Keys - {Lowest(m)};
  }

  lemma SplitStep(m: map<nat, Tx>, t: nat)
    requires Below(m, t) != map[]
    ensures m != map[] && Lowest(m) == Lowest(Below(m, t))
    ensures Below(Drop(m, Lowest(m)), t) == Drop(Below(m, t), Lowest(m))
    ensures AtLeast(Drop(m, Lowest(m)), t) == AtLeast(m, t)
  {
    var x := Lowest(Below(m, t));
    assert x in m;
    assert Lowest(m) in Below(m, t);
  }

  lemma NothingBelow(m: map<nat, Tx>, t: nat)
    requires Below(m, t) == map[]
    ensures AtLeast(m, t) == m
  {
    forall n | n in m ensures n >= t { assert n < t ==> n in Below(m, t); }
  }

  lemma ConsCat(x: Tx, a: seq<Tx>, b: seq<Tx>)
    ensures [x] + (a + b) == ([x] + a) + b
  {
  }

  /** Flattening commutes with splitting at a nonce. */
  lemma {:induction false} FlattenSplit(m: map<nat, Tx>, t: nat)
    ensures Flatten(m) == Flatten(Below(m, t)) + Flatten(AtLeast(m, t))
    decreases |m|
  {
    if Below(m, t) == map[] {
      NothingBelow(m, t);
    } else {
      SplitStep(m, t);
      Uncons(m);
      Uncons(Below(m, t));
      FlattenSplit(Drop(m, Lowest(m)), t);
      ConsCat(m[Lowest(m)], Flatten(Drop(Below(m, t), Lowest(m))), Flatten(AtLeast(m, t)));
    }
  }

  /** `s` holds every transaction of `m` once, nonces increasing. */
  ghost predicate Listing(m: map<nat, Tx>, s: seq<Tx>) {
    && |s| == |m|
    && (forall i, j :: 0 <= i < j < |s| ==> s[i].nonce < s[j].nonce)
    && (forall i :: 0 <= i < |s| ==> s[i].nonce in m && m[s[i].nonce] == s[i])
    && (forall n :: n in m ==> m[n] in s)
  }

  /** What the flattened form is, without its recursion. */
  lemma {:induction false} FlattenListing(m: map<nat, Tx>)
    requires Keyed(m)
    ensures Listing(m, Flatten(m))
    decreases |m|
  {
    if m != map[] {
      var x := Lowest(m);
      Uncons(m);
      FlattenListing(Drop(m, x));
      ConsListing(m, Flatten(Drop(m, x)));
    }
  }

  lemma ConsListing(m: map<nat, Tx>, t: seq<Tx>)
    requires Keyed(m) && m != map[] && Listing(Drop(m, Lowest(m)), t) && |t| == |m| - 1
    ensures Listing(m, [m[Lowest(m)]] + t)
  {
    ConsMembers(m, t, m[Lowest(m)]);
  }

  lemma ConsMembers(m: map<nat, Tx>, t: seq<Tx>, first: Tx)
    requires Keyed(m) && m != map[] && first == m[Lowest(m)] && Listing(Drop(m, Lowest(m)), t)
    ensures var s := [first] + t;
      && (forall i, j :: 0 <= i < j < |s| ==> s[i].nonce < s[j].nonce)
      && (forall i :: 0 <= i < |s| ==> s[i].nonce in m && m[s[i].nonce] == s[i])
      && (forall n :: n in m ==> m[n] in s)
  {
    var s, low := [first] + t, Lowest(m);
    forall i | 0 <= i < |t| ensures t[i].nonce in m && m[t[i].nonce] == t[i] && low < t[i].nonce { }
    forall n | n in m ensures m[n] in s {
      if n != low { assert Drop(m, low)[n] in t; }
    }
    ConsRising(first, t);
  }

  lemma ConsRising(first: Tx, t: seq<Tx>)
    requires forall i, j :: 0 <= i < j < |t| ==> t[i].nonce < t[j].nonce
    requires forall i :: 0 <= i < |t| ==> first.nonce < t[i].nonce
    ensures var s := [first] + t; forall i, j :: 0 <= i < j < |s| ==> s[i].nonce < s[j].nonce
  {
  }

  lemma TailOf(s: seq<Tx>, contents: set<Tx>)
    requires |s| > 0 && multiset(s) == multiset(contents)
    ensures s[0] in contents && multiset(s[1..]) == multiset(contents - {s[0]})
  {
    assert s[0] in multiset(s);
    assert s == [s[0]] + s[1..];
    assert multiset(s) == multiset{s[0]} + multiset(s[1..]);
    assert multiset(s[1..]) == multiset(s) - multiset{s[0]};
  }

  lemma TxSetHas(m: map<nat, Tx>)
    requires Keyed(m)
    ensures forall tx :: tx in TxSet(m) <==> tx.nonce in m && m[tx.nonce] == tx
  {
    forall tx: Tx | tx.nonce in m && m[tx.nonce] == tx ensures tx in TxSet(m) { }
  }

  lemma TxSetDrop(m: map<nat, Tx>, x: nat)
    requires Keyed(m) && x in m
    ensures m[x] in TxSet(m) && TxSet(Drop(m, x)) == TxSet(m) - {m[x]}
  {
    forall tx | tx in TxSet(m) && tx != m[x] ensures tx in TxSet(Drop(m, x)) {
      assert tx.nonce in Drop(m, x);
    }
  }

  /** Sorting the contents by nonce can only give the flattened form. */
  lemma {:induction false} SortedIsFlatten(m: map<nat, Tx>, s: seq<Tx>)
    requires Keyed(m) && multiset(s) == multiset(TxSet(m))
    requires forall i, j :: 0 <= i < j < |s| ==> s[i].nonce <= s[j].nonce
    ensures s == Flatten(m)
    decreases |m|
  {
    if m == map[] {
      assert |s| == 0 by { if |s| > 0 { TailOf(s, TxSet(m)); } }
    } else {
      var x := Lowest(m);
      TxSetDrop(m, x);
      assert m[x] in multiset(s);
      TailOf(s, TxSet(m));
      assert s[0] == m[x];
      Uncons(m);
      SortedIsFlatten(Drop(m, x), s[1..]);
    }
  }

  lemma KeysAfterRemoval(m: map<nat, Tx>, index: seq<nat>, x: nat)
    requires multiset(m.Keys) == multiset(index) + multiset{x}
    ensures x in m && multiset(index) == multiset(Drop(m, x).Keys)
    ensures |Drop(m, x)| == |m| - 1
  {
    assert x in multiset(m.Keys);
    assert Drop(m, x).Keys == m.Keys - {x};
    assert multiset(index) == multiset(m.Keys) - multiset{x};
  }

  lemma AppendNext(m: map<nat, Tx>, n: nat)
    requires n in m
    ensures Flatten(Below(m, n + 1)) == Flatten(Below(m, n)) + [m[n]]
  {
    var b := Below(m, n + 1);
    FlattenSplit(b, n);
    assert Below(b, n) == Below(m, n);
    assert AtLeast(b, n) == map[n := m[n]];
    FlattenSingle(n, m[n]);
  }

  lemma FlattenSingle(n: nat, tx: Tx)
    ensures Flatten(map[n := tx]) == [tx]
  {
    var top := map[n := tx];
    assert n in top;
    Uncons(top);
    assert Drop(top, n) == map[];
  }

  lemma {:induction false} HighestAbove(m: map<nat, Tx>, n: nat, gap: nat)
    requires n in m && gap == |AtLeast(m, n)|
    ensures exists h :: h in m && forall k :: k in m ==> k <= h
    decreases gap
  {
    if k :| k in m && k > n {
      assert AtLeast(m, k).Keys <= AtLeast(m, n).Keys - {n};
      SubsetSize(AtLeast(m, k).Keys, AtLeast(m, n).Keys - {n});
      HighestAbove(m, k, |AtLeast(m, k)|);
    }
  }

  lemma {:induction false} SubsetSize(a: set<nat>, b: set<nat>)
    requires a <= b
    ensures |a| <= |b|
    decreases |a|
  {
    if x :| x in a { SubsetSize(a - {x}, b - {x}); }
  }

  function Highest(m: map<nat, Tx>): (n: nat)
    requires m != map[]
    ensures n in m && forall k :: k in m ==> k <= n
  {
    assert exists h :: h in m && forall k :: k in m ==> k <= h by {
      var n :| n in m;
      HighestAbove(m, n, |AtLeast(m, n)|);
    }
    var n :| n in m && forall k :: k in m ==> k <= n;
    n
  }

  lemma DropSize(m: map<nat, Tx>, x: nat)
    requires x in m
    ensures |Drop(m, x)| == |m| - 1
  {
    assert Drop(m, x).Keys == m.Keys - {x};
  }

  lemma Unsnoc(m: map<nat, Tx>)
    requires m != map[]
    ensures Flatten(m) == Flatten(Drop(m, Highest(m))) + [m[Highest(m)]]
    ensures |Drop(m, Highest(m))| == |m| - 1
  {
    var h := Highest(m);
    DropSize(m, h);
    AppendNext(m, h);
    assert Below(m, h + 1) == m && Below(m, h) == Drop(m, h);
  }

  /** `m` with its highest nonces deleted until `k` are left. */
  function Keep(m: map<nat, Tx>, k: nat): (r: map<nat, Tx>)
    decreases |m|
  {
    if |m| <= k then m
    else
      DropSize(m, Highest(m));
      Keep(Drop(m, Highest(m)), k)
  }

  /** What `Keep` deletes, highest nonce first. */
  function Excess(m: map<nat, Tx>, k: nat): (s: seq<Tx>)
    decreases |m|
  {
    if |m| <= k then []
    else
      DropSize(m, Highest(m));
      [m[Highest(m)]] + Excess(Drop(m, Highest(m)), k)
  }

  /** `Keep` keeps exactly `k` (if there are that many) and they are the lowest; `Excess` is the rest. */
  lemma {:induction false} KeepIsLowest(m: map<nat, Tx>, k: nat)
    requires Keyed(m)
    ensures |Keep(m, k)| == if |m| <= k then |m| else k
    ensures Keep(m, k).Keys <= m.Keys && forall n :: n in Keep(m, k) ==> Keep(m, k)[n] == m[n]
    ensures forall n, d :: n in Keep(m, k) && d in m && d !in Keep(m, k) ==> n < d
    ensures forall tx :: tx in Excess(m, k) <==> tx.nonce in m && m[tx.nonce] == tx && tx.nonce !in Keep(m, k)
    decreases |m|
  {
    if |m| > k {
      DropSize(m, Highest(m));
      KeepIsLowest(Drop(m, Highest(m)), k);
    }
  }

  lemma {:induction false} KeepKeyed(m: map<nat, Tx>, k: nat)
    requires Keyed(m)
    ensures Keyed(Keep(m, k))
    decreases |m|
  {
    if |m| > k {
      DropSize(m, Highest(m));
      KeepKeyed(Drop(m, Highest(m)), k);
    }
  }

  lemma {:induction false} KeepFlat(m: map<nat, Tx>, k: nat)
    ensures |Excess(m, k)| <= |m| && Flatten(Keep(m, k)) == Flatten(m)[..|m| - |Excess(m, k)|]
    decreases |m|
  {
    if |m| > k {
      Unsnoc(m);
      KeepFlat(Drop(m, Highest(m)), k);
    }
  }
}
