/** What each operation may make of the pool, on values: additions and batches, resets, evictions and price
    changes, with what they keep. */
module PoolSteps {
  import opened Types
  import opened Lists
  import opened PoolModel
  import opened Priced
  import opened Admission

  /** Lists as the model sees them: an empty list is no list. */
  function Normal(m: map<Address, TxList>): AccountLists {
    map a | a in m && m[a].items != map[] :: m[a].items
  }

  lemma NormalSet(m: map<Address, TxList>, a: Address, l: TxList)
    ensures Normal(m[a := l]) == SetItems(Normal(m), a, l.items)
    ensures a in m ==> m[a].items == Items(Normal(m), a)
    ensures a !in m ==> Items(Normal(m), a) == map[]
    ensures l.items == map[] && a !in m ==> Normal(m[a := l]) == Normal(m)
  {
  }

  lemma NormalDelete(m: map<Address, TxList>, a: Address)
    requires a in m && m[a].items == map[]
    ensures Normal(m - {a}) == Normal(m)
  {
  }

  /** The lists differ at most at one account. */
  ghost predicate OnlyAt(m0: map<Address, TxList>, m: map<Address, TxList>, a: Address) {
    forall b :: b != a ==> (b in m <==> b in m0) && (b in m ==> m[b] == m0[b])
  }

  lemma OnlyHere(m: map<Address, TxList>, a: Address, l: TxList)
    ensures OnlyAt(m, m[a := l], a)
  {
  }

  ghost predicate NoEmpty(m: map<Address, TxList>, except: set<Address>) {
    forall a :: a in m && a !in except ==> m[a].items != map[]
  }

  lemma EntriesChain(all0: set<Tx>, items0: seq<Tx>, all1: set<Tx>, items1: seq<Tx>, all2: set<Tx>, items2: seq<Tx>)
    requires KeepsEntries(all0, items0, all1, items1) && KeepsEntries(all1, items1, all2, items2)
    ensures KeepsEntries(all0, items0, all2, items2)
  {
  }

  ghost predicate Evicting(p0: Pool, p: Pool, done: set<Address>, todo: set<Address>) {
    SameRest(p0, p) && forall a :: Of(p, a) == if a in done && a !in todo then Of(p0, a).(que := map[]) else Of(p0, a)
  }

  lemma EvictedKeeps(p0: Pool, p: Pool, done: set<Address>)
    requires Evicting(p0, p, done, {})
    ensures (Floor(p0) ==> Floor(p)) && (Contiguous(p0) ==> Contiguous(p)) && (Affordable(p0) ==> Affordable(p))
  {
    forall tx | Pooled(p, tx) ensures Pooled(p0, tx) { PooledIn(p, tx); PooledIn(p0, tx); }
    forall a ensures Settled(Of(p0, a), p0.state.Nonce(a)) ==> Settled(Of(p, a), p.state.Nonce(a)) { }
  }

  lemma InvRebased(p: Pool, s: State)
    requires Inv(p)
    ensures Inv(Rebased(p, s)) && forall tx :: Pooled(Rebased(p, s), tx) <==> Pooled(p, tx)
  {
    forall a ensures AccountOk(Of(Rebased(p, s), a), a) { assert AccountOk(Of(p, a), a); }
  }

  lemma InvPriced(p: Pool, price: int)
    requires Inv(p)
    ensures Inv(p.(gasPrice := price)) && forall tx :: Pooled(p.(gasPrice := price), tx) <==> Pooled(p, tx)
    ensures Contiguous(p) ==> ContiguousBut(p.(gasPrice := price), {})
  {
    forall a ensures Of(p.(gasPrice := price), a) == Of(p, a) { }
    forall a ensures AccountOk(Of(p.(gasPrice := price), a), a) { assert AccountOk(Of(p, a), a); }
  }

  /** Demotion and following bring nothing new into the pool. */
  lemma DemotedPooled(p0: Pool, p: Pool)
    requires Inv(p0) && Demoted(p0, p)
    ensures (Floor(p0) ==> Floor(p)) && forall tx :: Pooled(p, tx) ==> Pooled(p0, tx)
  {
    forall tx | Pooled(p, tx) ensures Pooled(p0, tx) {
      PooledIn(p, tx);
      PooledIn(p0, tx);
      DemoteIn(Of(p0, tx.sender), tx.sender, p0.state.Nonce(tx.sender), p0.state.Balance(tx.sender), p0.state.maxGas);
    }
  }

  lemma DemoteIn(x: Account, a: Address, stateNonce: nat, balance: int, maxGas: nat)
    requires AccountOk(x, a)
    ensures forall tx :: InAccount(Demote(x, stateNonce, balance, maxGas), tx) ==> InAccount(x, tx)
  {
    UnpayIn(x.(pend := AtLeast(x.pend, stateNonce)), a, balance, maxGas);
  }

  lemma ResetFits(p1: Pool, p2: Pool, p3: Pool, a: Address)
    requires Inv(p1) && Demoted(p1, p2) && Followed(p2, p3)
    ensures ListFits(p3.state, Of(p3, a).pend)
  {
    DemoteFits(p1, a);
    assert Of(p3, a).pend == Of(p2, a).pend;
  }

  lemma FollowedPooled(p0: Pool, p: Pool)
    requires Followed(p0, p)
    ensures Floor(p0) ==> Floor(p)
    ensures forall tx :: Pooled(p, tx) <==> Pooled(p0, tx)
  {
    forall tx ensures Pooled(p, tx) <==> Pooled(p0, tx) {
      PooledIn(p, tx);
      PooledIn(p0, tx);
    }
  }

  /** A batch of additions: each pool in `steps` comes from the one before it. */
  ghost predicate AddedAll(cfg: Config, p: Pool, txs: seq<Tx>, local: bool, steps: seq<Pool>, drops: seq<seq<Tx>>,
                           rs: seq<Result>) {
    && |steps| == |txs| + 1 && |drops| == |rs| == |txs| && steps[0] == p
    && forall i :: 0 <= i < |txs| ==> Added(cfg, steps[i], txs[i], local, drops[i], steps[i + 1], rs[i])
  }

  /** The senders that gained a transaction. */
  function Dirty(txs: seq<Tx>, rs: seq<Result>): set<Address> {
    set i | 0 <= i < |txs| && i < |rs| && rs[i] == Ok(false) :: txs[i].sender
  }

  /** A batch so far: it ends in pool `q` with the given accounts to promote. */
  ghost predicate Batch(cfg: Config, p: Pool, txs: seq<Tx>, local: bool, steps: seq<Pool>, drops: seq<seq<Tx>>,
                        rs: seq<Result>, q: Pool, dirty: set<Address>)
  {
    AddedAll(cfg, p, txs, local, steps, drops, rs) && steps[|txs|] == q && dirty == Dirty(txs, rs)
  }

  lemma BatchNext(cfg: Config, p: Pool, txs: seq<Tx>, i: nat, local: bool, steps: seq<Pool>, drops: seq<seq<Tx>>,
                  rs: seq<Result>, drop: seq<Tx>, q: Pool, r: Result, dirty: set<Address>)
    requires i < |txs| && |steps| == i + 1 && Batch(cfg, p, txs[..i], local, steps, drops, rs, steps[i], dirty)
    requires Added(cfg, steps[i], txs[i], local, drop, q, r)
    ensures Batch(cfg, p, txs[..i + 1], local, steps + [q], drops + [drop], rs + [r], q,
                  if r == Ok(false) then dirty + {txs[i].sender} else dirty)
  {
    AddedNext(cfg, p, txs, i, local, steps, drops, rs, drop, q, r);
    DirtyNext(txs, i, rs, r);
  }

  lemma AddedNext(cfg: Config, p: Pool, txs: seq<Tx>, i: nat, local: bool, steps: seq<Pool>, drops: seq<seq<Tx>>,
                  rs: seq<Result>, drop: seq<Tx>, q: Pool, r: Result)
    requires i < |txs| && AddedAll(cfg, p, txs[..i], local, steps, drops, rs)
    requires Added(cfg, steps[i], txs[i], local, drop, q, r)
    ensures AddedAll(cfg, p, txs[..i + 1], local, steps + [q], drops + [drop], rs + [r])
  {
    var s := steps + [q];
    forall k | 0 <= k < i + 1
      ensures Added(cfg, s[k], txs[..i + 1][k], local, (drops + [drop])[k], s[k + 1], (rs + [r])[k])
    {
      if k < i { assert txs[..i + 1][k] == txs[..i][k]; }
    }
  }

  lemma DirtyNext(txs: seq<Tx>, i: nat, rs: seq<Result>, r: Result)
    requires i < |txs| && |rs| == i
    ensures Dirty(txs[..i + 1], rs + [r]) == Dirty(txs[..i], rs) + if r == Ok(false) then {txs[i].sender} else {}
  {
    var d, d' := Dirty(txs[..i], rs), Dirty(txs[..i + 1], rs + [r]);
    forall a | a in d ensures a in d' {
      var k :| 0 <= k < i && rs[k] == Ok(false) && txs[..i][k].sender == a;
      assert (rs + [r])[k] == Ok(false) && txs[..i + 1][k].sender == a;
    }
    forall a | a in d' ensures a in d || (r == Ok(false) && a == txs[i].sender) {
      var k :| 0 <= k < i + 1 && (rs + [r])[k] == Ok(false) && txs[..i + 1][k].sender == a;
      if k < i { assert rs[k] == Ok(false) && txs[..i][k].sender == a; }
    }
    if r == Ok(false) { assert (rs + [r])[i] == Ok(false) && txs[..i + 1][i].sender == txs[i].sender; }
  }

  /** What add makes of a pool: an error that changes nothing, or the transaction placed after the cheapest
      remote ones made room for it. */
  ghost predicate Added(cfg: Config, p: Pool, tx: Tx, local: bool, drop: seq<Tx>, q: Pool, r: Result) {
    var live := Live(p);
    var limit := cfg.globalSlots + cfg.globalQueue;
    var worst := !IsLocal(tx, p.locals) && live != {} && forall t :: t in live ==> tx.price <= t.price;
    if tx in live then r == Err(KnownTransaction) && q == p && drop == []
    else if Validate(p, tx, local).Some? then r == Err(Validate(p, tx, local).value) && q == p && drop == []
    else if |live| >= limit && !local && worst then r == Err(Underpriced) && q == p && drop == []
    else
      && (if |live| < limit then drop == [] else CheapestRemote(drop, live, |live| - (limit - 1), p.locals))
      && (q, r) == Admit(cfg, RemoveTxs(p, drop), tx, local)
  }

  lemma AddedKeeps(cfg: Config, p: Pool, tx: Tx, local: bool, drop: seq<Tx>, q: Pool, r: Result, dirty: set<Address>)
    requires Inv(p) && Added(cfg, p, tx, local, drop, q, r)
    ensures (Floor(p) ==> Floor(q)) && (Affordable(p) ==> Affordable(q))
    ensures ContiguousBut(p, dirty) ==> ContiguousBut(q, if r == Ok(false) then dirty + {tx.sender} else dirty)
  {
    if Validate(p, tx, local).None? {
      AddKeeps(cfg, p, drop, tx, local, dirty);
    }
  }

  lemma AddedContiguous(cfg: Config, p: Pool, tx: Tx, local: bool, drop: seq<Tx>, q: Pool, r: Result)
    requires Inv(p) && Contiguous(p) && Added(cfg, p, tx, local, drop, q, r)
    ensures ContiguousBut(q, if r == Ok(false) then {tx.sender} else {})
    ensures r != Ok(false) ==> Contiguous(q)
  {
    assert ContiguousBut(p, {});
    AddedKeeps(cfg, p, tx, local, drop, q, r, {});
    assert {} + {tx.sender} == {tx.sender};
  }

  /** Up to `count` of the cheapest remote transactions, all of them if there are not more. */
  ghost predicate CheapestRemote(drop: seq<Tx>, live: set<Tx>, count: int, locals: set<Address>) {
    && |drop| <= (if count > 0 then count else 0)
    && (forall tx :: tx in drop ==> tx in live && !IsLocal(tx, locals))
    && (forall x, y :: x in drop && y in live && y !in drop && !IsLocal(y, locals) ==>
          x.price < y.price || (x.price == y.price && x.nonce >= y.nonce))
    && (|drop| < count ==> forall tx :: tx in live && !IsLocal(tx, locals) ==> tx in drop)
  }
}
