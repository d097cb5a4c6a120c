/** Resets with room to spare: where nothing is discarded or cut, contiguity has a plain condition. */
module Roomy {
  import opened Types
  import opened Nonces
  import opened PoolModel
  import opened Truncation
  import opened Admission
  import opened PoolSteps
  import opened Runs
  import opened Gaps
  import opened Reinjection

  lemma {:induction false} TxSetSize(m: map<nat, Tx>)
    requires Keyed(m)
    ensures |TxSet(m)| == |m|
    decreases |m|
  {
    if m != map[] {
      var n := Lowest(m);
      DropSize(m, n);
      TxSetDrop(m, n);
      TxSetSize(Drop(m, n));
    }
  }

  /** Lists that hold transactions under their senders and nonces. */
  ghost predicate FiledRight(m: AccountLists) {
    forall a, n :: a in m && n in m[a] ==> m[a][n].nonce == n && m[a][n].sender == a
  }

  lemma {:induction false} TotalContents(m: AccountLists)
    requires FiledRight(m)
    ensures |Contents(m)| == Total(m)
    decreases |m|
  {
    if m == map[] {
      assert Contents(m) == {};
    } else {
      var a :| a in m;
      TotalPick(m, a);
      assert (m - {a}).Keys == m.Keys - {a};
      TotalContents(m - {a});
      TxSetSize(m[a]);
      ContentsPick(m, a);
    }
  }

  lemma ContentsPick(m: AccountLists, a: Address)
    requires FiledRight(m) && a in m
    ensures |Contents(m)| == |TxSet(m[a])| + |Contents(m - {a})|
  {
    var one, rest := TxSet(m[a]), Contents(m - {a});
    forall t | t in rest ensures t !in one && t in Contents(m) {
      var b, n :| b in m - {a} && n in (m - {a})[b] && (m - {a})[b][n] == t;
      assert b in m && n in m[b] && m[b][n] == t;
    }
    forall t | t in Contents(m) ensures t in one + rest {
      var b, n :| b in m && n in m[b] && m[b][n] == t;
      if b != a { assert b in m - {a} && n in (m - {a})[b]; }
    }
    forall t | t in one ensures t in Contents(m) {
      var n :| n in m[a] && m[a][n] == t;
    }
    assert Contents(m) == one + rest;
  }

  lemma {:induction false} FewerTxs(some: set<Tx>, all: set<Tx>)
    requires some <= all
    ensures |some| <= |all|
    decreases |some|
  {
    if t :| t in some { FewerTxs(some - {t}, all - {t}); }
  }

  /** The executable transactions are no more than all of them. */
  lemma TotalLive(p: Pool)
    requires Inv(p)
    ensures Total(p.pending) <= |Live(p)|
  {
    forall a, n | a in p.pending && n in p.pending[a]
      ensures p.pending[a][n].nonce == n && p.pending[a][n].sender == a
    {
      assert AccountOk(Of(p, a), a);
    }
    TotalContents(p.pending);
    FewerTxs(Contents(p.pending), Live(p));
  }

  lemma FewerLive(p: Pool, q: Pool)
    requires Inv(p) && Inv(q) && forall t :: Pooled(q, t) ==> Pooled(p, t)
    ensures |Live(q)| <= |Live(p)|
  {
    LivePooled(p);
    LivePooled(q);
    FewerTxs(Live(q), Live(p));
  }

  lemma AddedRoomy(cfg: Config, p: Pool, tx: Tx, drop: seq<Tx>, q: Pool, r: Result)
    requires Inv(p) && Added(cfg, p, tx, false, drop, q, r) && |Live(p)| < cfg.globalSlots + cfg.globalQueue
    ensures drop == [] && Inv(q) && |Live(q)| <= |Live(p)| + 1
  {
    if q != p {
      AdmitOk(cfg, p, tx, false);
      LivePooled(p);
      LivePooled(q);
      assert Live(q) <= Live(p) + {tx};
      FewerTxs(Live(q), Live(p) + {tx});
    }
  }

  lemma RebasedLive(p: Pool, s: State)
    requires Inv(p)
    ensures Inv(Rebased(p, s)) && Live(Rebased(p, s)) == Live(p)
  {
    InvRebased(p, s);
  }

  lemma {:induction false} RoomySteps(cfg: Config, p: Pool, s: State, txs: seq<Tx>, steps: seq<Pool>,
                                      drops: seq<seq<Tx>>, rs: seq<Result>, i: nat)
    requires Inv(p) && AddedAll(cfg, Rebased(p, s), txs, false, steps, drops, rs) && i <= |txs|
    requires |Live(p)| + |txs| <= cfg.globalSlots
    ensures Inv(steps[i]) && |Live(steps[i])| <= |Live(p)| + i
  {
    if i == 0 {
      RebasedLive(p, s);
    } else {
      RoomySteps(cfg, p, s, txs, steps, drops, rs, i - 1);
      RoomyStep(cfg, p, s, txs, steps, drops, rs, i - 1);
    }
  }

  lemma NoDrops(cfg: Config, p: Pool, s: State, txs: seq<Tx>, steps: seq<Pool>, drops: seq<seq<Tx>>, rs: seq<Result>)
    requires Inv(p) && AddedAll(cfg, Rebased(p, s), txs, false, steps, drops, rs)
    requires |Live(p)| + |txs| <= cfg.globalSlots
    ensures forall l :: 0 <= l < |drops| ==> drops[l] == []
  {
    forall l | 0 <= l < |drops| ensures drops[l] == [] {
      RoomySteps(cfg, p, s, txs, steps, drops, rs, l);
      RoomyStep(cfg, p, s, txs, steps, drops, rs, l);
    }
  }

  lemma {:induction false} NothingSpared(p: Pool, s: State, drops: seq<seq<Tx>>, i: nat, a: Address)
    requires i <= |drops| && forall l :: 0 <= l < |drops| ==> drops[l] == []
    ensures Spared(p, s, drops, i, a)
  {
    if i > 0 {
      NothingSpared(p, s, drops, i - 1, a);
      assert drops[i - 1] == [];
    }
  }

  lemma RoomyStep(cfg: Config, p: Pool, s: State, txs: seq<Tx>, steps: seq<Pool>, drops: seq<seq<Tx>>, rs: seq<Result>,
                  i: nat)
    requires AddedAll(cfg, Rebased(p, s), txs, false, steps, drops, rs) && i < |txs|
    requires Inv(steps[i]) && |Live(steps[i])| < cfg.globalSlots
    ensures drops[i] == [] && Inv(steps[i + 1]) && |Live(steps[i + 1])| <= |Live(steps[i])| + 1
  {
    AddedRoomy(cfg, steps[i], txs[i], drops[i], steps[i + 1], rs[i]);
  }

  /** A pool with no more transactions than executable ones are allowed is promoted without a cut. */
  lemma SettlesUncut(cfg: Config, p0: Pool, p: Pool, accounts: set<Address>, a: Address)
    requires Inv(p0) && Settles(cfg, p0, p, accounts) && |Live(p0)| <= cfg.globalSlots
    ensures Sub(Of(p0, a).pend, Of(p, a).pend)
  {
    var p1, p2 :| SettlesBy(cfg, p0, p1, p2, p, accounts);
    PromotedLive(cfg, p0, p1, accounts);
    TotalLive(p1);
    assert p2 == p1 && Of(p, a).pend == Of(p1, a).pend;
    assert AccountOk(Of(p0, a), a);
    PromoteGrows(Of(p0, a), a, p0.state.Nonce(a), p0.state.Balance(a), p0.state.maxGas, QueueCap(cfg, p0, a));
  }

  lemma PromoteGrows(x: Account, a: Address, n: nat, balance: int, maxGas: nat, cap: Option<nat>)
    requires AccountOk(x, a)
    ensures Sub(x.pend, Promote(x, n, balance, maxGas, cap).pend)
  {
    PayableSub(x.que, n, balance, maxGas);
  }

  lemma PromotedLive(cfg: Config, p0: Pool, p1: Pool, accounts: set<Address>)
    requires Inv(p0) && Inv(p1) && Promoted(cfg, p0, p1, accounts)
    ensures |Live(p1)| <= |Live(p0)|
  {
    forall t | Pooled(p1, t) ensures Pooled(p0, t) {
      var a := t.sender;
      PooledIn(p1, t);
      PooledIn(p0, t);
      assert AccountOk(Of(p0, a), a);
      PromoteIn(Of(p0, a), a, p0.state.Nonce(a), p0.state.Balance(a), p0.state.maxGas, QueueCap(cfg, p0, a));
    }
    FewerLive(p0, p1);
  }

  /** With room for everything among the executable transactions nothing is discarded or cut. Then a reset
      ends in a contiguous pool exactly when each account that got transactions back is bridged. */
  lemma RoomyIff(cfg: Config, reinject: seq<Tx>, s: State, p: Pool, q: Pool, w: Way)
    requires Inv(p) && Contiguous(p) && ResetsBy(cfg, reinject, s, p, q, w)
    requires |Live(p)| + |reinject| <= cfg.globalSlots
    ensures
      var mid, dirty := w.steps[|reinject|], Dirty(reinject, w.rs);
      Contiguous(q) <==>
      forall a :: a in dirty ==> Bridged(Of(mid, a), p.state.Nonce(a), s.Nonce(a), s.Balance(a), s.maxGas)
  {
    var mid, dirty := w.steps[|reinject|], Dirty(reinject, w.rs);
    ResetIff(cfg, reinject, s, p, q, w);
    ReinjectedRecedes(cfg, p, s, reinject, w.steps, w.drops, w.rs, |reinject|);
    RoomySteps(cfg, p, s, reinject, w.steps, w.drops, w.rs, |reinject|);
    NoDrops(cfg, p, s, reinject, w.steps, w.drops, w.rs);
    forall a ensures Held(p, s, mid, dirty, w.p1, q, a) <==>
        (a in dirty ==> Bridged(Of(mid, a), p.state.Nonce(a), s.Nonce(a), s.Balance(a), s.maxGas)) {
      NothingSpared(p, s, w.drops, |reinject|, a);
      DiscardIff(cfg, p, s, reinject, w.steps, w.drops, w.rs, |reinject|, a);
      RoomyAt(cfg, p, s, mid, dirty, w.p1, w.p2, w.p3, q, a);
    }
  }

  lemma RoomyAt(cfg: Config, p: Pool, s: State, mid: Pool, dirty: set<Address>, p1: Pool, p2: Pool, p3: Pool, q: Pool,
                a: Address)
    requires Contiguous(p) && Receding(p, s, mid) && Promotes(cfg, mid, p1, dirty) && Inv(p1) && Inv(p3)
    requires Demoted(p1, p2) && Followed(p2, p3) && Settles(cfg, p3, q, p3.queue.Keys)
    requires |Live(mid)| <= cfg.globalSlots && Of(mid, a).next == s.Nonce(a)
    ensures Held(p, s, mid, dirty, p1, q, a) <==>
        (a in dirty ==> Bridged(Of(mid, a), p.state.Nonce(a), s.Nonce(a), s.Balance(a), s.maxGas))
  {
    var k, e := ReinjectionLaid(cfg, p, s, mid, dirty, p1, a);
    assert LaidAt(p, s, mid, a) && Settled(Of(p, a), p.state.Nonce(a));
    ReinjectedUncut(cfg, mid, dirty, p1, a);
    LiveAfter(cfg, mid, dirty, p1, p2, p3);
    SettlesUncut(cfg, p3, q, p3.queue.Keys, a);
    RoomyHeld(p, s, mid, dirty, p1, Of(p3, a), q, a, k, e);
  }

  lemma RoomyHeld(p: Pool, s: State, mid: Pool, dirty: set<Address>, p1: Pool, w: Account, q: Pool, a: Address,
                  k: nat, e: nat)
    requires Settled(Of(p, a), p.state.Nonce(a)) && LaidAt(p, s, mid, a) && Of(mid, a).next == s.Nonce(a)
    requires Reinjected(p, s, mid, dirty, Of(p1, a), a, k, e)
    requires Sub(Of(mid, a).pend, Of(p1, a).pend) && Sub(w.pend, Of(q, a).pend)
    requires w == FollowPending(Demote(Of(p1, a), s.Nonce(a), s.Balance(a), s.maxGas))
    ensures Held(p, s, mid, dirty, p1, q, a) <==>
        (a in dirty ==> Bridged(Of(mid, a), p.state.Nonce(a), s.Nonce(a), s.Balance(a), s.maxGas))
  {
    StillIntact(p, s, mid, p1, a, k, e);
    SurvivesIff(p, s, p1, a, k, e);
    if a in dirty && !Bridged(Of(mid, a), p.state.Nonce(a), s.Nonce(a), s.Balance(a), s.maxGas) {
      GapRemains(p, s, mid, dirty, p1, w, q, a, k, e);
    }
  }

  lemma ReinjectedUncut(cfg: Config, mid: Pool, dirty: set<Address>, p1: Pool, a: Address)
    requires Inv(mid) && Promotes(cfg, mid, p1, dirty) && |Live(mid)| <= cfg.globalSlots
    ensures Sub(Of(mid, a).pend, Of(p1, a).pend)
  {
    if dirty != {} { SettlesUncut(cfg, mid, p1, dirty, a); }
  }

  lemma GapRemains(p: Pool, s: State, mid: Pool, dirty: set<Address>, p1: Pool, w: Account, q: Pool, a: Address,
                   k: nat, e: nat)
    requires LaidAt(p, s, mid, a) && Reinjected(p, s, mid, dirty, Of(p1, a), a, k, e)
    requires Intact(s.Nonce(a), p.state.Nonce(a), Of(p, a).next, k) && Of(mid, a).next == s.Nonce(a)
    requires a in dirty && !Bridged(Of(mid, a), p.state.Nonce(a), s.Nonce(a), s.Balance(a), s.maxGas)
    requires Sub(Of(mid, a).pend, Of(p1, a).pend) && Sub(w.pend, Of(q, a).pend)
    requires w == FollowPending(Demote(Of(p1, a), s.Nonce(a), s.Balance(a), s.maxGas))
    ensures !Joined(p, s, mid, dirty, p1, q, a)
  {
    var m, n := p.state.Nonce(a), s.Nonce(a);
    assert m in Of(p1, a).pend;
    JoinedIff(p, s, mid, dirty, p1, q, a, k, e);
    DemoteLaid(Of(p1, a), n, m, Of(p, a).next, k, e, s.Balance(a), s.maxGas, w);
  }

  lemma StillIntact(p: Pool, s: State, mid: Pool, p1: Pool, a: Address, k: nat, e: nat)
    requires LaidAt(p, s, mid, a) && Of(mid, a).next == s.Nonce(a) && Sub(Of(mid, a).pend, Of(p1, a).pend)
    requires Laid(Of(p1, a), s.Nonce(a), p.state.Nonce(a), Of(p, a).next, k, e)
    ensures Intact(s.Nonce(a), p.state.Nonce(a), Of(p, a).next, k)
  {
    var m := p.state.Nonce(a);
    assert m <= k < RunEnd(Of(mid, a).pend, m) ==> k in Of(mid, a).pend;
  }

  lemma LiveAfter(cfg: Config, mid: Pool, dirty: set<Address>, p1: Pool, p2: Pool, p3: Pool)
    requires Inv(mid) && Promotes(cfg, mid, p1, dirty) && Inv(p1) && Inv(p3) && Demoted(p1, p2) && Followed(p2, p3)
    ensures |Live(p3)| <= |Live(mid)|
  {
    if dirty != {} { SettlesPooled(cfg, mid, p1, dirty); }
    DemotedPooled(p1, p2);
    FollowedPooled(p2, p3);
    FewerLive(mid, p3);
  }
}
