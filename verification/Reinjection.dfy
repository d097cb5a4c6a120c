/** A whole reset that puts transactions back (core/tx_pool.go): exactly when it leaves a contiguous pool
    contiguous, whatever is discarded to make room and whatever the limits cut. */
module Reinjection {
  import opened Types
  import opened Nonces
  import opened Lists
  import opened PoolModel
  import opened Truncation
  import opened Admission
  import opened PoolSteps
  import opened Runs
  import opened Gaps

  /** The choices a reset makes and the pools it goes through: the re-injection one by one with what was
      discarded for each, then the pool with that promoted, demoted, and with its virtual nonces following. */
  datatype Way = Way(steps: seq<Pool>, drops: seq<seq<Tx>>, rs: seq<Result>, p1: Pool, p2: Pool, p3: Pool)

  ghost predicate ResetsBy(cfg: Config, reinject: seq<Tx>, s: State, p: Pool, q: Pool, w: Way) {
    && AddedAll(cfg, Rebased(p, s), reinject, false, w.steps, w.drops, w.rs)
    && Promotes(cfg, w.steps[|reinject|], w.p1, Dirty(reinject, w.rs))
    && Inv(w.p1) && Inv(w.p3) && Demoted(w.p1, w.p2) && Followed(w.p2, w.p3)
    && Settles(cfg, w.p3, q, w.p3.queue.Keys)
  }

  /** Every reset goes some way. */
  lemma WayOf(cfg: Config, reinject: seq<Tx>, s: State, p: Pool, q: Pool) returns (w: Way)
    requires Resets(cfg, reinject, s, p, q)
    ensures ResetsBy(cfg, reinject, s, p, q, w)
  {
    var p1, p2, p3 :|
      && Inv(p1) && Inv(p3)
      && SubmitsAll(cfg, reinject, false, Rebased(p, s), p1)
      && Demoted(p1, p2)
      && Followed(p2, p3)
      && Settles(cfg, p3, q, p3.queue.Keys);
    var steps, drops, rs :|
      && AddedAll(cfg, Rebased(p, s), reinject, false, steps, drops, rs)
      && Promotes(cfg, steps[|reinject|], p1, Dirty(reinject, rs));
    w := Way(steps, drops, rs, p1, p2, p3);
  }

  // ----- discarding and placing -----

  /** Account `a` of a pool on the way, as what is left of what was executable in `p`. */
  ghost predicate LaidAt(p: Pool, s: State, mid: Pool, a: Address) {
    var x, m, n := Of(mid, a), p.state.Nonce(a), s.Nonce(a);
    && Laid(x, n, m, Of(p, a).next, RunEnd(x.pend, m), n)
    && Sub(Below(x.pend, n), Of(p, a).pend)
  }

  ghost predicate Receding(p: Pool, s: State, mid: Pool) {
    Inv(mid) && mid.state == s && forall a :: LaidAt(p, s, mid, a)
  }

  lemma LaidFrom(p: Pool, s: State, mid: Pool, a: Address, k: nat)
    requires Laid(Of(mid, a), s.Nonce(a), p.state.Nonce(a), Of(p, a).next, k, s.Nonce(a))
    requires Sub(Below(Of(mid, a).pend, s.Nonce(a)), Of(p, a).pend)
    ensures LaidAt(p, s, mid, a)
  {
    IntervalEnd(Of(mid, a).pend, p.state.Nonce(a), k);
  }

  lemma IntervalEnd(m: map<nat, Tx>, lo: nat, hi: nat)
    requires lo <= hi && Interval(m, lo, hi)
    ensures RunEnd(m, lo) == hi
  {
    assert RunEnd(m, lo) !in m && hi !in m;
  }

  lemma RebasedRecedes(p: Pool, s: State)
    requires Inv(p) && Contiguous(p)
    ensures Receding(p, s, Rebased(p, s))
  {
    InvRebased(p, s);
    forall a ensures LaidAt(p, s, Rebased(p, s), a) {
      assert Settled(Of(p, a), p.state.Nonce(a));
      assert Of(Rebased(p, s), a) == Of(p, a).(next := s.Nonce(a));
      LaidFrom(p, s, Rebased(p, s), a, Of(p, a).next);
    }
  }

  /** An executable transaction of account `a` whose nonce the new state has passed. */
  predicate Outlived(p: Pool, s: State, tx: Tx, a: Address) {
    tx.sender == a && Has(p.pending, tx) && tx.nonce < s.Nonce(a)
  }

  predicate NoneOutlived(p: Pool, s: State, txs: seq<Tx>, a: Address) {
    forall t :: t in txs ==> !Outlived(p, s, t, a)
  }

  lemma RemoveTxRecedes(p: Pool, s: State, mid: Pool, tx: Tx)
    requires Receding(p, s, mid)
    ensures Receding(p, s, RemoveTx(mid, tx))
  {
    RemoveTxPooled(mid, tx);
    if Pooled(mid, tx) {
      forall b ensures LaidAt(p, s, RemoveTx(mid, tx), b) { RemoveTxLaid(p, s, mid, tx, b); }
    }
  }

  lemma RemoveTxLaid(p: Pool, s: State, mid: Pool, tx: Tx, b: Address)
    requires Inv(mid) && LaidAt(p, s, mid, b) && Pooled(mid, tx)
    ensures LaidAt(p, s, RemoveTx(mid, tx), b)
  {
    var a := tx.sender;
    var x := Of(mid, a);
    PutReads(mid, a, Remove(x, tx.nonce));
    if b == a {
      var k := RunEnd(x.pend, p.state.Nonce(a));
      RemoveLaid(x, tx.nonce, s.Nonce(a), p.state.Nonce(a), Of(p, a).next, k);
      LaidFrom(p, s, RemoveTx(mid, tx), a, if tx.nonce in x.pend then tx.nonce else k);
    }
  }

  lemma RemoveTxLevel(p: Pool, s: State, mid: Pool, tx: Tx, a: Address)
    requires Inv(mid) && LaidAt(p, s, mid, a) && Settled(Of(p, a), p.state.Nonce(a))
    ensures Of(RemoveTx(mid, tx), a).next == s.Nonce(a) <==> Of(mid, a).next == s.Nonce(a) && !Outlived(p, s, tx, a)
  {
    if Pooled(mid, tx) { PutReads(mid, tx.sender, Remove(Of(mid, tx.sender), tx.nonce)); }
    if tx.sender == a {
      var x := Of(mid, a);
      OutlivedIff(p, s, mid, tx);
      RemoveLaid(x, tx.nonce, s.Nonce(a), p.state.Nonce(a), Of(p, a).next, RunEnd(x.pend, p.state.Nonce(a)));
    }
  }

  /** While no passed transaction is lost, those still executable are the executable ones of `p`. */
  lemma OutlivedIff(p: Pool, s: State, mid: Pool, tx: Tx)
    requires Inv(mid) && LaidAt(p, s, mid, tx.sender) && Settled(Of(p, tx.sender), p.state.Nonce(tx.sender))
    ensures
      var x, n := Of(mid, tx.sender), s.Nonce(tx.sender);
      x.next == n ==> (Outlived(p, s, tx, tx.sender) <==> Pooled(mid, tx) && tx.nonce in x.pend && tx.nonce < n)
  {
    var a := tx.sender;
    var x, n := Of(mid, a), s.Nonce(a);
    assert AccountOk(x, a);
    if x.next == n && tx.nonce < n && tx.nonce in Of(p, a).pend {
      assert tx.nonce in x.pend;
      assert tx.nonce in Below(x.pend, n);
    }
    if tx.nonce in x.pend && tx.nonce < n { assert tx.nonce in Below(x.pend, n); }
  }

  lemma {:induction false} RemoveTxsRecede(p: Pool, s: State, mid: Pool, txs: seq<Tx>)
    requires Receding(p, s, mid)
    ensures Receding(p, s, RemoveTxs(mid, txs))
    decreases |txs|
  {
    if txs != [] {
      var k := |txs| - 1;
      RemoveTxsRecede(p, s, mid, txs[..k]);
      RemoveTxRecedes(p, s, RemoveTxs(mid, txs[..k]), txs[k]);
    }
  }

  lemma {:induction false} RemoveTxsLevel(p: Pool, s: State, mid: Pool, txs: seq<Tx>, a: Address)
    requires Receding(p, s, mid) && Settled(Of(p, a), p.state.Nonce(a))
    ensures Of(RemoveTxs(mid, txs), a).next == s.Nonce(a) <==>
        Of(mid, a).next == s.Nonce(a) && NoneOutlived(p, s, txs, a)
    decreases |txs|
  {
    if txs != [] {
      var k := |txs| - 1;
      RemoveTxsLevel(p, s, mid, txs[..k], a);
      RemoveTxsRecede(p, s, mid, txs[..k]);
      assert LaidAt(p, s, RemoveTxs(mid, txs[..k]), a);
      RemoveTxLevel(p, s, RemoveTxs(mid, txs[..k]), txs[k], a);
      NoneOutlivedSnoc(p, s, txs, k, a);
    }
  }

  lemma NoneOutlivedSnoc(p: Pool, s: State, txs: seq<Tx>, k: nat, a: Address)
    requires k + 1 == |txs|
    ensures NoneOutlived(p, s, txs, a) <==> NoneOutlived(p, s, txs[..k], a) && !Outlived(p, s, txs[k], a)
  {
    assert txs == txs[..k] + [txs[k]];
  }

  lemma AdmitRecedes(cfg: Config, p: Pool, s: State, mid: Pool, tx: Tx, q: Pool)
    requires Receding(p, s, mid) && s.Nonce(tx.sender) <= tx.nonce && q == Admit(cfg, mid, tx, false).0
    ensures Receding(p, s, q)
  {
    AdmitOk(cfg, mid, tx, false);
    forall a ensures LaidAt(p, s, q, a) {
      assert LaidAt(p, s, mid, a);
      AdmitLaid(cfg, p, s, mid, tx, q, a);
    }
  }

  lemma AdmitLaid(cfg: Config, p: Pool, s: State, mid: Pool, tx: Tx, q: Pool, a: Address)
    requires LaidAt(p, s, mid, a) && s.Nonce(tx.sender) <= tx.nonce && q == Admit(cfg, mid, tx, false).0
    ensures LaidAt(p, s, q, a) && Of(q, a).next == Of(mid, a).next
  {
    var x := Of(mid, tx.sender);
    var y := Placed(x, tx);
    AdmitReads(cfg, mid, tx, q, a, y);
    if a == tx.sender && Of(q, a) == y { LaidFrom(p, s, q, a, RunEnd(x.pend, p.state.Nonce(a))); }
  }

  lemma AdmitReads(cfg: Config, mid: Pool, tx: Tx, q: Pool, a: Address, y: Account)
    requires q == Admit(cfg, mid, tx, false).0 && y == Placed(Of(mid, tx.sender), tx)
    ensures Of(q, a) == Of(mid, a) || (a == tx.sender && Of(q, a) == y)
  {
    PutReads(mid, tx.sender, y);
    assert q == mid || q == Put(mid, tx.sender, y);
  }

  lemma AddedRecedes(cfg: Config, p: Pool, s: State, mid: Pool, tx: Tx, drop: seq<Tx>, q: Pool, r: Result)
    requires Receding(p, s, mid) && Added(cfg, mid, tx, false, drop, q, r)
    ensures Receding(p, s, q)
  {
    if Validate(mid, tx, false).None? && q != mid {
      RemoveTxsRecede(p, s, mid, drop);
      AdmitRecedes(cfg, p, s, RemoveTxs(mid, drop), tx, q);
    }
  }

  lemma AddedLevel(cfg: Config, p: Pool, s: State, mid: Pool, tx: Tx, drop: seq<Tx>, q: Pool, r: Result, a: Address)
    requires Receding(p, s, mid) && Settled(Of(p, a), p.state.Nonce(a)) && Added(cfg, mid, tx, false, drop, q, r)
    ensures Of(q, a).next == s.Nonce(a) <==> Of(mid, a).next == s.Nonce(a) && NoneOutlived(p, s, drop, a)
  {
    RemoveTxsLevel(p, s, mid, drop, a);
    RemoveTxsRecede(p, s, mid, drop);
    var less := RemoveTxs(mid, drop);
    assert LaidAt(p, s, less, a);
    AddedIs(cfg, mid, tx, drop, q, r);
    if q != less { AdmitLaid(cfg, p, s, less, tx, q, a); }
  }

  /** What add makes of a pool is what is left of it, or that with the transaction placed. */
  lemma AddedIs(cfg: Config, p: Pool, tx: Tx, drop: seq<Tx>, q: Pool, r: Result)
    requires Added(cfg, p, tx, false, drop, q, r)
    ensures q == RemoveTxs(p, drop) ||
      (p.state.Nonce(tx.sender) <= tx.nonce && q == Admit(cfg, RemoveTxs(p, drop), tx, false).0)
  {
  }

  /** Whatever re-injection discards, what is left executable of every account is a prefix of what was. */
  lemma {:induction false} ReinjectedRecedes(cfg: Config, p: Pool, s: State, txs: seq<Tx>, steps: seq<Pool>,
                                             drops: seq<seq<Tx>>, rs: seq<Result>, i: nat)
    requires Inv(p) && Contiguous(p) && AddedAll(cfg, Rebased(p, s), txs, false, steps, drops, rs) && i <= |txs|
    ensures Receding(p, s, steps[i])
  {
    if i == 0 {
      StartRecedes(p, s, steps);
    } else {
      ReinjectedRecedes(cfg, p, s, txs, steps, drops, rs, i - 1);
      StepRecedes(cfg, p, s, txs, steps, drops, rs, i - 1);
    }
  }

  lemma StartRecedes(p: Pool, s: State, steps: seq<Pool>)
    requires Inv(p) && Contiguous(p) && steps != [] && steps[0] == Rebased(p, s)
    ensures Receding(p, s, steps[0])
  {
    RebasedRecedes(p, s);
  }

  lemma StepRecedes(cfg: Config, p: Pool, s: State, txs: seq<Tx>, steps: seq<Pool>, drops: seq<seq<Tx>>,
                    rs: seq<Result>, i: nat)
    requires AddedAll(cfg, Rebased(p, s), txs, false, steps, drops, rs) && i < |txs| && Receding(p, s, steps[i])
    ensures Receding(p, s, steps[i + 1])
  {
    AddedRecedes(cfg, p, s, steps[i], txs[i], drops[i], steps[i + 1], rs[i]);
  }

  /** No outlived transaction of account `a` is among the first `i` discards. */
  predicate Spared(p: Pool, s: State, drops: seq<seq<Tx>>, i: nat, a: Address)
    requires i <= |drops|
  {
    i == 0 || (Spared(p, s, drops, i - 1, a) && NoneOutlived(p, s, drops[i - 1], a))
  }

  /** The virtual nonce of an account is the state's exactly as long as none of its outlived transactions
      was discarded. */
  lemma {:induction false} DiscardIff(cfg: Config, p: Pool, s: State, txs: seq<Tx>, steps: seq<Pool>,
                                      drops: seq<seq<Tx>>, rs: seq<Result>, i: nat, a: Address)
    requires Inv(p) && Contiguous(p) && AddedAll(cfg, Rebased(p, s), txs, false, steps, drops, rs) && i <= |txs|
    ensures Of(steps[i], a).next == s.Nonce(a) <==> Spared(p, s, drops, i, a)
  {
    if i > 0 {
      DiscardIff(cfg, p, s, txs, steps, drops, rs, i - 1, a);
      StepLevel(cfg, p, s, txs, steps, drops, rs, i - 1, a);
    }
  }

  lemma StepLevel(cfg: Config, p: Pool, s: State, txs: seq<Tx>, steps: seq<Pool>, drops: seq<seq<Tx>>,
                  rs: seq<Result>, i: nat, a: Address)
    requires Inv(p) && Contiguous(p) && AddedAll(cfg, Rebased(p, s), txs, false, steps, drops, rs) && i < |txs|
    ensures Of(steps[i + 1], a).next == s.Nonce(a) <==>
        Of(steps[i], a).next == s.Nonce(a) && NoneOutlived(p, s, drops[i], a)
  {
    ReinjectedRecedes(cfg, p, s, txs, steps, drops, rs, i);
    assert Settled(Of(p, a), p.state.Nonce(a));
    AddedLevel(cfg, p, s, steps[i], txs[i], drops[i], steps[i + 1], rs[i], a);
  }

  // ----- promotion and the limits -----

  /** Where the run that re-injection makes executable ends, if the account got anything. */
  function EndOf(s: State, mid: Pool, dirty: set<Address>, a: Address): nat {
    if a in dirty then FrontEnd(Of(mid, a), s.Nonce(a), s.Balance(a), s.maxGas) else s.Nonce(a)
  }

  /** Account `a` once re-injection is over, limits and all: a prefix of what was executable, and a payable
      run at the state nonce, which is whole if anything beyond it is left. */
  ghost predicate Reinjected(p: Pool, s: State, mid: Pool, dirty: set<Address>, z: Account, a: Address, k: nat,
                             e: nat) {
    var m, n := p.state.Nonce(a), s.Nonce(a);
    && Laid(z, n, m, Of(p, a).next, k, e) && Paid(z.pend, n, e, s.Balance(a), s.maxGas)
    && k <= RunEnd(Of(mid, a).pend, m) && e <= EndOf(s, mid, dirty, a)
    && (n < m < k ==> e == EndOf(s, mid, dirty, a))
    && (m < k ==> m in Of(mid, a).pend && z.pend[m] == Of(mid, a).pend[m])
    && (a in dirty && Of(mid, a).next == n ==> EndOf(s, mid, dirty, a) !in z.que)
  }

  lemma ReinjectionLaid(cfg: Config, p: Pool, s: State, mid: Pool, dirty: set<Address>, p1: Pool, a: Address)
    returns (k: nat, e: nat)
    requires Receding(p, s, mid) && Promotes(cfg, mid, p1, dirty)
    ensures Reinjected(p, s, mid, dirty, Of(p1, a), a, k, e) && p1.state == s
  {
    assert LaidAt(p, s, mid, a);
    k, e := RunEnd(Of(mid, a).pend, p.state.Nonce(a)), s.Nonce(a);
    if dirty != {} {
      var p', p'' :| SettlesBy(cfg, mid, p', p'', p1, dirty);
      k, e := SettledLaid(cfg, p, s, mid, dirty, p', p'', p1, a);
    }
  }

  lemma SettledLaid(cfg: Config, p: Pool, s: State, mid: Pool, dirty: set<Address>, p': Pool, p'': Pool, p1: Pool,
                    a: Address)
    returns (k: nat, e: nat)
    requires Receding(p, s, mid) && SettlesBy(cfg, mid, p', p'', p1, dirty)
    ensures Reinjected(p, s, mid, dirty, Of(p1, a), a, k, e) && p1.state == s
  {
    var y, z := Of(p', a), Of(p'', a);
    PromotionLaid(cfg, p, s, mid, dirty, y, a);
    k, e := CutReinjected(p, s, mid, dirty, y, Len(p'', a), a, RunEnd(Of(mid, a).pend, p.state.Nonce(a)),
                          EndOf(s, mid, dirty, a));
    assert z == TrimTo(y, Len(p'', a)) && AccountOk(z, a);
    CapSub(z.que, Some(QueueLen(p1, a)));
    QueueReinjected(p, s, mid, dirty, z, a, k, e, Of(p1, a).que);
  }

  lemma QueueReinjected(p: Pool, s: State, mid: Pool, dirty: set<Address>, z: Account, a: Address, k: nat, e: nat,
                        que: map<nat, Tx>)
    requires Reinjected(p, s, mid, dirty, z, a, k, e) && Sub(que, z.que)
    ensures Reinjected(p, s, mid, dirty, z.(que := que), a, k, e)
  {
  }

  lemma PromotionLaid(cfg: Config, p: Pool, s: State, mid: Pool, dirty: set<Address>, y: Account, a: Address)
    requires Receding(p, s, mid) && y == if a in dirty then PromoteOf(cfg, mid, a) else Of(mid, a)
    ensures Reinjected(p, s, mid, dirty, y, a, RunEnd(Of(mid, a).pend, p.state.Nonce(a)), EndOf(s, mid, dirty, a))
  {
    var x, m, n := Of(mid, a), p.state.Nonce(a), s.Nonce(a);
    assert AccountOk(x, a) && LaidAt(p, s, mid, a);
    if a in dirty {
      PromoteLaid(x, a, n, m, Of(p, a).next, RunEnd(x.pend, m), s.Balance(a), s.maxGas, QueueCap(cfg, mid, a),
                  EndOf(s, mid, dirty, a), y);
    }
  }

  lemma CutReinjected(p: Pool, s: State, mid: Pool, dirty: set<Address>, y: Account, len: nat, a: Address, k: nat,
                      e: nat)
    returns (k2: nat, e2: nat)
    requires Reinjected(p, s, mid, dirty, y, a, k, e) && e == EndOf(s, mid, dirty, a)
    ensures Reinjected(p, s, mid, dirty, TrimTo(y, len), a, k2, e2)
  {
    k2, e2 := TrimLaid(y, len, s.Nonce(a), p.state.Nonce(a), Of(p, a).next, k, e);
  }

  // ----- the whole reset -----

  /** Every outlived executable transaction of the account outlived the re-injection too. */
  predicate Survives(p: Pool, s: State, p1: Pool, a: Address) {
    forall j :: j in Of(p, a).pend && j < s.Nonce(a) ==> j in Of(p1, a).pend
  }

  /** What the account got back reaches what was executable, unless the limits cut one side off the gap. */
  predicate Joined(p: Pool, s: State, mid: Pool, dirty: set<Address>, p1: Pool, q: Pool, a: Address) {
    var x, m, n := Of(mid, a), p.state.Nonce(a), s.Nonce(a);
    a in dirty ==>
      || Bridged(x, m, n, s.Balance(a), s.maxGas)
      || m !in Of(p1, a).pend
      || RunEnd(Payable(x.que, n, s.Balance(a), s.maxGas), n) - 1 !in Of(q, a).pend
  }

  predicate Held(p: Pool, s: State, mid: Pool, dirty: set<Address>, p1: Pool, q: Pool, a: Address) {
    Survives(p, s, p1, a) && Joined(p, s, mid, dirty, p1, q, a)
  }

  /** A reset of a contiguous pool ends in a contiguous pool exactly when for every account no executable
      transaction whose nonce the state has passed had to make way for those put back, neither to a discard
      nor to a cut, and those it got back are joined to what was executable. */
  lemma ResetIff(cfg: Config, reinject: seq<Tx>, s: State, p: Pool, q: Pool, w: Way)
    requires Inv(p) && Contiguous(p) && ResetsBy(cfg, reinject, s, p, q, w)
    ensures
      var mid, dirty := w.steps[|reinject|], Dirty(reinject, w.rs);
      Contiguous(q) <==> forall a :: Held(p, s, mid, dirty, w.p1, q, a)
  {
    ReinjectedRecedes(cfg, p, s, reinject, w.steps, w.drops, w.rs, |reinject|);
    ResetIffFrom(cfg, p, s, w.steps[|reinject|], Dirty(reinject, w.rs), w.p1, w.p2, w.p3, q);
  }

  lemma ResetIffFrom(cfg: Config, p: Pool, s: State, mid: Pool, dirty: set<Address>, p1: Pool, p2: Pool, p3: Pool,
                     q: Pool)
    requires Contiguous(p) && Receding(p, s, mid) && Promotes(cfg, mid, p1, dirty) && Inv(p3)
    requires Demoted(p1, p2) && Followed(p2, p3) && Settles(cfg, p3, q, p3.queue.Keys)
    ensures Contiguous(q) <==> forall a :: Held(p, s, mid, dirty, p1, q, a)
  {
    var _, _ := ReinjectionLaid(cfg, p, s, mid, dirty, p1, 0);
    SettlesRest(cfg, p3, q, p3.queue.Keys);
    forall a ensures Settled(Of(q, a), q.state.Nonce(a)) <==> Held(p, s, mid, dirty, p1, q, a) {
      ResetAt(cfg, p, s, mid, dirty, p1, p2, p3, q, a);
    }
  }

  lemma ResetAt(cfg: Config, p: Pool, s: State, mid: Pool, dirty: set<Address>, p1: Pool, p2: Pool, p3: Pool, q: Pool,
                a: Address)
    requires Contiguous(p) && Receding(p, s, mid) && Promotes(cfg, mid, p1, dirty) && Inv(p3)
    requires Demoted(p1, p2) && Followed(p2, p3) && Settles(cfg, p3, q, p3.queue.Keys)
    ensures Settled(Of(q, a), s.Nonce(a)) <==> Held(p, s, mid, dirty, p1, q, a)
  {
    var k, e := ReinjectionLaid(cfg, p, s, mid, dirty, p1, a);
    assert LaidAt(p, s, mid, a);
    AccountIff(cfg, p, s, mid, dirty, p1, p2, p3, q, a, k, e);
  }

  /** Discarding one outlived executable transaction is enough, whatever else the reset does. */
  lemma DiscardBreaks(cfg: Config, reinject: seq<Tx>, s: State, p: Pool, q: Pool, w: Way, a: Address)
    requires Inv(p) && Contiguous(p) && ResetsBy(cfg, reinject, s, p, q, w)
    requires !Spared(p, s, w.drops, |reinject|, a)
    ensures !Survives(p, s, w.p1, a) && !Contiguous(q)
  {
    var mid, dirty := w.steps[|reinject|], Dirty(reinject, w.rs);
    ReinjectedRecedes(cfg, p, s, reinject, w.steps, w.drops, w.rs, |reinject|);
    DiscardIff(cfg, p, s, reinject, w.steps, w.drops, w.rs, |reinject|, a);
    BehindStays(cfg, p, s, mid, dirty, w.p1, a);
    ResetIff(cfg, reinject, s, p, q, w);
    assert !Held(p, s, mid, dirty, w.p1, q, a);
  }

  lemma BehindStays(cfg: Config, p: Pool, s: State, mid: Pool, dirty: set<Address>, p1: Pool, a: Address)
    requires Contiguous(p) && Receding(p, s, mid) && Promotes(cfg, mid, p1, dirty) && Of(mid, a).next != s.Nonce(a)
    ensures !Survives(p, s, p1, a)
  {
    var k, e := ReinjectionLaid(cfg, p, s, mid, dirty, p1, a);
    assert LaidAt(p, s, mid, a) && Settled(Of(p, a), p.state.Nonce(a));
    SurvivesIff(p, s, p1, a, k, e);
  }

  lemma SettlesRest(cfg: Config, p: Pool, q: Pool, accounts: set<Address>)
    requires Settles(cfg, p, q, accounts)
    ensures SameRest(p, q)
  {
    var p1, p2 :| SettlesBy(cfg, p, p1, p2, q, accounts);
  }

  lemma AccountIff(cfg: Config, p: Pool, s: State, mid: Pool, dirty: set<Address>, p1: Pool, p2: Pool, p3: Pool,
                   q: Pool,
                   a: Address, k: nat, e: nat)
    requires Contiguous(p) && LaidAt(p, s, mid, a) && p1.state == s && Inv(p3)
    requires Reinjected(p, s, mid, dirty, Of(p1, a), a, k, e)
    requires Demoted(p1, p2) && Followed(p2, p3) && Settles(cfg, p3, q, p3.queue.Keys)
    ensures Settled(Of(q, a), s.Nonce(a)) <==> Held(p, s, mid, dirty, p1, q, a)
  {
    var m, n, z, w := p.state.Nonce(a), s.Nonce(a), Of(p1, a), Of(p3, a);
    assert Settled(Of(p, a), m);
    SurvivesIff(p, s, p1, a, k, e);
    DemoteLaid(z, n, m, Of(p, a).next, k, e, s.Balance(a), s.maxGas, w);
    SettlesAt(cfg, p3, q, a, e);
    if Intact(n, m, Of(p, a).next, k) { JoinedIff(p, s, mid, dirty, p1, q, a, k, e); }
  }

  lemma SurvivesIff(p: Pool, s: State, p1: Pool, a: Address, k: nat, e: nat)
    requires Settled(Of(p, a), p.state.Nonce(a))
    requires Laid(Of(p1, a), s.Nonce(a), p.state.Nonce(a), Of(p, a).next, k, e)
    ensures Survives(p, s, p1, a) <==> Intact(s.Nonce(a), p.state.Nonce(a), Of(p, a).next, k)
  {
    if !Intact(s.Nonce(a), p.state.Nonce(a), Of(p, a).next, k) {
      assert k in Of(p, a).pend && k < s.Nonce(a) && k !in Of(p1, a).pend;
    }
  }

  /** The two sides of a gap, seen from before and from after the limits. */
  lemma JoinedIff(p: Pool, s: State, mid: Pool, dirty: set<Address>, p1: Pool, q: Pool, a: Address, k: nat, e: nat)
    requires LaidAt(p, s, mid, a) && Reinjected(p, s, mid, dirty, Of(p1, a), a, k, e)
    requires Intact(s.Nonce(a), p.state.Nonce(a), Of(p, a).next, k)
    ensures
      var x, z, m, n := Of(mid, a), Of(p1, a), p.state.Nonce(a), s.Nonce(a);
      if m == k || m <= e || e == n || Unpayable(z.pend[m], s.Balance(a), s.maxGas)
      then Joined(p, s, mid, dirty, p1, q, a)
      else e !in z.que && (Joined(p, s, mid, dirty, p1, q, a) <==> e - 1 !in Of(q, a).pend)
  {
    var x, z, m, n := Of(mid, a), Of(p1, a), p.state.Nonce(a), s.Nonce(a);
    assert x.next == n;
    BridgedIff(x, m, RunEnd(x.pend, m), n, s.Balance(a), s.maxGas, FrontEnd(x, n, s.Balance(a), s.maxGas), x.pend);
  }

  /** What the final promotion makes of an account. */
  lemma SettlesAt(cfg: Config, p: Pool, q: Pool, a: Address, e: nat)
    requires Inv(p) && Settles(cfg, p, q, p.queue.Keys)
    ensures
      var w, n := Of(p, a), p.state.Nonce(a);
      && (PendingInterval(w, n) ==> Settled(Of(q, a), n))
      && (Stuck(w, n) ==> !Settled(Of(q, a), n))
      && (Gapped(w, n, e) && e !in w.que ==> (Settled(Of(q, a), n) <==> e - 1 !in Of(q, a).pend))
  {
    var p1, p2 :| SettlesBy(cfg, p, p1, p2, q, p.queue.Keys);
    var w, n := Of(p, a), p.state.Nonce(a);
    if PendingInterval(w, n) {
      SettlesOne(cfg, p, p1, p2, q, p.queue.Keys, a);
    } else if Stuck(w, n) {
      StuckSettles(cfg, p, p1, p2, q, a);
    } else if Gapped(w, n, e) && e !in w.que {
      GapSettles(cfg, p, p1, p2, q, a, e);
    }
  }

  lemma StuckSettles(cfg: Config, p: Pool, p1: Pool, p2: Pool, q: Pool, a: Address)
    requires SettlesBy(cfg, p, p1, p2, q, p.queue.Keys) && Stuck(Of(p, a), p.state.Nonce(a))
    ensures Of(q, a).next < p.state.Nonce(a)
  {
    StuckStays(Of(p, a), p.state.Nonce(a), p.state.Balance(a), p.state.maxGas, QueueCap(cfg, p, a), Len(p2, a));
  }

  lemma GapSettles(cfg: Config, p: Pool, p1: Pool, p2: Pool, q: Pool, a: Address, e: nat)
    requires Inv(p) && SettlesBy(cfg, p, p1, p2, q, p.queue.Keys)
    requires Gapped(Of(p, a), p.state.Nonce(a), e) && e !in Of(p, a).que
    ensures Settled(Of(q, a), p.state.Nonce(a)) <==> e - 1 !in Of(q, a).pend
  {
    var y, z := Of(p1, a), Of(p2, a);
    PromotedGap(cfg, p, p1, a, e);
    assert z == TrimTo(y, Len(p2, a)) && AccountOk(z, a);
    GapEnds(y, Len(p2, a), p.state.Nonce(a), e, z, QueueLen(q, a));
  }

  lemma PromotedGap(cfg: Config, p: Pool, p1: Pool, a: Address, e: nat)
    requires Inv(p) && Promoted(cfg, p, p1, p.queue.Keys)
    requires Gapped(Of(p, a), p.state.Nonce(a), e) && e !in Of(p, a).que
    ensures GapAhead(Of(p1, a), p.state.Nonce(a), e)
  {
    assert AccountOk(Of(p, a), a);
    if a in p.queue {
      PromoteGapped(Of(p, a), a, p.state.Nonce(a), e, p.state.Balance(a), p.state.maxGas, QueueCap(cfg, p, a));
    }
  }

  lemma GapEnds(y: Account, len: nat, n: nat, e: nat, z: Account, left: nat)
    requires GapAhead(y, n, e) && z == TrimTo(y, len) && Keyed(z.que)
    ensures Settled(z.(que := Keep(z.que, left)), n) <==> e - 1 !in z.pend
  {
    TrimGapped(y, len, n, e);
    CapSub(z.que, Some(left));
  }
}
