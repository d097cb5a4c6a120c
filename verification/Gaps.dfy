/** When a reset that puts back transactions of an abandoned branch leaves the pool contiguous
    (core/tx_pool.go). Two things can go wrong. What is put back may end short of what is executable. And
    executable transactions whose nonces the state has passed may make way for it, which takes the virtual
    nonce below the state's. */
module Gaps {
  import opened Types
  import opened Nonces
  import opened Lists
  import opened PoolModel
  import opened Truncation

  // ----- one account -----

  /** A reset on one account, the transactions put back being queued already: they are promoted, the
      executable list is demoted and the virtual nonce follows it. */
  function ResetAccount(x: Account, n: nat, balance: int, maxGas: nat, cap: Option<nat>): Account {
    FollowPending(Demote(Promote(x, n, balance, maxGas, cap), n, balance, maxGas))
  }

  /** The executable nonces from `m` on are reached from the state nonce `n`, unless there is nothing to
      reach them from or they cannot be paid for anyway. */
  predicate Bridged(x: Account, m: nat, n: nat, balance: int, maxGas: nat) {
    var payable := Payable(x.que, n, balance, maxGas);
    m !in x.pend || m <= n || n !in payable || RunEnd(payable, n) >= m || Unpayable(x.pend[m], balance, maxGas)
  }

  /** None of the executable nonces [m, k0) that the state nonce `n` has passed is beyond `k`. */
  predicate Intact(n: nat, m: nat, k0: nat, k: nat) {
    k == k0 || n <= k || n <= m
  }

  /** An account on the way through a reset to state nonce `n`. Of the nonces [m, k0) that were executable
      [m, k) are left, beside a run [n, e). The virtual nonce is behind the run, unless passed nonces were
      lost. */
  ghost predicate Laid(x: Account, n: nat, m: nat, k0: nat, k: nat, e: nat) {
    && n <= e && m <= k <= k0
    && (forall i :: i in x.pend <==> m <= i < k || n <= i < e)
    && (e == n || m == k || k <= n || e <= m)
    && (if Intact(n, m, k0, k) then x.next == e else e == n && k <= x.next < n)
  }

  /** The nonces [n, e) can be paid for. */
  ghost predicate Paid(pend: map<nat, Tx>, n: nat, e: nat, balance: int, maxGas: nat) {
    forall i :: n <= i < e ==> i in pend && !Unpayable(pend[i], balance, maxGas)
  }

  /** Removing a transaction: if its nonce was executable and is passed, the virtual nonce falls behind. */
  lemma RemoveLaid(x: Account, j: nat, n: nat, m: nat, k0: nat, k: nat)
    requires Laid(x, n, m, k0, k, n)
    ensures Laid(Remove(x, j), n, m, k0, if j in x.pend then j else k, n)
    ensures Remove(x, j).next == n <==> x.next == n && !(j in x.pend && j < n)
  {
  }

  /** Where the run that promotion adds ends. */
  function FrontEnd(x: Account, n: nat, balance: int, maxGas: nat): nat {
    if x.next == n then RunEnd(Payable(x.que, n, balance, maxGas), n) else n
  }

  /** Promotion adds the payable run at the state nonce, unless the virtual nonce has fallen behind. */
  lemma PromoteLaid(x: Account, a: Address, n: nat, m: nat, k0: nat, k: nat, balance: int, maxGas: nat,
                    cap: Option<nat>, e: nat, y: Account)
    requires AccountOk(x, a) && Laid(x, n, m, k0, k, n) && e == FrontEnd(x, n, balance, maxGas)
    requires y == Promote(x, n, balance, maxGas, cap)
    ensures Laid(y, n, m, k0, k, e) && Paid(y.pend, n, e, balance, maxGas) && Sub(x.pend, y.pend)
    ensures x.next == n ==> e !in y.que
  {
    var payable := Payable(x.que, n, balance, maxGas);
    PayableSub(x.que, n, balance, maxGas);
    if x.next == n {
      PromotedRun(x, n, balance, maxGas, cap, payable, e);
      RunPayable(x.que, n, balance, maxGas, payable, e);
      RunsOf(x, a, Below(payable, e), y, m, k, n, e, balance, maxGas);
    } else {
      NothingReady(x.(que := payable));
    }
  }

  /** Promotion from the state nonce adds the payable run that starts there. */
  lemma PromotedRun(x: Account, n: nat, balance: int, maxGas: nat, cap: Option<nat>, payable: map<nat, Tx>, e: nat)
    requires x.next == n && payable == Payable(x.que, n, balance, maxGas) && e == RunEnd(payable, n) && Keyed(payable)
    ensures
      var y := Promote(x, n, balance, maxGas, cap);
      y.pend == x.pend + Below(payable, e) && y.next == e && e !in y.que
  {
    PayableSub(x.que, n, balance, maxGas);
    ReadyFromStart(payable, n);
    CapSub(AtLeast(payable, ReadyEnd(payable, n)), cap);
    assert n in payable ==> n in Below(payable, e);
  }

  lemma RunPayable(que: map<nat, Tx>, n: nat, balance: int, maxGas: nat, payable: map<nat, Tx>, e: nat)
    requires payable == Payable(que, n, balance, maxGas) && e == RunEnd(payable, n)
    ensures Sub(Below(payable, e), que) && Interval(Below(payable, e), n, e)
    ensures Paid(Below(payable, e), n, e, balance, maxGas)
  {
    forall i | n <= i < e ensures i in Below(payable, e) && !Unpayable(payable[i], balance, maxGas) {
      assert i in payable;
    }
  }

  lemma RunsOf(x: Account, a: Address, run: map<nat, Tx>, y: Account, m: nat, k: nat, n: nat, e: nat,
               balance: int, maxGas: nat)
    requires AccountOk(x, a) && m <= k && Interval(x.pend, m, k) && y.pend == x.pend + run
    requires n <= e && Sub(run, x.que) && Interval(run, n, e) && Paid(run, n, e, balance, maxGas)
    ensures forall i :: i in y.pend <==> m <= i < k || n <= i < e
    ensures Paid(y.pend, n, e, balance, maxGas) && Sub(x.pend, y.pend)
    ensures e == n || m == k || k <= n || e <= m
  {
    if m < k && n < k {
      var i := if n < m then m else n;
      assert i in x.pend && i !in x.que && i !in run;
    }
  }

  /** Cutting the highest nonce takes it off the far side first, if there is one. */
  lemma CutLaid(y: Account, n: nat, m: nat, k0: nat, k: nat, e: nat) returns (k2: nat, e2: nat)
    requires Laid(y, n, m, k0, k, e) && y.pend != map[]
    ensures Laid(CutLast(y), n, m, k0, k2, e2) && k2 <= k && e2 <= e && (n < m < k2 ==> e2 == e)
  {
    var h := Highest(y.pend);
    if m < k && (e == n || e <= m) {
      assert k - 1 in y.pend;
      k2, e2 := k - 1, e;
    } else {
      assert e - 1 in y.pend;
      k2, e2 := k, e - 1;
    }
    assert h == if k2 < k then k2 else e2;
  }

  lemma {:induction false} TrimLaid(y: Account, len: nat, n: nat, m: nat, k0: nat, k: nat, e: nat)
    returns (k2: nat, e2: nat)
    requires Laid(y, n, m, k0, k, e)
    ensures Laid(TrimTo(y, len), n, m, k0, k2, e2) && k2 <= k && e2 <= e && (n < m < k2 ==> e2 == e)
    ensures Sub(TrimTo(y, len).pend, y.pend) && TrimTo(y, len).que == y.que
    decreases |y.pend|
  {
    k2, e2 := k, e;
    if |y.pend| > len {
      DropSize(y.pend, Highest(y.pend));
      k2, e2 := CutLaid(y, n, m, k0, k, e);
      k2, e2 := TrimLaid(CutLast(y), len, n, m, k0, k2, e2);
    }
  }

  /** Demotion leaves an interval exactly when no passed nonce was lost and the far side is reached, gone,
      alone or unpayable. Otherwise the account is stuck below the state nonce or keeps a gap. */
  lemma DemoteLaid(z: Account, n: nat, m: nat, k0: nat, k: nat, e: nat, balance: int, maxGas: nat, w: Account)
    requires Laid(z, n, m, k0, k, e) && Paid(z.pend, n, e, balance, maxGas)
    requires w == FollowPending(Demote(z, n, balance, maxGas))
    ensures PendingInterval(w, n) <==>
      Intact(n, m, k0, k) && (m == k || m <= e || e == n || Unpayable(z.pend[m], balance, maxGas))
    ensures !Intact(n, m, k0, k) ==> Stuck(w, n)
    ensures Intact(n, m, k0, k) && !PendingInterval(w, n) && e !in z.que ==> Gapped(w, n, e) && e !in w.que
  {
    if !Intact(n, m, k0, k) {
      Outdated(z, n, balance, maxGas, w);
    } else if e == n {
      DemoteInterval(z, m, k, n, balance, maxGas);
    } else if m == k || k <= n {
      OneRun(z, n, e, balance, maxGas);
    } else if e == m {
      OneRun(z, n, k, balance, maxGas);
    } else {
      SecondRun(z, n, e, m, k, balance, maxGas, w);
    }
  }

  /** Nothing is executable and the virtual nonce is behind the state's. */
  ghost predicate Stuck(w: Account, n: nat) {
    w.pend == map[] && w.next < n
  }

  /** The nonces [n, e) are executable and `e` is not, though the virtual nonce is beyond it. */
  ghost predicate Gapped(w: Account, n: nat, e: nat) {
    n < e < w.next && e !in w.pend && (forall i :: n <= i < e ==> i in w.pend) && forall i :: i in w.pend ==> n <= i
  }

  lemma Outdated(z: Account, n: nat, balance: int, maxGas: nat, w: Account)
    requires (forall i :: i in z.pend ==> i < n) && w == FollowPending(Demote(z, n, balance, maxGas))
    ensures w.pend == map[] && w.next == z.next
  {
    assert AtLeast(z.pend, n) == map[];
  }

  lemma OneRun(y: Account, n: nat, hi: nat, balance: int, maxGas: nat)
    requires n < hi && Interval(AtLeast(y.pend, n), n, hi) && n in y.pend && !Unpayable(y.pend[n], balance, maxGas)
    ensures PendingInterval(FollowPending(Demote(y, n, balance, maxGas)), n)
  {
    var current := AtLeast(y.pend, n);
    StrictPrefix(current, balance, maxGas, n, hi);
    var kept := Scan(true, current, balance, maxGas).kept;
    assert n in kept by { ScanSound(true, current, balance, maxGas); }
    KeepsFront(y, n, balance, maxGas, kept);
  }

  /** A list whose front can be paid for loses only what the scan takes out of it. */
  lemma KeepsFront(y: Account, n: nat, balance: int, maxGas: nat, kept: map<nat, Tx>)
    requires kept == Scan(true, AtLeast(y.pend, n), balance, maxGas).kept && n in kept
    ensures
      var w := FollowPending(Demote(y, n, balance, maxGas));
      && w.pend == kept && w.next == Highest(kept) + 1
      && w.que == y.que + Scan(true, AtLeast(y.pend, n), balance, maxGas).invalids
  {
  }

  lemma SecondRun(y: Account, n: nat, e: nat, m: nat, k: nat, balance: int, maxGas: nat, w: Account)
    requires n < e < m < k && (forall i :: i in y.pend <==> m <= i < k || n <= i < e)
    requires Paid(y.pend, n, e, balance, maxGas) && w == FollowPending(Demote(y, n, balance, maxGas))
    ensures PendingInterval(w, n) <==> Unpayable(y.pend[m], balance, maxGas)
    ensures !Unpayable(y.pend[m], balance, maxGas) && e !in y.que ==> Gapped(w, n, e) && e !in w.que
  {
    assert AtLeast(y.pend, n) == y.pend;
    var r := Scan(true, y.pend, balance, maxGas);
    FirstKept(y.pend, n, e, m, k, balance, maxGas, r);
    KeepsFront(y, n, balance, maxGas, r.kept);
    assert w.pend == r.kept && w.next == Highest(r.kept) + 1;
    if m in r.kept {
      assert e !in y.pend && e !in r.kept && e < m < w.next;
    } else {
      TopOf(r.kept, n, e);
    }
  }

  lemma TopOf(m: map<nat, Tx>, lo: nat, hi: nat)
    requires lo < hi && Interval(m, lo, hi)
    ensures m != map[] && Highest(m) == hi - 1
  {
    assert hi - 1 in m;
  }

  /** Of two runs a strict scan keeps the payable first one, and the second exactly when its first
      transaction can be paid for. */
  lemma FirstKept(pend: map<nat, Tx>, n: nat, e: nat, m: nat, k: nat, balance: int, maxGas: nat, r: Sifted)
    requires n < e < m < k && (forall i :: i in pend <==> m <= i < k || n <= i < e)
    requires Paid(pend, n, e, balance, maxGas) && r == Scan(true, pend, balance, maxGas)
    ensures forall i :: n <= i < e ==> i in r.kept
    ensures Sub(r.kept, pend) && Sub(r.invalids, pend)
    ensures m in r.kept <==> !Unpayable(pend[m], balance, maxGas)
    ensures m !in r.kept ==> Interval(r.kept, n, e)
  {
    var removed := Only(pend, UnpayableBy(balance, maxGas));
    if removed != map[] {
      var c := Lowest(removed);
      assert c in pend;
      assert c >= m;
    }
    assert Unpayable(pend[m], balance, maxGas) ==> m in removed;
  }

  /** A reset leaves an account contiguous exactly when its virtual nonce has not fallen behind and no
      payable transactions are queued at the state nonce that end short of the executable ones. A gap is
      looked for at the front only, so the rest of them stay executable behind it. */
  lemma GapIff(x: Account, a: Address, m: nat, k: nat, n: nat, balance: int, maxGas: nat, cap: Option<nat>)
    requires AccountOk(x, a) && m <= k && Interval(x.pend, m, k) && (x.next == n || k <= x.next < n)
    ensures PendingInterval(ResetAccount(x, n, balance, maxGas, cap), n) <==>
      x.next == n && Bridged(x, m, n, balance, maxGas)
  {
    var k0 := if x.next == n then k else k + 1;
    assert Laid(x, n, m, k0, k, n);
    ResetLaid(x, a, m, k0, k, n, balance, maxGas, FrontEnd(x, n, balance, maxGas),
              Promote(x, n, balance, maxGas, cap), cap);
  }

  lemma ResetLaid(x: Account, a: Address, m: nat, k0: nat, k: nat, n: nat, balance: int, maxGas: nat, e: nat,
                  y: Account, cap: Option<nat>)
    requires AccountOk(x, a) && Laid(x, n, m, k0, k, n)
    requires e == FrontEnd(x, n, balance, maxGas) && y == Promote(x, n, balance, maxGas, cap)
    ensures PendingInterval(FollowPending(Demote(y, n, balance, maxGas)), n) <==>
      x.next == n && Bridged(x, m, n, balance, maxGas)
  {
    PromoteLaid(x, a, n, m, k0, k, balance, maxGas, cap, e, y);
    DemoteLaid(y, n, m, k0, k, e, balance, maxGas, FollowPending(Demote(y, n, balance, maxGas)));
    if x.next == n { BridgedIff(x, m, k, n, balance, maxGas, e, y.pend); }
  }

  lemma BridgedIff(x: Account, m: nat, k: nat, n: nat, balance: int, maxGas: nat, e: nat, pend: map<nat, Tx>)
    requires m <= k && Interval(x.pend, m, k) && Sub(x.pend, pend)
    requires x.next == n && e == FrontEnd(x, n, balance, maxGas)
    ensures Bridged(x, m, n, balance, maxGas) <==> m == k || m <= e || e == n || Unpayable(pend[m], balance, maxGas)
  {
  }

  // ----- the final promotion -----

  /** A stuck account stays stuck. */
  lemma StuckStays(w: Account, n: nat, balance: int, maxGas: nat, cap: Option<nat>, len: nat)
    requires Stuck(w, n)
    ensures Promote(w, n, balance, maxGas, cap).pend == map[] && Promote(w, n, balance, maxGas, cap).next == w.next
    ensures TrimTo(Promote(w, n, balance, maxGas, cap), len).next == w.next && TrimTo(w, len).next == w.next
  {
    PayableSub(w.que, n, balance, maxGas);
    NothingReady(w.(que := Payable(w.que, n, balance, maxGas)));
  }

  /** A gap with the queue beyond it. */
  ghost predicate GapAhead(y: Account, n: nat, e: nat) {
    Gapped(y, n, e) && forall i :: i in y.que ==> i > e
  }

  /** Promotion does not fill a gap, since what would fill it is not queued. */
  lemma PromoteGapped(w: Account, a: Address, n: nat, e: nat, balance: int, maxGas: nat, cap: Option<nat>)
    requires AccountOk(w, a) && Gapped(w, n, e) && e !in w.que
    ensures GapAhead(Promote(w, n, balance, maxGas, cap), n, e)
  {
    var payable := Payable(w.que, n, balance, maxGas);
    PayableSub(w.que, n, balance, maxGas);
    forall i | i in payable ensures i > e {
      assert i in w.que && n <= i;
      assert i < e ==> i in w.pend;
    }
    MoveGapped(w.(que := payable), n, e);
    CapSub(MoveReady(w.(que := payable)).que, cap);
  }

  lemma MoveGapped(w: Account, n: nat, e: nat)
    requires GapAhead(w, n, e)
    ensures GapAhead(MoveReady(w), n, e) && Sub(MoveReady(w).que, w.que)
  {
    var end := ReadyEnd(w.que, w.next);
    if Below(w.que, end) != map[] {
      var i :| i in Below(w.que, end);
      assert e < i < end;
    }
  }

  /** The front has been cut: an interval short of the gap. */
  ghost predicate FrontCut(z: Account, n: nat, e: nat) {
    PendingInterval(z, n) && z.next < e && forall i :: i in z.que ==> i > e
  }

  lemma CutGapped(y: Account, n: nat, e: nat)
    requires y.pend != map[] && (GapAhead(y, n, e) || FrontCut(y, n, e))
    ensures GapAhead(CutLast(y), n, e) || FrontCut(CutLast(y), n, e)
  {
    var h := Highest(y.pend);
    if GapAhead(y, n, e) {
      assert e - 1 in y.pend && h != e;
      if h < e { assert h == e - 1; }
    } else {
      CutSettled(y, n);
      assert y.next - 1 in y.pend;
    }
  }

  /** Cutting closes a gap exactly when it reaches the front. */
  lemma {:induction false} TrimGapped(y: Account, len: nat, n: nat, e: nat)
    requires n < e && (GapAhead(y, n, e) || FrontCut(y, n, e))
    ensures Settled(TrimTo(y, len), n) <==> e - 1 !in TrimTo(y, len).pend
    ensures PendingInterval(TrimTo(y, len), n) <==> e - 1 !in TrimTo(y, len).pend
    decreases |y.pend|
  {
    if |y.pend| > len {
      DropSize(y.pend, Highest(y.pend));
      CutGapped(y, n, e);
      TrimGapped(CutLast(y), len, n, e);
    }
  }
}
