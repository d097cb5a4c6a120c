/** The transaction pool (core/tx_pool.go) as a value: per account an executable list, a queue and a
    virtual nonce. Every operation works account by account, so each is a function on one account. */
module PoolModel {
  import opened Types
  import opened Nonces
  import opened Lists

  datatype Config = Config(
    priceBump: nat, accountSlots: nat, globalSlots: nat, accountQueue: nat, globalQueue: nat, noLocals: bool)

  /** What the pool reads of the chain state at the head. */
  datatype State = State(nonces: map<Address, nat>, balances: map<Address, int>, maxGas: nat) {
    function Nonce(a: Address): nat { if a in nonces then nonces[a] else 0 }
    function Balance(a: Address): int { if a in balances then balances[a] else 0 }
  }

  type AccountLists = map<Address, map<nat, Tx>>

  /** `next` holds the virtual nonces that differ from the state's. AccountLists are never empty. */
  datatype Pool = Pool(
    state: State, next: map<Address, nat>, pending: AccountLists, queue: AccountLists, locals: set<Address>,
    gasPrice: int)

  datatype Account = Account(pend: map<nat, Tx>, que: map<nat, Tx>, next: nat)

  function Items(m: AccountLists, a: Address): map<nat, Tx> { if a in m then m[a] else map[] }

  function SetItems(m: AccountLists, a: Address, items: map<nat, Tx>): AccountLists {
    if items == map[] then m - {a} else m[a := items]
  }

  function NextNonce(p: Pool, a: Address): nat { if a in p.next then p.next[a] else p.state.Nonce(a) }

  /** Records a virtual nonce where it differs from the state's. */
  function SetNext(next: map<Address, nat>, a: Address, n: nat, stateNonce: nat): map<Address, nat> {
    if n == stateNonce then next - {a} else next[a := n]
  }

  function Of(p: Pool, a: Address): Account {
    Account(Items(p.pending, a), Items(p.queue, a), NextNonce(p, a))
  }

  function Put(p: Pool, a: Address, x: Account): Pool {
    p.(pending := SetItems(p.pending, a, x.pend), queue := SetItems(p.queue, a, x.que),
        next := SetNext(p.next, a, x.next, p.state.Nonce(a)))
  }

  /** Both lists file transactions under their sender and nonce, and share no nonce. */
  ghost predicate AccountOk(x: Account, a: Address) {
    && (forall n :: n in x.pend ==> x.pend[n].nonce == n && x.pend[n].sender == a)
    && (forall n :: n in x.que ==> x.que[n].nonce == n && x.que[n].sender == a)
    && (forall n :: n in x.pend ==> n !in x.que)
  }

  ghost predicate Inv(p: Pool) {
    && (forall a :: AccountOk(Of(p, a), a))
    && (forall a :: a in p.pending ==> p.pending[a] != map[])
    && (forall a :: a in p.queue ==> p.queue[a] != map[])
    && (forall a :: a in p.next ==> p.next[a] != p.state.Nonce(a))
  }

  /** The part of it that does not look into the lists. */
  ghost predicate Normalised(p: Pool) {
    && (forall a :: a in p.pending ==> p.pending[a] != map[])
    && (forall a :: a in p.queue ==> p.queue[a] != map[])
    && (forall a :: a in p.next ==> p.next[a] != p.state.Nonce(a))
  }

  /** Whether a transaction is in a set of lists. */
  predicate Has(m: AccountLists, tx: Tx) {
    tx.nonce in Items(m, tx.sender) && Items(m, tx.sender)[tx.nonce] == tx
  }

  predicate Pooled(p: Pool, tx: Tx) { Has(p.pending, tx) || Has(p.queue, tx) }

  /** The executable nonces are those from the state's up to the virtual nonce. */
  ghost predicate PendingInterval(x: Account, stateNonce: nat) {
    stateNonce <= x.next && Interval(x.pend, stateNonce, x.next)
  }

  /** In addition nothing queued is executable: every queued nonce lies above the virtual nonce. */
  ghost predicate Settled(x: Account, stateNonce: nat) {
    PendingInterval(x, stateNonce) && forall n :: n in x.que ==> n > x.next
  }

  ghost predicate Contiguous(p: Pool) {
    forall a :: Settled(Of(p, a), p.state.Nonce(a))
  }

  // ----- one account -----

  /** The queued transactions that are neither outdated nor unpayable. */
  function Payable(que: map<nat, Tx>, stateNonce: nat, balance: int, maxGas: nat): map<nat, Tx> {
    Scan(false, AtLeast(que, stateNonce), balance, maxGas).kept
  }

  function CapTo(m: map<nat, Tx>, cap: Option<nat>): map<nat, Tx> {
    if cap.Some? then Keep(m, cap.value) else m
  }

  /** promoteExecutables for one account: drops outdated and unpayable queued transactions, moves the run
      that starts at the virtual nonce, and caps what stays queued. */
  function Promote(x: Account, stateNonce: nat, balance: int, maxGas: nat, cap: Option<nat>): Account {
    var moved := MoveReady(x.(que := Payable(x.que, stateNonce, balance, maxGas)));
    moved.(que := CapTo(moved.que, cap))
  }

  /** Drops the unpayable executable transactions and queues what followed them. */
  function Unpay(x: Account, balance: int, maxGas: nat): Account {
    var r := Scan(true, x.pend, balance, maxGas);
    Account(r.kept, x.que + r.invalids, x.next)
  }

  /** Queues the whole executable list when its first nonce is missing. */
  function CloseGap(x: Account, stateNonce: nat): Account {
    if x.pend != map[] && stateNonce !in x.pend then Account(map[], x.que + x.pend, x.next) else x
  }

  /** demoteUnexecutables for one account. */
  function Demote(x: Account, stateNonce: nat, balance: int, maxGas: nat): Account {
    CloseGap(Unpay(x.(pend := AtLeast(x.pend, stateNonce)), balance, maxGas), stateNonce)
  }

  /** The virtual nonce after a reset follows the last executable transaction. */
  function FollowPending(x: Account): Account {
    if x.pend == map[] then x else x.(next := Highest(x.pend) + 1)
  }

  /** removeTx for one account. */
  function Remove(x: Account, nonce: nat): Account {
    if nonce in x.pend then
      var r := RemoveNonce(true, x.pend, nonce);
      Account(r.kept, x.que + r.invalids, if x.next > nonce then nonce else x.next)
    else
      x.(que := Drop(x.que, nonce))
  }

  lemma PutOf(p: Pool, a: Address, x: Account)
    requires Inv(p) && AccountOk(x, a)
    ensures Inv(Put(p, a, x)) && Of(Put(p, a, x), a) == x
    ensures forall b :: b != a ==> Of(Put(p, a, x), b) == Of(p, b)
  {
    PutReads(p, a, x);
    forall b ensures AccountOk(Of(Put(p, a, x), b), b) { if b != a { assert AccountOk(Of(p, b), b); } }
  }

  lemma PutReads(p: Pool, a: Address, x: Account)
    ensures Of(Put(p, a, x), a) == x
    ensures forall b :: b != a ==> Of(Put(p, a, x), b) == Of(p, b)
  {
  }

  /** Putting an account back where it was changes nothing. */
  lemma PutSame(p: Pool, a: Address)
    requires Inv(p)
    ensures Put(p, a, Of(p, a)) == p
  {
  }

  ghost predicate Sub(m: map<nat, Tx>, w: map<nat, Tx>) {
    forall n :: n in m ==> n in w && m[n] == w[n]
  }

  lemma PayableSub(que: map<nat, Tx>, stateNonce: nat, balance: int, maxGas: nat)
    ensures
      var m := Payable(que, stateNonce, balance, maxGas);
      Sub(m, que) && forall n :: n in m ==> stateNonce <= n
  {
  }

  lemma CapSub(m: map<nat, Tx>, cap: Option<nat>)
    requires Keyed(m)
    ensures Sub(CapTo(m, cap), m)
  {
    if cap.Some? { KeepIsLowest(m, cap.value); }
  }

  /** Moving part of the queue to the executable list and dropping another part. */
  lemma MoveOk(x: Account, a: Address, moved: map<nat, Tx>, rest: map<nat, Tx>, next: nat)
    requires AccountOk(x, a) && Sub(moved, x.que) && Sub(rest, x.que)
    requires forall n :: n in moved ==> n !in rest
    ensures AccountOk(Account(x.pend + moved, rest, next), a)
  {
  }

  /** Promotion leaves nothing executable behind. */
  lemma PromoteSettles(x: Account, a: Address, stateNonce: nat, balance: int, maxGas: nat, cap: Option<nat>)
    requires AccountOk(x, a) && PendingInterval(x, stateNonce)
    ensures Settled(Promote(x, stateNonce, balance, maxGas, cap), stateNonce)
  {
    var payable := Payable(x.que, stateNonce, balance, maxGas);
    PayableSub(x.que, stateNonce, balance, maxGas);
    assert forall n :: n in payable ==> x.next <= n;
    ReadyFromStart(payable, x.next);
    CapSub(AtLeast(payable, ReadyEnd(payable, x.next)), cap);
    RunJoins(x.pend, payable, stateNonce, x.next);
  }

  /** An interval followed by the run that starts where it ends is an interval. */
  lemma RunJoins(pend: map<nat, Tx>, payable: map<nat, Tx>, lo: nat, hi: nat)
    requires lo <= hi && Interval(pend, lo, hi) && forall n :: n in payable ==> hi <= n
    ensures
      var e := ReadyEnd(payable, hi);
      var next := if Below(payable, e) == map[] then hi else e;
      hi <= next == RunEnd(payable, hi) && Interval(pend + Below(payable, e), lo, next)
  {
    ReadyFromStart(payable, hi);
    var e := ReadyEnd(payable, hi);
    if hi in payable { assert hi in Below(payable, e); }
  }

  /** Demoting an interval under a new state leaves an interval that starts at the state's nonce. */
  lemma DemoteInterval(x: Account, lo: nat, hi: nat, stateNonce: nat, balance: int, maxGas: nat)
    requires Interval(x.pend, lo, hi) && x.next == stateNonce
    ensures PendingInterval(FollowPending(Demote(x, stateNonce, balance, maxGas)), stateNonce)
  {
    var current := AtLeast(x.pend, stateNonce);
    var from := if lo < stateNonce then stateNonce else lo;
    if from < hi {
      assert Interval(current, from, hi);
      StrictPrefix(current, balance, maxGas, from, hi);
    } else {
      assert current == map[];
    }
  }

  lemma RemoveOk(x: Account, a: Address, nonce: nat)
    requires AccountOk(x, a)
    ensures AccountOk(Remove(x, nonce), a)
  {
  }

  lemma RemoveSettled(x: Account, a: Address, nonce: nat, stateNonce: nat)
    requires AccountOk(x, a)
    ensures Settled(x, stateNonce) ==> Settled(Remove(x, nonce), stateNonce)
    ensures PendingInterval(x, stateNonce) ==> PendingInterval(Remove(x, nonce), stateNonce)
  {
  }

  // ----- the whole pool -----

  function Enqueue(p: Pool, tx: Tx, priceBump: nat): Pool {
    var x := Of(p, tx.sender);
    if Accepts(x.que, tx, priceBump) then Put(p, tx.sender, x.(que := x.que[tx.nonce := tx])) else p
  }

  /** A transaction moved to the executable list, with the virtual nonce after it. */
  function WithExecutable(p: Pool, a: Address, tx: Tx): Pool {
    var x := Of(p, a);
    Put(p, a, x.(pend := x.pend[tx.nonce := tx], next := tx.nonce + 1))
  }

  lemma EnqueueApart(p: Pool, tx: Tx, priceBump: nat)
    ensures Inv(p) && tx.nonce !in Of(p, tx.sender).pend ==> Inv(Enqueue(p, tx, priceBump))
  {
    var x := Of(p, tx.sender);
    var y := x.(que := x.que[tx.nonce := tx]);
    if Inv(p) && tx.nonce !in x.pend {
      assert AccountOk(y, tx.sender) by { assert AccountOk(x, tx.sender); }
      PutOf(p, tx.sender, y);
    }
  }

  lemma PromoteApart(p: Pool, a: Address, tx: Tx)
    ensures Inv(p) && tx.sender == a && tx.nonce !in Of(p, a).que ==> Inv(WithExecutable(p, a, tx))
  {
    var x := Of(p, a);
    var y := x.(pend := x.pend[tx.nonce := tx], next := tx.nonce + 1);
    if Inv(p) && tx.sender == a && tx.nonce !in x.que {
      assert AccountOk(y, a) by { assert AccountOk(x, a); }
      PutOf(p, a, y);
      assert WithExecutable(p, a, tx) == Put(p, a, y);
    }
  }

  function RemoveTx(p: Pool, tx: Tx): Pool {
    if Pooled(p, tx) then Put(p, tx.sender, Remove(Of(p, tx.sender), tx.nonce)) else p
  }

  function QueueCap(cfg: Config, p: Pool, a: Address): Option<nat> {
    if a in p.locals then None else Some(cfg.accountQueue)
  }

  function PromoteOf(cfg: Config, p: Pool, a: Address): Account {
    Promote(Of(p, a), p.state.Nonce(a), p.state.Balance(a), p.state.maxGas, QueueCap(cfg, p, a))
  }

  function PromoteAt(cfg: Config, p: Pool, a: Address): Pool {
    if a in p.queue then Put(p, a, PromoteOf(cfg, p, a)) else p
  }

  function DemoteOf(p: Pool, a: Address): Account {
    Demote(Of(p, a), p.state.Nonce(a), p.state.Balance(a), p.state.maxGas)
  }

  function DemoteAt(p: Pool, a: Address): Pool {
    if a in p.pending then Put(p, a, DemoteOf(p, a)) else p
  }

  lemma PutQueue(p: Pool, a: Address, que: map<nat, Tx>)
    requires Normalised(p)
    ensures Put(p, a, Of(p, a).(que := que)) == p.(queue := SetItems(p.queue, a, que))
  {
  }

  lemma PutPending(p: Pool, a: Address, pend: map<nat, Tx>)
    requires Normalised(p)
    ensures Put(p, a, Of(p, a).(pend := pend)) == p.(pending := SetItems(p.pending, a, pend))
  {
  }

  lemma PutNext(p: Pool, a: Address, n: nat)
    requires Normalised(p)
    ensures Put(p, a, Of(p, a).(next := n)) == p.(next := SetNext(p.next, a, n, p.state.Nonce(a)))
  {
  }

  lemma PutNormalised(p: Pool, a: Address, x: Account)
    requires Normalised(p)
    ensures Normalised(Put(p, a, x))
  {
  }

  lemma SetSet(m: AccountLists, a: Address, x: map<nat, Tx>, y: map<nat, Tx>)
    ensures SetItems(SetItems(m, a, x), a, y) == SetItems(m, a, y)
  {
  }

  lemma PutPut(p: Pool, a: Address, x: Account, y: Account)
    ensures Put(Put(p, a, x), a, y) == Put(p, a, y)
  {
    SetSet(p.pending, a, x.pend, y.pend);
    SetSet(p.queue, a, x.que, y.que);
    NextNext(p.next, a, x.next, y.next, p.state.Nonce(a));
  }

  lemma PutAgain(p: Pool, q: Pool, a: Address, x: Account, y: Account)
    requires q == Put(p, a, x)
    ensures Of(q, a) == x && Put(q, a, y) == Put(p, a, y)
  {
    PutReads(p, a, x);
    PutPut(p, a, x, y);
  }

  lemma NextNext(next: map<Address, nat>, a: Address, m: nat, n: nat, stateNonce: nat)
    ensures SetNext(SetNext(next, a, m, stateNonce), a, n, stateNonce) == SetNext(next, a, n, stateNonce)
  {
  }

  predicate InAccount(x: Account, tx: Tx) {
    (tx.nonce in x.pend && x.pend[tx.nonce] == tx) || (tx.nonce in x.que && x.que[tx.nonce] == tx)
  }

  lemma PooledPut(p: Pool, a: Address, x: Account, tx: Tx)
    ensures Pooled(Put(p, a, x), tx) <==> if tx.sender == a then InAccount(x, tx) else Pooled(p, tx)
    ensures Pooled(p, tx) <==> InAccount(Of(p, tx.sender), tx)
  {
  }

  /** Dropping part of an account's queue drops exactly those transactions from the pool. */
  lemma QueueShrinks(p: Pool, a: Address, que: map<nat, Tx>, dropped: set<Tx>)
    requires Inv(p) && Sub(que, Of(p, a).que)
    requires forall tx :: tx in dropped <==>
               tx.nonce in Of(p, a).que && Of(p, a).que[tx.nonce] == tx && tx.nonce !in que
    ensures AccountOk(Of(p, a).(que := que), a)
    ensures forall tx :: Pooled(Put(p, a, Of(p, a).(que := que)), tx) <==> Pooled(p, tx) && tx !in dropped
  {
    var x := Of(p, a);
    assert AccountOk(x, a);
    forall tx ensures Pooled(Put(p, a, x.(que := que)), tx) <==> Pooled(p, tx) && tx !in dropped {
      PooledPut(p, a, x.(que := que), tx);
    }
  }

  lemma QueuePooled(p: Pool, a: Address, all: set<Tx>)
    requires Inv(p) && forall tx :: tx in all <==> Pooled(p, tx)
    ensures TxSet(Of(p, a).que) <= all && TxSet(Of(p, a).pend) <= all
  {
    assert AccountOk(Of(p, a), a);
  }

  /** The account while the run from `low` is being moved, with the nonces below `n` already across. */
  function Moving(x: Account, e: nat, low: nat, n: nat): Account {
    Account(x.pend + Below(x.que, n), AtLeast(x.que, e), if n <= low then x.next else n)
  }

  lemma MovingStarts(x: Account, e: nat)
    requires x.que != map[]
    ensures Moving(x, e, Lowest(x.que), Lowest(x.que)) == x.(que := AtLeast(x.que, e))
  {
    assert Below(x.que, Lowest(x.que)) == map[];
  }

  lemma MovingStep(p: Pool, a: Address, x: Account, e: nat, low: nat, n: nat)
    requires low <= n < e && n in x.que
    ensures
      var y := Moving(x, e, low, n);
      Put(Put(p, a, y), a, y.(pend := y.pend[n := x.que[n]], next := n + 1)) == Put(p, a, Moving(x, e, low, n + 1))
  {
    var y := Moving(x, e, low, n);
    assert y.pend[n := x.que[n]] == x.pend + Below(x.que, n + 1);
    PutPut(p, a, y, Moving(x, e, low, n + 1));
  }

  lemma MovingReads(was: Pool, p: Pool, a: Address, x: Account, e: nat, low: nat, n: nat, y: Account, tx: Tx)
    requires AccountOk(x, a) && low <= n < e && n in x.que && tx == x.que[n]
    requires y == Moving(x, e, low, n) && p == Put(was, a, y)
    ensures Of(p, a) == y && tx.sender == a && tx.nonce == n && n !in y.pend && n !in y.que
    ensures WithExecutable(p, a, tx) == Put(was, a, Moving(x, e, low, n + 1))
  {
    PutReads(was, a, y);
    MovingStep(was, a, x, e, low, n);
  }

  /** The account once its ready run has been moved. */
  function MoveReady(x: Account): Account {
    var e := ReadyEnd(x.que, x.next);
    Account(x.pend + Below(x.que, e), AtLeast(x.que, e), if Below(x.que, e) == map[] then x.next else e)
  }

  lemma MovingEnds(x: Account)
    requires x.que != map[] && Lowest(x.que) <= x.next
    ensures
      var low := Lowest(x.que);
      var e := RunEnd(x.que, low);
      low < e && Moving(x, e, low, e) == MoveReady(x)
  {
    assert Lowest(x.que) in Below(x.que, RunEnd(x.que, Lowest(x.que)));
  }

  lemma NothingReady(x: Account)
    requires x.que == map[] || Lowest(x.que) > x.next
    ensures MoveReady(x) == x
  {
    assert Below(x.que, 0) == map[] && AtLeast(x.que, 0) == x.que;
  }

  lemma MovingOk(x: Account, a: Address, e: nat, low: nat, n: nat)
    requires AccountOk(x, a) && n <= e
    ensures AccountOk(Moving(x, e, low, n), a)
  {
  }

  /** Everything needed to move the run of an account that has one. */
  lemma ReadyRun(p: Pool, a: Address, x: Account, low: nat, e: nat, all: set<Tx>)
    requires Inv(p) && x == Of(p, a) && (forall tx :: tx in all <==> Pooled(p, tx))
    requires x.que != map[] && low == Lowest(x.que) <= x.next && e == RunEnd(x.que, low)
    ensures low < e && AccountOk(x, a) && AccountOk(x.(que := AtLeast(x.que, e)), a) && TxSet(x.que) <= all
    ensures Moving(x, e, low, low) == x.(que := AtLeast(x.que, e)) && Moving(x, e, low, e) == MoveReady(x)
  {
    assert AccountOk(x, a);
    MovingStarts(x, e);
    MovingOk(x, a, e, low, low);
    MovingEnds(x);
    QueuePooled(p, a, all);
  }

  lemma MoveReadyIn(x: Account)
    requires forall n :: n in x.pend ==> n !in x.que
    ensures forall tx :: InAccount(MoveReady(x), tx) <==> InAccount(x, tx)
  {
  }

  lemma MoveReadyPooled(p: Pool, a: Address)
    requires Inv(p)
    ensures AccountOk(MoveReady(Of(p, a)), a)
    ensures forall tx :: Pooled(Put(p, a, MoveReady(Of(p, a))), tx) <==> Pooled(p, tx)
  {
    var x := Of(p, a);
    assert AccountOk(x, a);
    var e := ReadyEnd(x.que, x.next);
    MoveOk(x, a, Below(x.que, e), AtLeast(x.que, e), MoveReady(x).next);
    MoveReadyIn(x);
    forall tx ensures Pooled(Put(p, a, MoveReady(x)), tx) <==> Pooled(p, tx) {
      PooledPut(p, a, MoveReady(x), tx);
    }
  }

  /** What the three drops take out of a queue, as sets of transactions. */
  lemma DroppedOld(que: map<nat, Tx>, stateNonce: nat)
    requires Keyed(que)
    ensures Sub(AtLeast(que, stateNonce), que)
    ensures forall tx :: tx in TxSet(Below(que, stateNonce)) <==>
              tx.nonce in que && que[tx.nonce] == tx && tx.nonce !in AtLeast(que, stateNonce)
  {
    TxSetHas(Below(que, stateNonce));
  }

  lemma DroppedUnpayable(que: map<nat, Tx>, balance: int, maxGas: nat)
    requires Keyed(que)
    ensures
      var r := Scan(false, que, balance, maxGas);
      && Sub(r.kept, que)
      && forall tx :: tx in TxSet(r.removed) <==>
           tx.nonce in que && que[tx.nonce] == tx && tx.nonce !in r.kept
  {
    TxSetHas(Scan(false, que, balance, maxGas).removed);
  }

  lemma DroppedExcess(que: map<nat, Tx>, k: nat)
    requires Keyed(que)
    ensures Sub(Keep(que, k), que)
    ensures forall tx :: tx in (set t | t in Excess(que, k)) <==>
              tx.nonce in que && que[tx.nonce] == tx && tx.nonce !in Keep(que, k)
  {
    KeepIsLowest(que, k);
  }

  /** Promoting an account with nothing queued changes nothing. */
  lemma EmptyQueue(p: Pool, a: Address, cap: Option<nat>)
    requires Inv(p) && a !in p.queue
    ensures Put(p, a, Promote(Of(p, a), p.state.Nonce(a), p.state.Balance(a), p.state.maxGas, cap)) == p
  {
    assert Payable(map[], p.state.Nonce(a), p.state.Balance(a), p.state.maxGas) == map[];
    NothingReady(Of(p, a));
    PutSame(p, a);
  }

  /** Transactions of one account whose nonces are in neither of its lists. */
  ghost predicate Queueable(x: Account, moved: map<nat, Tx>, a: Address) {
    forall n :: n in moved ==> moved[n].nonce == n && moved[n].sender == a && n !in x.pend && n !in x.que
  }

  /** On the way from `x` to `x` with `moved` queued: `y` has all of it but `rest`. */
  ghost predicate InTransit(x: Account, moved: map<nat, Tx>, y: Account, rest: map<nat, Tx>, a: Address) {
    && Queueable(y, rest, a)
    && y == x.(que := y.que)
    && y.que + rest == x.que + moved
    && TxSet(rest) <= TxSet(moved)
  }

  lemma QueueingStep(x: Account, moved: map<nat, Tx>, y: Account, rest: map<nat, Tx>, n: nat, a: Address)
    requires n in rest && InTransit(x, moved, y, rest, a)
    ensures InTransit(x, moved, y.(que := y.que[n := rest[n]]), Drop(rest, n), a)
    ensures rest[n].nonce == n && rest[n].sender == a && n !in y.pend && n !in y.que && rest[n] in TxSet(moved)
    ensures |Drop(rest, n)| < |rest|
  {
    DropSize(rest, n);
    MoveOne(y.que, rest, n);
  }

  lemma MoveOne(que: map<nat, Tx>, rest: map<nat, Tx>, n: nat)
    requires n in rest
    ensures que[n := rest[n]] + Drop(rest, n) == que + rest
    ensures rest[n] in TxSet(rest) && TxSet(Drop(rest, n)) <= TxSet(rest)
  {
  }

  lemma QueueingEnds(x: Account, moved: map<nat, Tx>, y: Account, a: Address)
    requires InTransit(x, moved, y, map[], a)
    ensures y == x.(que := x.que + moved)
  {
    assert y.que + map[] == y.que;
  }

  /** removeTx takes exactly its transaction out of the pool. */
  lemma RemoveTxPooled(p: Pool, tx: Tx)
    requires Inv(p)
    ensures Inv(RemoveTx(p, tx))
    ensures forall t :: Pooled(RemoveTx(p, tx), t) <==> Pooled(p, t) && t != tx
  {
    if Pooled(p, tx) {
      var a := tx.sender;
      var x := Of(p, a);
      assert AccountOk(x, a);
      PooledPut(p, a, x, tx);
      RemoveOk(x, a, tx.nonce);
      PutOf(p, a, Remove(x, tx.nonce));
      RemoveIn(x, a, tx);
      forall t ensures Pooled(RemoveTx(p, tx), t) <==> Pooled(p, t) && t != tx {
        PooledPut(p, a, Remove(x, tx.nonce), t);
      }
    }
  }

  /** What removeTx starts from and what it leaves, by the lookup. */
  lemma RemoveTracked(p: Pool, tx: Tx, all: set<Tx>)
    requires Inv(p) && forall t :: t in all <==> Pooled(p, t)
    ensures Inv(RemoveTx(p, tx)) && forall t :: t in all - {tx} <==> Pooled(RemoveTx(p, tx), t)
    ensures tx in all <==> Pooled(p, tx)
    ensures tx !in all ==> all - {tx} == all && RemoveTx(p, tx) == p
    ensures TxSet(Of(p, tx.sender).pend) - {tx} <= all - {tx}
  {
    RemoveTxPooled(p, tx);
    QueuePooled(p, tx.sender, all);
  }

  lemma RemoveIn(x: Account, a: Address, tx: Tx)
    requires AccountOk(x, a) && InAccount(x, tx)
    ensures forall t :: InAccount(Remove(x, tx.nonce), t) <==> InAccount(x, t) && t != tx
  {
  }

  /** What leaves the executable list with a removed nonce can be queued. */
  lemma InvalidsQueueable(x: Account, a: Address, nonce: nat)
    requires AccountOk(x, a) && nonce in x.pend
    ensures
      var r := RemoveNonce(true, x.pend, nonce);
      && AccountOk(x.(pend := r.kept), a)
      && Queueable(x.(pend := r.kept), r.invalids, a)
      && TxSet(r.invalids) <= TxSet(x.pend) - {x.pend[nonce]}
  {
  }

  /** The pool's transactions when `gone` leaves it and account `a` becomes `y`. */
  ghost predicate Leaves(p: Pool, a: Address, y: Account, all: set<Tx>, gone: set<Tx>) {
    forall tx :: tx in all - gone <==> Pooled(Put(p, a, y), tx)
  }

  lemma LeavesAccount(p: Pool, a: Address, y: Account, all: set<Tx>, gone: set<Tx>)
    requires Inv(p) && (forall tx :: tx in all <==> Pooled(p, tx)) && forall tx :: tx in gone ==> tx.sender == a
    requires forall tx :: InAccount(y, tx) <==> InAccount(Of(p, a), tx) && tx !in gone
    ensures Leaves(p, a, y, all, gone)
  {
    forall tx ensures tx in all - gone <==> Pooled(Put(p, a, y), tx) {
      PooledPut(p, a, y, tx);
    }
  }

  /** What demotion drops as outdated. */
  lemma DemoteOld(p: Pool, a: Address, all: set<Tx>)
    requires Inv(p) && forall tx :: tx in all <==> Pooled(p, tx)
    ensures
      var x := Of(p, a);
      var y := x.(pend := AtLeast(x.pend, p.state.Nonce(a)));
      AccountOk(y, a) && Leaves(p, a, y, all, TxSet(Below(x.pend, p.state.Nonce(a))))
  {
    var x := Of(p, a);
    assert AccountOk(x, a);
    TxSetHas(Below(x.pend, p.state.Nonce(a)));
    LeavesAccount(p, a, x.(pend := AtLeast(x.pend, p.state.Nonce(a))), all, TxSet(Below(x.pend, p.state.Nonce(a))));
  }

  /** What demotion drops as unpayable, and what it queues. */
  lemma DemoteUnpayable(p: Pool, a: Address, all: set<Tx>)
    requires Inv(p) && forall tx :: tx in all <==> Pooled(p, tx)
    ensures
      var x := Of(p, a);
      var r := Scan(true, x.pend, p.state.Balance(a), p.state.maxGas);
      && AccountOk(x.(pend := r.kept), a)
      && Queueable(x.(pend := r.kept), r.invalids, a)
      && TxSet(r.invalids) <= all - TxSet(r.removed)
      && Leaves(p, a, Unpay(x, p.state.Balance(a), p.state.maxGas), all, TxSet(r.removed))
  {
    var x := Of(p, a);
    var r := Scan(true, x.pend, p.state.Balance(a), p.state.maxGas);
    assert AccountOk(x, a);
    UnpayIn(x, a, p.state.Balance(a), p.state.maxGas);
    QueuePooled(p, a, all);
    LeavesAccount(p, a, Unpay(x, p.state.Balance(a), p.state.maxGas), all, TxSet(r.removed));
  }

  lemma UnpayIn(x: Account, a: Address, balance: int, maxGas: nat)
    requires AccountOk(x, a)
    ensures
      var r := Scan(true, x.pend, balance, maxGas);
      var gone := TxSet(r.removed);
      && AccountOk(x.(pend := r.kept), a)
      && Queueable(x.(pend := r.kept), r.invalids, a)
      && TxSet(r.invalids) <= TxSet(x.pend) - gone
      && (forall tx :: tx in gone ==> tx.sender == a)
      && (forall tx :: InAccount(Unpay(x, balance, maxGas), tx) <==> InAccount(x, tx) && tx !in gone)
  {
    UnpayMembers(x, a, balance, maxGas);
    var r := Scan(true, x.pend, balance, maxGas);
    TxSetHas(r.removed);
    TxSetHas(r.invalids);
    TxSetHas(x.pend);
    ScanSplit(x.pend, balance, maxGas);
  }

  lemma UnpayMembers(x: Account, a: Address, balance: int, maxGas: nat)
    requires AccountOk(x, a)
    ensures
      var gone := TxSet(Scan(true, x.pend, balance, maxGas).removed);
      forall tx :: InAccount(Unpay(x, balance, maxGas), tx) <==> InAccount(x, tx) && tx !in gone
  {
    var r := Scan(true, x.pend, balance, maxGas);
    TxSetHas(r.removed);
    ScanSplit(x.pend, balance, maxGas);
  }

  lemma ScanSplit(items: map<nat, Tx>, balance: int, maxGas: nat)
    ensures
      var r := Scan(true, items, balance, maxGas);
      && Sub(r.kept, items) && Sub(r.invalids, items) && Sub(r.removed, items)
      && forall n :: n in items ==>
           && (n in r.kept || n in r.invalids || n in r.removed)
           && !(n in r.kept && n in r.invalids) && !(n in r.kept && n in r.removed)
           && !(n in r.invalids && n in r.removed)
  {
    ScanSound(true, items, balance, maxGas);
  }

  /** Queueing the whole executable list loses nothing. */
  lemma DemoteGapped(p: Pool, a: Address, all: set<Tx>)
    requires Inv(p) && forall tx :: tx in all <==> Pooled(p, tx)
    ensures
      var x := Of(p, a);
      && AccountOk(x.(pend := map[]), a) && Queueable(x.(pend := map[]), x.pend, a) && TxSet(x.pend) <= all
      && Leaves(p, a, Account(map[], x.que + x.pend, x.next), all, {})
  {
    var x := Of(p, a);
    assert AccountOk(x, a);
    QueuePooled(p, a, all);
    LeavesAccount(p, a, Account(map[], x.que + x.pend, x.next), all, {});
  }

  lemma DemoteNothing(p: Pool, a: Address)
    requires Inv(p) && a !in p.pending
    ensures Put(p, a, Demote(Of(p, a), p.state.Nonce(a), p.state.Balance(a), p.state.maxGas)) == p
  {
    var x := Of(p, a);
    assert AtLeast(x.pend, p.state.Nonce(a)) == map[];
    var r := Scan(true, map[], p.state.Balance(a), p.state.maxGas);
    assert r.kept == map[] && r.invalids == map[];
    assert x.que + map[] == x.que;
    PutSame(p, a);
  }

  // ----- many accounts -----

  ghost predicate SameRest(p: Pool, q: Pool) {
    p.state == q.state && p.locals == q.locals && p.gasPrice == q.gasPrice
  }

  /** `p` is `p0` with the accounts in `done`, other than those in `todo`, promoted. */
  ghost predicate Promoting(cfg: Config, p0: Pool, p: Pool, done: set<Address>, todo: set<Address>) {
    SameRest(p0, p) && forall a :: Of(p, a) == if a in done && a !in todo then PromoteOf(cfg, p0, a) else Of(p0, a)
  }

  ghost predicate Promoted(cfg: Config, p0: Pool, p: Pool, done: set<Address>) {
    SameRest(p0, p) && forall a :: Of(p, a) == if a in done then PromoteOf(cfg, p0, a) else Of(p0, a)
  }

  lemma PromotedStep(cfg: Config, p0: Pool, p: Pool, done: set<Address>, todo: set<Address>, a: Address)
    requires Inv(p) && Promoting(cfg, p0, p, done, todo) && a in done && a in todo
    ensures Promoting(cfg, p0, PromoteAt(cfg, p, a), done, todo - {a})
  {
    assert PromoteOf(cfg, p, a) == PromoteOf(cfg, p0, a);
    if a !in p.queue { EmptyQueue(p, a, QueueCap(cfg, p, a)); }
    PutReads(p, a, PromoteOf(cfg, p, a));
  }

  /** `p` is `p0` with the accounts in `done`, other than those in `todo`, demoted. */
  ghost predicate Demoting(p0: Pool, p: Pool, done: set<Address>, todo: set<Address>) {
    SameRest(p0, p) && forall a :: Of(p, a) == if a in done && a !in todo then DemoteOf(p0, a) else Of(p0, a)
  }

  /** `p` is `p0` with every account demoted. */
  ghost predicate Demoted(p0: Pool, p: Pool) {
    SameRest(p0, p) && forall a :: Of(p, a) == DemoteOf(p0, a)
  }

  lemma DemotingEnds(p0: Pool, p: Pool, done: set<Address>)
    requires Inv(p0) && Demoting(p0, p, done, {}) && p0.pending.Keys <= done
    ensures Demoted(p0, p)
  {
    forall a | a !in done ensures DemoteOf(p0, a) == Of(p0, a) {
      DemoteNothing(p0, a);
      PutReads(p0, a, DemoteOf(p0, a));
    }
  }

  lemma DemotedStep(p0: Pool, p: Pool, done: set<Address>, todo: set<Address>, a: Address)
    requires Inv(p) && Demoting(p0, p, done, todo) && a in done && a in todo
    ensures Demoting(p0, DemoteAt(p, a), done, todo - {a})
  {
    assert DemoteOf(p, a) == DemoteOf(p0, a);
    if a !in p.pending { DemoteNothing(p, a); }
    PutReads(p, a, DemoteOf(p, a));
  }

  /** `p` is `p0` with the virtual nonces of the accounts in `done`, other than those in `todo`, following
      their executable lists. */
  ghost predicate Following(p0: Pool, p: Pool, done: set<Address>, todo: set<Address>) {
    SameRest(p0, p) && forall a :: Of(p, a) == if a in done && a !in todo then FollowPending(Of(p0, a)) else Of(p0, a)
  }

  /** `p` is `p0` with every account's virtual nonce following its executable list. */
  ghost predicate Followed(p0: Pool, p: Pool) {
    SameRest(p0, p) && forall a :: Of(p, a) == FollowPending(Of(p0, a))
  }

  lemma FollowingEnds(p0: Pool, p: Pool, done: set<Address>)
    requires Following(p0, p, done, {}) && p0.pending.Keys <= done
    ensures Followed(p0, p)
  {
    forall a | a !in done ensures FollowPending(Of(p0, a)) == Of(p0, a) { }
  }

  lemma FollowingStep(p0: Pool, p: Pool, done: set<Address>, todo: set<Address>, a: Address)
    requires Inv(p) && Following(p0, p, done, todo) && a in done && a in todo
    ensures Following(p0, Put(p, a, FollowPending(Of(p, a))), done, todo - {a})
  {
    PutReads(p, a, FollowPending(Of(p, a)));
  }

  /** All pooled transactions. */
  ghost function Live(p: Pool): set<Tx> { Contents(p.pending) + Contents(p.queue) }

  ghost function Contents(m: AccountLists): set<Tx> { set a, n | a in m && n in m[a] :: m[a][n] }

  lemma LiveIsPooled(p: Pool, all: set<Tx>)
    requires Inv(p) && forall tx :: tx in all <==> Pooled(p, tx)
    ensures all == Live(p)
  {
    LivePooled(p);
  }

  lemma LivePooled(p: Pool)
    requires Inv(p)
    ensures forall tx :: tx in Live(p) <==> Pooled(p, tx)
  {
    forall tx ensures tx in Live(p) <==> Pooled(p, tx) {
      ContentsHas(p, p.pending, tx);
      ContentsHas(p, p.queue, tx);
    }
  }

  lemma ContentsHas(p: Pool, m: AccountLists, tx: Tx)
    requires Inv(p) && (m == p.pending || m == p.queue)
    ensures tx in Contents(m) <==> Has(m, tx)
  {
    if tx in Contents(m) {
      var a, n :| a in m && n in m[a] && m[a][n] == tx;
      assert AccountOk(Of(p, a), a);
    }
  }
}
