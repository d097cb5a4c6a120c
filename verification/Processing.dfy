/** Applying the transactions of a block and recovering its receipts (core/state_processor.go,
    consensus/dpor/consensus.go, core/blockchain.go). */
module Processing {
  import opened Types
  import opened Gas
  import opened Execution
  import opened StateDb

  datatype Receipt = Receipt(tx: Tx, failed: bool, cumulative: nat, gasUsed: nat)

  /** What becomes of the private half of a transaction: there is none, this node may not see it, it
      ran, or it failed; a half that runs takes its own gas from the pool. */
  datatype Private = Open | Hidden | Ran(gas: nat) | Broken(gas: nat)

  datatype Failure = PublicHalf(error: Error) | PrivateHalf

  predicate PublicFailed(failure: Option<Failure>) {
    failure.Some? && failure.value.PublicHalf?
  }

  /** The public half of a private transaction runs without its payload. */
  function Message(tx: Tx, private: Private): Tx {
    if private.Open? then tx else tx.(data := [])
  }

  /** The environment of a block: its machine, address space and beneficiary. */
  datatype Env = Env(vm: Machine, space: nat, coinbase: Address)

  ghost predicate Usable(env: Env, tx: Tx) {
    Honest(env.vm, env.space) && tx.sender < env.space && env.coinbase < env.space
  }

  /** The gas a private half takes from what the public half left in the pool. */
  function PrivateGas(private: Private, left: nat): (g: nat)
    ensures g <= left
  {
    if private.Ran? || private.Broken? then (if private.gas <= left then private.gas else left) else 0
  }

  // ---------------------------------------------------------------- the books of a block

  /** The books while a block is applied: state, gas left, gas used and receipts. */
  datatype Ledger = Ledger(world: World, pool: nat, used: nat, receipts: seq<Receipt>)

  /** The public half goes through. */
  predicate PublicGoes(env: Env, w: World, pool: nat, tx: Tx, private: Private) {
    GoesThrough(env.vm, w, pool, Message(tx, private))
  }

  function GasOf(env: Env, w: World, tx: Tx, private: Private): nat
    requires ExactIntrinsicGas(Message(tx, private).data, tx.create) <= tx.gas
  {
    UsedBy(env.vm, w, Message(tx, private))
  }

  /** The state after a transaction, destroyed accounts and all. */
  function StateOf(env: Env, w: World, tx: Tx, private: Private): World
    requires ExactIntrinsicGas(Message(tx, private).data, tx.create) <= tx.gas
  {
    Settlement(env.vm, w, Message(tx, private), env.coinbase)
  }

  function ReceiptOf(env: Env, w: World, tx: Tx, private: Private, used: nat): Receipt
    requires ExactIntrinsicGas(Message(tx, private).data, tx.create) <= tx.gas
  {
    var msg := Message(tx, private);
    var gas := GasOf(env, w, tx, private);
    Receipt(tx, Run(env.vm, Paid(w, msg), msg).error == Reverted, used + gas, gas)
  }

  /** Books one transaction, if it goes through and its private half does not break. */
  function Book(env: Env, l: Ledger, tx: Tx, private: Private): Option<Ledger> {
    if !PublicGoes(env, l.world, l.pool, tx, private) || private.Broken? then None
    else
      var gas := GasOf(env, l.world, tx, private);
      var left := if gas <= l.pool then l.pool - gas else 0;
      Some(Ledger(StateOf(env, l.world, tx, private).Finalised(),
                  left - PrivateGas(private, left),
                  l.used + gas,
                  l.receipts + [ReceiptOf(env, l.world, tx, private, l.used)]))
  }

  /** Books a list of transactions, which stands or falls as a whole. */
  function BookAll(env: Env, l: Ledger, txs: seq<Tx>, privates: seq<Private>): Option<Ledger>
    requires |txs| == |privates|
  {
    if txs == [] then Some(l)
    else
      var n := |txs| - 1;
      match BookAll(env, l, txs[..n], privates[..n])
      case None => None
      case Some(m) => Book(env, m, txs[n], privates[n])
  }

  lemma BookAllSnoc(env: Env, l: Ledger, txs: seq<Tx>, privates: seq<Private>, tx: Tx, private: Private)
    requires |txs| == |privates|
    ensures BookAll(env, l, txs + [tx], privates + [private]) ==
        match BookAll(env, l, txs, privates)
        case None => None
        case Some(m) => Book(env, m, tx, private)
  {
    assert (txs + [tx])[..|txs|] == txs && (privates + [private])[..|privates|] == privates;
  }

  lemma {:induction false} BookAllPrefix(env: Env, l: Ledger, txs: seq<Tx>, privates: seq<Private>, i: nat)
    requires i <= |txs| == |privates| && BookAll(env, l, txs[..i], privates[..i]).None?
    ensures BookAll(env, l, txs, privates).None?
    decreases |txs| - i
  {
    if i == |txs| {
      assert txs[..i] == txs && privates[..i] == privates;
    } else {
      assert txs[..i + 1][..i] == txs[..i] && privates[..i + 1][..i] == privates[..i];
      BookAllPrefix(env, l, txs, privates, i + 1);
    }
  }

  /** A private half that another node may not see, or the same one. */
  predicate Milder(q: Private, p: Private) {
    q == p || (q.Hidden? && !p.Open?)
  }

  predicate AllMilder(qs: seq<Private>, ps: seq<Private>) {
    |qs| == |ps| && forall i :: 0 <= i < |ps| ==> Milder(qs[i], ps[i])
  }

  /** The same books, with at least as much gas left. */
  predicate Richer(m: Ledger, l: Ledger) {
    m.world == l.world && m.used == l.used && m.receipts == l.receipts && m.pool >= l.pool
  }

  lemma ReplayOne(env: Env, l: Ledger, m: Ledger, tx: Tx, p: Private, q: Private)
    requires Richer(m, l) && Milder(q, p) && Book(env, l, tx, p).Some?
    ensures Book(env, m, tx, q).Some? && Richer(Book(env, m, tx, q).value, Book(env, l, tx, p).value)
  {
    assert Message(tx, p) == Message(tx, q);
  }

  /** Books that balance once balance again with more gas at hand, and on a node that may not see the
      private halves. */
  lemma {:induction false} Replay(env: Env, l: Ledger, m: Ledger, txs: seq<Tx>, ps: seq<Private>, qs: seq<Private>)
    requires |txs| == |ps| && AllMilder(qs, ps) && Richer(m, l) && BookAll(env, l, txs, ps).Some?
    ensures BookAll(env, m, txs, qs).Some?
    ensures Richer(BookAll(env, m, txs, qs).value, BookAll(env, l, txs, ps).value)
    decreases |txs|
  {
    if txs != [] {
      var n := |txs| - 1;
      Replay(env, l, m, txs[..n], ps[..n], qs[..n]);
      ReplayOne(env, BookAll(env, l, txs[..n], ps[..n]).value, BookAll(env, m, txs[..n], qs[..n]).value,
                txs[n], ps[n], qs[n]);
    }
  }

  /** What booking a transaction comes to. It goes through exactly when its nonce is current, the sender can pay
      for its gas and its transfer, the block has that gas, its intrinsic gas is covered and its private half
      does not break. Then the receipt tells how the machine run ended, the books move by the gas the run used,
      and the state is the machine's with sender and coinbase paid, without the destroyed accounts. A private
      transaction runs without its payload, and its private half takes gas of its own while there is any. */
  lemma BookExactly(env: Env, l: Ledger, tx: Tx, private: Private)
    ensures
      var msg := if private.Open? then tx else tx.(data := []);
      var next := Book(env, l, tx, private);
      && (next.Some? <==>
            && !private.Broken?
            && l.world.Nonce(tx.sender) == tx.nonce
            && l.world.Balance(tx.sender) >= tx.gas * tx.price
            && l.pool >= tx.gas
            && ExactIntrinsicGas(msg.data, tx.create) <= tx.gas
            && ExactIntrinsicGas(msg.data, tx.create) <= MAX_UINT64
            && Run(env.vm, Paid(l.world, msg), msg).error != InsufficientBalance)
      && (next.Some? ==>
            var ran := Run(env.vm, Paid(l.world, msg), msg);
            var used := UsedBy(env.vm, l.world, msg);
            var taken := if private.Ran? then private.gas else 0;
            && next.value.receipts == l.receipts + [Receipt(tx, ran.error == Reverted, l.used + used, used)]
            && next.value.used == l.used + used
            && next.value.pool == (if used + taken <= l.pool then l.pool - used - taken else 0)
            && next.value.world.refund == 0 && next.value.world.doomed == {})
  {
    RejectionIff(l.world, l.pool, Message(tx, private), true);
  }

  lemma BookPays(env: Env, l: Ledger, tx: Tx, private: Private, a: Address)
    requires Book(env, l, tx, private).Some?
    ensures
      var msg := if private.Open? then tx else tx.(data := []);
      ExactIntrinsicGas(msg.data, msg.create) <= msg.gas &&
      var ran := Run(env.vm, Paid(l.world, msg), msg);
      var used := UsedBy(env.vm, l.world, msg);
      var world := Book(env, l, tx, private).value.world;
      if a in ran.world.doomed then world.Balance(a) == 0 && world.Nonce(a) == 0
      else
        && world.Balance(a) == ran.world.Balance(a)
           + (if a == tx.sender then (tx.gas - used) * tx.price else 0)
           + (if a == env.coinbase then used * tx.price else 0)
        && world.Nonce(a) == ran.world.Nonce(a)
  {
  }

  /** The receipt tells how the machine run of its transaction ended, from the given state. */
  predicate StatusAt(env: Env, w: World, tx: Tx, private: Private, r: Receipt) {
    var msg := if private.Open? then tx else tx.(data := []);
    && ExactIntrinsicGas(msg.data, msg.create) <= msg.gas
    && r.tx == tx && (r.failed <==> Run(env.vm, Paid(w, msg), msg).error == Reverted)
  }

  /** So do all receipts of a list, each from the state the transactions before it leave. */
  ghost predicate Statuses(env: Env, start: Ledger, txs: seq<Tx>, privates: seq<Private>, rs: seq<Receipt>)
    requires |txs| == |privates|
  {
    |rs| == |txs| && forall i :: 0 <= i < |txs| ==> StatusOf(env, start, txs, privates, rs[i], i)
  }

  predicate StatusOf(env: Env, start: Ledger, txs: seq<Tx>, privates: seq<Private>, r: Receipt, i: nat)
    requires i < |txs| == |privates|
  {
    var before := BookAll(env, start, txs[..i], privates[..i]);
    before.Some? && StatusAt(env, before.value.world, txs[i], privates[i], r)
  }

  lemma {:induction false} ReceiptStatus(env: Env, start: Ledger, txs: seq<Tx>, privates: seq<Private>, books: Ledger)
    requires |txs| == |privates| && start.receipts == [] && BookAll(env, start, txs, privates) == Some(books)
    ensures Statuses(env, start, txs, privates, books.receipts)
    decreases |txs|
  {
    if txs != [] {
      var n := |txs| - 1;
      var front := BookAll(env, start, txs[..n], privates[..n]).value;
      ReceiptStatus(env, start, txs[..n], privates[..n], front);
      BookExactly(env, front, txs[n], privates[n]);
      assert StatusOf(env, start, txs, privates, books.receipts[n], n);
      StatusesSnoc(env, start, txs, privates, n, front.receipts, books.receipts);
    }
  }

  lemma StatusesSnoc(env: Env, start: Ledger, txs: seq<Tx>, privates: seq<Private>, n: nat, rs: seq<Receipt>,
                     more: seq<Receipt>)
    requires n + 1 == |txs| == |privates| == |more| && more[..n] == rs
    requires Statuses(env, start, txs[..n], privates[..n], rs) && StatusOf(env, start, txs, privates, more[n], n)
    ensures Statuses(env, start, txs, privates, more)
  {
    forall i | 0 <= i < n ensures StatusOf(env, start, txs, privates, more[i], i) {
      assert more[i] == rs[i] && StatusOf(env, start, txs[..n], privates[..n], rs[i], i);
      assert txs[..n][..i] == txs[..i] && privates[..n][..i] == privates[..i];
    }
  }

  // ---------------------------------------------------------------- other nodes

  /** The same transactions have a private half, whatever becomes of it. */
  predicate SameKinds(qs: seq<Private>, ps: seq<Private>) {
    |qs| == |ps| && forall i :: 0 <= i < |ps| ==> (qs[i].Open? <==> ps[i].Open?)
  }

  /** The gas left before transaction `i`, the limit less what the public halves used, as the receipts say,
      and what the private halves took. */
  function Left(limit: nat, rs: seq<Receipt>, qs: seq<Private>, i: nat): nat
    requires i <= |rs| == |qs|
  {
    if i == 0 then limit
    else
      var before := Left(limit, rs, qs, i - 1);
      var left := if rs[i - 1].gasUsed <= before then before - rs[i - 1].gasUsed else 0;
      left - PrivateGas(qs[i - 1], left)
  }

  /** No private half breaks, and each of the first `n` transactions finds its gas. */
  predicate Affords(limit: nat, rs: seq<Receipt>, txs: seq<Tx>, qs: seq<Private>, n: nat)
    requires n <= |rs| == |qs| == |txs|
  {
    forall i :: 0 <= i < n ==> !qs[i].Broken? && txs[i].gas <= Left(limit, rs, qs, i)
  }

  lemma {:induction false} LeftPrefix(limit: nat, rs: seq<Receipt>, qs: seq<Private>, n: nat, i: nat)
    requires i <= n <= |rs| == |qs|
    ensures Left(limit, rs[..n], qs[..n], i) == Left(limit, rs, qs, i)
  {
    if i > 0 { LeftPrefix(limit, rs, qs, n, i - 1); }
  }

  lemma AffordsSnoc(limit: nat, rs: seq<Receipt>, txs: seq<Tx>, qs: seq<Private>, n: nat)
    requires n + 1 == |rs| == |qs| == |txs|
    ensures Affords(limit, rs, txs, qs, n + 1) <==>
      Affords(limit, rs[..n], txs[..n], qs[..n], n) && !qs[n].Broken? && txs[n].gas <= Left(limit, rs, qs, n)
  {
    forall i | 0 <= i <= n ensures Left(limit, rs[..n], qs[..n], i) == Left(limit, rs, qs, i) {
      LeftPrefix(limit, rs, qs, n, i);
    }
    if Affords(limit, rs[..n], txs[..n], qs[..n], n) && !qs[n].Broken? && txs[n].gas <= Left(limit, rs, qs, n) {
      forall i | 0 <= i < n + 1 ensures !qs[i].Broken? && txs[i].gas <= Left(limit, rs, qs, i) {
        if i < n { assert qs[..n][i] == qs[i] && txs[..n][i] == txs[i]; }
      }
    }
    if Affords(limit, rs, txs, qs, n + 1) {
      forall i | 0 <= i < n ensures !qs[..n][i].Broken? && txs[..n][i].gas <= Left(limit, rs[..n], qs[..n], i) {
        assert qs[..n][i] == qs[i] && txs[..n][i] == txs[i];
      }
    }
  }

  /** The books of a node whose private halves come out as `qs`: those of another, but for the gas left. */
  ghost predicate Alike(books: Option<Ledger>, other: Ledger, left: nat) {
    books.Some? && books.value == other.(pool := left)
  }

  lemma BookIff(env: Env, l: Ledger, m: Ledger, tx: Tx, p: Private, q: Private, next: Ledger)
    requires Book(env, l, tx, p) == Some(next) && m == l.(pool := m.pool) && (q.Open? <==> p.Open?)
    ensures Book(env, m, tx, q).Some? <==> !q.Broken? && tx.gas <= m.pool
    ensures Book(env, m, tx, q).Some? ==>
      var gas := next.receipts[|l.receipts|].gasUsed;
      var left := if gas <= m.pool then m.pool - gas else 0;
      Alike(Book(env, m, tx, q), next, left - PrivateGas(q, left))
  {
    assert Message(tx, p) == Message(tx, q);
  }

  lemma BookReceipts(env: Env, l: Ledger, tx: Tx, p: Private, next: Ledger)
    requires Book(env, l, tx, p) == Some(next)
    ensures |next.receipts| == |l.receipts| + 1 && next.receipts[..|l.receipts|] == l.receipts
  {
  }

  /** A list that one node could book another can book exactly when no private half breaks there and each
      transaction finds its gas, private halves included. Then state, gas used and receipts are the same. */
  lemma {:induction false} ReplayIff(env: Env, l: Ledger, txs: seq<Tx>, ps: seq<Private>, qs: seq<Private>,
                                     books: Ledger)
    requires |txs| == |ps| && SameKinds(qs, ps) && l.receipts == [] && BookAll(env, l, txs, ps) == Some(books)
    ensures |books.receipts| == |txs|
    ensures BookAll(env, l, txs, qs).Some? <==> Affords(l.pool, books.receipts, txs, qs, |txs|)
    ensures BookAll(env, l, txs, qs).Some? ==>
        Alike(BookAll(env, l, txs, qs), books, Left(l.pool, books.receipts, qs, |txs|))
    decreases |txs|
  {
    if txs != [] {
      var n := |txs| - 1;
      var front := BookAll(env, l, txs[..n], ps[..n]).value;
      ReplayIff(env, l, txs[..n], ps[..n], qs[..n], front);
      BookReceipts(env, front, txs[n], ps[n], books);
      ReplaySnoc(env, l, txs, ps, qs, n, front, books);
    }
  }

  lemma ReplaySnoc(env: Env, l: Ledger, txs: seq<Tx>, ps: seq<Private>, qs: seq<Private>, n: nat, front: Ledger,
                   books: Ledger)
    requires n + 1 == |txs| == |ps| && SameKinds(qs, ps) && |front.receipts| == n
    requires Book(env, front, txs[n], ps[n]) == Some(books) && |books.receipts| == n + 1
    requires books.receipts[..n] == front.receipts
    requires BookAll(env, l, txs[..n], qs[..n]).Some? <==> Affords(l.pool, front.receipts, txs[..n], qs[..n], n)
    requires BookAll(env, l, txs[..n], qs[..n]).Some? ==>
        Alike(BookAll(env, l, txs[..n], qs[..n]), front, Left(l.pool, front.receipts, qs[..n], n))
    ensures BookAll(env, l, txs, qs).Some? <==> Affords(l.pool, books.receipts, txs, qs, n + 1)
    ensures BookAll(env, l, txs, qs).Some? ==>
        Alike(BookAll(env, l, txs, qs), books, Left(l.pool, books.receipts, qs, n + 1))
  {
    AffordsSnoc(l.pool, books.receipts, txs, qs, n);
    LeftPrefix(l.pool, books.receipts, qs, n, n);
    if BookAll(env, l, txs[..n], qs[..n]).Some? {
      BookIff(env, front, BookAll(env, l, txs[..n], qs[..n]).value, txs[n], ps[n], qs[n], books);
    }
  }

  // ---------------------------------------------------------------- what the books say

  /** The cumulative gas before receipt `i`. */
  function Before(rs: seq<Receipt>, i: nat): nat
    requires i <= |rs|
  {
    if i == 0 then 0 else rs[i - 1].cumulative
  }

  /** Each receipt's cumulative gas is the one before plus its own gas, from zero. */
  predicate Running(rs: seq<Receipt>) {
    rs == [] ||
    (var n := |rs| - 1; rs[n].cumulative == Before(rs, n) + rs[n].gasUsed && Running(rs[..n]))
  }

  lemma {:induction false} RunningAt(rs: seq<Receipt>, j: nat)
    requires Running(rs) && j < |rs|
    ensures rs[j].cumulative == Before(rs, j) + rs[j].gasUsed
  {
    if j < |rs| - 1 {
      RunningAt(rs[..|rs| - 1], j);
    }
  }

  /** The gas of all receipts. */
  function GasSum(rs: seq<Receipt>): nat {
    if rs == [] then 0 else GasSum(rs[..|rs| - 1]) + rs[|rs| - 1].gasUsed
  }

  /** In a running list the last cumulative figure is the sum of all. */
  lemma {:induction false} RunningSum(rs: seq<Receipt>)
    requires Running(rs)
    ensures Before(rs, |rs|) == GasSum(rs)
  {
    if rs != [] {
      RunningSum(rs[..|rs| - 1]);
    }
  }

  /** The transactions the receipts are for. */
  function Named(rs: seq<Receipt>): (txs: seq<Tx>)
    ensures |txs| == |rs|
  {
    if rs == [] then [] else Named(rs[..|rs| - 1]) + [rs[|rs| - 1].tx]
  }

  /** No private half ran. */
  predicate Quiet(private: Private) {
    private.Open? || private.Hidden?
  }

  predicate AllQuiet(privates: seq<Private>) {
    privates == [] || (Quiet(privates[|privates| - 1]) && AllQuiet(privates[..|privates| - 1]))
  }

  /** The books of the transactions `txs` under a gas limit. */
  predicate Balanced(l: Ledger, txs: seq<Tx>, limit: nat, exactly: bool) {
    && Named(l.receipts) == txs
    && Running(l.receipts) && Before(l.receipts, |l.receipts|) == l.used
    && l.used + l.pool <= limit && (exactly ==> l.used + l.pool == limit)
  }

  lemma BookBalanced(env: Env, l: Ledger, txs: seq<Tx>, limit: nat, exactly: bool, tx: Tx, private: Private, m: Ledger,
                     all: seq<Tx>, still: bool)
    requires Balanced(l, txs, limit, exactly) && Book(env, l, tx, private) == Some(m)
    requires all == txs + [tx] && still == (exactly && Quiet(private))
    ensures Balanced(m, all, limit, still)
  {
    ReceiptsSnoc(l.receipts, m.receipts[|l.receipts|], m.receipts);
  }

  lemma ReceiptsSnoc(rs: seq<Receipt>, r: Receipt, more: seq<Receipt>)
    requires more == rs + [r] && Running(rs) && r.cumulative == Before(rs, |rs|) + r.gasUsed
    ensures Running(more) && Before(more, |more|) == r.cumulative && Named(more) == Named(rs) + [r.tx]
  {
    assert more[..|rs|] == rs;
  }

  /** Receipts in order with running sums, and gas used and left within the limit, exactly at it when no
      private half ran. */
  lemma {:induction false} BooksBalance(env: Env, start: Ledger, txs: seq<Tx>, privates: seq<Private>, books: Ledger)
    requires start.used == 0 && start.receipts == []
    requires |txs| == |privates| && BookAll(env, start, txs, privates) == Some(books)
    ensures Balanced(books, txs, start.pool, AllQuiet(privates))
    decreases |txs|
  {
    if txs != [] {
      var n := |txs| - 1;
      var front := BookAll(env, start, txs[..n], privates[..n]).value;
      BooksBalance(env, start, txs[..n], privates[..n], front);
      assert txs == txs[..n] + [txs[n]];
      BookBalanced(env, front, txs[..n], start.pool, AllQuiet(privates[..n]), txs[n], privates[n], books, txs,
                   AllQuiet(privates));
    }
  }

  /** What destroyed accounts took with them over a list of transactions, in the machine by destroying
      themselves in their own favour, or at the end of a transaction by what they had been paid since. */
  function BurntAll(env: Env, l: Ledger, txs: seq<Tx>, privates: seq<Private>): int
    requires |txs| == |privates| && BookAll(env, l, txs, privates).Some?
  {
    if txs == [] then 0
    else
      var n := |txs| - 1;
      var m := BookAll(env, l, txs[..n], privates[..n]).value;
      BurntAll(env, l, txs[..n], privates[..n]) + BurntBy(env, m.world, txs[n], privates[n])
  }

  function BurntBy(env: Env, w: World, tx: Tx, private: Private): int
    requires ExactIntrinsicGas(Message(tx, private).data, tx.create) <= tx.gas
  {
    Sunk(env.vm, w, Message(tx, private), env.space) + StateOf(env, w, tx, private).Burnt(env.space)
  }

  lemma BookTotal(env: Env, l: Ledger, tx: Tx, private: Private)
    requires Usable(env, tx) && Book(env, l, tx, private).Some?
    ensures Book(env, l, tx, private).value.world.Total(env.space)
         == l.world.Total(env.space) - BurntBy(env, l.world, tx, private)
  {
    var msg := Message(tx, private);
    FinalisedTotal(StateOf(env, l.world, tx, private), env.space);
    ConserveRun(env.vm, l.world, Paid(l.world, msg), msg, env.space);
    ConserveSettlement(Run(env.vm, Paid(l.world, msg), msg).world, msg, env.coinbase,
                       UsedBy(env.vm, l.world, msg), env.space);
  }

  /** Transactions move money about; only destroyed accounts take any out. */
  lemma {:induction false} BooksTotal(env: Env, l: Ledger, txs: seq<Tx>, privates: seq<Private>)
    requires |txs| == |privates| && BookAll(env, l, txs, privates).Some?
    requires forall i :: 0 <= i < |txs| ==> Usable(env, txs[i])
    ensures BookAll(env, l, txs, privates).value.world.Total(env.space)
         == l.world.Total(env.space) - BurntAll(env, l, txs, privates)
    decreases |txs|
  {
    if txs != [] {
      var n := |txs| - 1;
      BooksTotal(env, l, txs[..n], privates[..n]);
      assert Usable(env, txs[n]);
      BookTotal(env, BookAll(env, l, txs[..n], privates[..n]).value, txs[n], privates[n]);
    }
  }

  /** No machine run loses money, leaves a destroyed account with any, or destroys a sender or the coinbase. */
  ghost predicate Tidy(env: Env) {
    forall w, tx, gas ::
      && env.vm(w, tx, gas).world.Total(env.space) == w.Total(env.space)
      && Swept(env.vm(w, tx, gas).world, tx.sender, env.coinbase)
  }

  ghost predicate Swept(w: World, sender: Address, coinbase: Address) {
    sender !in w.doomed && coinbase !in w.doomed && forall a :: a in w.doomed ==> w.Balance(a) == 0
  }

  lemma {:induction false} TidyBurnsNothing(env: Env, l: Ledger, txs: seq<Tx>, privates: seq<Private>)
    requires |txs| == |privates| && BookAll(env, l, txs, privates).Some? && Tidy(env)
    ensures BurntAll(env, l, txs, privates) == 0
    decreases |txs|
  {
    if txs != [] {
      var n := |txs| - 1;
      TidyBurnsNothing(env, l, txs[..n], privates[..n]);
      var m := BookAll(env, l, txs[..n], privates[..n]).value;
      TidyState(env, m.world, txs[n], privates[n]);
      NothingBurnt(StateOf(env, m.world, txs[n], privates[n]), env.space);
    }
  }

  lemma TidyState(env: Env, w: World, tx: Tx, private: Private)
    requires Tidy(env) && ExactIntrinsicGas(Message(tx, private).data, tx.create) <= tx.gas
    ensures forall a :: a in StateOf(env, w, tx, private).doomed ==> StateOf(env, w, tx, private).Balance(a) == 0
    ensures Sunk(env.vm, w, Message(tx, private), env.space) == 0
  {
    var msg := Message(tx, private);
    BumpTotal(Paid(w, msg), msg.sender, env.space);
    assert Swept(Run(env.vm, Paid(w, msg), msg).world, msg.sender, env.coinbase);
  }

  // ---------------------------------------------------------------- applying

  /** Applies one transaction to the state. A public half that fails counts no gas as used and leaves
      all snapshots; one that goes through is booked, and ends the transaction, even if the private half
      breaks afterwards. */
  method ApplyTransaction(env: Env, gp: GasPool, db: StateDB, tx: Tx, private: Private, usedGas: nat)
    returns (failure: Option<Failure>, used: nat, receipt: Receipt)
    requires gp.gas <= MAX_UINT64 && Usable(env, tx) && db.Valid()
    modifies gp, db
    ensures db.Valid() && db.nextRevisionId == old(db.nextRevisionId)
    ensures PublicFailed(failure) <==> !PublicGoes(env, old(db.world), old(gp.gas), tx, private)
    ensures PublicFailed(failure) ==>
        && used == usedGas && db.revisions == old(db.revisions)
        && gp.gas <= old(gp.gas) && gp.gas == old(gp.gas) - if Early(failure.value.error) then 0 else tx.gas
    ensures PublicFailed(failure) && Rejection(old(db.world), old(gp.gas), Message(tx, private), true).Some? ==>
        Some(failure.value.error) == Rejection(old(db.world), old(gp.gas), Message(tx, private), true)
    ensures PublicFailed(failure) && Rejection(old(db.world), old(gp.gas), Message(tx, private), true).None? ==>
        !Early(failure.value.error)
    ensures !PublicFailed(failure) ==>
        && (failure == if private.Broken? then Some(PrivateHalf) else None)
        && db.revisions == []
        && db.world == StateOf(env, old(db.world), tx, private).Finalised()
        && receipt == ReceiptOf(env, old(db.world), tx, private, usedGas)
        && StatusAt(env, old(db.world), tx, private, receipt)
        && used == usedGas + receipt.gasUsed && receipt.gasUsed <= old(gp.gas)
        && gp.gas == old(gp.gas) - receipt.gasUsed - PrivateGas(private, old(gp.gas) - receipt.gasUsed)
  {
    used := usedGas;
    receipt := Receipt(tx, false, usedGas, 0);
    var e, gas, failed := ApplyPublic(env, gp, db, Message(tx, private));
    if e.Some? {
      failure := Some(PublicHalf(e.value));
      return;
    }
    used := usedGas + gas;
    receipt := Receipt(tx, failed, used, gas);
    var _ := gp.SubGas(PrivateGas(private, gp.gas));
    failure := if private.Broken? then Some(PrivateHalf) else None;
  }

  /** Runs a message against the state and, if it went through, ends the transaction. */
  method ApplyPublic(env: Env, gp: GasPool, db: StateDB, msg: Tx)
    returns (e: Option<Error>, gas: nat, failed: bool)
    requires gp.gas <= MAX_UINT64 && Usable(env, msg) && db.Valid()
    modifies gp, db
    ensures db.Valid() && db.nextRevisionId == old(db.nextRevisionId)
    ensures e.None? <==> GoesThrough(env.vm, old(db.world), old(gp.gas), msg)
    ensures e.Some? ==> db.revisions == old(db.revisions)
    ensures e.Some? ==> gp.gas == old(gp.gas) - if Early(e.value) then 0 else msg.gas
    ensures Rejection(old(db.world), old(gp.gas), msg, true).Some? ==>
        e == Rejection(old(db.world), old(gp.gas), msg, true)
    ensures Rejection(old(db.world), old(gp.gas), msg, true).None? && e.Some? ==> !Early(e.value)
    ensures e.None? ==>
        && db.revisions == [] && gas <= old(gp.gas) && gp.gas == old(gp.gas) - gas
        && gas == UsedBy(env.vm, old(db.world), msg)
        && db.world == Settlement(env.vm, old(db.world), msg, env.coinbase).Finalised()
        && failed == (Run(env.vm, Paid(old(db.world), msg), msg).error == Reverted)
  {
    ghost var w := db.world;
    var st := new StateTransition(gp, msg, true, env.coinbase, db.world);
    e, gas, failed := st.TransitionDb(env.vm, env.space);
    db.world := st.world;
    if e.None? {
      AppliedIs(env.vm, w, msg, env.coinbase, st.world, gas, failed);
      db.Finalise();
    }
  }

  // ---------------------------------------------------------------- the end of a block

  datatype Header = Header(number: nat, coinbase: Address, gasLimit: nat)

  /** The address that stands for nobody. */
  const NO_ADDRESS: Address := 0

  const COIN: nat := 1_000_000_000_000_000_000
  const BLOCKS_PER_DAY: nat := 24 * 60 * 60 / 10
  const YEAR: nat := 365 * BLOCKS_PER_DAY
  const LEAP_YEAR: nat := 366 * BLOCKS_PER_DAY

  /** What a block earns its coinbase: a year's supply spread over its blocks, for five years. */
  function BlockReward(number: nat): nat {
    if number <= LEAP_YEAR then 40_002_336 * COIN / LEAP_YEAR
    else if number <= LEAP_YEAR + YEAR then 29_990_736 * COIN / YEAR
    else if number <= LEAP_YEAR + 2 * YEAR then 22_485_168 * COIN / YEAR
    else if number <= LEAP_YEAR + 3 * YEAR then 16_997_904 * COIN / YEAR
    else if number <= 2 * LEAP_YEAR + 3 * YEAR then 127_438_272 * (COIN / 10) / LEAP_YEAR
    else 0
  }

  /** In coins: 12.65 a block for 366 days, then 9.51, 7.13 and 5.39 for 365 days each, 4.03 for 366 days more,
      and nothing after that. */
  lemma RewardTable(number: nat)
    ensures number <= 3_162_240 ==> BlockReward(number) == 12_650_000_000_000_000_000
    ensures 3_162_240 < number <= 6_315_840 ==> BlockReward(number) == 9_510_000_000_000_000_000
    ensures 6_315_840 < number <= 9_469_440 ==> BlockReward(number) == 7_130_000_000_000_000_000
    ensures 9_469_440 < number <= 12_623_040 ==> BlockReward(number) == 5_390_000_000_000_000_000
    ensures 12_623_040 < number <= 15_785_280 ==> BlockReward(number) == 4_030_000_000_000_000_000
    ensures 15_785_280 < number ==> BlockReward(number) == 0
  {
  }

  /** The money a block makes. */
  function Minted(header: Header): nat {
    if header.coinbase == NO_ADDRESS then 0 else BlockReward(header.number)
  }

  /** The state at the end of a block. */
  function Closed(w: World, header: Header): World {
    (if header.coinbase == NO_ADDRESS then w else w.Credit(header.coinbase, BlockReward(header.number))).Finalised()
  }

  /** Pays the reward and ends the block. */
  method Finalize(header: Header, db: StateDB)
    requires db.Valid()
    modifies db
    ensures db.Valid() && db.revisions == [] && db.world == Closed(old(db.world), header)
  {
    if header.coinbase != NO_ADDRESS {
      db.world := db.world.Credit(header.coinbase, BlockReward(header.number));
    }
    db.Finalise();
  }

  /** The end of a block adds exactly the reward to the total. */
  lemma ClosedTotal(w: World, header: Header, space: nat)
    requires w.doomed == {} && header.coinbase < space
    ensures Closed(w, header).Total(space) == w.Total(space) + Minted(header)
  {
    var paid := if header.coinbase == NO_ADDRESS then w else w.Credit(header.coinbase, BlockReward(header.number));
    CreditTotal(w, header.coinbase, BlockReward(header.number), space);
    FinalisedTotal(paid, space);
    NothingBurnt(paid, space);
  }

  /** It goes to the coinbase and to nobody else, and to nobody at all if that is the zero address. */
  lemma ClosedPays(w: World, header: Header, a: Address)
    requires w.doomed == {}
    ensures Closed(w, header).Nonce(a) == w.Nonce(a)
    ensures Closed(w, header).Balance(a) ==
      w.Balance(a) + if a == header.coinbase && a != NO_ADDRESS then BlockReward(header.number) else 0
  {
  }

  lemma BooksClean(env: Env, l: Ledger, txs: seq<Tx>, privates: seq<Private>)
    requires |txs| == |privates| && BookAll(env, l, txs, privates).Some? && l.world.doomed == {}
    ensures BookAll(env, l, txs, privates).value.world.doomed == {}
  {
  }

  /** Applies a whole block, which stands or falls with every one of its transactions. It succeeds
      exactly when the books balance to the end; then the receipts are in block order with running
      sums, gas used and left keep to the limit, and the total balance grows by the reward and by
      nothing else, less what destroyed accounts took with them. */
  method Process(env: Env, header: Header, db: StateDB, txs: seq<Tx>, privates: seq<Private>)
    returns (ok: bool, receipts: seq<Receipt>, usedGas: nat, gasLeft: nat)
    requires header.gasLimit <= MAX_UINT64 && header.coinbase < env.space && |privates| == |txs|
    requires forall i :: 0 <= i < |txs| ==> Usable(env, txs[i])
    requires db.Valid() && db.world.doomed == {}
    modifies db
    ensures ok <==> BookAll(env, Ledger(old(db.world), header.gasLimit, 0, []), txs, privates).Some?
    ensures ok ==>
        var books := BookAll(env, Ledger(old(db.world), header.gasLimit, 0, []), txs, privates).value;
        && (receipts, usedGas, gasLeft) == (books.receipts, books.used, books.pool)
        && Balanced(books, txs, header.gasLimit, AllQuiet(privates)) && usedGas == GasSum(receipts)
        && Statuses(env, Ledger(old(db.world), header.gasLimit, 0, []), txs, privates, receipts)
    ensures ok ==>
        db.world.Total(env.space) == old(db.world).Total(env.space) + Minted(header)
            - BurntAll(env, Ledger(old(db.world), header.gasLimit, 0, []), txs, privates)
  {
    ghost var start := Ledger(db.world, header.gasLimit, 0, []);
    ok, receipts, usedGas, gasLeft := ApplyAll(env, header.gasLimit, db, txs, privates);
    if ok {
      BooksBalance(env, start, txs, privates, Ledger(db.world, gasLeft, usedGas, receipts));
      RunningSum(receipts);
      ReceiptStatus(env, start, txs, privates, Ledger(db.world, gasLeft, usedGas, receipts));
      BooksTotal(env, start, txs, privates);
      BooksClean(env, start, txs, privates);
      ClosedTotal(db.world, header, env.space);
      Finalize(header, db);
    }
  }

  /** The loop over the transactions of a block. */
  method ApplyAll(env: Env, gasLimit: nat, db: StateDB, txs: seq<Tx>, privates: seq<Private>)
    returns (ok: bool, receipts: seq<Receipt>, usedGas: nat, gasLeft: nat)
    requires gasLimit <= MAX_UINT64 && |privates| == |txs| && db.Valid()
    requires forall i :: 0 <= i < |txs| ==> Usable(env, txs[i])
    modifies db
    ensures db.Valid()
    ensures BookAll(env, Ledger(old(db.world), gasLimit, 0, []), txs, privates) ==
        if ok then Some(Ledger(db.world, gasLeft, usedGas, receipts)) else None
  {
    receipts, usedGas, gasLeft := [], 0, gasLimit;
    ghost var start := Ledger(db.world, gasLimit, 0, []);
    var gp := new GasPool(gasLimit);
    var i := 0;
    while i < |txs|
      invariant i <= |txs| && db.Valid() && gp.gas <= gasLimit
      invariant BookAll(env, start, txs[..i], privates[..i]) == Some(Ledger(db.world, gp.gas, usedGas, receipts))
    {
      BookNext(env, start, txs, privates, i);
      ok, usedGas, receipts := ApplyNext(env, gp, db, txs[i], privates[i], usedGas, receipts);
      if !ok {
        BookAllPrefix(env, start, txs, privates, i + 1);
        return false, receipts, usedGas, gp.gas;
      }
      i := i + 1;
    }
    assert txs[..i] == txs && privates[..i] == privates;
    return true, receipts, usedGas, gp.gas;
  }

  /** Applying a transaction is booking it. */
  method ApplyNext(env: Env, gp: GasPool, db: StateDB, tx: Tx, private: Private, usedGas: nat, receipts: seq<Receipt>)
    returns (ok: bool, used: nat, more: seq<Receipt>)
    requires gp.gas <= MAX_UINT64 && Usable(env, tx) && db.Valid()
    modifies gp, db
    ensures db.Valid() && gp.gas <= old(gp.gas)
    ensures Book(env, Ledger(old(db.world), old(gp.gas), usedGas, receipts), tx, private) ==
        if ok then Some(Ledger(db.world, gp.gas, used, more)) else None
  {
    var failure, sum, receipt := ApplyTransaction(env, gp, db, tx, private, usedGas);
    return failure.None?, sum, receipts + [receipt];
  }

  lemma BookNext(env: Env, l: Ledger, txs: seq<Tx>, privates: seq<Private>, i: nat)
    requires i < |txs| == |privates| && BookAll(env, l, txs[..i], privates[..i]).Some?
    ensures BookAll(env, l, txs[..i + 1], privates[..i + 1])
         == Book(env, BookAll(env, l, txs[..i], privates[..i]).value, txs[i], privates[i])
  {
    assert txs[..i + 1] == txs[..i] + [txs[i]] && privates[..i + 1] == privates[..i] + [privates[i]];
    BookAllSnoc(env, l, txs[..i], privates[..i], txs[i], privates[i]);
  }

  // ---------------------------------------------------------------- receipts from the database

  /** What the database keeps of a receipt: not the transaction, and not its own gas. */
  function Stored(r: Receipt, any: Tx): Receipt {
    r.(tx := any, gasUsed := 0)
  }

  /** The 64-bit difference of two cumulative figures. */
  function Less64(a: nat, b: nat): nat {
    (a - b) % (MAX_UINT64 + 1)
  }

  function Derived(txs: seq<Tx>, rs: seq<Receipt>, j: nat): Receipt
    requires j < |rs| == |txs|
  {
    rs[j].(tx := txs[j], gasUsed := Less64(rs[j].cumulative, Before(rs, j)))
  }

  /** Fills in the transaction and the own gas of every receipt. */
  method SetReceiptsData(txs: seq<Tx>, receipts: array<Receipt>) returns (ok: bool)
    requires forall j :: 0 <= j < receipts.Length ==> receipts[j].cumulative <= MAX_UINT64
    modifies receipts
    ensures ok <==> |txs| == receipts.Length
    ensures !ok ==> receipts[..] == old(receipts[..])
    ensures ok ==> forall j :: 0 <= j < receipts.Length ==> receipts[j] == Derived(txs, old(receipts[..]), j)
  {
    if |txs| != receipts.Length {
      return false;
    }
    ghost var was := receipts[..];
    var j := 0;
    while j < receipts.Length
      invariant j <= receipts.Length
      invariant forall k :: 0 <= k < j ==> receipts[k] == Derived(txs, was, k)
      invariant forall k :: j <= k < receipts.Length ==> receipts[k] == was[k]
    {
      receipts[j] := receipts[j].(tx := txs[j]);
      if j == 0 {
        receipts[j] := receipts[j].(gasUsed := receipts[j].cumulative);
      } else {
        receipts[j] := receipts[j].(gasUsed := Less64(receipts[j].cumulative, receipts[j - 1].cumulative));
      }
      j := j + 1;
    }
    return true;
  }

  /** The receipts of a processed block come back in full from what was stored of them. */
  lemma ReceiptsBack(txs: seq<Tx>, rs: seq<Receipt>, any: Tx, j: nat)
    requires Running(rs) && |txs| == |rs| && j < |rs| && rs[j].tx == txs[j]
    requires forall i :: 0 <= i < |rs| ==> rs[i].cumulative <= MAX_UINT64
    ensures Derived(txs, seq(|rs|, i requires 0 <= i < |rs| => Stored(rs[i], any)), j) == rs[j]
  {
    RunningAt(rs, j);
    SmallDifference(rs[j].cumulative, Before(rs, j));
  }

  lemma SmallDifference(a: nat, b: nat)
    requires b <= a <= MAX_UINT64
    ensures Less64(a, b) == a - b
  {
  }
}
