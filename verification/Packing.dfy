/** Filling a new block (miner/engine.go). */
module Packing {
  import opened Types
  import opened Gas
  import opened Execution
  import opened Iteration
  import opened IteratorRuns
  import opened Processing
  import opened StateDb

  /** What becomes of a transaction the miner tries: it is packed, it is turned away with the state put
      back, or putting the state back panics. */
  datatype Commit = Packed | Rejected(error: Error) | Panicked

  /** The places of all offers: taking or dropping one makes this strictly smaller. */
  function Places(offers: Offers): set<(Address, nat)> {
    set a, i: nat | a in offers && i < |offers[a]| :: (a, i)
  }

  predicate Within(offers: Offers, space: nat) {
    forall a :: a in offers ==> a < space
  }

  lemma PlacesShrink(offers: Offers, after: Offers, space: nat, tx: Tx, move: Move)
    requires tx.sender in offers && offers[tx.sender] != [] && after == After(offers, tx, move)
    requires Within(offers, space)
    ensures Places(after) < Places(offers) && Within(after, space)
  {
    var a := tx.sender;
    var last := (a, |offers[a]| - 1);
    assert last in Places(offers) && last !in Places(after);
  }

  /** How the packing loop answers each outcome. */
  function Answer(outcome: Commit): Move {
    match outcome
    case Rejected(GasLimitReached) => Drop
    case Rejected(NonceTooHigh) => Drop
    case _ => Take
  }

  function Answers(outcomes: seq<Commit>): (moves: seq<Move>)
    ensures |moves| == |outcomes|
  {
    if outcomes == [] then [] else Answers(outcomes[..|outcomes| - 1]) + [Answer(outcomes[|outcomes| - 1])]
  }

  /** The transactions that went through, in the order shown. */
  function Kept(shown: seq<Tx>, outcomes: seq<Commit>): seq<Tx>
    requires |shown| == |outcomes|
  {
    if shown == [] then []
    else
      var n := |shown| - 1;
      Kept(shown[..n], outcomes[..n]) + (if outcomes[n].Packed? then [shown[n]] else [])
  }

  /** A stretch of packing without a crash: the iterator went from `start` to `end`, showing `shown`,
      with these outcomes, and exactly what went through was packed on top of `before`. */
  ghost predicate Stretch(start: Offers, end: Offers, shown: seq<Tx>, outcomes: seq<Commit>,
                          before: seq<Tx>, packed: seq<Tx>)
  {
    && |shown| == |outcomes|
    && Panicked !in outcomes
    && IteratorRuns.Run(start, shown, Answers(outcomes), end)
    && packed == before + Kept(shown, outcomes)
  }

  lemma StretchStep(start: Offers, mid: Offers, end: Offers, shown: seq<Tx>, outcomes: seq<Commit>,
                    before: seq<Tx>, packed: seq<Tx>, more: seq<Tx>, tx: Tx, outcome: Commit)
    requires Stretch(start, mid, shown, outcomes, before, packed) && Best(mid, tx) && outcome != Panicked
    requires end == After(mid, tx, Answer(outcome))
    requires more == if outcome.Packed? then packed + [tx] else packed
    ensures Stretch(start, end, shown + [tx], outcomes + [outcome], before, more)
  {
    RunSnoc(start, shown, Answers(outcomes), mid, tx, Answer(outcome));
    assert (shown + [tx])[..|shown|] == shown && (outcomes + [outcome])[..|outcomes|] == outcomes;
  }

  lemma {:induction false} AnswersAt(outcomes: seq<Commit>, i: nat)
    requires i < |outcomes|
    ensures Answers(outcomes)[i] == Drop <==>
      outcomes[i] == Rejected(GasLimitReached) || outcomes[i] == Rejected(NonceTooHigh)
    decreases |outcomes|
  {
    var n := |outcomes| - 1;
    if i < n {
      AnswersAt(outcomes[..n], i);
    }
  }

  /** No transaction of the account was turned away for the gas left or for too high a nonce. */
  predicate NeverDropped(shown: seq<Tx>, outcomes: seq<Commit>, a: Address)
    requires |shown| == |outcomes|
  {
    forall i :: 0 <= i < |shown| && shown[i].sender == a ==>
      outcomes[i] != Rejected(GasLimitReached) && outcomes[i] != Rejected(NonceTooHigh)
  }

  /** An account is shown no more once a transaction of its was turned away for the gas left or for too high a
      nonce. Until then its transactions are shown in order, and all of them if packing goes to the end. */
  lemma PackedInOrder(start: Offers, end: Offers, shown: seq<Tx>, outcomes: seq<Commit>, before: seq<Tx>,
                      packed: seq<Tx>)
    requires Stretch(start, end, shown, outcomes, before, packed)
    ensures forall i, j :: 0 <= i < j < |shown| ==>
      outcomes[i] == Rejected(GasLimitReached) || outcomes[i] == Rejected(NonceTooHigh) ==>
      shown[j].sender != shown[i].sender
    ensures forall a :: OfSender(shown, a) <= Rest(start, a)
    ensures end == map[] ==> forall a :: NeverDropped(shown, outcomes, a) ==> OfSender(shown, a) == Rest(start, a)
  {
    var moves := Answers(outcomes);
    forall i | 0 <= i < |outcomes|
      ensures moves[i] == Drop <==> outcomes[i] == Rejected(GasLimitReached) || outcomes[i] == Rejected(NonceTooHigh)
    {
      AnswersAt(outcomes, i);
    }
    forall i, j | 0 <= i < j < |shown| && moves[i] == Drop ensures shown[j].sender != shown[i].sender {
      DropIsFinal(start, shown, moves, end, i, j);
    }
    forall a ensures OfSender(shown, a) <= Rest(start, a) { InOrder(start, shown, moves, end, a); }
    if end == map[] {
      forall a | NeverDropped(shown, outcomes, a) ensures OfSender(shown, a) == Rest(start, a) {
        TakesAll(start, shown, moves, a);
      }
    }
  }

  method AnswerTo(it: TransactionsByPriceAndNonce, ghost tx: Tx, outcome: Commit)
    requires it.Valid() && it.heads != [] && it.heads[0] == tx && Best(it.offers, tx) && outcome != Panicked
    modifies it
    ensures it.Valid() && it.offers == After(old(it.offers), tx, Answer(outcome))
    ensures Rest(it.offers, tx.sender) ==
        if outcome == Rejected(GasLimitReached) || outcome == Rejected(NonceTooHigh) then []
        else Rest(old(it.offers), tx.sender)[1..]
  {
    RestAfter(it.offers, tx, Answer(outcome), tx.sender);
    Reply(it, tx, if outcome == Rejected(GasLimitReached) || outcome == Rejected(NonceTooHigh) then Drop else Take);
  }

  // ---------------------------------------------------------------- the books of the miner

  function HalvesOf(halves: Tx -> Private, txs: seq<Tx>): (ps: seq<Private>)
    ensures |ps| == |txs|
  {
    if txs == [] then [] else HalvesOf(halves, txs[..|txs| - 1]) + [halves(txs[|txs| - 1])]
  }

  lemma HalvesSnoc(halves: Tx -> Private, txs: seq<Tx>, tx: Tx)
    ensures HalvesOf(halves, txs + [tx]) == HalvesOf(halves, txs) + [halves(tx)]
  {
    assert (txs + [tx])[..|txs|] == txs;
  }

  /** The transactions packed, booked one after the other from the state before them. */
  function Booked(env: Env, halves: Tx -> Private, start: World, limit: nat, txs: seq<Tx>): Option<Ledger> {
    BookAll(env, Ledger(start, limit, 0, []), txs, HalvesOf(halves, txs))
  }

  /** The miner's books are those of its transactions alone, except that the tries that failed may have
      cost it gas. */
  ghost predicate Mirrors(env: Env, halves: Tx -> Private, start: World, limit: nat, txs: seq<Tx>, l: Ledger) {
    var books := Booked(env, halves, start, limit, txs);
    books.Some? && Richer(books.value, l)
  }

  lemma MirrorsNext(env: Env, halves: Tx -> Private, start: World, limit: nat, txs: seq<Tx>, l: Ledger, tx: Tx,
                    m: Ledger)
    requires Mirrors(env, halves, start, limit, txs, l) && Book(env, l, tx, halves(tx)) == Some(m)
    ensures Mirrors(env, halves, start, limit, txs + [tx], m)
  {
    var books := Booked(env, halves, start, limit, txs).value;
    ReplayOne(env, l, books, tx, halves(tx), halves(tx));
    HalvesSnoc(halves, txs, tx);
    BookAllSnoc(env, Ledger(start, limit, 0, []), txs, HalvesOf(halves, txs), tx, halves(tx));
  }

  lemma MirrorsWithin(env: Env, halves: Tx -> Private, start: World, limit: nat, txs: seq<Tx>, l: Ledger)
    requires Mirrors(env, halves, start, limit, txs, l)
    ensures l.pool <= limit
  {
    BooksBalance(env, Ledger(start, limit, 0, []), txs, HalvesOf(halves, txs),
                 Booked(env, halves, start, limit, txs).value);
  }

  /** Gas used and gas left keep to the limit, and the receipts are running sums in packing order, each telling
      how the machine run of its transaction ended. */
  lemma MirrorsBalanced(env: Env, halves: Tx -> Private, start: World, limit: nat, txs: seq<Tx>, l: Ledger)
    requires Mirrors(env, halves, start, limit, txs, l)
    ensures Balanced(l, txs, limit, false)
    ensures Statuses(env, Ledger(start, limit, 0, []), txs, HalvesOf(halves, txs), l.receipts)
  {
    var books := Booked(env, halves, start, limit, txs).value;
    BooksBalance(env, Ledger(start, limit, 0, []), txs, HalvesOf(halves, txs), books);
    ReceiptStatus(env, Ledger(start, limit, 0, []), txs, HalvesOf(halves, txs), books);
  }

  /** Packing moves money about; only destroyed accounts take any out. */
  lemma MinedTotal(env: Env, halves: Tx -> Private, start: World, limit: nat, txs: seq<Tx>, l: Ledger)
    requires Mirrors(env, halves, start, limit, txs, l) && forall i :: 0 <= i < |txs| ==> Usable(env, txs[i])
    ensures l.world.Total(env.space) == start.Total(env.space)
        - BurntAll(env, Ledger(start, limit, 0, []), txs, HalvesOf(halves, txs))
  {
    BooksTotal(env, Ledger(start, limit, 0, []), txs, HalvesOf(halves, txs));
  }

  /** What the miner packs another node accepts exactly when no private half breaks there and each
      transaction finds its gas, the private halves that node may see included. It then has the same state,
      gas used and receipts. */
  lemma MinedIff(env: Env, halves: Tx -> Private, start: World, limit: nat, txs: seq<Tx>, l: Ledger, qs: seq<Private>)
    requires Mirrors(env, halves, start, limit, txs, l) && SameKinds(qs, HalvesOf(halves, txs))
    ensures |l.receipts| == |txs|
    ensures
      var books := BookAll(env, Ledger(start, limit, 0, []), txs, qs);
      && (books.Some? <==> Affords(limit, l.receipts, txs, qs, |txs|))
      && (books.Some? ==> Alike(books, l, Left(limit, l.receipts, qs, |txs|)))
  {
    var books := Booked(env, halves, start, limit, txs).value;
    ReplayIff(env, Ledger(start, limit, 0, []), txs, HalvesOf(halves, txs), qs, books);
  }

  /** So it is accepted wherever no private half is seen that the miner could not see. */
  lemma MinedIsValid(env: Env, halves: Tx -> Private, start: World, limit: nat, txs: seq<Tx>, l: Ledger,
                     qs: seq<Private>)
    requires Mirrors(env, halves, start, limit, txs, l) && AllMilder(qs, HalvesOf(halves, txs))
    ensures var books := BookAll(env, Ledger(start, limit, 0, []), txs, qs);
        books.Some? && Richer(books.value, l)
  {
    var begin := Ledger(start, limit, 0, []);
    Replay(env, begin, begin, txs, HalvesOf(halves, txs), qs);
  }

  /** What becomes of a transaction tried on these books: it panics if it goes through and its private half
      breaks, it is packed if it goes through otherwise, and it is turned away first for its nonce, then for
      what its sender can pay, then for the gas left. */
  predicate Fated(env: Env, l: Ledger, tx: Tx, private: Private, outcome: Commit) {
    var goes := PublicGoes(env, l.world, l.pool, tx, private);
    var current := l.world.Nonce(tx.sender) == tx.nonce;
    var cost := tx.gas * tx.price;
    && (outcome == Panicked <==> goes && private.Broken?)
    && (outcome == Packed <==> goes && !private.Broken?)
    && (outcome == Rejected(NonceTooHigh) <==> l.world.Nonce(tx.sender) < tx.nonce)
    && (outcome == Rejected(NonceTooLow) <==> l.world.Nonce(tx.sender) > tx.nonce)
    && (outcome == Rejected(InsufficientBalanceForGas) <==> current && l.world.Balance(tx.sender) < cost)
    && (outcome == Rejected(GasLimitReached) <==> current && l.world.Balance(tx.sender) >= cost && l.pool < tx.gas)
  }

  /** Takes a snapshot, applies a transaction and, if that failed, goes back to the snapshot. */
  method Try(env: Env, gp: GasPool, db: StateDB, tx: Tx, private: Private, usedGas: nat, receipts: seq<Receipt>)
    returns (outcome: Commit, used: nat, more: seq<Receipt>)
    requires gp.gas <= MAX_UINT64 && Usable(env, tx) && db.Valid()
    modifies gp, db
    ensures Fated(env, Ledger(old(db.world), old(gp.gas), usedGas, receipts), tx, private, outcome)
    ensures outcome.Rejected? ==>
        && db.Valid() && db.world == old(db.world)
        && used == usedGas && more == receipts
        && gp.gas == old(gp.gas) - if Early(outcome.error) then 0 else tx.gas
    ensures outcome.Packed? ==>
        && db.Valid()
        && Book(env, Ledger(old(db.world), old(gp.gas), usedGas, receipts), tx, private)
        == Some(Ledger(db.world, gp.gas, used, more))
  {
    RejectionIff(db.world, gp.gas, Message(tx, private), true);
    var snap := db.Snapshot();
    ghost var kept := db.revisions;
    assert kept[|kept| - 1] == Revision(snap, db.world);
    var failure, sum, receipt := ApplyTransaction(env, gp, db, tx, private, usedGas);
    if failure.Some? {
      var ok := db.RevertToSnapshot(snap);
      return if !ok then Panicked else Rejected(failure.value.error), sum, receipts;
    }
    return Packed, sum, receipts + [receipt];
  }

  class Work {
    const gasLimit: nat
    const db: StateDB
    ghost const start: World
    var gasPool: GasPool?
    var gasUsed: nat
    var tcount: nat
    var txs: seq<Tx>
    var receipts: seq<Receipt>

    ghost function Books(): Ledger
      reads this, gasPool, db
    {
      Ledger(db.world, if gasPool == null then gasLimit else gasPool.gas, gasUsed, receipts)
    }

    /** The books are those of the transactions packed so far. */
    ghost predicate Valid(env: Env, halves: Tx -> Private)
      reads this, gasPool, db
    {
      && db.Valid()
      && gasLimit <= MAX_UINT64
      && Mirrors(env, halves, start, gasLimit, txs, Books())
      && |txs| == tcount
    }

    constructor (gasLimit: nat, world: World, ghost env: Env, ghost halves: Tx -> Private)
      requires gasLimit <= MAX_UINT64
      ensures Valid(env, halves) && fresh(db) && start == world
      ensures this.gasLimit == gasLimit && gasPool == null && txs == [] && db.world == world
    {
      this.gasLimit, start := gasLimit, world;
      db := new StateDB(world);
      gasPool, gasUsed, tcount, txs, receipts := null, 0, 0, [], [];
    }

    /** Applies one transaction on top of the work so far. A transaction that goes through is booked. One
        that does not is turned away with the state put back, though not the gas pool. Putting the state
        back panics exactly when the public half went through, which ends the life of the snapshot, and
        the private half broke. */
    method CommitTransaction(env: Env, halves: Tx -> Private, tx: Tx, gp: GasPool) returns (outcome: Commit)
      requires Valid(env, halves) && gasPool == gp && Usable(env, tx)
      modifies this`gasUsed, this`txs, this`receipts, this`tcount, db, gp
      ensures Fated(env, old(Books()), tx, halves(tx), outcome)
      ensures outcome != Panicked ==> Valid(env, halves)
      ensures outcome.Rejected? ==>
          && txs == old(txs) && Richer(old(Books()), Books())
          && gp.gas == old(gp.gas) - if Early(outcome.error) then 0 else tx.gas
      ensures outcome.Packed? ==>
          txs == old(txs) + [tx] && Book(env, old(Books()), tx, halves(tx)) == Some(Books())
    {
      ghost var books, packed := Books(), txs;
      MirrorsWithin(env, halves, start, gasLimit, packed, books);
      outcome, gasUsed, receipts := Try(env, gp, db, tx, halves(tx), gasUsed, receipts);
      if outcome.Packed? {
        txs := txs + [tx];
        tcount := tcount + 1;
        MirrorsNext(env, halves, start, gasLimit, packed, books, tx, Books());
      }
    }

    /** Tries the transaction the iterator shows and answers the iterator: an account whose
        transaction does not fit the gas left, or whose nonce is too high, is dropped. */
    method CommitNext(it: TransactionsByPriceAndNonce, env: Env, halves: Tx -> Private, tx: Tx, gp: GasPool)
      returns (outcome: Commit)
      requires Valid(env, halves) && gasPool == gp && Usable(env, tx)
      requires it.Valid() && it.heads != [] && it.heads[0] == tx && Best(it.offers, tx)
      modifies this`gasUsed, this`txs, this`receipts, this`tcount, db, gp, it
      ensures Fated(env, old(Books()), tx, halves(tx), outcome)
      ensures outcome != Panicked ==>
          && Valid(env, halves) && it.Valid()
          && it.offers == After(old(it.offers), tx, Answer(outcome))
          && Rest(it.offers, tx.sender) ==
             (if outcome == Rejected(GasLimitReached) || outcome == Rejected(NonceTooHigh) then []
              else Rest(old(it.offers), tx.sender)[1..])
          && txs == if outcome.Packed? then old(txs) + [tx] else old(txs)
    {
      outcome := CommitTransaction(env, halves, tx, gp);
      if outcome == Panicked {
        return;
      }
      AnswerTo(it, tx, outcome);
    }

    /** The packing loop. Every pass takes or drops an offer, so it ends; it crashes exactly when a
        transaction goes through on the books it is tried on and has a private half that breaks. */
    method PackLoop(it: TransactionsByPriceAndNonce, env: Env, halves: Tx -> Private, timeUp: nat -> bool, gp: GasPool)
      returns (crashed: bool, ghost shown: seq<Tx>, ghost outcomes: seq<Commit>, ghost books: seq<Ledger>)
      requires Valid(env, halves) && gasPool == gp && it.Valid()
      requires Honest(env.vm, env.space) && env.coinbase < env.space && Within(it.offers, env.space)
      modifies this`gasUsed, this`txs, this`receipts, this`tcount, db, gp, it
      ensures !crashed ==> Valid(env, halves) && it.Valid()
      ensures !crashed ==> Stretch(old(it.offers), it.offers, shown, outcomes, old(txs), txs)
      ensures !crashed ==> it.offers == map[] || gp.gas < TX_GAS || timeUp(|shown|)
      ensures Tried(env, halves, books, shown, outcomes) && (crashed <==> Panicked in outcomes)
    {
      ghost var start, before := it.offers, txs;
      crashed, shown, outcomes, books := false, [], [], [];
      var passes := 0;
      while true
        invariant passes == |shown| && Valid(env, halves) && it.Valid() && Within(it.offers, env.space)
        invariant Stretch(start, it.offers, shown, outcomes, before, txs) && Tried(env, halves, books, shown, outcomes)
        decreases Places(it.offers)
      {
        if timeUp(passes) || gp.gas < TX_GAS {
          break;
        }
        var next := it.Peek();
        if next.None? {
          break;
        }
        ghost var l := Books();
        var outcome := PackNext(it, env, halves, next.value, gp, start, before, shown, outcomes, books);
        shown, outcomes, books := shown + [next.value], outcomes + [outcome], books + [l];
        if outcome == Panicked {
          return true, shown, outcomes, books;
        }
        passes := passes + 1;
      }
    }

    method PackNext(it: TransactionsByPriceAndNonce, env: Env, halves: Tx -> Private, tx: Tx, gp: GasPool,
                    ghost start: Offers, ghost before: seq<Tx>, ghost shown: seq<Tx>, ghost outcomes: seq<Commit>,
                    ghost books: seq<Ledger>)
      returns (outcome: Commit)
      requires Valid(env, halves) && gasPool == gp && Usable(env, tx) && Within(it.offers, env.space)
      requires it.Valid() && it.heads != [] && it.heads[0] == tx && Best(it.offers, tx)
      requires Stretch(start, it.offers, shown, outcomes, before, txs) && Tried(env, halves, books, shown, outcomes)
      modifies this`gasUsed, this`txs, this`receipts, this`tcount, db, gp, it
      ensures Tried(env, halves, books + [old(Books())], shown + [tx], outcomes + [outcome])
      ensures outcome != Panicked ==>
          && Valid(env, halves) && it.Valid() && Within(it.offers, env.space)
          && Places(it.offers) < old(Places(it.offers))
          && Stretch(start, it.offers, shown + [tx], outcomes + [outcome], before, txs)
    {
      ghost var was, packed, l := it.offers, txs, Books();
      outcome := CommitNext(it, env, halves, tx, gp);
      TriedNext(env, halves, books, shown, outcomes, l, tx, outcome);
      if outcome != Panicked {
        StretchStep(start, was, it.offers, shown, outcomes, before, packed, txs, tx, outcome);
        PlacesShrink(was, it.offers, env.space, tx, Answer(outcome));
      }
    }

    /** Packs what the iterator offers until time is up, the gas left cannot pay for a plain
        transfer, or nothing is offered any more, unless it crashes. */
    method CommitTransactions(it: TransactionsByPriceAndNonce, env: Env, halves: Tx -> Private, timeUp: nat -> bool)
      returns (crashed: bool, ghost shown: seq<Tx>, ghost outcomes: seq<Commit>, ghost books: seq<Ledger>)
      requires Valid(env, halves) && it.Valid()
      requires Honest(env.vm, env.space) && env.coinbase < env.space && Within(it.offers, env.space)
      modifies this, gasPool, db, it
      ensures !crashed ==> Valid(env, halves) && it.Valid() && gasPool != null
      ensures !crashed ==> Stretch(old(it.offers), it.offers, shown, outcomes, old(txs), txs)
      ensures !crashed ==> it.offers == map[] || gasPool.gas < TX_GAS || timeUp(|shown|)
      ensures Tried(env, halves, books, shown, outcomes) && (crashed <==> Panicked in outcomes)
      ensures (forall tx :: !halves(tx).Broken?) ==> !crashed
      ensures !crashed ==> forall i, j :: 0 <= i < j < |shown| ==>
          outcomes[i] == Rejected(GasLimitReached) || outcomes[i] == Rejected(NonceTooHigh) ==>
          shown[j].sender != shown[i].sender
      ensures !crashed ==> forall a :: OfSender(shown, a) <= Rest(old(it.offers), a)
      ensures !crashed && it.offers == map[] ==> forall a :: NeverDropped(shown, outcomes, a) ==>
          OfSender(shown, a) == Rest(old(it.offers), a)
    {
      if gasPool == null {
        gasPool := new GasPool(gasLimit);
      }
      crashed, shown, outcomes, books := PackLoop(it, env, halves, timeUp, gasPool);
      if !crashed { PackedInOrder(old(it.offers), it.offers, shown, outcomes, old(txs), txs); }
      if forall tx :: !halves(tx).Broken? {
        NoneFatal(env, halves, books, shown, outcomes);
      }
    }
  }

  /** Each transaction shown comes out as it must on the books it is tried on. */
  ghost predicate Tried(env: Env, halves: Tx -> Private, books: seq<Ledger>, shown: seq<Tx>, outcomes: seq<Commit>) {
    && |books| == |shown| == |outcomes|
    && (shown == [] ||
        (var n := |shown| - 1;
         && Fated(env, books[n], shown[n], halves(shown[n]), outcomes[n])
         && Tried(env, halves, books[..n], shown[..n], outcomes[..n])))
  }

  lemma TriedNext(env: Env, halves: Tx -> Private, books: seq<Ledger>, shown: seq<Tx>, outcomes: seq<Commit>,
                  l: Ledger, tx: Tx, outcome: Commit)
    requires Tried(env, halves, books, shown, outcomes) && Fated(env, l, tx, halves(tx), outcome)
    ensures Tried(env, halves, books + [l], shown + [tx], outcomes + [outcome])
  {
    var n := |shown|;
    assert (books + [l])[..n] == books && (shown + [tx])[..n] == shown && (outcomes + [outcome])[..n] == outcomes;
  }

  /** Without private halves that break nothing crashes. */
  lemma {:induction false} NoneFatal(env: Env, halves: Tx -> Private, books: seq<Ledger>, shown: seq<Tx>,
                                     outcomes: seq<Commit>)
    requires Tried(env, halves, books, shown, outcomes) && forall tx :: !halves(tx).Broken?
    ensures Panicked !in outcomes
  {
    if shown != [] {
      var n := |shown| - 1;
      NoneFatal(env, halves, books[..n], shown[..n], outcomes[..n]);
      assert outcomes == outcomes[..n] + [outcomes[n]];
    }
  }

  /** A machine that does nothing. */
  const Idle: Machine := (w: World, tx: Tx, gas: nat) => Outcome(w, gas, Fine)

  /** A free transfer whose private half breaks crashes a miner with room for it. */
  method CrashExample() returns (outcome: Commit)
    ensures outcome == Panicked
  {
    var env, halves := Env(Idle, 2, 1), (tx: Tx) => Broken(0);
    var tx := Tx(1, true, 0, 0, TX_GAS, 0, false, [], 0);
    var work := new Work(TX_GAS, World(map[], map[], 0, {}), env, halves);
    var gp := new GasPool(TX_GAS);
    work.gasPool := gp;
    outcome := work.CommitTransaction(env, halves, tx, gp);
  }

  /** A free transfer. */
  function Transfer(nonce: nat): Tx { Tx(1, true, nonce, 0, TX_GAS, 0, false, [], 0) }

  const FREE: Env := Env(Idle, 2, 1)

  function FirstHidden(tx: Tx): Private { if tx.nonce == 0 then Hidden else Open }

  /** A state in which the sender of free transfers is about to send this one. */
  predicate Due(w: World, nonce: nat) {
    w.Nonce(1) == nonce && w.Balance(1) >= 0 && w.refund == 0 && w.doomed == {}
  }

  lemma TransferGoes(l: Ledger, nonce: nat, private: Private)
    requires Due(l.world, nonce)
    ensures PublicGoes(FREE, l.world, l.pool, Transfer(nonce), private) <==> TX_GAS <= l.pool
    ensures GasOf(FREE, l.world, Transfer(nonce), private) == TX_GAS
    ensures Due(StateOf(FREE, l.world, Transfer(nonce), private).Finalised(), nonce + 1)
  {
  }

  lemma TransferBooked(l: Ledger, nonce: nat, private: Private)
    requires Due(l.world, nonce) && !private.Broken?
    ensures
      var m := Book(FREE, l, Transfer(nonce), private);
      && (m.Some? <==> TX_GAS <= l.pool)
      && (m.Some? ==>
            && Due(m.value.world, nonce + 1)
            && m.value.pool == l.pool - TX_GAS - PrivateGas(private, l.pool - TX_GAS))
  {
    TransferGoes(l, nonce, private);
  }

  /** A miner that may not see the private half of the first of two free transfers packs both into a block
      that just holds them. A node that may see it, and finds that it takes one unit of gas, turns the
      block down. */
  method TurnedDown() returns (first: Commit, second: Commit, ok: bool)
    ensures first == second == Packed && !ok
  {
    var start := World(map[], map[], 0, {});
    first, second := PackTransfers(start);
    var db := new StateDB(start);
    SeenHalf(Ledger(start, 2 * TX_GAS, 0, []));
    var accepted, _, _, _ := Process(FREE, Header(1, 1, 2 * TX_GAS), db, [Transfer(0), Transfer(1)], [Ran(1), Open]);
    ok := accepted;
  }

  lemma SeenHalf(l: Ledger)
    requires Due(l.world, 0) && l.pool == 2 * TX_GAS
    ensures BookAll(FREE, l, [Transfer(0), Transfer(1)], [Ran(1), Open]).None?
  {
    TransferBooked(l, 0, Ran(1));
    var m := Book(FREE, l, Transfer(0), Ran(1)).value;
    TransferBooked(m, 1, Open);
    BookAllSnoc(FREE, l, [], [], Transfer(0), Ran(1));
    BookAllSnoc(FREE, l, [Transfer(0)], [Ran(1)], Transfer(1), Open);
    assert [] + [Transfer(0)] == [Transfer(0)] && [] + [Ran(1)] == [Ran(1)];
    assert [Transfer(0)] + [Transfer(1)] == [Transfer(0), Transfer(1)] && [Ran(1)] + [Open] == [Ran(1), Open];
  }

  method PackTransfers(start: World) returns (first: Commit, second: Commit)
    requires Due(start, 0)
    ensures first == second == Packed
  {
    var work := new Work(2 * TX_GAS, start, FREE, FirstHidden);
    var gp := new GasPool(2 * TX_GAS);
    work.gasPool := gp;
    TransferBooked(work.Books(), 0, Hidden);
    first := work.CommitTransaction(FREE, FirstHidden, Transfer(0), gp);
    TransferBooked(work.Books(), 1, Open);
    second := work.CommitTransaction(FREE, FirstHidden, Transfer(1), gp);
  }
}
