/** Whole runs of the price/nonce iterator. */
module IteratorRuns {
  import opened Types
  import opened Iteration

  /** What the caller does with the transaction it was shown: take it, or drop its account. */
  datatype Move = Take | Drop

  /** `tx` is some account's first offer, and none is dearer. */
  ghost predicate Best(offers: Offers, tx: Tx) {
    && tx.sender in offers && offers[tx.sender] != [] && offers[tx.sender][0] == tx
    && (forall a :: a in offers ==> offers[a] != [] && offers[a][0].price <= tx.price)
  }

  function After(offers: Offers, tx: Tx, move: Move): Offers
    requires tx.sender in offers && offers[tx.sender] != []
  {
    if move == Take then Taken(offers, tx.sender) else offers - {tx.sender}
  }

  /** Starting from `offers`, the iterator shows `shown` while the caller answers with `moves`, and
      `end` is left. */
  ghost predicate Run(offers: Offers, shown: seq<Tx>, moves: seq<Move>, end: Offers) {
    && |shown| == |moves|
    && if shown == [] then offers == end
       else Best(offers, shown[0]) && Run(After(offers, shown[0], moves[0]), shown[1..], moves[1..], end)
  }

  lemma {:induction false} RunSnoc(offers: Offers, shown: seq<Tx>, moves: seq<Move>, mid: Offers, tx: Tx, move: Move)
    requires Run(offers, shown, moves, mid) && Best(mid, tx)
    ensures Run(offers, shown + [tx], moves + [move], After(mid, tx, move))
  {
    if shown == [] {
      assert shown + [tx] == [tx] && moves + [move] == [move];
    } else {
      RunSnoc(After(offers, shown[0], moves[0]), shown[1..], moves[1..], mid, tx, move);
      assert (shown + [tx])[1..] == shown[1..] + [tx];
      assert (moves + [move])[1..] == moves[1..] + [move];
    }
  }

  /** The transactions of one account among those shown. */
  function OfSender(shown: seq<Tx>, a: Address): seq<Tx> {
    if shown == [] then []
    else (if shown[0].sender == a then [shown[0]] else []) + OfSender(shown[1..], a)
  }

  lemma RestAfter(offers: Offers, tx: Tx, move: Move, a: Address)
    requires Best(offers, tx)
    ensures tx.sender != a ==> Rest(After(offers, tx, move), a) == Rest(offers, a)
    ensures tx.sender == a ==>
        Rest(offers, a) == [tx] + Rest(offers, a)[1..] &&
        Rest(After(offers, tx, move), a) == if move == Take then Rest(offers, a)[1..] else []
  {
  }

  /** The account's transactions come out in input order. */
  lemma {:induction false} InOrder(offers: Offers, shown: seq<Tx>, moves: seq<Move>, end: Offers, a: Address)
    requires Run(offers, shown, moves, end)
    ensures OfSender(shown, a) <= Rest(offers, a)
  {
    if shown != [] {
      InOrder(After(offers, shown[0], moves[0]), shown[1..], moves[1..], end, a);
      RestAfter(offers, shown[0], moves[0], a);
      if shown[0].sender == a {
        var later := OfSender(shown[1..], a);
        assert later <= Rest(offers, a)[1..];
        assert [shown[0]] + later <= [shown[0]] + Rest(offers, a)[1..];
      }
    }
  }

  /** Nothing of an account is shown once it was dropped. */
  lemma {:induction false} Gone(offers: Offers, shown: seq<Tx>, moves: seq<Move>, end: Offers, a: Address, j: nat)
    requires Run(offers, shown, moves, end) && a !in offers && j < |shown|
    ensures shown[j].sender != a
  {
    if j > 0 {
      Gone(After(offers, shown[0], moves[0]), shown[1..], moves[1..], end, a, j - 1);
    }
  }

  lemma {:induction false} DropIsFinal(offers: Offers, shown: seq<Tx>, moves: seq<Move>, end: Offers, i: nat, j: nat)
    requires Run(offers, shown, moves, end) && i < j < |shown| && moves[i] == Drop
    ensures shown[j].sender != shown[i].sender
  {
    var next := After(offers, shown[0], moves[0]);
    if i == 0 {
      Gone(next, shown[1..], moves[1..], end, shown[0].sender, j - 1);
    } else {
      DropIsFinal(next, shown[1..], moves[1..], end, i - 1, j - 1);
    }
  }

  /** What is shown is at least as dear as the next transaction of every account that was not
      dropped before. */
  lemma {:induction false} Greedy(offers: Offers, shown: seq<Tx>, moves: seq<Move>, end: Offers, i: nat, a: Address)
    requires Run(offers, shown, moves, end) && i < |shown|
    requires forall j :: 0 <= j < i && shown[j].sender == a ==> moves[j] == Take
    requires |OfSender(shown[..i], a)| < |Rest(offers, a)|
    ensures Rest(offers, a)[|OfSender(shown[..i], a)|].price <= shown[i].price
  {
    if i > 0 {
      var next, rest := After(offers, shown[0], moves[0]), shown[1..];
      assert shown[..i][1..] == rest[..i - 1];
      assert moves[1..][..i - 1] == moves[1..i];
      Greedy(next, rest, moves[1..], end, i - 1, a);
    }
  }

  /** A run to the end shows all of an account it takes everything of. */
  lemma {:induction false} TakesAll(offers: Offers, shown: seq<Tx>, moves: seq<Move>, a: Address)
    requires Run(offers, shown, moves, map[])
    requires forall j :: 0 <= j < |moves| && shown[j].sender == a ==> moves[j] == Take
    ensures OfSender(shown, a) == Rest(offers, a)
  {
    if shown != [] {
      TakesAll(After(offers, shown[0], moves[0]), shown[1..], moves[1..], a);
      RestAfter(offers, shown[0], moves[0], a);
    }
  }

  lemma {:induction false} CountOfSender(shown: seq<Tx>, tx: Tx)
    ensures multiset(shown)[tx] == multiset(OfSender(shown, tx.sender))[tx]
  {
    if shown != [] {
      CountOfSender(shown[1..], tx);
      assert shown == [shown[0]] + shown[1..];
    }
  }

  /** Such a run is a permutation of the input. */
  lemma Permutation(offers: Offers, shown: seq<Tx>, moves: seq<Move>)
    requires Run(offers, shown, moves, map[])
    requires forall j :: 0 <= j < |moves| ==> moves[j] == Take
    ensures forall tx :: multiset(shown)[tx] == multiset(Rest(offers, tx.sender))[tx]
  {
    forall tx
      ensures multiset(shown)[tx] == multiset(Rest(offers, tx.sender))[tx]
    {
      CountOfSender(shown, tx);
      TakesAll(offers, shown, moves, tx.sender);
    }
  }

  /** The first answers have brought the iterator from `start` to `offers`. */
  ghost predicate Driven(start: Offers, offers: Offers, moves: seq<Move>, shown: seq<Tx>) {
    |shown| <= |moves| && Run(start, shown, moves[..|shown|], offers)
  }

  lemma DrivenNext(start: Offers, offers: Offers, moves: seq<Move>, shown: seq<Tx>, tx: Tx, after: Offers)
    requires Driven(start, offers, moves, shown) && |shown| < |moves|
    requires Best(offers, tx) && after == After(offers, tx, moves[|shown|])
    ensures Driven(start, after, moves, shown + [tx])
  {
    RunSnoc(start, shown, moves[..|shown|], offers, tx, moves[|shown|]);
    assert moves[..|shown|] + [moves[|shown|]] == moves[..|shown| + 1];
  }

  method Reply(it: TransactionsByPriceAndNonce, ghost tx: Tx, move: Move)
    requires it.Valid() && it.heads != [] && it.heads[0] == tx && Best(it.offers, tx)
    modifies it
    ensures it.Valid() && it.offers == After(old(it.offers), tx, move)
  {
    if move == Take {
      it.Shift();
    } else {
      it.Pop();
    }
  }

  /** Driving an iterator with any answers gives a run; it stops early only when nothing is left. */
  method Drive(it: TransactionsByPriceAndNonce, moves: seq<Move>) returns (shown: seq<Tx>)
    requires it.Valid()
    modifies it
    ensures it.Valid()
    ensures Driven(old(it.offers), it.offers, moves, shown)
    ensures |shown| < |moves| ==> it.offers == map[]
  {
    shown := [];
    ghost var start := it.offers;
    while |shown| < |moves|
      invariant it.Valid() && Driven(start, it.offers, moves, shown)
    {
      var tx := it.Peek();
      if tx.None? {
        return;
      }
      ghost var was := it.offers;
      Reply(it, tx.value, moves[|shown|]);
      DrivenNext(start, was, moves, shown, tx.value, it.offers);
      shown := shown + [tx.value];
    }
  }
}
