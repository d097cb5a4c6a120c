/** The iterator that hands out transactions by price while honouring nonces
    (types/transaction.go). */
module Iteration {
  import opened Types
  import Heap

  /** The heap order of the heads: dearest first. */
  const Dearer: (Tx, Tx) -> bool := (a: Tx, b: Tx) => a.price > b.price

  /** What each account still has to offer, next transaction first. */
  type Offers = map<Address, seq<Tx>>

  function Rest(txs: Offers, a: Address): seq<Tx> {
    if a in txs then txs[a] else []
  }

  predicate AllFrom(list: seq<Tx>, a: Address) {
    forall i :: 0 <= i < |list| ==> list[i].sender == a
  }

  /** Every account offers something, and only transactions of its own. */
  predicate Owned(offers: Offers) {
    forall a :: a in offers ==> offers[a] != [] && AllFrom(offers[a], a)
  }

  /** The heads are the first offers, one per account, and `txs` holds what follows them. */
  ghost predicate Tied(tops: set<Tx>, txs: Offers, offers: Offers) {
    && (forall h :: h in tops ==> h.sender in offers && offers[h.sender] == [h] + Rest(txs, h.sender))
    && (forall a :: a in offers ==> offers[a] != [] && offers[a][0] in tops)
    && Owned(offers)
  }

  /** The offers after the first one of `a` is taken. */
  function Taken(offers: Offers, a: Address): Offers
    requires a in offers && offers[a] != []
  {
    if |offers[a]| > 1 then offers[a := offers[a][1..]] else offers - {a}
  }

  lemma TiedTake(tops: set<Tx>, txs: Offers, offers: Offers, h: Tx)
    requires Tied(tops, txs, offers) && h in tops
    ensures h.sender in offers && offers[h.sender] != [] && offers[h.sender][0] == h
    ensures var rest := Rest(txs, h.sender);
        if rest != []
        then Tied(tops - {h} + {rest[0]}, txs[h.sender := rest[1..]], Taken(offers, h.sender))
             && rest[0] !in tops - {h}
        else Tied(tops - {h}, txs, Taken(offers, h.sender))
  {
    var a, rest := h.sender, Rest(txs, h.sender);
    assert offers[a][1..] == rest;
    if rest != [] {
      assert rest[0] == offers[a][1];
      assert rest == [rest[0]] + rest[1..];
    } else {
      TiedDrop(tops, txs, offers, h);
    }
  }

  lemma TiedDrop(tops: set<Tx>, txs: Offers, offers: Offers, h: Tx)
    requires Tied(tops, txs, offers) && h in tops
    ensures h.sender in offers
    ensures Tied(tops - {h}, txs, offers - {h.sender})
  {
  }

  lemma TiedAdd(tops: set<Tx>, txs: Offers, offers: Offers, a: Address, list: seq<Tx>)
    requires Tied(tops, txs, offers) && a !in offers && list != [] && AllFrom(list, a)
    ensures Tied(tops + {list[0]}, txs[a := list[1..]], offers[a := list]) && list[0] !in tops
  {
    assert list == [list[0]] + list[1..];
  }

  /** The heap holds the members of `tops`, each once. */
  ghost predicate Heaped(heads: seq<Tx>, tops: set<Tx>) {
    Heap.IsHeap(Dearer, heads) && multiset(heads) == multiset(tops)
  }

  lemma HeapedHas(heads: seq<Tx>, tops: set<Tx>)
    requires Heaped(heads, tops) && heads != []
    ensures heads[0] in tops
    ensures forall h :: h in tops ==> h.price <= heads[0].price
  {
    Heap.RootBelowAll(Dearer, heads);
    assert heads[0] in multiset(heads);
    forall h | h in tops
      ensures h.price <= heads[0].price
    {
      assert h in multiset(heads);
      assert !Dearer(h, heads[0]);
    }
  }

  /** Splits every account's list into its head and the rest. */
  method Collect(input: Offers) returns (heads: seq<Tx>, txs: Offers, ghost tops: set<Tx>)
    requires Owned(input)
    ensures multiset(heads) == multiset(tops) && Tied(tops, txs, input)
  {
    heads, txs, tops := [], input, {};
    ghost var done: Offers := map[];
    var todo := input.Keys;
    while todo != {}
      invariant todo <= input.Keys
      invariant Part(done, input, todo)
      invariant multiset(heads) == multiset(tops) && Tied(tops, txs, done)
    {
      var from :| from in todo;
      TiedAdd(tops, txs, done, from, input[from]);
      AddMember(heads, tops, input[from][0]);
      heads := heads + [input[from][0]];
      tops := tops + {input[from][0]};
      txs := txs[from := input[from][1..]];
      done := done[from := input[from]];
      todo := todo - {from};
    }
    assert done == input;
  }

  /** `done` is the part of `input` that is no longer to do. */
  ghost predicate Part(done: Offers, input: Offers, todo: set<Address>) {
    && (forall a :: a in done <==> a in input && a !in todo)
    && (forall a :: a in done ==> done[a] == input[a])
  }

  class TransactionsByPriceAndNonce {
    var txs: Offers
    var heads: seq<Tx>
    ghost var tops: set<Tx>
    ghost var offers: Offers

    ghost predicate Valid()
      reads this
    {
      Heaped(heads, tops) && Tied(tops, txs, offers)
    }

    constructor (input: Offers)
      requires Owned(input)
      ensures Valid() && offers == input
    {
      var hs, rest;
      ghost var firsts;
      hs, rest, firsts := Collect(input);
      hs := Heap.Init(Dearer, hs);
      heads, txs, tops, offers := hs, rest, firsts, input;
    }

    /** The next transaction is an account's first offer and no account's first offer is dearer. */
    method Peek() returns (r: Option<Tx>)
      requires Valid()
      ensures r.None? <==> offers == map[]
      ensures r.Some? ==>
          r.value.sender in offers && offers[r.value.sender] != [] && offers[r.value.sender][0] == r.value
      ensures r.Some? ==> forall a :: a in offers ==> offers[a] != [] && offers[a][0].price <= r.value.price
      ensures r.Some? ==> heads != [] && heads[0] == r.value
    {
      if |heads| == 0 {
        assert tops == {} by {
          assert multiset(tops) == multiset{};
          assert forall h :: h in tops ==> h in multiset(tops);
        }
        return None;
      }
      HeapedHas(heads, tops);
      return Some(heads[0]);
    }

    /** Takes the first offer; the account's next one, if any, replaces it. */
    method Shift()
      requires Valid() && heads != []
      modifies this
      ensures Valid()
      ensures var a := old(heads)[0].sender;
          a in old(offers) && old(offers)[a] != [] && offers == Taken(old(offers), a)
    {
      var top := heads[0];
      var acc := top.sender;
      HeapedHas(heads, tops);
      TiedTake(tops, txs, offers, top);
      offers := Taken(offers, acc);
      if acc in txs && |txs[acc]| > 0 {
        var next := txs[acc][0];
        txs := txs[acc := txs[acc][1..]];
        ReplaceTop(next);
      } else {
        RemoveTop();
      }
    }

    method ReplaceTop(next: Tx)
      requires Heaped(heads, tops) && heads != [] && next !in tops - {heads[0]}
      modifies this`heads, this`tops
      ensures tops == old(tops) - {old(heads)[0]} + {next} && Heaped(heads, tops)
    {
      HeapedHas(heads, tops);
      Heap.OverwriteIsFixable(Dearer, heads, 0, next);
      SwapMember(heads, tops, next);
      tops := tops - {heads[0]} + {next};
      var h := Heap.Fix(Dearer, heads[0 := next], 0);
      heads := h;
    }

    method RemoveTop()
      requires Heaped(heads, tops) && heads != []
      modifies this`heads, this`tops
      ensures tops == old(tops) - {old(heads)[0]} && Heaped(heads, tops)
    {
      HeapedHas(heads, tops);
      ghost var top := heads[0];
      var h, x := Heap.Pop(Dearer, heads);
      DropMember(multiset(h), tops, top);
      tops := tops - {top};
      heads := h;
    }

    /** Drops the account of the first offer altogether. */
    method Pop()
      requires Valid() && heads != []
      modifies this
      ensures Valid()
      ensures old(heads)[0].sender in old(offers)
      ensures offers == old(offers) - {old(heads)[0].sender}
    {
      ghost var top := heads[0];
      HeapedHas(heads, tops);
      TiedDrop(tops, txs, offers, top);
      offers := offers - {top.sender};
      RemoveTop();
    }
  }

  lemma AddMember(h: seq<Tx>, tops: set<Tx>, x: Tx)
    requires multiset(h) == multiset(tops) && x !in tops
    ensures multiset(h + [x]) == multiset(tops + {x})
  {
    forall y
      ensures multiset(h + [x])[y] == multiset(tops + {x})[y]
    {
      assert multiset(h + [x])[y] == multiset(tops)[y] + multiset{x}[y];
    }
  }

  lemma DropMember(m: multiset<Tx>, tops: set<Tx>, x: Tx)
    requires x in tops && multiset(tops) == m + multiset{x}
    ensures m == multiset(tops - {x})
  {
    forall y
      ensures m[y] == multiset(tops - {x})[y]
    {
      assert multiset(tops)[y] == m[y] + multiset{x}[y];
    }
  }

  lemma SwapMember(h: seq<Tx>, tops: set<Tx>, x: Tx)
    requires h != [] && multiset(h) == multiset(tops) && h[0] in tops && x !in tops - {h[0]}
    ensures multiset(h[0 := x]) == multiset(tops - {h[0]} + {x})
  {
    assert h == [h[0]] + h[1..];
    assert h[0 := x] == [x] + h[1..];
    DropMember(multiset(h[1..]), tops, h[0]);
  }
}
