/** Keeping the pool within its limits (core/tx_pool.go): how the executable lists of the heaviest
    accounts and the queues of remote accounts are cut. */
module Truncation {
  import opened Types
  import opened Nonces
  import opened PoolModel

  /** The number of transactions in all lists. */
  ghost function Total(m: AccountLists): nat
    decreases |m|
  {
    if m == map[] then 0
    else
      var a :| a in m;
      assert (m - {a}).Keys == m.Keys - {a};
      |m[a]| + Total(m - {a})
  }

  lemma {:induction false} TotalPick(m: AccountLists, a: Address)
    requires a in m
    ensures Total(m) == |m[a]| + Total(m - {a})
    decreases |m|
  {
    var b :| b in m && Total(m) == |m[b]| + Total(m - {b});
    if a != b {
      Without2(m, a, b);
      TotalPick(m - {b}, a);
      TotalPick(m - {a}, b);
    }
  }

  lemma Without2(m: AccountLists, a: Address, b: Address)
    requires a in m && b in m && a != b
    ensures m - {b} - {a} == m - {a} - {b} && |m - {a}| == |m - {b}| == |m| - 1
    ensures b in m - {a} && a in m - {b} && (m - {a})[b] == m[b] && (m - {b})[a] == m[a]
  {
    assert (m - {b}).Keys == m.Keys - {b} && (m - {a}).Keys == m.Keys - {a};
  }

  lemma TotalSet(m: AccountLists, a: Address, items: map<nat, Tx>)
    ensures Total(SetItems(m, a, items)) == Total(m) - |Items(m, a)| + |items|
  {
    var r := SetItems(m, a, items);
    TotalWithout(m, a);
    TotalWithout(r, a);
    assert r - {a} == m - {a};
  }

  lemma TotalWithout(m: AccountLists, a: Address)
    ensures Total(m) == |Items(m, a)| + Total(m - {a})
  {
    if a in m { TotalPick(m, a); } else { assert m - {a} == m; }
  }

  /** Cutting the highest executable nonce, with the virtual nonce following. */
  function CutLast(x: Account): Account
    requires x.pend != map[]
  {
    var h := Highest(x.pend);
    x.(pend := Drop(x.pend, h), next := if x.next > h then h else x.next)
  }

  /** Cutting the executable list to its `k` lowest nonces. */
  function TrimTo(x: Account, k: nat): Account
    decreases |x.pend|
  {
    if |x.pend| <= k then x
    else
      DropSize(x.pend, Highest(x.pend));
      TrimTo(CutLast(x), k)
  }

  lemma {:induction false} TrimSize(x: Account, k: nat)
    ensures |TrimTo(x, k).pend| == if |x.pend| <= k then |x.pend| else k
    ensures TrimTo(x, k).que == x.que
    decreases |x.pend|
  {
    if |x.pend| > k {
      DropSize(x.pend, Highest(x.pend));
      TrimSize(CutLast(x), k);
    }
  }

  lemma {:induction false} TrimStep(x: Account, k: nat)
    requires k < |x.pend|
    ensures TrimTo(x, k + 1).pend != map[] && CutLast(TrimTo(x, k + 1)) == TrimTo(x, k)
    decreases |x.pend|
  {
    DropSize(x.pend, Highest(x.pend));
    if |x.pend| > k + 1 {
      TrimStep(CutLast(x), k);
    }
  }

  lemma CutOk(x: Account, a: Address)
    requires AccountOk(x, a) && x.pend != map[]
    ensures AccountOk(CutLast(x), a)
    ensures forall tx :: InAccount(CutLast(x), tx) <==> InAccount(x, tx) && tx != x.pend[Highest(x.pend)]
  {
  }

  lemma CutLeaves(p: Pool, a: Address, all: set<Tx>)
    requires Inv(p) && Of(p, a).pend != map[] && forall tx :: tx in all <==> Pooled(p, tx)
    ensures
      var x := Of(p, a);
      var h := Highest(x.pend);
      AccountOk(x.(pend := Drop(x.pend, h)), a) && Leaves(p, a, CutLast(x), all, {x.pend[h]})
  {
    var x := Of(p, a);
    assert AccountOk(x, a);
    CutOk(x, a);
    LeavesAccount(p, a, CutLast(x), all, {x.pend[Highest(x.pend)]});
  }

  lemma CutSettled(x: Account, stateNonce: nat)
    requires x.pend != map[]
    ensures Settled(x, stateNonce) ==> Settled(CutLast(x), stateNonce)
    ensures PendingInterval(x, stateNonce) ==> PendingInterval(CutLast(x), stateNonce)
  {
    if PendingInterval(x, stateNonce) {
      assert x.next > stateNonce;
      assert x.next - 1 in x.pend;
    }
  }

  lemma {:induction false} TrimSettled(x: Account, k: nat, stateNonce: nat)
    ensures Settled(x, stateNonce) ==> Settled(TrimTo(x, k), stateNonce)
    decreases |x.pend|
  {
    if |x.pend| > k {
      DropSize(x.pend, Highest(x.pend));
      CutSettled(x, stateNonce);
      TrimSettled(CutLast(x), k, stateNonce);
    }
  }

  function Len(p: Pool, a: Address): nat { |Items(p.pending, a)| }

  /** `p` is `p0` with some executable lists cut at the top. */
  ghost predicate Trimmed(p0: Pool, p: Pool) {
    SameRest(p0, p) && forall a :: Of(p, a) == TrimTo(Of(p0, a), Len(p, a))
  }

  ghost predicate Distinct(s: seq<Address>) {
    forall i, j :: 0 <= i < j < |s| ==> s[i] != s[j]
  }

  /** Midway through shortening each of `offs` by one: the first `i` have `len - 1`, the others `len`. */
  ghost predicate Sweeping(p0: Pool, p1: Pool, p: Pool, offs: seq<Address>, i: nat, len: nat) {
    && Distinct(offs) && Trimmed(p0, p)
    && (forall k :: 0 <= k < |offs| ==> Len(p, offs[k]) == if k < i then len - 1 else len)
    && (forall a :: a !in offs ==> Of(p, a) == Of(p1, a))
  }

  lemma CutInPool(p: Pool, a: Address)
    requires Inv(p) && Of(p, a).pend != map[]
    ensures
      var q := Put(p, a, CutLast(Of(p, a)));
      && Inv(q) && Of(q, a) == CutLast(Of(p, a)) && Len(q, a) == Len(p, a) - 1
      && (forall b :: b != a ==> Of(q, b) == Of(p, b) && Len(q, b) == Len(p, b))
      && Total(q.pending) == Total(p.pending) - 1
  {
    var x := Of(p, a);
    assert AccountOk(x, a);
    CutOk(x, a);
    PutOf(p, a, CutLast(x));
    DropSize(x.pend, Highest(x.pend));
    TotalSet(p.pending, a, CutLast(x).pend);
    forall b | b != a ensures Len(Put(p, a, CutLast(x)), b) == Len(p, b) {
      assert Of(Put(p, a, CutLast(x)), b).pend == Of(p, b).pend;
    }
  }

  lemma SweepHasMore(p0: Pool, p1: Pool, p: Pool, offs: seq<Address>, i: nat, len: nat)
    requires i < |offs| && len > 0 && Sweeping(p0, p1, p, offs, i, len)
    ensures Of(p, offs[i]).pend != map[]
  {
    assert Len(p, offs[i]) == len;
  }

  lemma SweepStep(p0: Pool, p1: Pool, p: Pool, q: Pool, offs: seq<Address>, i: nat, len: nat)
    requires Inv(p) && i < |offs| && len > 0 && Sweeping(p0, p1, p, offs, i, len)
    requires Of(p, offs[i]).pend != map[] && q == Put(p, offs[i], CutLast(Of(p, offs[i])))
    ensures Sweeping(p0, p1, q, offs, i + 1, len) && Total(q.pending) == Total(p.pending) - 1
  {
    var a := offs[i];
    assert Len(p, a) == len;
    CutInPool(p, a);
    CutTrimmed(p0, p, a, len);
    forall k | 0 <= k < |offs| ensures Len(q, offs[k]) == if k < i + 1 then len - 1 else len {
      if k != i { assert offs[k] != a; }
    }
  }

  lemma CutTrimmed(p0: Pool, p: Pool, a: Address, len: nat)
    requires Inv(p) && Trimmed(p0, p) && Len(p, a) == len > 0
    ensures Of(p, a).pend != map[] && Trimmed(p0, Put(p, a, CutLast(Of(p, a))))
  {
    CutInPool(p, a);
    var q := Put(p, a, CutLast(Of(p, a)));
    assert Of(p, a) == TrimTo(Of(p0, a), len);
    TrimSize(Of(p0, a), len);
    TrimStep(Of(p0, a), len - 1);
    forall b ensures Of(q, b) == TrimTo(Of(p0, b), Len(q, b)) {
      if b != a { assert Of(p, b) == TrimTo(Of(p0, b), Len(p, b)); }
    }
  }

  /** The accounts that lost executable transactions. */
  function Cut(p0: Pool, p: Pool): set<Address> { set a | a in p0.pending && Len(p, a) < Len(p0, a) }

  /** Cutting stopped in time: with one transaction more for each account cut the total is over the limit. */
  ghost predicate InTime(p0: Pool, p: Pool, limit: nat) {
    Cut(p0, p) != {} ==> Total(p.pending) + |Cut(p0, p)| > limit
  }

  /** All accounts of a round have lost something. */
  lemma SweptCut(p0: Pool, p1: Pool, p: Pool, offs: seq<Address>, len: nat)
    requires len > 0 && Sweeping(p0, p1, p1, offs, 0, len) && Sweeping(p0, p1, p, offs, |offs|, len)
    ensures |offs| <= |Cut(p0, p)|
  {
    forall a | a in offs ensures a in Cut(p0, p) {
      var k :| 0 <= k < |offs| && offs[k] == a;
      assert Len(p1, offs[k]) == len && Len(p, offs[k]) == len - 1;
      assert Of(p1, a) == TrimTo(Of(p0, a), len);
      TrimSize(Of(p0, a), len);
    }
    DistinctSize(offs, Cut(p0, p));
  }

  lemma {:induction false} DistinctSize(s: seq<Address>, all: set<Address>)
    requires Distinct(s) && forall a :: a in s ==> a in all
    ensures |s| <= |all|
    decreases |s|
  {
    if s != [] {
      var n := |s| - 1;
      forall a | a in s[..n] ensures a in all - {s[n]} { }
      DistinctSize(s[..n], all - {s[n]});
    }
  }

  /** An account the truncation may cut: not local, and over its guaranteed slots. */
  predicate Spammer(p: Pool, a: Address, slots: nat) { a !in p.locals && Len(p, a) > slots }

  ghost predicate Level(p: Pool, offs: seq<Address>) {
    forall i, j :: 0 <= i < |offs| && 0 <= j < |offs| ==> Len(p, offs[i]) == Len(p, offs[j])
  }

  /** While offenders are being equalised: the ones taken so far, except the newest, are level; the newest
      is uncut and no longer than them; the ones still waiting are no longer than the newest. */
  ghost predicate Equalising(p0: Pool, p: Pool, offs: seq<Address>, spam: set<Address>, slots: nat) {
    && Distinct(offs) && Trimmed(p0, p)
    && (forall a :: a in offs || a in spam <==> Spammer(p0, a, slots))
    && (forall a :: a in spam ==> a !in offs)
    && (forall a :: a !in offs ==> Of(p, a) == Of(p0, a))
    && (forall i :: 0 <= i < |offs| ==> Len(p, offs[i]) > slots)
    && (offs != [] ==> Newest(p0, p, offs, spam))
  }

  ghost predicate Newest(p0: Pool, p: Pool, offs: seq<Address>, spam: set<Address>)
    requires offs != []
  {
    var last := offs[|offs| - 1];
    && Of(p, last) == Of(p0, last)
    && Level(p, offs[..|offs| - 1])
    && (forall i :: 0 <= i < |offs| ==> Len(p, last) <= Len(p, offs[i]))
    && (forall b :: b in spam ==> Len(p, b) <= Len(p, last))
  }

  /** Taking the longest waiting account as the next offender. */
  lemma TakeOffender(p0: Pool, p: Pool, offs: seq<Address>, spam: set<Address>, slots: nat, o: Address)
    requires Equalising(p0, p, offs, spam, slots) && Level(p, offs)
    requires o in spam && forall b :: b in spam ==> Len(p, b) <= Len(p, o)
    ensures Equalising(p0, p, offs + [o], spam - {o}, slots)
    ensures offs == [] ==> Level(p, offs + [o])
  {
    var all := offs + [o];
    assert all[..|all| - 1] == offs;
    forall i | 0 <= i < |all| ensures Len(p, o) <= Len(p, all[i]) {
      if i < |offs| { assert Len(p, offs[i]) == Len(p, offs[|offs| - 1]); }
    }
    assert Of(p, o) == Of(p0, o);
  }

  /** Shortening every offender but the newest, as long as they are longer than it. */
  lemma SweepKeepsEqualising(p0: Pool, p1: Pool, p: Pool, offs: seq<Address>, spam: set<Address>, slots: nat, len: nat)
    requires |offs| > 1 && Equalising(p0, p1, offs, spam, slots)
    requires len == Len(p1, offs[0]) > Len(p1, offs[|offs| - 1])
    requires Sweeping(p0, p1, p, offs[..|offs| - 1], |offs| - 1, len)
    ensures Equalising(p0, p, offs, spam, slots) && Len(p, offs[0]) == len - 1
  {
    var pre := offs[..|offs| - 1];
    SweptLens(p0, p1, p, offs, pre, len);
    forall a | a !in offs ensures Of(p, a) == Of(p0, a) { assert a !in pre; }
    SweptNewest(p0, p1, p, offs, pre, spam, len);
  }

  lemma SweptLens(p0: Pool, p1: Pool, p: Pool, offs: seq<Address>, pre: seq<Address>, len: nat)
    requires |offs| > 1 && pre == offs[..|offs| - 1] && Sweeping(p0, p1, p, pre, |pre|, len)
    ensures forall i :: 0 <= i < |offs| - 1 ==> Len(p, offs[i]) == len - 1
  {
    forall i | 0 <= i < |pre| ensures Len(p, offs[i]) == len - 1 { assert pre[i] == offs[i]; }
  }

  lemma SweptNewest(p0: Pool, p1: Pool, p: Pool, offs: seq<Address>, pre: seq<Address>, spam: set<Address>, len: nat)
    requires |offs| > 1 && pre == offs[..|offs| - 1] && Distinct(offs) && Newest(p0, p1, offs, spam)
    requires len > Len(p1, offs[|offs| - 1]) && Sweeping(p0, p1, p, pre, |pre|, len)
    requires forall a :: a in spam ==> a !in offs
    requires forall i :: 0 <= i < |offs| - 1 ==> Len(p, offs[i]) == len - 1
    ensures Newest(p0, p, offs, spam) && Len(p, offs[|offs| - 1]) == Len(p1, offs[|offs| - 1])
  {
    var last := offs[|offs| - 1];
    assert last !in pre;
    LenOf(p, p1, last);
    forall b | b in spam ensures Len(p, b) == Len(p1, b) {
      assert b !in pre;
      LenOf(p, p1, b);
    }
  }

  /** The offenders before the newest are level and can be swept. */
  lemma OlderReady(p0: Pool, p: Pool, offs: seq<Address>, spam: set<Address>, slots: nat, len: nat)
    requires |offs| > 1 && Equalising(p0, p, offs, spam, slots) && len == Len(p, offs[|offs| - 2])
    ensures Sweeping(p0, p, p, offs[..|offs| - 1], 0, len) && len == Len(p, offs[0])
  {
    Equalised(p0, p, offs, spam, slots);
    SweepStarts(p0, p, offs[..|offs| - 1], len);
  }

  lemma OlderSwept(p0: Pool, p1: Pool, p: Pool, offs: seq<Address>, spam: set<Address>, slots: nat, len: nat)
    requires |offs| > 1 && Equalising(p0, p1, offs, spam, slots)
    requires len == Len(p1, offs[0]) > Len(p1, offs[|offs| - 1])
    requires Sweeping(p0, p1, p, offs[..|offs| - 1], |offs| - 1, len)
    ensures Equalising(p0, p, offs, spam, slots) && Len(p, offs[0]) == len - 1
    ensures Len(p, offs[|offs| - 1]) == Len(p1, offs[|offs| - 1])
  {
    SweepKeepsEqualising(p0, p1, p, offs, spam, slots, len);
    LenOf(p, p1, offs[|offs| - 1]);
  }

  /** All offenders level, being cut together down to the guaranteed slots. */
  ghost predicate Levelling(p0: Pool, p: Pool, offs: seq<Address>, slots: nat) {
    && Distinct(offs) && Trimmed(p0, p) && Level(p, offs)
    && (forall a :: a in offs <==> Spammer(p0, a, slots))
    && (forall a :: a !in offs ==> Of(p, a) == Of(p0, a))
    && (forall i :: 0 <= i < |offs| ==> Len(p, offs[i]) >= slots)
  }

  lemma LevelReady(p0: Pool, p: Pool, offs: seq<Address>, slots: nat)
    requires offs != [] && Levelling(p0, p, offs, slots)
    ensures Sweeping(p0, p, p, offs, 0, Len(p, offs[0])) && Len(p, offs[0]) == Len(p, offs[|offs| - 1])
  {
    SweepStarts(p0, p, offs, Len(p, offs[0]));
  }

  lemma SweepKeepsLevelling(p0: Pool, p1: Pool, p: Pool, offs: seq<Address>, slots: nat, len: nat)
    requires offs != [] && Levelling(p0, p1, offs, slots) && len == Len(p1, offs[0]) > slots
    requires Sweeping(p0, p1, p, offs, |offs|, len)
    ensures Levelling(p0, p, offs, slots) && Len(p, offs[0]) == len - 1
  {
  }

  /** Local accounts and accounts within their slots are left alone; a shortened account keeps at least its
      slots, and no remote account is left longer than it. */
  ghost predicate Fair(p0: Pool, p: Pool, slots: nat) {
    && Trimmed(p0, p)
    && (forall a :: a in p0.locals || Len(p0, a) <= slots ==> Of(p, a) == Of(p0, a))
    && (forall a, b :: Len(p, a) < Len(p0, a) && b !in p0.locals ==> Len(p, b) <= Len(p, a))
    && (forall a :: Len(p, a) < Len(p0, a) ==> Len(p, a) >= slots)
  }

  lemma LenOf(p: Pool, q: Pool, a: Address)
    requires Of(p, a) == Of(q, a)
    ensures Len(p, a) == Len(q, a)
  {
    assert Of(p, a).pend == Of(q, a).pend;
  }

  lemma EqualisingIsFair(p0: Pool, p: Pool, offs: seq<Address>, spam: set<Address>, slots: nat)
    requires Equalising(p0, p, offs, spam, slots)
    ensures Fair(p0, p, slots)
  {
    forall a | Len(p, a) < Len(p0, a)
      ensures Len(p, a) >= slots && forall b :: b !in p0.locals ==> Len(p, b) <= Len(p, a)
    {
      CutIsFair(p0, p, offs, spam, slots, a);
    }
    forall a | a in p0.locals || Len(p0, a) <= slots ensures Of(p, a) == Of(p0, a) {
      assert !Spammer(p0, a, slots);
    }
  }

  /** While offenders are being equalised, one that was cut is as long as any remote account. */
  lemma CutIsFair(p0: Pool, p: Pool, offs: seq<Address>, spam: set<Address>, slots: nat, a: Address)
    requires Equalising(p0, p, offs, spam, slots) && Len(p, a) < Len(p0, a)
    ensures Len(p, a) >= slots && forall b :: b !in p0.locals ==> Len(p, b) <= Len(p, a)
  {
    assert a in offs by { if a !in offs { LenOf(p, p0, a); } }
    var i :| 0 <= i < |offs| && offs[i] == a;
    var last := offs[|offs| - 1];
    assert i < |offs| - 1 by { if i == |offs| - 1 { LenOf(p, p0, last); } }
    assert offs[..|offs| - 1][i] == a;
    forall b | b !in p0.locals ensures Len(p, b) <= Len(p, a) {
      if b in offs {
        var j :| 0 <= j < |offs| && offs[j] == b;
        if j < |offs| - 1 { assert offs[..|offs| - 1][j] == b; }
      } else {
        LenOf(p, p0, b);
        if !Spammer(p0, b, slots) { assert Len(p, b) <= slots; } else { assert b in spam; }
      }
    }
  }

  lemma LevellingIsFair(p0: Pool, p: Pool, offs: seq<Address>, slots: nat)
    requires Levelling(p0, p, offs, slots)
    ensures Fair(p0, p, slots)
    ensures offs == [] || Len(p, offs[0]) == slots ==> forall a :: a !in p.locals ==> Len(p, a) <= slots
  {
    forall a, b | b !in p0.locals && (a in offs || b !in offs) ensures a in offs ==> Len(p, b) <= Len(p, a) {
      if b !in offs { LenOf(p, p0, b); }
    }
    forall a | Len(p, a) < Len(p0, a) ensures a in offs { if a !in offs { LenOf(p, p0, a); } }
    forall a | a !in p.locals && a !in offs ensures Len(p, a) <= slots { LenOf(p, p0, a); }
  }

  lemma {:induction false} LongestExists(p: Pool, spam: set<Address>)
    requires spam != {}
    ensures exists o :: o in spam && forall b :: b in spam ==> Len(p, b) <= Len(p, o)
    decreases |spam|
  {
    var a :| a in spam;
    var rest := spam - {a};
    if rest == {} {
      assert spam == {a};
    } else {
      LongestExists(p, rest);
      var o :| o in rest && forall b :: b in rest ==> Len(p, b) <= Len(p, o);
      var top := if Len(p, a) > Len(p, o) then a else o;
      assert forall b :: b in spam ==> b == a || b in rest;
      assert top in spam && forall b :: b in spam ==> Len(p, b) <= Len(p, top);
    }
  }

  lemma SweepStarts(p0: Pool, p: Pool, offs: seq<Address>, len: nat)
    requires Distinct(offs) && Trimmed(p0, p) && Level(p, offs) && (offs != [] ==> len == Len(p, offs[0]))
    ensures Sweeping(p0, p, p, offs, 0, len)
  {
  }

  /** Equalised once the second-newest offender is no longer than the newest. */
  lemma Equalised(p0: Pool, p: Pool, offs: seq<Address>, spam: set<Address>, slots: nat)
    requires |offs| > 1 && Equalising(p0, p, offs, spam, slots)
    ensures Distinct(offs[..|offs| - 1]) && Level(p, offs[..|offs| - 1])
    ensures Len(p, offs[0]) == Len(p, offs[|offs| - 2])
    ensures Len(p, offs[|offs| - 2]) <= Len(p, offs[|offs| - 1]) ==> Level(p, offs)
  {
    var pre := offs[..|offs| - 1];
    assert pre[0] == offs[0] && pre[|pre| - 1] == offs[|offs| - 2];
    forall i | 0 <= i < |pre| ensures Len(p, offs[i]) == Len(p, offs[0]) { assert pre[i] == offs[i]; }
    if Len(p, offs[|offs| - 2]) <= Len(p, offs[|offs| - 1]) {
      assert Len(p, offs[|offs| - 1]) == Len(p, offs[0]);
      forall i | 0 <= i < |offs| ensures Len(p, offs[i]) == Len(p, offs[0]) { }
    }
  }

  method Count(lists: AccountLists) returns (n: nat)
    ensures n == Total(lists)
  {
    n := 0;
    var rest := lists;
    while rest != map[]
      invariant n + Total(rest) == Total(lists)
      decreases |rest|
    {
      var a :| a in rest;
      TotalPick(rest, a);
      assert (rest - {a}).Keys == rest.Keys - {a};
      n := n + |rest[a]|;
      rest := rest - {a};
    }
  }

  lemma NoOffenders(p: Pool, spam: set<Address>, slots: nat)
    requires forall a :: a in spam <==> Spammer(p, a, slots)
    ensures Equalising(p, p, [], spam, slots) && Fair(p, p, slots)
  {
    forall a ensures Of(p, a) == TrimTo(Of(p, a), Len(p, a)) { }
  }

  lemma AllTaken(p0: Pool, p: Pool, offs: seq<Address>, slots: nat)
    requires Equalising(p0, p, offs, {}, slots) && Level(p, offs)
    ensures Levelling(p0, p, offs, slots)
  {
  }

  // ----- the queue -----

  function QueueLen(p: Pool, a: Address): nat { |Items(p.queue, a)| }

  /** `p` is `p0` with some queues of remote accounts cut at the top. */
  ghost predicate QueueTrimmed(p0: Pool, p: Pool) {
    && SameRest(p0, p)
    && (forall a :: Of(p, a) == Of(p0, a).(que := Keep(Of(p0, a).que, QueueLen(p, a))))
    && (forall a :: a in p0.locals ==> Of(p, a) == Of(p0, a))
  }

  lemma QueueUntrimmed(p: Pool)
    ensures QueueTrimmed(p, p)
  {
  }

  /** Removing a queued transaction touches nothing but its own queue. */
  lemma RemoveQueuedTx(p: Pool, a: Address, n: nat)
    requires Inv(p) && n in Of(p, a).que
    ensures
      var x := Of(p, a);
      RemoveTx(p, x.que[n]) == Put(p, a, x.(que := Drop(x.que, n)))
  {
    assert AccountOk(Of(p, a), a);
  }

  /** Cutting one account's queue to `k`, starting from a pool in which it is uncut. */
  lemma QueueCut(p0: Pool, p: Pool, q: Pool, a: Address, k: nat)
    requires Inv(p) && QueueTrimmed(p0, p) && a !in p0.locals && Of(p, a) == Of(p0, a) && k <= QueueLen(p, a)
    requires q == Put(p, a, Of(p, a).(que := Keep(Of(p, a).que, k)))
    ensures QueueTrimmed(p0, q) && QueueLen(q, a) == k
    ensures Total(q.queue) == Total(p.queue) - QueueLen(p, a) + k
    ensures forall b :: b != a ==> Of(q, b) == Of(p, b)
  {
    var x := Of(p, a);
    assert AccountOk(x, a);
    PutReads(p, a, x.(que := Keep(x.que, k)));
    KeepIsLowest(x.que, k);
    TotalSet(p.queue, a, Keep(x.que, k));
    forall b ensures Of(q, b) == Of(p0, b).(que := Keep(Of(p0, b).que, QueueLen(q, b))) {
      if b != a { assert Of(q, b).que == Of(p, b).que; } else { assert Of(q, a).que == Keep(x.que, k); }
    }
  }

  /** On the way from `x` to its `k` lowest queued nonces, with `left` still to go. */
  ghost predicate CuttingQueue(x: Account, y: Account, left: nat, k: nat) {
    y == x.(que := y.que) && |y.que| == k + left && Keep(y.que, k) == Keep(x.que, k)
  }

  lemma CuttingQueueStep(x: Account, y: Account, left: nat, k: nat)
    requires left > 0 && CuttingQueue(x, y, left, k)
    ensures y.que != map[] && CuttingQueue(x, y.(que := Drop(y.que, Highest(y.que))), left - 1, k)
  {
    DropSize(y.que, Highest(y.que));
  }

  lemma CuttingQueueEnds(x: Account, y: Account, k: nat)
    requires CuttingQueue(x, y, 0, k)
    ensures y == x.(que := Keep(x.que, k))
  {
  }

  /** While queues are dropped: those in `todo` are untouched, the total is `drop` over the limit, and as long
      as it is over, every other remote queue is gone. */
  ghost predicate Dropping(p0: Pool, p: Pool, todo: set<Address>, drop: nat, limit: nat) {
    && QueueTrimmed(p0, p)
    && (forall a :: a in todo ==> a !in p0.locals && Of(p, a) == Of(p0, a))
    && Total(p.queue) == limit + drop
    && (drop > 0 ==> forall a :: a !in p0.locals && a !in todo ==> QueueLen(p, a) == 0)
  }

  lemma DroppingStarts(p: Pool, todo: set<Address>, drop: nat, limit: nat)
    requires Total(p.queue) == limit + drop
    requires forall a :: a in todo ==> a !in p.locals
    requires forall a :: a in p.queue && a !in p.locals ==> a in todo
    ensures Dropping(p, p, todo, drop, limit)
  {
    QueueUntrimmed(p);
  }

  /** How many of a queue survive when `drop` transactions have to go, and how many still have to go then. */
  function Surviving(size: nat, drop: nat): nat { if size <= drop then 0 else size - drop }

  function Remaining(size: nat, drop: nat): nat { if size <= drop then drop - size else 0 }

  lemma DropStep(p0: Pool, p: Pool, q: Pool, todo: set<Address>, a: Address, drop: nat, limit: nat)
    requires Inv(p) && Dropping(p0, p, todo, drop, limit) && drop > 0 && a in todo
    requires q == Put(p, a, Of(p, a).(que := Keep(Of(p, a).que, Surviving(QueueLen(p, a), drop))))
    ensures Dropping(p0, q, todo - {a}, Remaining(QueueLen(p, a), drop), limit)
  {
    QueueCut(p0, p, q, a, Surviving(QueueLen(p, a), drop));
    forall b | b != a ensures QueueLen(q, b) == QueueLen(p, b) { assert Of(q, b).que == Of(p, b).que; }
  }

  lemma KeepNone(m: map<nat, Tx>)
    requires Keyed(m)
    ensures Keep(m, 0) == map[]
  {
    KeepIsLowest(m, 0);
  }

  lemma NoRemoteQueued(p: Pool)
    requires Inv(p) && forall a :: a !in p.locals ==> QueueLen(p, a) == 0
    ensures forall a :: a in p.queue ==> a in p.locals
  {
  }

  /** Within the limits, as far as local accounts and guaranteed slots allow. */
  ghost predicate Bounded(cfg: Config, p: Pool) {
    && (Total(p.pending) <= cfg.globalSlots || forall a :: a !in p.locals ==> Len(p, a) <= cfg.accountSlots)
    && (Total(p.queue) <= cfg.globalQueue || forall a :: a in p.queue ==> a in p.locals)
  }

  /** Executable lists within the limit are left alone, and otherwise cut no further than needed. */
  ghost predicate NeededCut(cfg: Config, p0: Pool, p: Pool) {
    (Total(p0.pending) <= cfg.globalSlots ==> p == p0) && InTime(p0, p, cfg.globalSlots)
  }

  /** Queues within the limit are left alone, and otherwise cut to the limit or until only locals are left. */
  ghost predicate NeededQueueCut(cfg: Config, p0: Pool, p: Pool) {
    if Total(p0.queue) <= cfg.globalQueue then p == p0
    else
      || Total(p.queue) == cfg.globalQueue
      || (Total(p.queue) > cfg.globalQueue && forall a :: a in p.queue ==> a in p.locals)
  }

  lemma BoundedAfterQueue(cfg: Config, p: Pool, q: Pool)
    requires Inv(p) && Inv(q) && QueueTrimmed(p, q)
    requires Total(p.pending) <= cfg.globalSlots || forall a :: a !in p.locals ==> Len(p, a) <= cfg.accountSlots
    requires Total(q.queue) <= cfg.globalQueue || forall a :: a in q.queue ==> a in q.locals
    ensures Bounded(cfg, q)
  {
    SamePending(p, q);
    forall a ensures Len(q, a) == Len(p, a) { LenOf2(p, q, a); }
  }

  lemma LenOf2(p: Pool, q: Pool, a: Address)
    requires Of(q, a).pend == Of(p, a).pend
    ensures Len(q, a) == Len(p, a)
  {
  }

  lemma SamePending(p: Pool, q: Pool)
    requires Inv(p) && Inv(q) && QueueTrimmed(p, q)
    ensures p.pending == q.pending
  {
    forall a ensures (a in p.pending <==> a in q.pending) && Items(p.pending, a) == Items(q.pending, a) {
      assert Of(q, a).pend == Of(p, a).pend;
    }
  }
}
