/** The RPC client's dispatch loop: matching responses to requests (api/rpc/client.go). */
module Dispatch {
  import opened Types

  type Id = nat

  /** An operation's identity, standing for its address. */
  type Op = nat

  /** A request: the ids it waits for, whether it is a subscription, the ids whose responses were
      put on its channel, whether that channel is closed, and whether sending it failed. */
  datatype Request = Request(ids: set<Id>, sub: bool, delivered: set<Id>, closed: bool, unsent: bool)

  /** Open requests and waiting ids fit together: an id is waited for by a request that has it, is
      open and did not get it yet, and an ordinary request whose sending did not fail waits for
      exactly what it has not got. */
  ghost predicate Consistent(ops: map<Op, Request>, respWait: map<Id, Op>) {
    && (forall id :: id in respWait ==> Owed(ops, id, respWait[id]))
    && (forall o :: o in ops ==> RequestOk(ops[o], respWait, o))
  }

  predicate Owed(ops: map<Op, Request>, id: Id, o: Op) {
    && o in ops
    && id in ops[o].ids
    && id !in ops[o].delivered
    && !ops[o].closed
    && !ops[o].unsent
  }

  ghost predicate RequestOk(r: Request, respWait: map<Id, Op>, o: Op) {
    && r.delivered <= r.ids
    && (r.sub ==> |r.ids| == 1)
    && (!r.sub && !r.closed && !r.unsent ==>
          forall id :: id in r.ids && id !in r.delivered ==> Waits(respWait, id, o))
  }

  predicate Waits(respWait: map<Id, Op>, id: Id, o: Op) {
    id in respWait && respWait[id] == o
  }

  /** Every id belongs to one request. */
  ghost predicate Distinct(ops: map<Op, Request>) {
    forall o, p :: o in ops && p in ops && o != p ==> ops[o].ids !! ops[p].ids
  }

  ghost predicate Sound(ops: map<Op, Request>, respWait: map<Id, Op>) {
    Consistent(ops, respWait) && Distinct(ops)
  }

  /** The waiting list with the given ids entered for a request. */
  function Entered(respWait: map<Id, Op>, ids: set<Id>, o: Op): map<Id, Op> {
    map id | id in respWait.Keys + ids :: if id in ids then o else respWait[id]
  }

  lemma RegisterOwed(ops: map<Op, Request>, respWait: map<Id, Op>, o: Op, ids: set<Id>, sub: bool,
                     ops': map<Op, Request>, wait': map<Id, Op>, id: Id)
    requires Consistent(ops, respWait) && o !in ops && (forall p :: p in ops ==> ops[p].ids !! ids)
    requires ops' == ops[o := Request(ids, sub, {}, false, false)] && wait' == Entered(respWait, ids, o)
    ensures id in wait' ==> Owed(ops', id, wait'[id])
    ensures id in respWait ==> Waits(wait', id, respWait[id])
  {
    if id in respWait {
      assert Owed(ops, id, respWait[id]);
    }
  }

  lemma RegisterConsistent(ops: map<Op, Request>, respWait: map<Id, Op>, o: Op, ids: set<Id>, sub: bool,
                           ops': map<Op, Request>, wait': map<Id, Op>)
    requires Consistent(ops, respWait) && o !in ops && (sub ==> |ids| == 1)
    requires forall p :: p in ops ==> ops[p].ids !! ids
    requires ops' == ops[o := Request(ids, sub, {}, false, false)] && wait' == Entered(respWait, ids, o)
    ensures Consistent(ops', wait')
  {
    forall id
      ensures (id in wait' ==> Owed(ops', id, wait'[id])) && (id in respWait ==> Waits(wait', id, respWait[id]))
    {
      RegisterOwed(ops, respWait, o, ids, sub, ops', wait', id);
    }
    forall p | p in ops'
      ensures RequestOk(ops'[p], wait', p)
    {
      if p != o {
        assert RequestOk(ops[p], respWait, p);
      }
    }
  }

  lemma RegisterDistinct(ops: map<Op, Request>, o: Op, r: Request, ops': map<Op, Request>)
    requires Distinct(ops) && (forall p :: p in ops ==> ops[p].ids !! r.ids) && ops' == ops[o := r]
    ensures Distinct(ops')
  {
  }

  lemma RegisterSound(ops: map<Op, Request>, respWait: map<Id, Op>, o: Op, ids: set<Id>, sub: bool,
                      ops': map<Op, Request>, wait': map<Id, Op>)
    requires Sound(ops, respWait) && o !in ops && (sub ==> |ids| == 1)
    requires forall p :: p in ops ==> ops[p].ids !! ids
    requires ops' == ops[o := Request(ids, sub, {}, false, false)] && wait' == Entered(respWait, ids, o)
    ensures Sound(ops', wait')
  {
    RegisterConsistent(ops, respWait, o, ids, sub, ops', wait');
    RegisterDistinct(ops, o, Request(ids, sub, {}, false, false), ops');
  }

  lemma UnsentSound(ops: map<Op, Request>, respWait: map<Id, Op>, o: Op)
    requires Sound(ops, respWait) && o in ops
    ensures Sound(ops[o := ops[o].(unsent := true)], respWait - ops[o].ids)
  {
    var wait' := respWait - ops[o].ids;
    forall p, id | p in ops && p != o && Waits(respWait, id, p)
      ensures Waits(wait', id, p)
    {
      assert Owed(ops, id, p);
    }
  }

  lemma DeliverSound(ops: map<Op, Request>, respWait: map<Id, Op>, id: Id)
    requires Sound(ops, respWait) && id in respWait
    ensures var o := respWait[id];
        Sound(ops[o := ops[o].(delivered := ops[o].delivered + {id})], respWait - {id})
  {
    var wait' := respWait - {id};
    forall p, i | Waits(respWait, i, p) && i != id
      ensures Waits(wait', i, p)
    {
    }
  }

  lemma SubscribedSound(ops: map<Op, Request>, respWait: map<Id, Op>, id: Id)
    requires Sound(ops, respWait) && id in respWait && ops[respWait[id]].sub
    ensures var o := respWait[id]; Sound(ops[o := ops[o].(closed := true)], respWait - {id})
  {
    var wait' := respWait - {id};
    OnlyOne(ops[respWait[id]].ids, id);
    forall p, i | Waits(respWait, i, p) && i != id
      ensures Waits(wait', i, p)
    {
    }
  }

  lemma ClosedSound(was: map<Op, Request>, now: map<Op, Request>, respWait: map<Id, Op>)
    requires Sound(was, respWait) && Closed(was, now, respWait.Values)
    ensures Sound(now, map[])
  {
    forall o, id | o in was && Waits(respWait, id, o)
      ensures o in respWait.Values
    {
    }
  }

  function Outstanding(respWait: map<Id, Op>, o: Op): set<Id> {
    set id | id in respWait && respWait[id] == o
  }

  /** Delivered plus outstanding ids make up the ids of an open ordinary request, in number too; so
      its channel, which holds that many, has room for every response still to come. */
  lemma Balance(ops: map<Op, Request>, respWait: map<Id, Op>, o: Op)
    requires Consistent(ops, respWait) && o in ops
    requires !ops[o].sub && !ops[o].closed && !ops[o].unsent
    ensures ops[o].delivered !! Outstanding(respWait, o)
    ensures ops[o].delivered + Outstanding(respWait, o) == ops[o].ids
    ensures |ops[o].delivered| + |Outstanding(respWait, o)| == |ops[o].ids|
  {
    assert ops[o].delivered + Outstanding(respWait, o) == ops[o].ids;
  }

  lemma RoomLeft(ops: map<Op, Request>, respWait: map<Id, Op>, id: Id)
    requires Consistent(ops, respWait) && id in respWait
    ensures |ops[respWait[id]].delivered| < |ops[respWait[id]].ids|
  {
    var r := ops[respWait[id]];
    assert r.delivered <= r.ids - {id};
    Smaller(r.delivered, r.ids - {id});
  }

  lemma {:induction false} Smaller(a: set<Id>, b: set<Id>)
    requires a <= b
    ensures |a| <= |b|
  {
    if a != {} {
      var x :| x in a;
      Smaller(a - {x}, b - {x});
    }
  }

  datatype Event =
    | Send(ids: set<Id>, sub: bool)
    | SendDone(failed: bool)
    | Response(id: Id, accepted: bool)
    | ReadError

  /** Everything the loop keeps. */
  datatype Loop = Loop(ops: map<Op, Request>, respWait: map<Id, Op>, subs: set<Op>, lastOp: Option<Op>, nextOp: Op)

  /** Requests that wait for something are closed. */
  function AllClosed(ops: map<Op, Request>, waiting: set<Op>): map<Op, Request> {
    map o | o in ops :: if o in waiting then ops[o].(closed := true) else ops[o]
  }

  /** A request may be sent while the send lock is free, under ids no request had before. */
  predicate Sendable(s: Loop, ids: set<Id>, sub: bool) {
    s.lastOp.None? && (sub ==> |ids| == 1) && forall p | p in s.ops :: s.ops[p].ids !! ids
  }

  /** One turn of the loop, as a whole. */
  function Turned(s: Loop, e: Event): Loop {
    match e
    case Send(ids, sub) =>
      if !Sendable(s, ids, sub) then s
      else s.(ops := s.ops[s.nextOp := Request(ids, sub, {}, false, false)],
              respWait := Entered(s.respWait, ids, s.nextOp),
              lastOp := Some(s.nextOp),
              nextOp := s.nextOp + 1)
    case SendDone(failed) =>
      if s.lastOp.None? || s.lastOp.value !in s.ops then s
      else if !failed then s.(lastOp := None)
      else
        var o := s.lastOp.value;
        s.(ops := s.ops[o := s.ops[o].(unsent := true)], respWait := s.respWait - s.ops[o].ids, lastOp := None)
    case Response(id, accepted) =>
      if id !in s.respWait || s.respWait[id] !in s.ops then s
      else
        var o := s.respWait[id];
        var r := s.ops[o];
        if r.sub then
          s.(ops := s.ops[o := r.(closed := true)], respWait := s.respWait - {id},
             subs := if accepted then s.subs + {o} else s.subs)
        else
          s.(ops := s.ops[o := r.(delivered := r.delivered + {id})], respWait := s.respWait - {id})
    case ReadError => Quit(s)
  }

  function Quit(s: Loop): Loop {
    s.(ops := AllClosed(s.ops, s.respWait.Values), respWait := map[], subs := {})
  }

  function Ran(s: Loop, events: seq<Event>): Loop {
    if events == [] then s else Turned(Ran(s, events[..|events| - 1]), events[|events| - 1])
  }

  class Client {
    var ops: map<Op, Request>
    var respWait: map<Id, Op>
    var subs: set<Op>
    var lastOp: Option<Op>
    var nextOp: Op

    ghost predicate Valid()
      reads this
    {
      && Sound(ops, respWait)
      && (forall o :: o in ops ==> o < nextOp)
      && (lastOp.Some? ==> lastOp.value in ops)
    }

    function State(): Loop
      reads this
    {
      Loop(ops, respWait, subs, lastOp, nextOp)
    }

    constructor ()
      ensures Valid() && State() == Loop(map[], map[], {}, None, 0)
    {
      ops, respWait, subs, lastOp, nextOp := map[], map[], {}, None, 0;
    }

    // -------------------------------------------------------------- channels

    /** Closing a channel twice panics. */
    method CloseChannel(o: Op)
      requires o in ops && !ops[o].closed
      modifies this`ops
      ensures ops == old(ops)[o := old(ops)[o].(closed := true)]
    {
      ops := ops[o := ops[o].(closed := true)];
    }

    /** Sending on a closed channel panics, and sending on a full one blocks the loop. */
    method SendOnChannel(o: Op, id: Id)
      requires o in ops && !ops[o].closed && |ops[o].delivered| < |ops[o].ids|
      modifies this`ops
      ensures ops == old(ops)[o := old(ops)[o].(delivered := old(ops)[o].delivered + {id})]
    {
      ops := ops[o := ops[o].(delivered := ops[o].delivered + {id})];
    }

    // -------------------------------------------------------------- the send path

    method EnterIds(ids: set<Id>, o: Op)
      modifies this`respWait
      ensures respWait == Entered(old(respWait), ids, o)
    {
      var todo := ids;
      while todo != {}
        invariant todo <= ids && respWait == Entered(old(respWait), ids - todo, o)
      {
        var id :| id in todo;
        respWait := respWait[id := o];
        assert ids - (todo - {id}) == ids - todo + {id};
        todo := todo - {id};
      }
      assert ids - todo == ids;
    }

    /** Registers a request under fresh ids and takes the send lock. */
    method Register(ids: set<Id>, sub: bool) returns (o: Op)
      requires Valid() && lastOp.None? && (sub ==> |ids| == 1)
      requires forall p :: p in ops ==> ops[p].ids !! ids
      modifies this
      ensures Valid() && lastOp == Some(o) && o == old(nextOp) && nextOp == o + 1 && o !in old(ops)
      ensures subs == old(subs)
      ensures ops == old(ops)[o := Request(ids, sub, {}, false, false)]
      ensures respWait == Entered(old(respWait), ids, o)
    {
      o := nextOp;
      ghost var was, waiting := ops, respWait;
      EnterIds(ids, o);
      ops := ops[o := Request(ids, sub, {}, false, false)];
      RegisterSound(was, waiting, o, ids, sub, ops, respWait);
      lastOp := Some(o);
      nextOp := nextOp + 1;
    }

    /** The write is over: a failed one takes its ids off the waiting list again. */
    method Sent(failed: bool)
      requires Valid() && lastOp.Some?
      modifies this
      ensures Valid() && lastOp == None && subs == old(subs) && nextOp == old(nextOp)
      ensures !failed ==> ops == old(ops) && respWait == old(respWait)
      ensures failed ==>
          var o := old(lastOp).value;
          ops == old(ops)[o := old(ops)[o].(unsent := true)] && respWait == old(respWait) - old(ops)[o].ids
    {
      var o := lastOp.value;
      if failed {
        UnsentSound(ops, respWait, o);
        respWait := respWait - ops[o].ids;
        ops := ops[o := ops[o].(unsent := true)];
      }
      lastOp := None;
    }

    // -------------------------------------------------------------- the read path

    /** Hands a response to the request that waits for it, at most once; others are ignored. */
    method HandleResponse(id: Id, accepted: bool)
      requires Valid()
      modifies this
      ensures Valid() && lastOp == old(lastOp) && nextOp == old(nextOp)
      ensures id !in old(respWait) ==> ops == old(ops) && respWait == old(respWait) && subs == old(subs)
      ensures id in old(respWait) ==>
          var o := old(respWait)[id];
          var r := old(ops)[o];
          && respWait == old(respWait) - {id}
          && ops == old(ops)[o := if r.sub then r.(closed := true) else r.(delivered := r.delivered + {id})]
          && subs == if r.sub && accepted then old(subs) + {o} else old(subs)
    {
      if id !in respWait {
        return;
      }
      var o := respWait[id];
      RoomLeft(ops, respWait, id);
      if !ops[o].sub {
        DeliverSound(ops, respWait, id);
        respWait := respWait - {id};
        SendOnChannel(o, id);
        return;
      }
      SubscribedSound(ops, respWait, id);
      respWait := respWait - {id};
      if accepted {
        subs := subs + {o};
      }
      CloseChannel(o);
    }

    /** Closes every request that waits for something, each once, and all subscriptions. */
    method CloseRequestOps()
      requires Valid()
      modifies this`ops, this`respWait, this`subs
      ensures Valid() && State() == Quit(old(State()))
    {
      var didClose: set<Op> := {};
      ghost var was, waiting := ops, respWait;
      while respWait != map[]
        invariant Closing(was, waiting, ops, respWait, didClose)
        decreases respWait.Keys
        modifies this`ops, this`respWait
      {
        var id :| id in respWait;
        var o := respWait[id];
        ClosingStep(was, waiting, ops, respWait, didClose, id);
        respWait := respWait - {id};
        if o !in didClose {
          CloseChannel(o);
          didClose := didClose + {o};
        }
      }
      assert didClose == waiting.Values;
      ClosedSound(was, ops, waiting);
      subs := {};
    }

    /** One turn of the loop. A send is taken only while the send lock is free, and its completion
        only while it is held; ids are never used twice. */
    method Turn(e: Event)
      requires Valid()
      modifies this
      ensures Valid() && State() == Turned(old(State()), e)
    {
      match e {
        case Send(ids, sub) =>
          if Sendable(State(), ids, sub) {
            var _ := Register(ids, sub);
          }
        case SendDone(failed) =>
          if lastOp.Some? {
            Sent(failed);
          }
        case Response(id, accepted) =>
          if id in respWait {
            RoomLeft(ops, respWait, id);
          }
          HandleResponse(id, accepted);
        case ReadError =>
          CloseRequestOps();
      }
    }

    /** Over any run of the loop no channel is closed twice or sent on when closed or full. When it
        quits, every ordinary request got all its responses, or was closed, or was never sent, and what it got
        is what came in while it was waiting for it. */
    method RunLoop(events: seq<Event>)
      requires Valid()
      modifies this
      ensures Valid() && State() == Quit(Ran(old(State()), events))
      ensures forall o :: o in ops && !ops[o].sub && !ops[o].closed && !ops[o].unsent ==> ops[o].delivered == ops[o].ids
      ensures forall o, id :: o in ops && !ops[o].sub ==>
          (id in ops[o].delivered <==>
             (o in old(ops) && id in old(ops)[o].delivered) || Arrived(old(State()), events, o, id))
    {
      for i := 0 to |events|
        invariant Valid() && State() == Ran(old(State()), events[..i])
      {
        Turn(events[i]);
        assert events[..i + 1][..i] == events[..i];
      }
      assert events[..|events|] == events;
      forall o, id | o in ops && !ops[o].sub
        ensures id in ops[o].delivered <==>
            (o in old(ops) && id in old(ops)[o].delivered) || Arrived(old(State()), events, o, id)
      {
        RunDelivers(old(State()), events, o, id);
      }
      CloseRequestOps();
      assert forall o :: o in ops ==> RequestOk(ops[o], respWait, o);
    }
  }

  lemma OnlyOne(s: set<Id>, x: Id)
    requires |s| == 1 && x in s
    ensures s == {x}
  {
    var rest := s - {x};
    assert s == rest + {x} && |s| == |rest| + 1;
  }

  ghost predicate Closed(was: map<Op, Request>, now: map<Op, Request>, done: set<Op>) {
    now == AllClosed(was, done)
  }

  /** Midway through closing: what is no longer waited for is closed, and nothing else is. */
  ghost predicate Closing(was: map<Op, Request>, waiting: map<Id, Op>, now: map<Op, Request>,
                          respWait: map<Id, Op>, didClose: set<Op>)
  {
    && (forall id :: id in respWait ==> id in waiting && respWait[id] == waiting[id])
    && (forall id :: id in waiting && id !in respWait ==> waiting[id] in didClose)
    && didClose <= waiting.Values
    && (forall id :: id in waiting ==> waiting[id] in was && !was[waiting[id]].closed)
    && Closed(was, now, didClose)
  }

  lemma ClosingStep(was: map<Op, Request>, waiting: map<Id, Op>, now: map<Op, Request>,
                    respWait: map<Id, Op>, didClose: set<Op>, id: Id)
    requires Closing(was, waiting, now, respWait, didClose) && id in respWait
    ensures var o := respWait[id];
        && o in now
        && (o !in didClose ==> !now[o].closed)
        && (if o in didClose then Closing(was, waiting, now, respWait - {id}, didClose)
            else Closing(was, waiting, now[o := now[o].(closed := true)], respWait - {id}, didClose + {o}))
  {
    assert waiting[id] in waiting.Values;
  }

  // ---------------------------------------------------------------- what a run delivers

  /** What one turn does to one request and one id. A request comes in with a send that may be taken; a response
      reaches the request that waits for its id, once, on its channel or, for a subscription, by closing it; a
      failed send takes its own request off the waiting list; a read error closes all that wait. */
  lemma TurnExactly(s: Loop, e: Event, o: Op, id: Id)
    requires Sound(s.ops, s.respWait) && (s.lastOp.Some? ==> s.lastOp.value in s.ops) && s.nextOp !in s.ops
    ensures
      var t := Turned(s, e);
      var sent := e.Send? && Sendable(s, e.ids, e.sub) && o == s.nextOp;
      var answered := e.Response? && Waits(s.respWait, e.id, o);
      var failed := e == SendDone(true) && s.lastOp == Some(o);
      && (o in t.ops <==> o in s.ops || sent)
      && (sent ==> t.ops[o] == Request(e.ids, e.sub, {}, false, false) && t.lastOp == Some(o))
      && (o in s.ops ==>
            && t.ops[o].ids == s.ops[o].ids && t.ops[o].sub == s.ops[o].sub
            && (id in t.ops[o].delivered <==> id in s.ops[o].delivered || (answered && e.id == id && !s.ops[o].sub))
            && (t.ops[o].unsent <==> s.ops[o].unsent || failed)
            && (t.ops[o].closed <==>
                  s.ops[o].closed || (answered && s.ops[o].sub) || (e.ReadError? && o in s.respWait.Values)))
      && (o in t.subs <==>
            !e.ReadError? && (o in s.subs || (answered && e.accepted && o in s.ops && s.ops[o].sub)))
      && (Waits(t.respWait, id, o) <==>
            || (sent && id in e.ids)
            || (Waits(s.respWait, id, o) && !e.ReadError? && !(e.Response? && e.id == id) && !failed))
  {
    if Waits(s.respWait, id, o) { assert Owed(s.ops, id, o); }
    if e.Response? && e.id in s.respWait { assert Owed(s.ops, e.id, s.respWait[e.id]); }
    if e.ReadError? && Waits(s.respWait, id, o) { assert o in s.respWait.Values; }
  }

  /** Between turns: open requests and waiting ids fit together, and the last send is of a known request. */
  ghost predicate LoopOk(s: Loop) {
    && Sound(s.ops, s.respWait)
    && (forall o :: o in s.ops ==> o < s.nextOp)
    && (s.lastOp.Some? ==> s.lastOp.value in s.ops)
  }

  lemma TurnKeeps(s: Loop, e: Event)
    requires LoopOk(s)
    ensures LoopOk(Turned(s, e))
  {
    var t := Turned(s, e);
    match e
    case Send(ids, sub) =>
      if Sendable(s, ids, sub) { RegisterSound(s.ops, s.respWait, s.nextOp, ids, sub, t.ops, t.respWait); }
    case SendDone(failed) =>
      if s.lastOp.Some? { UnsentSound(s.ops, s.respWait, s.lastOp.value); }
    case Response(id, _) =>
      if id in s.respWait {
        assert Owed(s.ops, id, s.respWait[id]);
        if s.ops[s.respWait[id]].sub {
          SubscribedSound(s.ops, s.respWait, id);
        } else {
          DeliverSound(s.ops, s.respWait, id);
        }
      }
    case ReadError => ClosedSound(s.ops, t.ops, s.respWait);
  }

  lemma {:induction false} RunKeeps(s: Loop, events: seq<Event>)
    requires LoopOk(s)
    ensures LoopOk(Ran(s, events))
  {
    if events != [] {
      RunKeeps(s, events[..|events| - 1]);
      TurnKeeps(Ran(s, events[..|events| - 1]), events[|events| - 1]);
    }
  }

  /** A response to the id comes in at turn `i` while the request waits for it. */
  predicate Arrives(s: Loop, events: seq<Event>, i: nat, o: Op, id: Id)
    requires i < |events|
  {
    events[i].Response? && events[i].id == id && Waits(Ran(s, events[..i]).respWait, id, o)
  }

  ghost predicate Arrived(s: Loop, events: seq<Event>, o: Op, id: Id) {
    exists i :: 0 <= i < |events| && Arrives(s, events, i, o, id)
  }

  lemma ArrivedNext(s: Loop, events: seq<Event>, n: nat, o: Op, id: Id)
    requires n + 1 == |events|
    ensures Arrived(s, events, o, id) <==> Arrived(s, events[..n], o, id) || Arrives(s, events, n, o, id)
  {
    forall i | 0 <= i < n ensures Arrives(s, events[..n], i, o, id) <==> Arrives(s, events, i, o, id) {
      assert events[..n][..i] == events[..i];
    }
    if Arrived(s, events[..n], o, id) {
      var i :| 0 <= i < n && Arrives(s, events[..n], i, o, id);
      assert Arrives(s, events, i, o, id);
    }
    if Arrived(s, events, o, id) {
      var i :| 0 <= i < n + 1 && Arrives(s, events, i, o, id);
      assert i < n ==> Arrives(s, events[..n], i, o, id);
    }
  }

  /** Over a whole run an ordinary request gets exactly the responses to ids it waited for when they came. */
  lemma {:induction false} RunDelivers(s: Loop, events: seq<Event>, o: Op, id: Id)
    requires LoopOk(s)
    ensures
      var t := Ran(s, events);
      if o !in t.ops then o !in s.ops && !Arrived(s, events, o, id)
      else !t.ops[o].sub ==>
        (id in t.ops[o].delivered <==> (o in s.ops && id in s.ops[o].delivered) || Arrived(s, events, o, id))
    decreases |events|
  {
    if events != [] {
      var n := |events| - 1;
      RunDelivers(s, events[..n], o, id);
      RunKeeps(s, events[..n]);
      var mid := Ran(s, events[..n]);
      TurnExactly(mid, events[n], o, id);
      ArrivedNext(s, events, n, o, id);
      assert Waits(mid.respWait, id, o) ==> Owed(mid.ops, id, o);
    }
  }
}
