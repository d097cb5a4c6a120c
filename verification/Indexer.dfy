/** The section indexer that follows the canonical chain (core/chain_indexer.go). A canonical chain
    is its sequence of blocks, the block at index n having number n. */
module Indexer {
  import opened Types
  import opened BlockTree
  import opened Ancestry

  /** What the backend does with a section. */
  datatype Backend = Works | ResetFails | CommitFails

  /** The number of the last block of a section. */
  function LastOf(section: nat, size: nat): int {
    (section + 1) * size - 1
  }

  /** The heads stored are those of the first `stored` sections, each the hash of the section's last
      block on the chain. */
  ghost predicate Faithful(heads: map<nat, Hash>, stored: nat, path: seq<Block>, size: nat) {
    && (forall s: nat :: s in heads <==> s < stored)
    && (forall s :: s in heads ==>
          0 <= LastOf(s, size) < |path| && heads[s] == path[LastOf(s, size)].hash)
  }

  /** Sections counted as known end at least `confirms` blocks below the given head. */
  predicate Confirmed(known: nat, size: nat, confirms: nat, head: nat) {
    known == 0 || known * size + confirms <= head + 1
  }

  lemma Monotone(a: nat, b: nat, size: nat)
    requires a <= b
    ensures a * size <= b * size
  {
  }

  /** The heads of sections that end by the fork are those of the other chain too. */
  lemma FaithfulBelow(heads: map<nat, Hash>, stored: nat, p: seq<Block>, q: seq<Block>, size: nat, k: nat)
    requires size > 0 && Faithful(heads, stored, p, size) && Forks(p, q, k) && stored * size <= k + 1
    ensures Faithful(heads, stored, q, size)
  {
    forall s: nat | s < stored
      ensures 0 <= LastOf(s, size) <= k && q[LastOf(s, size)] == p[LastOf(s, size)]
    {
      Monotone(s + 1, stored, size);
      Monotone(1, s + 1, size);
      var n := LastOf(s, size);
      assert p[..k + 1][n] == q[..k + 1][n];
    }
  }

  lemma FaithfulFewer(heads: map<nat, Hash>, stored: nat, path: seq<Block>, size: nat, fewer: nat, kept: map<nat, Hash>)
    requires Faithful(heads, stored, path, size) && fewer <= stored
    requires kept == map s | s in heads && !(fewer <= s < stored) :: heads[s]
    ensures Faithful(kept, fewer, path, size)
  {
  }

  class ChainIndexer {
    const sectionSize: nat
    const confirmsReq: nat
    var storedSections: nat
    var knownSections: nat
    var cascadedHead: nat
    var heads: map<nat, Hash>

    ghost predicate Valid(path: seq<Block>)
      reads this
    {
      sectionSize > 0 && Faithful(heads, storedSections, path, sectionSize)
    }

    constructor (size: nat, confirms: nat)
      requires size > 0
      ensures sectionSize == size && confirmsReq == confirms
      ensures storedSections == knownSections == 0 && forall path :: Valid(path)
    {
      sectionSize, confirmsReq := size, confirms;
      storedSections, knownSections, cascadedHead, heads := 0, 0, 0, map[];
    }

    function SectionHead(section: int): Hash
      reads this
    {
      if section in heads then heads[section] else NO_HASH
    }

    /** Sets the number of valid sections, removing the heads of the sections given up. */
    method SetValidSections(sections: nat)
      modifies this`storedSections, this`heads
      ensures storedSections == sections
      ensures heads == map s | s in old(heads) && !(sections <= s < old(storedSections)) :: old(heads)[s]
    {
      while storedSections > sections
        invariant storedSections <= old(storedSections)
        invariant sections <= storedSections || storedSections == old(storedSections)
        invariant heads == map s | s in old(heads) && !(storedSections <= s < old(storedSections)) :: old(heads)[s]
      {
        storedSections := storedSections - 1;
        heads := heads - {storedSections};
      }
      storedSections := sections;
    }

    /** A reorganisation down to block `head`: the section that holds it and all later ones are
        given up. */
    method Rollback(head: nat, ghost p: seq<Block>, ghost q: seq<Block>)
      requires Valid(p) && Forks(p, q, head)
      modifies this
      ensures Valid(q)
      ensures knownSections == Least(old(knownSections), head / sectionSize)
      ensures storedSections == Least(old(storedSections), head / sectionSize)
      ensures cascadedHead == Least(old(cascadedHead), head / sectionSize * sectionSize)
    {
      var changed := head / sectionSize;
      Quotient(head, sectionSize);
      if changed < knownSections {
        knownSections := changed;
      }
      ghost var was, stored := heads, storedSections;
      if changed < storedSections {
        SetValidSections(changed);
        FaithfulFewer(was, stored, p, sectionSize, changed, heads);
      } else {
        Monotone(stored, changed, sectionSize);
      }
      FaithfulBelow(heads, storedSections, p, q, sectionSize, head);
      var end := changed * sectionSize;
      if end < cascadedHead {
        cascadedHead := end;
      }
    }

    /** A new head without a reorganisation: complete sections with enough confirmations are known. */
    method Advance(head: nat)
      requires sectionSize > 0
      modifies this`knownSections
      ensures knownSections == Grown(old(knownSections), head, sectionSize, confirmsReq)
    {
      if head >= confirmsReq {
        var sections := (head + 1 - confirmsReq) / sectionSize;
        if sections > knownSections {
          knownSections := sections;
        }
      }
    }

    /** Runs the backend over the blocks of a section, checking that they follow one another from
        `lastHead`. An answer is the hash of the section's last block; with a working backend and
        the section complete on the chain there is one. */
    method ProcessSection(section: nat, lastHead: Hash, path: seq<Block>, backend: Backend, ghost genesis: Block)
      returns (r: Option<Hash>)
      requires sectionSize > 0 && IsChain(genesis, path)
      modifies this`storedSections, this`heads
      ensures r.Some? ==>
          0 <= LastOf(section, sectionSize) < |path| && r.value == path[LastOf(section, sectionSize)].hash
      ensures backend == ResetFails ==>
          r == None && storedSections == 0 && heads == Forgotten(old(heads), old(storedSections))
      ensures backend != ResetFails ==> storedSections == old(storedSections) && heads == old(heads)
      ensures
        && backend == Works
        && LastOf(section, sectionSize) < |path|
        && lastHead == HashBefore(path, section * sectionSize, genesis)
        ==> r.Some?
    {
      if backend == ResetFails {
        SetValidSections(0);
        return None;
      }
      Monotone(section, section + 1, sectionSize);
      var last := lastHead;
      var number := section * sectionSize;
      while number < (section + 1) * sectionSize
        invariant section * sectionSize <= number <= (section + 1) * sectionSize
        invariant number > section * sectionSize ==> number <= |path| && last == path[number - 1].hash
        invariant number == section * sectionSize ==> last == lastHead
      {
        if number >= |path| {
          return None;
        }
        var header := path[number];
        if header.parent != last {
          return None;
        }
        last := header.hash;
        number := number + 1;
      }
      if backend == CommitFails {
        return None;
      }
      return Some(last);
    }

    /** Processes the first section not stored yet; no reorganisation comes in between, so the head
        before it is still the stored one. */
    method ProcessNext(path: seq<Block>, backend: Backend, ghost genesis: Block) returns (r: Option<Hash>)
      requires Valid(path) && IsChain(genesis, path)
      modifies this`storedSections, this`heads
      ensures Valid(path)
      ensures storedSections == old(storedSections) || (r.None? && storedSections == 0)
      ensures r.Some? ==>
          0 <= LastOf(storedSections, sectionSize) < |path| && r.value == path[LastOf(storedSections, sectionSize)].hash
      ensures Ready(old(storedSections), sectionSize, path, backend, genesis) ==> r.Some?
    {
      var section := storedSections;
      var oldHead := NO_HASH;
      if section > 0 {
        oldHead := SectionHead(section - 1);
      }
      if Ready(section, sectionSize, path, backend, genesis) {
        HeadBefore(heads, storedSections, path, sectionSize, genesis);
      }
      r := ProcessSection(section, oldHead, path, backend, genesis);
      if backend == ResetFails {
        assert heads == map[];
      }
      var previous: int := storedSections - 1;
      if backend != ResetFails && oldHead != SectionHead(previous) {
        r := None;
      }
    }

    method StoreHead(h: Hash, ghost path: seq<Block>)
      requires Valid(path)
      requires 0 <= LastOf(storedSections, sectionSize) < |path| && h == path[LastOf(storedSections, sectionSize)].hash
      modifies this`storedSections, this`heads
      ensures Valid(path) && storedSections == old(storedSections) + 1
    {
      var section := storedSections;
      FaithfulNext(heads, section, path, sectionSize, h);
      ghost var next := heads[section := h];
      heads := heads[section := h];
      SetValidSections(section + 1);
      assert heads == next;
    }

    /** One update: the next known section is processed and its head stored. If that fails, nothing
        is tried again before the next notice. */
    method Update(path: seq<Block>, backend: Backend, ghost genesis: Block)
      requires Valid(path) && IsChain(genesis, path)
      modifies this
      ensures Valid(path)
      ensures knownSections <= old(knownSections)
      ensures old(knownSections) <= old(storedSections) ==>
          storedSections == old(storedSections) && knownSections == old(knownSections)
      ensures cascadedHead ==
          if storedSections == old(storedSections) + 1 then storedSections * sectionSize - 1 else old(cascadedHead)
      ensures storedSections != old(storedSections) + 1 && old(knownSections) > old(storedSections) ==>
          knownSections == storedSections
      ensures
        && old(knownSections) > old(storedSections)
        && Ready(old(storedSections), sectionSize, path, backend, genesis) ==>
          storedSections == old(storedSections) + 1 && knownSections == old(knownSections)
    {
      if knownSections > storedSections {
        var newHead := ProcessNext(path, backend, genesis);
        if newHead.Some? {
          StoreHead(newHead.value, path);
          Monotone(1, storedSections, sectionSize);
          cascadedHead := storedSections * sectionSize - 1;
        } else {
          knownSections := storedSections;
        }
      }
    }

    /** The event loop on a new head, the chain going from `p` to `q`: unless the new head sits on
        the old one, the common ancestor `k` is announced as a reorganisation first. */
    method Announce(p: seq<Block>, q: seq<Block>, k: nat)
      requires Valid(p) && Follows(p, q, k)
      modifies this
      ensures Valid(q)
      ensures
        var reorg := q[|q| - 1].parent != p[|p| - 1].hash;
        var kept := if reorg then Least(old(knownSections), k / sectionSize) else old(knownSections);
        && knownSections == Grown(kept, |q| - 1, sectionSize, confirmsReq)
        && storedSections == (if reorg then Least(old(storedSections), k / sectionSize) else old(storedSections))
        && cascadedHead ==
             (if reorg then Least(old(cascadedHead), k / sectionSize * sectionSize) else old(cascadedHead))
    {
      if q[|q| - 1].parent != p[|p| - 1].hash {
        Rollback(k, p, q);
      } else {
        FaithfulExtends(heads, storedSections, p, q, sectionSize);
      }
      Advance(|q| - 1);
    }

    /** One event: a new head, or a section update. */
    method React(e: Event, p: seq<Block>, genesis: Block) returns (path: seq<Block>)
      requires Valid(p) && IsChain(genesis, p)
      requires e.NewHead? ==> IsChain(genesis, e.chain) && Follows(p, e.chain, e.fork)
      modifies this
      ensures IsChain(genesis, path) && Valid(path)
      ensures path == if e.NewHead? then e.chain else p
      ensures old(Confirmed(knownSections, sectionSize, confirmsReq, |p| - 1)) && |p| <= |path| ==>
          Confirmed(knownSections, sectionSize, confirmsReq, |path| - 1)
    {
      ghost var known := knownSections;
      match e {
        case NewHead(q, k) =>
          Announce(p, q, k);
          AnnouncedConfirmed(known, knownSections, k, sectionSize, confirmsReq, |p| - 1, |q| - 1);
          return q;
        case Section(backend) =>
          Update(p, backend, genesis);
          FewerConfirmed(knownSections, known, sectionSize, confirmsReq, |p| - 1);
          return p;
      }
    }

    /** Follows the chain through any run of announcements, of higher and of lower heads, and section
        updates. The heads stored are always those of the chain announced last. The sections known are
        confirmed as long as no head got lower. */
    method Follow(events: seq<Event>, start: seq<Block>, genesis: Block) returns (path: seq<Block>)
      requires Valid(start) && IsChain(genesis, start) && Announced(genesis, start, events)
      modifies this
      ensures path == PathAfter(start, events) && path != [] && Valid(path)
      ensures old(Confirmed(knownSections, sectionSize, confirmsReq, |start| - 1)) && Rising(start, events) ==>
          Confirmed(knownSections, sectionSize, confirmsReq, |path| - 1)
    {
      ghost var confirmed := Confirmed(knownSections, sectionSize, confirmsReq, |start| - 1);
      path := start;
      for i := 0 to |events|
        invariant IsChain(genesis, path) && Valid(path) && path == PathAfter(start, events[..i])
        invariant confirmed && Rising(start, events[..i]) ==>
            Confirmed(knownSections, sectionSize, confirmsReq, |path| - 1)
      {
        EventsNext(genesis, start, events, i);
        path := React(events[i], path, genesis);
      }
      assert events[..|events|] == events;
    }
  }

  datatype Event = NewHead(chain: seq<Block>, fork: nat) | Section(backend: Backend)

  /** The chain announced last. */
  function PathAfter(start: seq<Block>, events: seq<Event>): seq<Block> {
    if events == [] then start
    else
      var n := |events| - 1;
      if events[n].NewHead? then events[n].chain else PathAfter(start, events[..n])
  }

  /** The chain moves from `p` to `q`, which part at block `k`; a head on top of the other head parts
      from it nowhere. */
  predicate Follows(p: seq<Block>, q: seq<Block>, k: nat) {
    p != [] && Forks(p, q, k) && (q[|q| - 1].parent == p[|p| - 1].hash ==> k == |p| - 1)
  }

  /** Every announcement starts from the chain announced before it, with their true fork. */
  predicate Announced(genesis: Block, start: seq<Block>, events: seq<Event>) {
    events == [] ||
    (var n := |events| - 1;
     && Announced(genesis, start, events[..n])
     && (events[n].NewHead? ==>
           IsChain(genesis, events[n].chain) &&
           Follows(PathAfter(start, events[..n]), events[n].chain, events[n].fork)))
  }

  /** No announcement lowers the head. */
  predicate Rising(start: seq<Block>, events: seq<Event>) {
    events == [] ||
    (var n := |events| - 1;
     && Rising(start, events[..n])
     && (events[n].NewHead? ==> |PathAfter(start, events[..n])| <= |events[n].chain|))
  }

  lemma {:induction false} AnnouncedPrefix(genesis: Block, start: seq<Block>, events: seq<Event>, i: nat)
    requires i <= |events| && Announced(genesis, start, events)
    ensures Announced(genesis, start, events[..i])
    decreases |events|
  {
    if i < |events| {
      var n := |events| - 1;
      AnnouncedPrefix(genesis, start, events[..n], i);
      assert events[..n][..i] == events[..i];
    } else {
      assert events[..i] == events;
    }
  }

  lemma EventsNext(genesis: Block, start: seq<Block>, events: seq<Event>, i: nat)
    requires i < |events| && Announced(genesis, start, events)
    ensures events[i].NewHead? ==>
        IsChain(genesis, events[i].chain) && Follows(PathAfter(start, events[..i]), events[i].chain, events[i].fork)
    ensures PathAfter(start, events[..i + 1]) ==
        if events[i].NewHead? then events[i].chain else PathAfter(start, events[..i])
    ensures Rising(start, events[..i + 1]) <==>
        Rising(start, events[..i]) && (events[i].NewHead? ==> |PathAfter(start, events[..i])| <= |events[i].chain|)
  {
    AnnouncedPrefix(genesis, start, events, i + 1);
    assert events[..i + 1][..i] == events[..i] && events[..i + 1][i] == events[i];
  }

  /** The known sections after a head is announced. */
  function Grown(known: nat, head: nat, size: nat, confirms: nat): nat
    requires size > 0
  {
    if head >= confirms && (head + 1 - confirms) / size > known then (head + 1 - confirms) / size else known
  }

  /** The sections known after an announcement are confirmed exactly when those kept were, and then
      they are all the confirmed sections there are. */
  lemma GrownIff(known: nat, head: nat, size: nat, confirms: nat)
    requires size > 0
    ensures Confirmed(Grown(known, head, size, confirms), size, confirms, head) <==>
        Confirmed(known, size, confirms, head)
    ensures Confirmed(known, size, confirms, head) ==>
        !Confirmed(Grown(known, head, size, confirms) + 1, size, confirms, head)
  {
    if head >= confirms {
      var sections := (head + 1 - confirms) / size;
      Quotient(head + 1 - confirms, size);
      if sections > known {
        Monotone(known, sections, size);
      } else {
        Monotone(sections + 1, known + 1, size);
      }
    } else {
      Monotone(1, known + 1, size);
    }
  }

  lemma FewerConfirmed(fewer: nat, known: nat, size: nat, confirms: nat, head: nat)
    requires fewer <= known
    ensures Confirmed(known, size, confirms, head) ==> Confirmed(fewer, size, confirms, head)
  {
    Monotone(fewer, known, size);
  }

  /** A confirmed section is complete on the chain, so an update with a working backend succeeds. */
  lemma KnownComplete(section: nat, known: nat, size: nat, confirms: nat, head: nat)
    requires section < known && Confirmed(known, size, confirms, head)
    ensures LastOf(section, size) + confirms <= head
  {
    Monotone(section + 1, known, size);
  }

  /** An announcement that does not lower the head keeps the known sections confirmed, whatever it
      gives up. */
  lemma AnnouncedConfirmed(known: nat, next: nat, k: nat, size: nat, confirms: nat, head: nat, nextHead: nat)
    requires size > 0
    requires
      || next == Grown(known, nextHead, size, confirms)
      || next == Grown(Least(known, k / size), nextHead, size, confirms)
    ensures Confirmed(known, size, confirms, head) && head <= nextHead ==> Confirmed(next, size, confirms, nextHead)
  {
    var kept := if next == Grown(known, nextHead, size, confirms) then known else Least(known, k / size);
    FewerConfirmed(kept, known, size, confirms, head);
    GrownIff(kept, nextHead, size, confirms);
  }

  /** A chain that gets shorter leaves sections counted as known that are no longer confirmed: an
      indexer of one-block sections that wants two confirmations follows a chain of ten blocks, which
      then loses its last one. */
  method LoweredHead(genesis: Block, p: seq<Block>) returns (indexer: ChainIndexer)
    requires IsChain(genesis, p) && |p| == 10 && p[9].hash != p[7].hash
    ensures indexer.sectionSize == 1 && indexer.confirmsReq == 2 && indexer.Valid(p[..9])
    ensures indexer.knownSections == 8 && !Confirmed(indexer.knownSections, 1, 2, |p[..9]| - 1)
  {
    indexer := new ChainIndexer(1, 2);
    assert indexer.Valid(p);
    indexer.Advance(|p| - 1);
    var q := p[..9];
    assert p[..9] == q[..9];
    indexer.Announce(p, q, 8);
  }

  /** Nothing stands in the way of a section: the backend works and the chain holds all of it. */
  predicate Ready(section: nat, size: nat, path: seq<Block>, backend: Backend, genesis: Block) {
    backend == Works && genesis.parent == NO_HASH && LastOf(section, size) < |path|
  }

  /** The hash a section's first block must name as its parent. */
  function HashBefore(path: seq<Block>, n: nat, genesis: Block): Hash
    requires n <= |path|
  {
    if n == 0 then genesis.parent else path[n - 1].hash
  }

  function Forgotten(heads: map<nat, Hash>, stored: nat): map<nat, Hash> {
    map s | s in heads && s >= stored :: heads[s]
  }

  lemma FaithfulNext(heads: map<nat, Hash>, stored: nat, path: seq<Block>, size: nat, h: Hash)
    requires Faithful(heads, stored, path, size)
    requires 0 <= LastOf(stored, size) < |path| && h == path[LastOf(stored, size)].hash
    ensures Faithful(heads[stored := h], stored + 1, path, size)
  {
  }

  /** The last stored head is the hash the next section starts from. */
  lemma HeadBefore(heads: map<nat, Hash>, stored: nat, path: seq<Block>, size: nat, genesis: Block)
    requires Faithful(heads, stored, path, size) && size > 0
    requires genesis.parent == NO_HASH && LastOf(stored, size) < |path|
    ensures stored * size <= |path|
    ensures HashBefore(path, stored * size, genesis) == if stored == 0 then NO_HASH else heads[stored - 1]
  {
    Monotone(stored, stored + 1, size);
    if stored > 0 {
      Monotone(1, stored, size);
      assert LastOf(stored - 1, size) == stored * size - 1;
    }
  }

  lemma FaithfulExtends(heads: map<nat, Hash>, stored: nat, p: seq<Block>, q: seq<Block>, size: nat)
    requires Faithful(heads, stored, p, size) && p != [] && Forks(p, q, |p| - 1)
    ensures Faithful(heads, stored, q, size)
  {
    assert p[..|p|] == p;
  }

  function Least(a: nat, b: nat): nat {
    if a < b then a else b
  }

  lemma Quotient(a: nat, size: nat)
    requires size > 0
    ensures (a / size) * size <= a < (a / size + 1) * size
  {
  }
}
