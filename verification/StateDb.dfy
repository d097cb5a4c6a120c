/** The state with its snapshots (core/state/statedb.go). A snapshot keeps the state itself in place of
    a position in the journal. */
module StateDb {
  import opened Execution

  datatype Revision = Revision(id: nat, saved: World)

  /** Snapshots are kept in the order they were taken. */
  predicate Ordered(rs: seq<Revision>, next: nat) {
    && (forall i, j :: 0 <= i < j < |rs| ==> rs[i].id < rs[j].id)
    && (forall i :: 0 <= i < |rs| ==> rs[i].id < next)
  }

  /** The binary search for the first snapshot not older than `id`. */
  method Search(rs: seq<Revision>, id: nat, ghost next: nat) returns (idx: nat)
    requires Ordered(rs, next)
    ensures idx <= |rs|
    ensures forall i :: 0 <= i < idx ==> rs[i].id < id
    ensures forall i :: idx <= i < |rs| ==> rs[i].id >= id
  {
    var lo, hi := 0, |rs|;
    while lo < hi
      invariant 0 <= lo <= hi <= |rs|
      invariant forall i :: 0 <= i < lo ==> rs[i].id < id
      invariant forall i :: hi <= i < |rs| ==> rs[i].id >= id
    {
      var mid := (lo + hi) / 2;
      if rs[mid].id >= id {
        hi := mid;
      } else {
        lo := mid + 1;
      }
    }
    return lo;
  }

  class StateDB {
    var world: World
    var revisions: seq<Revision>
    var nextRevisionId: nat

    ghost predicate Valid()
      reads this
    {
      Ordered(revisions, nextRevisionId)
    }

    constructor (world: World)
      ensures Valid() && this.world == world && revisions == []
    {
      this.world, revisions, nextRevisionId := world, [], 0;
    }

    method Snapshot() returns (id: nat)
      requires Valid()
      modifies this`revisions, this`nextRevisionId
      ensures Valid() && revisions == old(revisions) + [Revision(id, world)]
    {
      id := nextRevisionId;
      nextRevisionId := nextRevisionId + 1;
      revisions := revisions + [Revision(id, world)];
    }

    /** Puts back the state of a snapshot that is still kept, dropping it and all later ones. Asking for
        any other snapshot panics, which is the answer `false`. */
    method RevertToSnapshot(id: nat) returns (ok: bool)
      requires Valid()
      modifies this`world, this`revisions
      ensures Valid()
      ensures ok <==> exists i :: 0 <= i < |old(revisions)| && old(revisions)[i].id == id
      ensures !ok ==> unchanged(this)
      ensures forall i :: 0 <= i < |old(revisions)| && old(revisions)[i].id == id ==>
          world == old(revisions)[i].saved && revisions == old(revisions)[..i]
    {
      var idx := Search(revisions, id, nextRevisionId);
      if idx == |revisions| || revisions[idx].id != id {
        return false;
      }
      world := revisions[idx].saved;
      revisions := revisions[..idx];
      return true;
    }

    /** Ends a transaction. No snapshot outlives it. */
    method Finalise()
      requires Valid()
      modifies this`world, this`revisions
      ensures Valid() && world == old(world).Finalised() && revisions == []
    {
      world := world.Finalised();
      revisions := [];
    }
  }
}
