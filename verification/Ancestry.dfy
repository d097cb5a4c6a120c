/** Looking up an ancestor with a shortcut over the canonical numbers (core/headerchain.go). */
module Ancestry {
  import opened Types
  import opened BlockTree
  import opened ChainIndex

  /** The hash that stands for "nothing": no header has it. */
  const NO_HASH: Hash := 0

  function ReadCanonicalHash(canon: map<nat, Hash>, number: nat): Hash {
    if number in canon then canon[number] else NO_HASH
  }

  /** Headers below a first one name a parent, and canonical hashes belong to stored headers, each
      the parent of the next. */
  predicate Linked(tree: Tree, canon: map<nat, Hash>) {
    && (forall h :: h in tree && tree[h].number > 0 ==> tree[h].parent != NO_HASH)
    && (forall n :: n in canon ==> canon[n] != NO_HASH && GetBlock(tree, canon[n], n).Some?)
    && (forall n :: n in canon && n > 0 ==>
          n - 1 in canon && canon[n - 1] == GetBlock(tree, canon[n], n).value.parent)
  }

  /** Following `n` parent links one by one. */
  function Ancestor(tree: Tree, hash: Hash, number: nat, n: nat): Option<Hash>
    decreases n
  {
    if n == 0 then Some(hash)
    else if number == 0 then None
    else match GetBlock(tree, hash, number)
      case None => None
      case Some(header) => Ancestor(tree, header.parent, number - 1, n - 1)
  }

  /** How many of those links are followed before a canonical header, or the end, is met. */
  function OffChain(tree: Tree, canon: map<nat, Hash>, hash: Hash, number: nat, n: nat): nat
    decreases n
  {
    if n == 0 || ReadCanonicalHash(canon, number) == hash then 0
    else if number == 0 then 1
    else match GetBlock(tree, hash, number)
      case None => 1
      case Some(header) => 1 + OffChain(tree, canon, header.parent, number - 1, n - 1)
  }

  /** On the canonical chain the n-th ancestor is the canonical hash n numbers below. */
  lemma {:induction false} CanonicalWalk(tree: Tree, canon: map<nat, Hash>, number: nat, n: nat)
    requires Linked(tree, canon) && number in canon && n <= number
    ensures number - n in canon && Ancestor(tree, canon[number], number, n) == Some(canon[number - n])
    decreases n
  {
    if n > 0 {
      CanonicalWalk(tree, canon, number - 1, n - 1);
    }
  }

  /** Any answer is the true ancestor. With all headers there, and other than for a parent, the call
      fails exactly when more links leave the canonical chain than the budget allows, and the
      budget goes down by the links followed. */
  method GetAncestor(tree: Tree, canon: map<nat, Hash>, hash: Hash, number: nat, ancestor: nat,
                     maxNonCanonical: nat)
    returns (h: Hash, n: nat, left: nat)
    requires Linked(tree, canon) && hash != NO_HASH
    ensures h != NO_HASH ==>
        ancestor <= number && n == number - ancestor && Ancestor(tree, hash, number, ancestor) == Some(h)
    ensures ancestor == 1 && number > 0 ==> (h != NO_HASH <==> GetBlock(tree, hash, number).Some?)
    ensures ancestor <= number && ancestor != 1 && Ancestor(tree, hash, number, ancestor).Some? ==>
        (h != NO_HASH <==> OffChain(tree, canon, hash, number, ancestor) <= maxNonCanonical)
    ensures h != NO_HASH && ancestor != 1 ==>
        left == maxNonCanonical - OffChain(tree, canon, hash, number, ancestor)
    ensures h == NO_HASH ==> n == 0
    ensures ancestor == 1 || ancestor > number ==> left == maxNonCanonical
    ensures left <= maxNonCanonical
  {
    left := maxNonCanonical;
    if ancestor > number {
      return NO_HASH, 0, left;
    }
    if ancestor == 1 {
      var header := GetBlock(tree, hash, number);
      if header.Some? {
        return header.value.parent, number - 1, left;
      } else {
        return NO_HASH, 0, left;
      }
    }
    var at, num, todo := hash, number, ancestor;
    while todo != 0
      invariant todo <= num && num - todo == number - ancestor && at != NO_HASH
      invariant Ancestor(tree, at, num, todo) == Ancestor(tree, hash, number, ancestor)
      invariant left <= maxNonCanonical
      invariant OffChain(tree, canon, at, num, todo) + (maxNonCanonical - left)
             == OffChain(tree, canon, hash, number, ancestor)
    {
      if ReadCanonicalHash(canon, num) == at {
        CanonicalWalk(tree, canon, num, todo);
        num := num - todo;
        return ReadCanonicalHash(canon, num), num, left;
      }
      if left == 0 {
        return NO_HASH, 0, left;
      }
      left := left - 1;
      var header := GetBlock(tree, at, num);
      if header.None? {
        return NO_HASH, 0, left;
      }
      todo := todo - 1;
      at := header.value.parent;
      num := num - 1;
    }
    return at, num, left;
  }

  /** The records of a chain are linked in this sense. */
  lemma ChainLinked(tree: Tree, genesis: Block, head: Block, canon: map<nat, Hash>)
    requires Filed(tree) && Known(tree, head) && Rooted(tree, genesis, head)
    requires Numbered(canon, Path(tree, genesis, head))
    requires forall h :: h in tree ==> h != NO_HASH && (tree[h].number > 0 ==> tree[h].parent != NO_HASH)
    ensures Linked(tree, canon)
  {
    var path := Path(tree, genesis, head);
    PathIsChain(tree, genesis, head);
    forall n: nat | n < |path|
      ensures Known(tree, path[n])
    {
      PathKnown(tree, genesis, head, n);
    }
  }
}
