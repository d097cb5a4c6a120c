/** Transactions and accounts as the pool, the miner and the chain see them. */
module Types {
  datatype Option<+T> = None | Some(value: T)

  type Address = nat
  type byte = b: int | 0 <= b < 256

  /** A signed transaction. Its hash identifies it, so the record stands for its own hash;
      `sender` is what signature recovery yields when `signed` holds. */
  datatype Tx = Tx(
    sender: Address,
    signed: bool,
    nonce: nat,
    price: int,
    gas: nat,
    value: int,
    create: bool,
    data: seq<byte>,
    size: nat)
  {
    /** amount + gasprice * gaslimit */
    function Cost(): int { price * gas + value }
  }

  /** A nonce-indexed collection files every transaction under its own nonce. */
  ghost predicate Keyed(m: map<nat, Tx>) {
    forall n :: n in m ==> m[n].nonce == n
  }

  function Below(m: map<nat, Tx>, t: nat): map<nat, Tx> {
    map n | n in m && n < t :: m[n]
  }

  function AtLeast(m: map<nat, Tx>, t: nat): map<nat, Tx> {
    map n | n in m && n >= t :: m[n]
  }

  function Only(m: map<nat, Tx>, p: Tx -> bool): map<nat, Tx> {
    map n | n in m && p(m[n]) :: m[n]
  }

  function Without(m: map<nat, Tx>, p: Tx -> bool): map<nat, Tx> {
    map n | n in m && !p(m[n]) :: m[n]
  }

  function TxSet(m: map<nat, Tx>): set<Tx> {
    set n | n in m :: m[n]
  }
}
