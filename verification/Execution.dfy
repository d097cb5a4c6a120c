/** Buying, spending and returning gas around one message (core/state_transition.go,
    core/gaspool.go). The virtual machine is a parameter. */
module Execution {
  import opened Types
  import opened Gas

  /** Balances and nonces of the state, with what the current transaction has set in it: the refund
      counter and the accounts that destroyed themselves. Addresses never written have zero. */
  datatype World = World(balance: map<Address, int>, nonce: map<Address, nat>, refund: nat, doomed: set<Address>)
  {
    function Balance(a: Address): int { if a in balance then balance[a] else 0 }

    function Nonce(a: Address): nat { if a in nonce then nonce[a] else 0 }

    function Credit(a: Address, amount: int): World {
      this.(balance := balance[a := Balance(a) + amount])
    }

    function BumpNonce(a: Address): World {
      this.(nonce := nonce[a := Nonce(a) + 1])
    }

    /** The sum of all balances, over an address space of the given size. */
    function Total(space: nat): int {
      if space == 0 then 0 else Total(space - 1) + Balance(space - 1)
    }

    /** What the accounts that destroyed themselves still hold. */
    function Burnt(space: nat): int {
      if space == 0 then 0 else Burnt(space - 1) + if space - 1 in doomed then Balance(space - 1) else 0
    }

    /** The state at the end of a transaction: destroyed accounts are deleted with what they hold, and
        the refund counter starts again. */
    function Finalised(): World {
      World(balance - doomed, nonce - doomed, 0, {})
    }
  }

  /** Ending a transaction takes out of the total exactly what destroyed accounts held. */
  lemma {:induction false} FinalisedTotal(w: World, space: nat)
    ensures w.Finalised().Total(space) == w.Total(space) - w.Burnt(space)
  {
    if space > 0 {
      FinalisedTotal(w, space - 1);
    }
  }

  lemma {:induction false} NothingBurnt(w: World, space: nat)
    requires forall a :: a in w.doomed ==> w.Balance(a) == 0
    ensures w.Burnt(space) == 0
  {
    if space > 0 {
      NothingBurnt(w, space - 1);
    }
  }

  lemma {:induction false} CreditTotal(w: World, a: Address, amount: int, space: nat)
    ensures w.Credit(a, amount).Total(space) == w.Total(space) + if a < space then amount else 0
  {
    if space > 0 {
      CreditTotal(w, a, amount, space - 1);
    }
  }

  lemma {:induction false} BumpTotal(w: World, a: Address, space: nat)
    ensures w.BumpNonce(a).Total(space) == w.Total(space)
  {
    if space > 0 {
      BumpTotal(w, a, space - 1);
    }
  }

  datatype VmError = Fine | InsufficientBalance | Reverted

  datatype Outcome = Outcome(world: World, gas: nat, error: VmError)

  /** Runs a message with the given gas. */
  type Machine = (World, Tx, nat) -> Outcome

  /** The machine hands back no more gas than it was given and makes no money. It may lose some: an account
      that destroys itself in its own favour does. */
  ghost predicate Honest(vm: Machine, space: nat) {
    forall w, tx, gas :: vm(w, tx, gas).gas <= gas && vm(w, tx, gas).world.Total(space) <= w.Total(space)
  }

  datatype Error =
    | NonceTooHigh
    | NonceTooLow
    | InsufficientBalanceForGas
    | GasLimitReached
    | OutOfGas
    | InsufficientBalanceForTransfer

  /** Errors found before any gas is bought. */
  predicate Early(e: Error) {
    !e.OutOfGas? && !e.InsufficientBalanceForTransfer?
  }

  class GasPool {
    var gas: nat

    constructor (limit: nat)
      ensures gas == limit
    {
      gas := limit;
    }

    /** Adding beyond 64 bits panics, so callers must not. */
    method AddGas(amount: nat)
      requires gas + amount <= MAX_UINT64
      modifies this
      ensures gas == old(gas) + amount
    {
      gas := gas + amount;
    }

    method SubGas(amount: nat) returns (ok: bool)
      modifies this
      ensures ok <==> old(gas) >= amount
      ensures gas == if ok then old(gas) - amount else old(gas)
    {
      if gas < amount {
        return false;
      }
      gas := gas - amount;
      return true;
    }
  }

  /** The state once the gas is paid for up front. */
  function Paid(w: World, tx: Tx): World {
    w.Credit(tx.sender, -(tx.gas * tx.price))
  }

  /** From there the nonce is spent and the machine runs on what the intrinsic gas leaves. */
  function Run(vm: Machine, paid: World, tx: Tx): Outcome
    requires ExactIntrinsicGas(tx.data, tx.create) <= tx.gas
  {
    var ready := if tx.create then paid else paid.BumpNonce(tx.sender);
    vm(ready, tx, tx.gas - ExactIntrinsicGas(tx.data, tx.create))
  }

  /** The state and the gas the machine starts with: the whole price of the gas is gone from the sender, its
      intrinsic part from the gas, and the nonce is spent, except on a contract creation, where spending it is
      left to the machine. */
  lemma MachineSees(vm: Machine, w: World, tx: Tx) returns (ready: World)
    requires ExactIntrinsicGas(tx.data, tx.create) <= tx.gas
    ensures Run(vm, Paid(w, tx), tx) == vm(ready, tx, tx.gas - ExactIntrinsicGas(tx.data, tx.create))
    ensures ready.Nonce(tx.sender) == w.Nonce(tx.sender) + if tx.create then 0 else 1
    ensures ready.Balance(tx.sender) == w.Balance(tx.sender) - tx.gas * tx.price
    ensures forall a :: a != tx.sender ==> ready.Nonce(a) == w.Nonce(a) && ready.Balance(a) == w.Balance(a)
    ensures ready.refund == w.refund && ready.doomed == w.doomed
  {
    ready := Paid(w, tx);
    if !tx.create { ready := ready.BumpNonce(tx.sender); }
  }

  /** What the machine loses in a run. */
  function Sunk(vm: Machine, w: World, tx: Tx, space: nat): int
    requires ExactIntrinsicGas(tx.data, tx.create) <= tx.gas
  {
    Paid(w, tx).Total(space) - Run(vm, Paid(w, tx), tx).world.Total(space)
  }

  /** Half of the gas consumed, or the refund counter if that is less. */
  function Refund(consumed: nat, counter: nat): (r: nat)
    ensures 2 * r <= consumed && r <= counter
    ensures r == counter || 2 * r + 1 >= consumed
  {
    if consumed / 2 > counter then counter else consumed / 2
  }

  class StateTransition {
    const gp: GasPool
    const msg: Tx
    const checkNonce: bool
    const coinbase: Address
    var gas: nat
    var initialGas: nat
    var world: World

    constructor (gp: GasPool, msg: Tx, checkNonce: bool, coinbase: Address, world: World)
      ensures this.gp == gp && this.msg == msg && this.checkNonce == checkNonce && this.coinbase == coinbase
      ensures gas == 0 && initialGas == 0 && this.world == world
    {
      this.gp, this.msg, this.checkNonce, this.coinbase := gp, msg, checkNonce, coinbase;
      this.world := world;
      gas, initialGas := 0, 0;
    }

    function GasUsed(): int
      reads this
    {
      initialGas - gas
    }

    method UseGas(amount: nat) returns (ok: bool)
      modifies this`gas
      ensures ok <==> old(gas) >= amount
      ensures gas == if ok then old(gas) - amount else old(gas)
    {
      if gas < amount {
        return false;
      }
      gas := gas - amount;
      return true;
    }

    method BuyGas() returns (e: Option<Error>)
      requires gas == 0
      modifies this`gas, this`initialGas, this`world, gp
      ensures e == if old(world).Balance(msg.sender) < msg.gas * msg.price then Some(InsufficientBalanceForGas)
                   else if old(gp.gas) < msg.gas then Some(GasLimitReached) else None
      ensures e.Some? ==> gp.gas == old(gp.gas) && world == old(world)
      ensures e.None? ==> gas == initialGas == msg.gas && gp.gas == old(gp.gas) - msg.gas
      ensures e.None? ==> world == Paid(old(world), msg)
    {
      var cost := msg.gas * msg.price;
      if world.Balance(msg.sender) < cost {
        return Some(InsufficientBalanceForGas);
      }
      var ok := gp.SubGas(msg.gas);
      if !ok {
        return Some(GasLimitReached);
      }
      gas := gas + msg.gas;
      initialGas := msg.gas;
      world := world.Credit(msg.sender, -cost);
      return None;
    }

    /** Checks the nonce, then buys the gas; on any error nothing has changed. */
    method PreCheck() returns (e: Option<Error>)
      requires gas == 0
      modifies this`gas, this`initialGas, this`world, gp
      ensures e == Rejection(old(world), old(gp.gas), msg, checkNonce)
      ensures e.Some? ==> Early(e.value) && gp.gas == old(gp.gas) && world == old(world)
      ensures e.None? ==> gas == initialGas == msg.gas && gp.gas == old(gp.gas) - msg.gas
      ensures e.None? ==> world == Paid(old(world), msg)
    {
      if checkNonce {
        var nonce := world.Nonce(msg.sender);
        if nonce < msg.nonce {
          return Some(NonceTooHigh);
        } else if nonce > msg.nonce {
          return Some(NonceTooLow);
        }
      }
      e := BuyGas();
    }

    /** Returns what gas is left, and part of what was consumed, to the sender and to the pool. */
    method RefundGas()
      requires gas <= initialGas && gp.gas + initialGas <= MAX_UINT64
      modifies this`gas, this`world, gp
      ensures gas == old(gas) + Refund(initialGas - old(gas), old(world).refund) <= initialGas
      ensures gp.gas == old(gp.gas) + gas
      ensures world == old(world).Credit(msg.sender, gas * msg.price)
    {
      var refund := GasUsed() / 2;
      if refund > world.refund {
        refund := world.refund;
      }
      gas := gas + refund;
      world := world.Credit(msg.sender, gas * msg.price);
      gp.AddGas(gas);
    }

    /** Pays the intrinsic gas and runs the message. */
    method Execute(vm: Machine) returns (e: Option<Error>, failed: bool)
      requires gas == initialGas == msg.gas <= MAX_UINT64
      modifies this`gas, this`world
      ensures e == Some(OutOfGas) <==>
          IntrinsicGas(msg.data, msg.create).None? || IntrinsicGas(msg.data, msg.create).value > msg.gas
      ensures e.Some? ==> !Early(e.value) && !failed
      ensures e.None? ==>
          && ExactIntrinsicGas(msg.data, msg.create) <= msg.gas
          && (var out := Run(vm, old(world), msg);
              gas == out.gas && world == out.world && failed == (out.error == Reverted))
      ensures e == Some(InsufficientBalanceForTransfer) <==>
          && ExactIntrinsicGas(msg.data, msg.create) <= msg.gas <= MAX_UINT64
          && Run(vm, old(world), msg).error == InsufficientBalance
    {
      failed := false;
      var intrinsic := ComputeIntrinsicGas(msg.data, msg.create);
      if intrinsic.None? {
        return Some(OutOfGas), false;
      }
      var ok := UseGas(intrinsic.value);
      if !ok {
        return Some(OutOfGas), false;
      }
      if !msg.create {
        world := world.BumpNonce(msg.sender);
      }
      var out := vm(world, msg, gas);
      world, gas := out.world, out.gas;
      if out.error == InsufficientBalance {
        return Some(InsufficientBalanceForTransfer), false;
      }
      return None, out.error != Fine;
    }

    /** Applies the message. A success moves the gas used from the pool, pays the coinbase for it
        and conserves the total balance but for what the machine loses; the pool cannot overflow on the
        way back. A failure before the purchase leaves everything alone; a later one leaves the gas
        bought out of the pool. */
    method TransitionDb(vm: Machine, ghost space: nat) returns (e: Option<Error>, usedGas: nat, failed: bool)
      requires gas == 0 && gp.gas <= MAX_UINT64 && Honest(vm, space)
      requires msg.sender < space && coinbase < space
      modifies this, gp
      ensures e.None? ==> Applied(vm, old(world), msg, coinbase, world, usedGas, failed)
      ensures e.None? ==> usedGas <= msg.gas && gp.gas == old(gp.gas) - usedGas
      ensures e.None? ==> world.Total(space) == old(world).Total(space) - Sunk(vm, old(world), msg, space)
      ensures e.Some? ==> usedGas == 0 && !failed
      ensures e.Some? && Early(e.value) ==> gp.gas == old(gp.gas) && world == old(world)
      ensures e.Some? && !Early(e.value) ==> gp.gas == old(gp.gas) - msg.gas
      ensures Rejection(old(world), old(gp.gas), msg, checkNonce).Some? ==>
          e == Rejection(old(world), old(gp.gas), msg, checkNonce)
      ensures Rejection(old(world), old(gp.gas), msg, checkNonce).None? ==>
          (e.Some? ==> !Early(e.value)) &&
          (e == Some(OutOfGas) <==>
             IntrinsicGas(msg.data, msg.create).None? || IntrinsicGas(msg.data, msg.create).value > msg.gas) &&
          (e == Some(InsufficientBalanceForTransfer) <==>
             ExactIntrinsicGas(msg.data, msg.create) <= msg.gas &&
             Run(vm, Paid(old(world), msg), msg).error == InsufficientBalance)
    {
      ghost var before := world;
      usedGas, failed := 0, false;
      e := PreCheck();
      if e.Some? {
        return;
      }
      ghost var paid := world;
      e, failed := Execute(vm);
      if e.Some? {
        return;
      }
      ghost var ran := world;
      ConserveRun(vm, before, paid, msg, space);
      RefundGas();
      usedGas := GasUsed();
      world := world.Credit(coinbase, usedGas * msg.price);
      ConserveSettlement(ran, msg, coinbase, usedGas, space);
    }
  }

  /** Why a message is turned away before any gas is bought, if it is. */
  function Rejection(w: World, pool: nat, tx: Tx, checkNonce: bool): Option<Error> {
    if checkNonce && w.Nonce(tx.sender) < tx.nonce then Some(NonceTooHigh)
    else if checkNonce && w.Nonce(tx.sender) > tx.nonce then Some(NonceTooLow)
    else if w.Balance(tx.sender) < tx.gas * tx.price then Some(InsufficientBalanceForGas)
    else if pool < tx.gas then Some(GasLimitReached)
    else None
  }

  /** A message is turned away for its nonce first, then for the sender's balance, then for the block's gas. */
  lemma RejectionIff(w: World, pool: nat, tx: Tx, checkNonce: bool)
    ensures
      var e, current := Rejection(w, pool, tx, checkNonce), !checkNonce || w.Nonce(tx.sender) == tx.nonce;
      && (e == Some(NonceTooHigh) <==> checkNonce && w.Nonce(tx.sender) < tx.nonce)
      && (e == Some(NonceTooLow) <==> checkNonce && w.Nonce(tx.sender) > tx.nonce)
      && (e == Some(InsufficientBalanceForGas) <==> current && w.Balance(tx.sender) < tx.gas * tx.price)
      && (e == Some(GasLimitReached) <==> current && w.Balance(tx.sender) >= tx.gas * tx.price && pool < tx.gas)
      && (e == None <==> current && w.Balance(tx.sender) >= tx.gas * tx.price && pool >= tx.gas)
  {
  }

  /** The state after a message that used `used` gas: the machine's state, with the sender paid back
      for the rest and the coinbase paid for what was used, after a refund of at most half. */
  ghost predicate Applied(vm: Machine, w: World, tx: Tx, coinbase: Address, after: World, used: nat, failed: bool) {
    && ExactIntrinsicGas(tx.data, tx.create) <= tx.gas
    && used <= tx.gas
    && (var out := Run(vm, Paid(w, tx), tx);
        && out.gas <= tx.gas
        && out.error != InsufficientBalance
        && failed == (out.error == Reverted)
        && used == (tx.gas - out.gas) - Refund(tx.gas - out.gas, out.world.refund)
        && after == out.world.Credit(tx.sender, (tx.gas - used) * tx.price).Credit(coinbase, used * tx.price))
  }

  /** What makes a message go through: nothing turns it away, it brings its intrinsic gas, and the sender
      can pay for the transfer. */
  predicate GoesThrough(vm: Machine, w: World, pool: nat, tx: Tx) {
    && Rejection(w, pool, tx, true).None?
    && ExactIntrinsicGas(tx.data, tx.create) <= tx.gas
    && ExactIntrinsicGas(tx.data, tx.create) <= MAX_UINT64
    && Run(vm, Paid(w, tx), tx).error != InsufficientBalance
  }

  /** The gas a message uses: what the machine consumed, less the refund. */
  function UsedBy(vm: Machine, w: World, tx: Tx): (used: nat)
    requires ExactIntrinsicGas(tx.data, tx.create) <= tx.gas
    ensures used <= tx.gas
  {
    var out := Run(vm, Paid(w, tx), tx);
    if out.gas > tx.gas then 0 else (tx.gas - out.gas) - Refund(tx.gas - out.gas, out.world.refund)
  }

  /** The state once sender and coinbase are paid. */
  function Settlement(vm: Machine, w: World, tx: Tx, coinbase: Address): World
    requires ExactIntrinsicGas(tx.data, tx.create) <= tx.gas
  {
    var used := UsedBy(vm, w, tx);
    Run(vm, Paid(w, tx), tx).world.Credit(tx.sender, (tx.gas - used) * tx.price).Credit(coinbase, used * tx.price)
  }

  /** A message has one result. */
  lemma AppliedIs(vm: Machine, w: World, tx: Tx, coinbase: Address, after: World, used: nat, failed: bool)
    requires Applied(vm, w, tx, coinbase, after, used, failed)
    ensures used == UsedBy(vm, w, tx) && after == Settlement(vm, w, tx, coinbase)
    ensures failed == (Run(vm, Paid(w, tx), tx).error == Reverted)
  {
  }

  /** Who is paid what: the sender gets the price of the gas not used and the coinbase that of the gas used,
      on top of what the machine left them. The refund is the counter, or half of what was consumed if that
      is less. */
  lemma AppliedPays(vm: Machine, w: World, tx: Tx, coinbase: Address, after: World, used: nat, failed: bool, a: Address)
    requires Applied(vm, w, tx, coinbase, after, used, failed)
    ensures
      var ran := Run(vm, Paid(w, tx), tx);
      var consumed := tx.gas - ran.gas;
      && after.Balance(a) == ran.world.Balance(a)
         + (if a == tx.sender then (tx.gas - used) * tx.price else 0) + (if a == coinbase then used * tx.price else 0)
      && after.Nonce(a) == ran.world.Nonce(a)
      && 2 * used >= consumed && consumed - used <= ran.world.refund
      && (consumed - used == ran.world.refund || 2 * used <= consumed + 1)
      && (failed <==> ran.error == Reverted)
  {
  }

  lemma ConserveRun(vm: Machine, w: World, paid: World, tx: Tx, space: nat)
    requires Honest(vm, space) && tx.sender < space && paid == Paid(w, tx)
    requires ExactIntrinsicGas(tx.data, tx.create) <= tx.gas
    ensures Run(vm, paid, tx).world.Total(space) == w.Total(space) - tx.gas * tx.price - Sunk(vm, w, tx, space)
    ensures Sunk(vm, w, tx, space) >= 0
    ensures Run(vm, paid, tx).gas <= tx.gas - ExactIntrinsicGas(tx.data, tx.create)
  {
    CreditTotal(w, tx.sender, -(tx.gas * tx.price), space);
    BumpTotal(paid, tx.sender, space);
  }

  lemma ConserveSettlement(w: World, tx: Tx, coinbase: Address, used: nat, space: nat)
    requires used <= tx.gas && tx.sender < space && coinbase < space
    ensures w.Credit(tx.sender, (tx.gas - used) * tx.price).Credit(coinbase, used * tx.price).Total(space)
         == w.Total(space) + tx.gas * tx.price
  {
    CreditTotal(w, tx.sender, (tx.gas - used) * tx.price, space);
    CreditTotal(w.Credit(tx.sender, (tx.gas - used) * tx.price), coinbase, used * tx.price, space);
    Distribute(tx.gas - used, used, tx.price);
  }

  lemma Distribute(a: int, b: int, p: int)
    ensures a * p + b * p == (a + b) * p
  {
  }

  /** At least half of the gas the message must bring is used up. */
  lemma UsedAtLeast(vm: Machine, w: World, tx: Tx, coinbase: Address, after: World, used: nat, failed: bool, space: nat)
    requires Honest(vm, space) && tx.sender < space && Applied(vm, w, tx, coinbase, after, used, failed)
    ensures 2 * used >= ExactIntrinsicGas(tx.data, tx.create)
  {
    ConserveRun(vm, w, Paid(w, tx), tx, space);
  }
}
