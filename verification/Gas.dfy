/** Gas a transaction must bring before any of it runs (core/state_transition.go). */
module Gas {
  import opened Types

  const MAX_UINT64: nat := 0xFFFF_FFFF_FFFF_FFFF
  const TX_GAS: nat := 21000
  const TX_GAS_CONTRACT_CREATION: nat := 53000
  const TX_DATA_ZERO_GAS: nat := 4
  const TX_DATA_NON_ZERO_GAS: nat := 68

  function NonZero(data: seq<byte>): (n: nat)
    ensures n <= |data|
  {
    if data == [] then 0
    else NonZero(data[..|data| - 1]) + (if data[|data| - 1] != 0 then 1 else 0)
  }

  /** The price of the payload, with no bound on the arithmetic. */
  function ExactIntrinsicGas(data: seq<byte>, create: bool): nat {
    (if create then TX_GAS_CONTRACT_CREATION else TX_GAS)
    + TX_DATA_NON_ZERO_GAS * NonZero(data) + TX_DATA_ZERO_GAS * (|data| - NonZero(data))
  }

  function IntrinsicGas(data: seq<byte>, create: bool): Option<nat> {
    if ExactIntrinsicGas(data, create) > MAX_UINT64 then None else Some(ExactIntrinsicGas(data, create))
  }

  /** A transfer costs 21000 and a contract creation 53000, and each byte of the payload 4 more if it is zero and
      68 more if it is not. The price is refused exactly when it exceeds 64 bits. */
  lemma IntrinsicGasTable(data: seq<byte>, b: byte, create: bool)
    ensures ExactIntrinsicGas([], false) == 21000 && ExactIntrinsicGas([], true) == 53000
    ensures ExactIntrinsicGas(data + [b], create) == ExactIntrinsicGas(data, create) + if b == 0 then 4 else 68
    ensures IntrinsicGas(data, create).Some? <==> ExactIntrinsicGas(data, create) <= 0xFFFF_FFFF_FFFF_FFFF
    ensures IntrinsicGas(data, create).Some? ==> IntrinsicGas(data, create).value == ExactIntrinsicGas(data, create)
  {
    assert (data + [b])[..|data|] == data;
  }

  /** The 64-bit computation reports overflow exactly when the exact price does not fit. */
  method ComputeIntrinsicGas(data: seq<byte>, create: bool) returns (r: Option<nat>)
    ensures r == IntrinsicGas(data, create)
  {
    var gas := if create then TX_GAS_CONTRACT_CREATION else TX_GAS;
    if |data| > 0 {
      var nz := 0;
      for i := 0 to |data|
        invariant nz == NonZero(data[..i])
      {
        assert data[..i + 1][..i] == data[..i];
        if data[i] != 0 { nz := nz + 1; }
      }
      assert data[..|data|] == data;
      if (MAX_UINT64 - gas) / TX_DATA_NON_ZERO_GAS < nz { return None; }
      gas := gas + nz * TX_DATA_NON_ZERO_GAS;
      var z := |data| - nz;
      if (MAX_UINT64 - gas) / TX_DATA_ZERO_GAS < z { return None; }
      gas := gas + z * TX_DATA_ZERO_GAS;
    }
    r := Some(gas);
  }
}
