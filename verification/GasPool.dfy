/**
 The gas available to the transactions of a block, and the gas a transaction owes before it runs.
 */
module GasPool {

  import opened Machine

  const MAX64: nat := TWO64 - 1

  class Pool {
    var gas: nat

    constructor ()
      ensures gas == 0
    {
      gas := 0;
    }

    /** Makes gas available; pushing the pool above 64 bits is a fault of the caller. */
    method AddGas(amount: nat)
      requires gas + amount <= MAX64
      modifies this
      ensures gas == old(gas) + amount
    {
      gas := gas + amount;
    }

    /** Deducts gas if enough is available. */
    method SubGas(amount: nat) returns (ok: bool)
      modifies this
      ensures ok <==> amount <= old(gas)
      ensures gas == if ok then old(gas) - amount else old(gas)
    {
      if gas < amount {
        return false;
      }
      gas := gas - amount;
      return true;
    }
  }

  // ---------- intrinsic gas ----------

  const TX_GAS: nat := 21000
  const TX_GAS_CREATION: nat := 53000
  const DATA_NONZERO_GAS: nat := 16
  const DATA_ZERO_GAS: nat := 4

  function NonZero(data: seq<nat>): nat {
    if data == [] then 0 else NonZero(data[..|data| - 1]) + if data[|data| - 1] != 0 then 1 else 0
  }

  lemma {:induction false} NonZeroBound(data: seq<nat>)
    ensures NonZero(data) <= |data|
  {
    if data != [] { NonZeroBound(data[..|data| - 1]); }
  }

  /** What a message owes for its existence and its data. */
  function IntrinsicCost(data: seq<nat>, creates: bool): nat {
    NonZeroBound(data);
    (if creates then TX_GAS_CREATION else TX_GAS)
    + NonZero(data) * DATA_NONZERO_GAS + (|data| - NonZero(data)) * DATA_ZERO_GAS
  }

  /** Computes the intrinsic gas; fails exactly if it does not fit into 64 bits. */
  method IntrinsicGas(data: seq<nat>, creates: bool) returns (gas: nat, ok: bool)
    ensures ok <==> IntrinsicCost(data, creates) <= MAX64
    ensures ok ==> gas == IntrinsicCost(data, creates)
  {
    gas := if creates then TX_GAS_CREATION else TX_GAS;
    ok := true;
    if |data| > 0 {
      // Zero and non-zero bytes are priced differently
      var nz := 0;
      for i := 0 to |data|
        invariant nz == NonZero(data[..i])
      {
        assert data[..i + 1][..i] == data[..i];
        if data[i] != 0 {
          nz := nz + 1;
        }
      }
      assert data[..|data|] == data;
      NonZeroBound(data);
      // Make sure we don't exceed 64 bits for all data combinations
      if (MAX64 - gas) / DATA_NONZERO_GAS < nz {
        return 0, false;
      }
      gas := gas + nz * DATA_NONZERO_GAS;
      var z := |data| - nz;
      if (MAX64 - gas) / DATA_ZERO_GAS < z {
        return 0, false;
      }
      gas := gas + z * DATA_ZERO_GAS;
    }
  }

  /** What each byte of data costs, added up from the front. */
  function ByteCosts(data: seq<nat>): nat {
    if data == [] then 0 else (if data[0] == 0 then 4 else 16) + ByteCosts(data[1..])
  }

  lemma {:induction false} ByteCostsAppend(data: seq<nat>, x: nat)
    ensures ByteCosts(data + [x]) == ByteCosts(data) + if x == 0 then 4 else 16
  {
    if data == [] {
      assert [x][1..] == [];
    } else {
      assert (data + [x])[1..] == data[1..] + [x];
      ByteCostsAppend(data[1..], x);
    }
  }

  /** The intrinsic cost is a fixed cost and that of every byte, 4 for a zero and 16 for any other. */
  lemma {:induction false} CostByByte(data: seq<nat>, creates: bool)
    ensures IntrinsicCost(data, creates) == (if creates then 53000 else 21000) + ByteCosts(data)
    decreases |data|
  {
    if data != [] {
      var n := |data| - 1;
      CostByByte(data[..n], creates);
      ByteCostsAppend(data[..n], data[n]);
      assert data[..n] + [data[n]] == data;
    }
  }
}
