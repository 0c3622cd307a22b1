/** The block's gas counter, shared by every transaction of the block. */
module GasPools {
  import opened Common

  datatype PoolError = GasLimitReached | BlobGasLimitReached

  class GasPool {
    var gas: uint64
    var blobGas: uint64

    constructor (gas: uint64, blobGas: uint64)
      ensures this.gas == gas && this.blobGas == blobGas
    {
      this.gas, this.blobGas := gas, blobGas;
    }

    /** The source panics when the pool would pass 64 bits; here that is a
        precondition, so every verified call site shows the panic unreachable. */
    method AddGas(amount: uint64)
      requires gas + amount <= MAX_U64
      modifies this`gas
      ensures gas == old(gas) + amount
    {
      gas := Add64(gas, amount);
    }

    method SubGas(amount: uint64) returns (err: Option<PoolError>)
      modifies this`gas
      ensures err == if old(gas) < amount then Some(GasLimitReached) else None
      ensures gas == if err.Some? then old(gas) else old(gas) - amount
    {
      if gas < amount {
        return Some(GasLimitReached);
      }
      gas := Sub64(gas, amount);
      return None;
    }

    method AddBlobGas(amount: uint64)
      requires blobGas + amount <= MAX_U64
      modifies this`blobGas
      ensures blobGas == old(blobGas) + amount
    {
      blobGas := Add64(blobGas, amount);
    }

    method SubBlobGas(amount: uint64) returns (err: Option<PoolError>)
      modifies this`blobGas
      ensures err == if old(blobGas) < amount then Some(BlobGasLimitReached) else None
      ensures blobGas == if err.Some? then old(blobGas) else old(blobGas) - amount
    {
      if blobGas < amount {
        return Some(BlobGasLimitReached);
      }
      blobGas := Sub64(blobGas, amount);
      return None;
    }
  }
}
