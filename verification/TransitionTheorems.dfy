/** What one state transition guarantees about gas: bounds on every exit, and exactly
    how much of the block's gas each exit keeps. */
module TransitionTheorems {
  import opened Common
  import opened Ledger
  import opened Transition

  /** The virtual machine returns no more gas than it was given. */
  ghost predicate GasHonest(evm: Evm) {
    forall s: State, g: uint64, b: bool :: evm(s, g, b).gasLeft <= g
  }

  // ----- gas bounds -----

  /** Until settlement the gas counters and the pool stay in step. */
  ghost predicate Drawn(msg: Message, m0: Machine, m: Machine) {
    m.initialGas == msg.gas && m.gasRemaining <= msg.gas && m.poolGas == m0.poolGas - msg.gas
  }

  lemma PurchaseGas(env: Env, msg: Message, opts: Options, fault: Fault, m: Machine)
    requires m.gasRemaining == m.initialGas == 0
    ensures var (m1, exit) := PreCheck(env, msg, opts.gasBailout, fault, m);
            && m1.poolBlobGas <= m.poolBlobGas
            && (exit == Proceed ==>
                 && Drawn(msg, m, m1) && m1.gasRemaining == msg.gas
                 && m1.poolBlobGas == m.poolBlobGas - if env.rules.cancun then msg.blobGas else 0)
            && (exit != Proceed ==> m1.poolGas == m.poolGas && m1.gasRemaining == m1.initialGas == 0)
  {
  }

  lemma PrepareGas(env: Env, msg: Message, opts: Options, intr: Intrinsic, fault: Fault, m0: Machine, m: Machine)
    requires Drawn(msg, m0, m) && m.gasRemaining == msg.gas
    ensures var (m1, exit) := Prepare(env, msg, opts, intr, fault, m);
            && Drawn(msg, m0, m1) && m1.poolBlobGas == m.poolBlobGas
            && (exit == Proceed ==> intr.gas <= msg.gas && intr.floor <= msg.gas && m1.gasRemaining == msg.gas - intr.gas)
  {
  }

  /** The charge never exceeds what was bought, honours the floor, and the refund
      is at most the capped share of the gas used. */
  lemma ChargeBounds(env: Env, opts: Options, intr: Intrinsic, m: Machine)
    requires m.gasRemaining <= m.initialGas
    requires intr.floor <= m.initialGas
    ensures var used := m.initialGas - m.gasRemaining;
            var charged := ChargedGas(env, opts, intr, m);
            && charged <= m.initialGas
            && (env.rules.prague ==> intr.floor <= charged)
            && used - used / Quotient(env) <= charged <= Max(used, intr.floor)
            && (!env.rules.prague ==> charged <= used)
  {
  }

  /** Settlement returns exactly the unused gas to the pool, or none of it. */
  lemma SettleGas(env: Env, msg: Message, opts: Options, intr: Intrinsic, fault: Fault, m0: Machine, m: Machine)
    requires Drawn(msg, m0, m) && intr.floor <= msg.gas
    ensures var (m1, e1) := RefundGas(env, msg, opts, intr, fault, m);
            var (m2, e2) := if e1 == Proceed then PayFees(env, msg, opts, fault, m1) else (m1, e1);
            && m2.initialGas == msg.gas && m2.gasRemaining <= msg.gas && m2.poolBlobGas == m.poolBlobGas
            && m2.poolGas <= m0.poolGas - GasUsed(m2)
            && (e2 == Proceed ==>
                 && (env.rules.prague ==> intr.floor <= GasUsed(m2))
                 && m2.poolGas == m0.poolGas - if opts.refunds && !opts.gasBailout then GasUsed(m2) else msg.gas)
  {
    ChargeBounds(env, opts, intr, m);
  }

  /** The same for all phases together, before a panic is recovered. */
  lemma PhasesGas(env: Env, msg: Message, opts: Options, intr: Intrinsic, evm: Evm, fault: Fault, m: Machine)
    requires GasHonest(evm)
    requires m.gasRemaining == m.initialGas == 0
    ensures var (m', exit) := Phases(env, msg, opts, intr, evm, fault, m);
            && m'.poolBlobGas <= m.poolBlobGas
            && m'.gasRemaining <= m'.initialGas <= msg.gas
            && m'.poolGas <= m.poolGas - GasUsed(m')
            && (exit == Proceed ==>
                 && m'.initialGas == msg.gas
                 && (env.rules.prague ==> intr.floor <= GasUsed(m'))
                 && m'.poolGas == m.poolGas - (if opts.refunds && !opts.gasBailout then GasUsed(m') else msg.gas)
                 && m'.poolBlobGas == m.poolBlobGas - if env.rules.cancun then msg.blobGas else 0)
  {
    hide PreCheck, Prepare, RefundGas, PayFees;
    PurchaseGas(env, msg, opts, fault, m);
    var (m1, e1) := PreCheck(env, msg, opts.gasBailout, fault, m);
    if e1 == Proceed {
      PrepareGas(env, msg, opts, intr, fault, m, m1);
      var (m2, e2) := Prepare(env, msg, opts, intr, fault, m1);
      if e2 == Proceed {
        var (m3, e3) := Execute(msg, opts, evm, fault, m2);
        SettleGas(env, msg, opts, intr, fault, m, m3);
      }
    }
  }

  /** Gas on every exit.  Executed: the gas used lies between the floor and the
      message's gas, and with refunds on the pool is down by exactly the gas used.
      Rejected, aborted or crashed, at any point: the pool is never above where it
      began, so returning gas to it cannot overflow 64 bits. */
  lemma GasOnEveryExit(env: Env, msg: Message, opts: Options, intr: Intrinsic, evm: Evm, fault: Fault, m: Machine)
    requires GasHonest(evm)
    requires m.gasRemaining == m.initialGas == 0
    ensures var (m', out) := TransitionDb(env, msg, opts, intr, evm, fault, m);
            && m'.poolGas <= m.poolGas && m'.poolBlobGas <= m.poolBlobGas
            && (out.Executed? ==>
                 && out.result.gasUsed <= msg.gas
                 && (env.rules.prague ==> intr.floor <= out.result.gasUsed)
                 && m'.poolGas == m.poolGas - (if opts.refunds && !opts.gasBailout then out.result.gasUsed else msg.gas)
                 && m'.poolBlobGas == m.poolBlobGas - if env.rules.cancun then msg.blobGas else 0)
  {
    hide Phases;
    PhasesGas(env, msg, opts, intr, evm, fault, m);
  }

  // ----- what each exit keeps -----

  /** How far a run gets: gas not bought, bought, entered the virtual machine, settled. */
  datatype Stage = Unbought | Bought | Ran | Settled

  predicate Starts(opts: Options, fault: Fault) {
    At(fault, SenderBalance) == Proceed && (opts.noFeeBurnAndTip || At(fault, CoinbaseBalance) == Proceed)
  }

  function StageOf(env: Env, msg: Message, opts: Options, intr: Intrinsic, fault: Fault, m: Machine): Stage {
    var (m1, e1) := PreCheck(env, msg, opts.gasBailout, fault, m);
    if !Starts(opts, fault) || e1 != Proceed then Unbought
    else if Prepare(env, msg, opts, intr, fault, m1).1 != Proceed then Bought
    else if Panics(fault, EvmRun) || (opts.refunds && !opts.gasBailout && Panics(fault, RefundCredit)) then Ran
    else Settled
  }

  /** The gas a run that got so far has not given back. */
  function Kept(msg: Message, opts: Options, stage: Stage, used: nat): nat {
    match stage
    case Unbought => 0
    case Settled => if opts.refunds && !opts.gasBailout then used else msg.gas
    case _ => msg.gas
  }

  /** The guards a run passes before it draws blob gas; nothing gives it back. */
  predicate DrawsBlobGas(env: Env, msg: Message, opts: Options, fault: Fault, m: Machine) {
    && env.rules.cancun && env.blobBaseFee.Some? && Starts(opts, fault)
    && CheckNonce(msg, fault, m.state) == Proceed && CheckPrices(env, msg) == Proceed
    && msg.gas * msg.gasPrice < TWO_256 && BlobCost(env, msg) < TWO_256 && msg.blobGas <= m.poolBlobGas
  }

  lemma PurchaseBlobGas(env: Env, msg: Message, opts: Options, fault: Fault, m: Machine)
    requires Starts(opts, fault)
    ensures PreCheck(env, msg, opts.gasBailout, fault, m).0.poolBlobGas
         == m.poolBlobGas - if DrawsBlobGas(env, msg, opts, fault, m) then msg.blobGas else 0
  {
    hide Charge, CheckNonce, CheckPrices, RequiredBalance, BlobCost;
  }

  /** Before a panic is recovered. */
  lemma PhasesKeep(env: Env, msg: Message, opts: Options, intr: Intrinsic, evm: Evm, fault: Fault, m: Machine)
    requires GasHonest(evm)
    requires m.gasRemaining == m.initialGas == 0
    ensures var m' := Phases(env, msg, opts, intr, evm, fault, m).0;
            var stage := StageOf(env, msg, opts, intr, fault, m);
            && m'.poolGas == m.poolGas - Kept(msg, opts, stage, GasUsed(m'))
            && (stage == Unbought ==> GasUsed(m') == 0)
            && (stage != Unbought ==> m'.initialGas == msg.gas && m'.gasRemaining <= msg.gas)
            && m'.poolBlobGas == m.poolBlobGas - if DrawsBlobGas(env, msg, opts, fault, m) then msg.blobGas else 0
  {
    hide PreCheck, Prepare, DrawsBlobGas;
    if !Starts(opts, fault) { StartsFirst(env, msg, opts, fault, m); return; }
    PurchaseGas(env, msg, opts, fault, m);
    PurchaseBlobGas(env, msg, opts, fault, m);
    var (m1, e1) := PreCheck(env, msg, opts.gasBailout, fault, m);
    if e1 == Proceed {
      PrepareGas(env, msg, opts, intr, fault, m, m1);
      var (m2, e2) := Prepare(env, msg, opts, intr, fault, m1);
      if e2 == Proceed {
        var (m3, e3) := Execute(msg, opts, evm, fault, m2);
        SettlementKeeps(env, msg, opts, intr, fault, m, m3);
      }
    }
  }

  lemma StartsFirst(env: Env, msg: Message, opts: Options, fault: Fault, m: Machine)
    requires !Starts(opts, fault)
    ensures !DrawsBlobGas(env, msg, opts, fault, m)
  {
  }

  lemma SettlementKeeps(env: Env, msg: Message, opts: Options, intr: Intrinsic, fault: Fault, m0: Machine, m: Machine)
    requires Drawn(msg, m0, m) && intr.floor <= msg.gas
    ensures var (m1, e1) := RefundGas(env, msg, opts, intr, fault, m);
            var (m2, e2) := if e1 == Proceed then PayFees(env, msg, opts, fault, m1) else (m1, e1);
            var settles := !(opts.refunds && !opts.gasBailout && Panics(fault, RefundCredit));
            && m2.poolGas == m0.poolGas - Kept(msg, opts, if settles then Settled else Ran, GasUsed(m2))
            && m2.initialGas == msg.gas && m2.gasRemaining <= msg.gas && m2.poolBlobGas == m.poolBlobGas
  {
    ChargeBounds(env, opts, intr, m);
  }

  /** Exactly what each exit keeps of the block's gas, wherever a fault strikes.  A run
      that did not buy its gas keeps none; one that did keeps all of it until it is
      settled and then what it used; a recovered panic gives back what counts as used.
      Blob gas once drawn is kept. */
  lemma PoolOnEveryExit(env: Env, msg: Message, opts: Options, intr: Intrinsic, evm: Evm, fault: Fault, m: Machine)
    requires GasHonest(evm)
    requires m.gasRemaining == m.initialGas == 0
    ensures var (m', out) := TransitionDb(env, msg, opts, intr, evm, fault, m);
            var stage := StageOf(env, msg, opts, intr, fault, m);
            && m'.poolGas == m.poolGas - Kept(msg, opts, stage, GasUsed(m')) + (if out.Aborted? then GasUsed(m') else 0)
            && (out.Aborted? && (stage.Bought? || stage.Ran?) ==> m'.poolGas == m.poolGas - m'.gasRemaining)
            && m'.poolBlobGas == m.poolBlobGas - if DrawsBlobGas(env, msg, opts, fault, m) then msg.blobGas else 0
  {
    hide Phases, StageOf, DrawsBlobGas;
    PhasesKeep(env, msg, opts, intr, evm, fault, m);
  }

  /** Without faults a rejected message has kept its gas exactly if it had bought it. */
  lemma RejectionKeeps(env: Env, msg: Message, opts: Options, intr: Intrinsic, evm: Evm, m: Machine)
    requires GasHonest(evm)
    requires m.gasRemaining == m.initialGas == 0
    ensures var (m', out) := TransitionDb(env, msg, opts, intr, evm, NO_FAULT, m);
            out.Rejected? ==>
              m'.poolGas == m.poolGas - if PreCheck(env, msg, opts.gasBailout, NO_FAULT, m).1 == Proceed then msg.gas else 0
  {
    hide PreCheck, Prepare, DrawsBlobGas;
    PoolOnEveryExit(env, msg, opts, intr, evm, NO_FAULT, m);
  }
}
