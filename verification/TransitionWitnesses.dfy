/** Single messages on which a transition does less than one might expect.  Each shows
    that a term of the exact accounts in `TransitionTheorems` or `ValueTheorems` is
    really met. */
module TransitionWitnesses {
  import opened Common
  import opened Ledger
  import opened GasPools
  import opened Transition
  import opened ValueTheorems

  const SENDER: Address := 7
  const BURNT: Address := 9

  const LONDON: Rules := Rules(true, false, false, false, false, false)

  /** London with base fee 1 and a burnt contract; nothing pays the coinbase, address 0. */
  const ENV: Env := Env(LONDON, false, 0, 1, None, Some(BURNT), 1, false)

  const VERSIONED: Env := ENV.(versioned := true)

  /** Ten gas at price one to some contract. */
  const MSG: Message := Message(SENDER, Some(3), 1, 1, 0, 10, 0, 0, 0, 0, true, 0, [], false)

  const FREE: Intrinsic := Intrinsic(0, 0, false)

  /** A sender who can pay just that. */
  const FUNDED: State := State(map[SENDER := Account(10, 0, NoCode)], 0)

  /** A machine that does nothing at no cost. */
  const IDLE: Evm := (s: State, g: uint64, b: bool) => EvmOutcome(s, g, false)

  const REFUND_REFUSED: Fault := Fault({RefundCredit}, NoStop)
  const DEBIT_REFUSED: Fault := Fault({GasDebit}, NoStop)

  /** Where the message stands when the machine is entered, on a versioned state. */
  lemma Entered(fault: Fault)
    requires fault == REFUND_REFUSED || fault == DEBIT_REFUSED
    ensures var (m1, e1) := PreCheck(VERSIONED, MSG, false, fault, Start(FUNDED, 100, 0));
            && e1 == Proceed && m1.gasRemaining == m1.initialGas == 10
            && Balance(m1.state.accounts, SENDER) == if fault == DEBIT_REFUSED then 10 else 0
  {
  }

  lemma Prepared(fault: Fault, m: Machine)
    requires fault == REFUND_REFUSED || fault == DEBIT_REFUSED
    requires m.gasRemaining == m.initialGas == 10
    ensures var (m1, e1) := Prepare(VERSIONED, MSG, DIRECT, FREE, fault, m);
            && e1 == Proceed && m1.gasRemaining == m1.initialGas == 10
            && Balance(m1.state.accounts, SENDER) == Balance(m.state.accounts, SENDER)
  {
  }

  /** Nothing is used, so the fees are nothing and the refund is all. */
  lemma Idled(fault: Fault)
    requires fault == REFUND_REFUSED || fault == DEBIT_REFUSED
    ensures var (m, out) := TransitionDb(VERSIONED, MSG, DIRECT, FREE, IDLE, fault, Start(FUNDED, 100, 0));
            && out.Executed? && out.result.gasUsed == 0
            && Balance(m.state.accounts, SENDER) == if fault == DEBIT_REFUSED then 20 else 0
  {
    hide PreCheck, Prepare, EvmFailed;
    Entered(fault);
    var m1 := PreCheck(VERSIONED, MSG, false, fault, Start(FUNDED, 100, 0)).0;
    Prepared(fault, m1);
  }

  /** A store that refuses the refund alone: no gas is used, and the sender has lost
      everything.  A store that keeps loaded accounts does not do this. */
  lemma RefundIsLost()
    ensures var (m, out) := TransitionDb(VERSIONED, MSG, DIRECT, FREE, IDLE, REFUND_REFUSED, Start(FUNDED, 100, 0));
            && out.Executed? && out.result.gasUsed == 0
            && Balance(m.state.accounts, SENDER) == 0
            && Drift(VERSIONED, MSG, REFUND_REFUSED, 0, out.result.feeBurnt) == -10
            && !KeepsSender(MSG, REFUND_REFUSED)
  {
    hide TransitionDb;
    Idled(REFUND_REFUSED);
  }

  /** A store that refuses the debit of the gas: the refund pays the sender for nothing. */
  lemma DebitIsSkipped()
    ensures var (m, out) := TransitionDb(VERSIONED, MSG, DIRECT, FREE, IDLE, DEBIT_REFUSED, Start(FUNDED, 100, 0));
            && out.Executed? && out.result.gasUsed == 0
            && Balance(m.state.accounts, SENDER) == 20
            && Drift(VERSIONED, MSG, DEBIT_REFUSED, 0, out.result.feeBurnt) == 10
            && KeepsSender(MSG, DEBIT_REFUSED)
  {
    hide TransitionDb;
    Idled(DEBIT_REFUSED);
  }

  /** Intrinsic gas above the message's gas: rejected, with the gas and its price kept. */
  lemma RejectionIsNotUndone(checkNonce: bool)
    ensures var (m, out) := TransitionDb(ENV, MSG.(checkNonce := checkNonce), DIRECT, Intrinsic(11, 0, false), IDLE, NO_FAULT,
                                         Start(FUNDED, 100, 0));
            && out == Rejected(IntrinsicGasTooHigh)
            && m.poolGas == 90 && Balance(m.state.accounts, SENDER) == 0
  {
    var m1 := PreCheck(ENV, MSG.(checkNonce := checkNonce), false, NO_FAULT, Start(FUNDED, 100, 0)).0;
    assert Balance(m1.state.accounts, SENDER) == 0 && m1.gasRemaining == m1.initialGas == 10 && m1.poolGas == 90;
  }

  /** A block with too little gas left: refused, with the price kept and the gas not. */
  lemma RefusalIsCharged()
    ensures var (m, out) := TransitionDb(ENV, MSG, DIRECT, FREE, IDLE, NO_FAULT, Start(FUNDED, 5, 0));
            && out == Rejected(PoolExhausted(GasLimitReached))
            && m.poolGas == 5 && Balance(m.state.accounts, SENDER) == 0
  {
    var m1 := PreCheck(ENV, MSG, false, NO_FAULT, Start(FUNDED, 5, 0)).0;
    assert Balance(m1.state.accounts, SENDER) == 0;
  }

  /** One blob at price five for a message that offers nothing for it, with the blob-price
      check off: the purchase goes through, and a sender who has nothing is left with
      almost 2^256. */
  lemma BlobDebitWraps()
    ensures var env := ENV.(rules := LONDON.(cancun := true), noBaseFee := true, baseFee := 0, blobBaseFee := Some(5));
            var msg := MSG.(gasPrice := 0, feeCap := 0, blobGas := 1);
            var (m, exit) := PreCheck(env, msg, false, NO_FAULT, Start(State(map[], 0), 100, 1));
            && ContextOf(env, msg) == env && BlobPriceUnchecked(env, msg) && exit == Proceed
            && Balance(m.state.accounts, SENDER) == TWO_256 - 5
  {
  }
}
