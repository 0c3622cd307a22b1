/** The state transition of one message as a function of values.

    Every branch of the transition is here: price checks, gas purchase, the
    intrinsic-gas and authorization steps, execution, refund, tip and burn, and
    the exits taken on a store error or on a panic.  Arithmetic is the machine's
    (64- and 256-bit, wrapping).  What the transition promises is proved in
    `TransitionTheorems`; the imperative form is in `StateTransitions`. */
module Transition {
  import opened Common
  import opened Ledger
  import opened GasPools
  import opened Authorizations

  const REFUND_QUOTIENT: uint64 := 2
  const REFUND_QUOTIENT_EIP3529: uint64 := 5
  const MAX_TXN_GAS_LIMIT: uint64 := 16_777_216
  const MAX_INIT_CODE_SIZE: nat := 49152

  datatype Rules = Rules(london: bool, cancun: bool, prague: bool, osaka: bool, aura: bool, eip3860: bool)

  datatype Env = Env(
    rules: Rules, noBaseFee: bool, coinbase: Address, baseFee: uint256, blobBaseFee: Option<uint256>,
    burntContract: Option<Address>, chainId: uint256, versioned: bool)

  datatype Message = Message(
    from: Address, to: Option<Address>, gasPrice: uint256, feeCap: uint256, tipCap: uint256,
    gas: uint64, blobGas: uint64, maxFeePerBlobGas: uint256, value: uint256, nonce: uint64,
    checkNonce: bool, dataLen: nat, auths: seq<Authorization>, isFree: bool)

  /** The context the virtual machine is set up with for a message: where base-fee checks
      are off, a message without price meets no base fee. */
  function ContextOf(env: Env, msg: Message): Env {
    if env.noBaseFee && msg.gasPrice == 0 then env.(baseFee := 0) else env
  }

  datatype Options = Options(refunds: bool, gasBailout: bool, noFeeBurnAndTip: bool)

  /** What the intrinsic-gas table returns for the message. */
  datatype Intrinsic = Intrinsic(gas: uint64, floor: uint64, overflow: bool)

  /** What one run of the virtual machine leaves behind. */
  datatype EvmOutcome = EvmOutcome(state: State, gasLeft: uint64, failed: bool)

  /** The virtual machine: any function of the state, the gas and the bailout flag. */
  type Evm = (State, uint64, bool) -> EvmOutcome

  datatype TxError =
    | InsufficientFunds | InternalFailure | PoolExhausted(pool: PoolError)
    | NonceTooHigh | NonceTooLow | NonceMax | SenderNoEOA
    | TipAboveFeeCap | FeeCapTooLow | MaxFeePerBlobGasTooLow | GasLimitTooHigh
    | GasUintOverflow | IntrinsicGasTooHigh | MaxInitCodeSizeExceeded
    | CreationWithAuthorizations | StoreFailed

  /** The places where the transition touches the store and may be interrupted. */
  datatype Site =
    | SenderBalance | CoinbaseBalance | NonceRead | CodeRead | PurchaseBalance | GasDebit | BlobDebit
    | NonceBump | NonceWrite | AuthorityRead(index: nat) | AuthorityCode(index: nat) | AuthorityNonce(index: nat)
    | TransferCheck | PrepareAccess | EvmRun
    | RefundCredit | TipCredit | BurnCredit

  /** What ends a run: a store error that is returned, or a panic. */
  datatype Stop = NoStop | StoreError(at: Site) | Panic(at: Site)

  /** A store that may refuse any writes whose errors are not looked at, and may then end
      the run at one place. */
  datatype Fault = Fault(refused: set<Site>, stop: Stop)

  const NO_FAULT: Fault := Fault({}, NoStop)

  predicate Refuses(fault: Fault, site: Site) { site in fault.refused }

  predicate Panics(fault: Fault, site: Site) { fault.stop == Panic(site) }

  datatype Exit = Proceed | Fail(err: TxError) | Panicking

  function At(fault: Fault, site: Site): Exit {
    match fault.stop
    case NoStop => Proceed
    case StoreError(s) => if s == site then Fail(StoreFailed) else Proceed
    case Panic(s) => if s == site then Panicking else Proceed
  }

  /** The transition's working state.  The pool counters are unbounded here; that
      they stay within 64 bits is a theorem. */
  datatype Machine = Machine(
    state: State, gasRemaining: uint64, initialGas: uint64, poolGas: nat, poolBlobGas: nat, blobFee: uint256)

  function Start(s: State, poolGas: nat, poolBlobGas: nat): Machine {
    Machine(s, 0, 0, poolGas, poolBlobGas, 0)
  }

  function GasUsed(m: Machine): uint64 {
    Sub64(m.initialGas, m.gasRemaining)
  }

  datatype Result = Result(
    gasUsed: uint64, failed: bool, senderInitBalance: uint256, coinbaseInitBalance: uint256,
    feeTipped: uint256, feeBurnt: uint256, burntContract: Address, evmRefund: uint64)

  datatype Outcome = Executed(result: Result) | Rejected(err: TxError) | Aborted | Crashed

  function Min(x: int, y: int): int { if x < y then x else y }

  function Max(x: int, y: int): int { if x < y then y else x }

  // ----- checks and gas purchase -----

  function CheckFeeCap(feeCap: uint256, tipCap: uint256, baseFee: uint256, isFree: bool): Exit {
    if feeCap < tipCap then Fail(TipAboveFeeCap)
    else if feeCap < baseFee && !isFree then Fail(FeeCapTooLow)
    else Proceed
  }

  function CheckNonce(msg: Message, fault: Fault, s: State): Exit {
    var acc := Get(s.accounts, msg.from);
    if !msg.checkNonce then Proceed
    else if At(fault, NonceRead) != Proceed then At(fault, NonceRead)
    else if acc.nonce < msg.nonce then Fail(NonceTooHigh)
    else if acc.nonce > msg.nonce then Fail(NonceTooLow)
    else if acc.nonce == MAX_U64 then Fail(NonceMax)
    else if At(fault, CodeRead) != Proceed then At(fault, CodeRead)
    else if acc.code.Contract? then Fail(SenderNoEOA)
    else Proceed
  }

  /** The base-fee check is skipped for zero-priced calls when it was disabled. */
  predicate SkipsFeeCheck(env: Env, msg: Message) {
    env.noBaseFee && msg.feeCap == 0 && msg.tipCap == 0
  }

  function CheckPrices(env: Env, msg: Message): Exit {
    if env.rules.london && !SkipsFeeCheck(env, msg)
       && CheckFeeCap(msg.feeCap, msg.tipCap, env.baseFee, msg.isFree) != Proceed then
      CheckFeeCap(msg.feeCap, msg.tipCap, env.baseFee, msg.isFree)
    else if msg.blobGas > 0 && env.rules.cancun && env.blobBaseFee.None? then Fail(InternalFailure)
    else if msg.blobGas > 0 && env.rules.cancun && !env.noBaseFee
            && env.blobBaseFee.value > msg.maxFeePerBlobGas then Fail(MaxFeePerBlobGasTooLow)
    else if env.rules.osaka && msg.gas > MAX_TXN_GAS_LIMIT then Fail(GasLimitTooHigh)
    else Proceed
  }

  /** What the purchase charges for blobs. */
  function BlobCost(env: Env, msg: Message): nat {
    if env.rules.cancun && env.blobBaseFee.Some? then env.blobBaseFee.value * msg.blobGas else 0
  }

  /** The balance the sender must show before buying gas. */
  function RequiredBalance(env: Env, msg: Message): nat {
    msg.gas * msg.feeCap + msg.value + if env.rules.cancun then msg.maxFeePerBlobGas * msg.blobGas else 0
  }

  function BuyGas(env: Env, msg: Message, gasBailout: bool, fault: Fault, m: Machine): (Machine, Exit) {
    if msg.gas * msg.gasPrice >= TWO_256 then (m, Fail(InsufficientFunds))
    else if env.rules.cancun && env.blobBaseFee.None? then (m, Fail(InternalFailure))
    else if BlobCost(env, msg) >= TWO_256 then (m, Fail(InsufficientFunds))
    else if env.rules.cancun && m.poolBlobGas < msg.blobGas then (m, Fail(PoolExhausted(BlobGasLimitReached)))
    else
      var m1 := if env.rules.cancun then m.(poolBlobGas := m.poolBlobGas - msg.blobGas) else m;
      if gasBailout then TakeGas(msg, BlobCost(env, msg), m1)
      else if RequiredBalance(env, msg) >= TWO_256 then (m1, Fail(InsufficientFunds))
      else if At(fault, PurchaseBalance) != Proceed then (m1, At(fault, PurchaseBalance))
      else if Balance(m1.state.accounts, msg.from) < RequiredBalance(env, msg) then (m1, Fail(InsufficientFunds))
      else
        var (paid, exit) := Charge(msg, BlobCost(env, msg), fault, m1.state.accounts);
        var m2 := m1.(state := m1.state.(accounts := paid));
        if exit != Proceed then (m2, exit) else TakeGas(msg, BlobCost(env, msg), m2)
  }

  /** The two debits; the error of a debit that fails is not looked at. */
  function Charge(msg: Message, blobCost: uint256, fault: Fault, accounts: Accounts): (Accounts, Exit)
    requires msg.gas * msg.gasPrice < TWO_256
  {
    if Panics(fault, GasDebit) then (accounts, Panicking)
    else
      var a1 := if Refuses(fault, GasDebit) then accounts
        else SubBalance(accounts, msg.from, msg.gas * msg.gasPrice);
      if Panics(fault, BlobDebit) then (a1, Panicking)
      else (if Refuses(fault, BlobDebit) then a1 else SubBalance(a1, msg.from, blobCost), Proceed)
  }

  /** Draws the gas from the block; a purchase already charged is not undone here. */
  function TakeGas(msg: Message, blobFee: uint256, m: Machine): (Machine, Exit) {
    if m.poolGas < msg.gas then (m, Fail(PoolExhausted(GasLimitReached)))
    else (m.(poolGas := m.poolGas - msg.gas, gasRemaining := Add64(m.gasRemaining, msg.gas),
             initialGas := msg.gas, blobFee := blobFee), Proceed)
  }

  function PreCheck(env: Env, msg: Message, gasBailout: bool, fault: Fault, m: Machine): (Machine, Exit) {
    if CheckNonce(msg, fault, m.state) != Proceed then (m, CheckNonce(msg, fault, m.state))
    else if CheckPrices(env, msg) != Proceed then (m, CheckPrices(env, msg))
    else BuyGas(env, msg, gasBailout, fault, m)
  }

  // ----- between purchase and execution -----

  /** The error of a nonce that cannot be written is not looked at either. */
  function BumpNonce(msg: Message, fault: Fault, s: State): State {
    var acc := Get(s.accounts, msg.from);
    if msg.to.None? || Refuses(fault, NonceWrite) then s
    else s.(accounts := s.accounts[msg.from := acc.(nonce := Add64(acc.nonce, 1))])
  }

  /** Whether the fault lies in an authorization that gets as far as it: a read if the
      signer is recovered, a write if the authorization is accepted. */
  predicate AuthFault(chainId: uint256, msg: Message, fault: Fault, s: State) {
    && !fault.stop.NoStop? && (fault.stop.at.AuthorityRead? || fault.stop.at.AuthorityCode? || fault.stop.at.AuthorityNonce?)
    && fault.stop.at.index < |msg.auths|
    && (if fault.stop.at.AuthorityRead? then Recovered(chainId, msg.auths[fault.stop.at.index])
        else Accepts(chainId, After(chainId, s, msg.auths, fault.stop.at.index), msg.auths[fault.stop.at.index]))
  }

  /** What was written of an authorization when the store gave out. */
  function Interrupted(at: Site, auth: Authorization, s: State): State
    requires at.AuthorityRead? || Recover(auth).Some?
  {
    match at
    case AuthorityCode(_) => Refunded(s, Recover(auth).value)
    case AuthorityNonce(_) => Designate(Refunded(s, Recover(auth).value), auth, Recover(auth).value)
    case _ => s
  }

  function ApplyAuthorizations(env: Env, msg: Message, fault: Fault, s: State): (State, Exit) {
    if |msg.auths| > 0 && msg.to.None? then (s, Fail(CreationWithAuthorizations))
    else if AuthFault(env.chainId, msg, fault, s) then
      var i := fault.stop.at.index;
      (Interrupted(fault.stop.at, msg.auths[i], After(env.chainId, s, msg.auths, i)), At(fault, fault.stop.at))
    else (After(env.chainId, s, msg.auths, |msg.auths|), Proceed)
  }

  /** With bailout on, a value the sender cannot pay is not moved. */
  predicate BailsOut(msg: Message, opts: Options, s: State) {
    opts.gasBailout && msg.value != 0 && Balance(s.accounts, msg.from) < msg.value
  }

  function Prepare(env: Env, msg: Message, opts: Options, intr: Intrinsic, fault: Fault, m: Machine): (Machine, Exit) {
    if msg.to.Some? && At(fault, NonceBump) != Proceed then (m, At(fault, NonceBump))
    else if msg.to.Some? && Panics(fault, NonceWrite) then (m, Panicking)
    else
      var m1 := m.(state := BumpNonce(msg, fault, m.state));
      if intr.overflow then (m1, Fail(GasUintOverflow))
      else if m1.gasRemaining < intr.gas || m1.gasRemaining < intr.floor then (m1, Fail(IntrinsicGasTooHigh))
      else
        var (s2, exit) := ApplyAuthorizations(env, msg, fault, m1.state);
        if exit != Proceed then (m1.(state := s2), exit)
        else
          var m2 := m1.(state := s2, gasRemaining := m1.gasRemaining - intr.gas);
          if opts.gasBailout && At(fault, TransferCheck) != Proceed then (m2, At(fault, TransferCheck))
          else if env.rules.eip3860 && msg.to.None? && msg.dataLen > MAX_INIT_CODE_SIZE then
            (m2, Fail(MaxInitCodeSizeExceeded))
          else (m2, At(fault, PrepareAccess))
  }

  // ----- execution and settlement -----

  /** A panic leaves whatever the machine had made of the state by then. */
  function Execute(msg: Message, opts: Options, evm: Evm, fault: Fault, m: Machine): (Machine, Exit) {
    var out := evm(m.state, m.gasRemaining, BailsOut(msg, opts, m.state));
    if Panics(fault, EvmRun) then (m.(state := out.state), Panicking)
    else (m.(state := out.state, gasRemaining := out.gasLeft), Proceed)
  }

  function Quotient(env: Env): uint64 {
    if env.rules.london then REFUND_QUOTIENT_EIP3529 else REFUND_QUOTIENT
  }

  /** The gas finally charged, after the capped refund and the calldata floor. */
  function ChargedGas(env: Env, opts: Options, intr: Intrinsic, m: Machine): uint64 {
    var used := GasUsed(m);
    var net := if opts.refunds && !opts.gasBailout then used - Min(used / Quotient(env), m.state.refund) else used;
    if env.rules.prague then Max(intr.floor, net) else net
  }

  /** Charging, and returning unused gas to the sender and to the block. */
  function RefundGas(env: Env, msg: Message, opts: Options, intr: Intrinsic, fault: Fault, m: Machine): (Machine, Exit) {
    var m1 := m.(gasRemaining := Sub64(m.initialGas, ChargedGas(env, opts, intr, m)));
    if !opts.refunds || opts.gasBailout then (m1, Proceed)
    else if Panics(fault, RefundCredit) then (m1, Panicking)
    else
      var credited := if Refuses(fault, RefundCredit) then m1.state.accounts
        else AddBalance(m1.state.accounts, msg.from, Mul256(m1.gasRemaining, msg.gasPrice));
      (m1.(state := m1.state.(accounts := credited), poolGas := m1.poolGas + m1.gasRemaining), Proceed)
  }

  function EffectiveTip(env: Env, msg: Message): uint256 {
    if !env.rules.london then msg.gasPrice
    else if msg.feeCap > env.baseFee then Min(msg.tipCap, msg.feeCap - env.baseFee)
    else 0
  }

  predicate Burns(env: Env, msg: Message) {
    !msg.isFree && env.rules.london && env.burntContract.Some?
  }

  function BurnAmount(env: Env, msg: Message, m: Machine): uint256 {
    if !Burns(env, msg) then 0
    else
      var base := Mul256(GasUsed(m), env.baseFee);
      if env.rules.aura && env.rules.prague then Add256(base, m.blobFee) else base
  }

  function TipAmount(env: Env, msg: Message, m: Machine): uint256 {
    Mul256(GasUsed(m), EffectiveTip(env, msg))
  }

  function PayFees(env: Env, msg: Message, opts: Options, fault: Fault, m: Machine): (Machine, Exit) {
    if opts.noFeeBurnAndTip then (m, Proceed)
    else if At(fault, TipCredit) != Proceed then (m, At(fault, TipCredit))
    else
      var tipped := AddBalance(m.state.accounts, env.coinbase, TipAmount(env, msg, m));
      var m1 := m.(state := m.state.(accounts := tipped));
      if !Burns(env, msg) then (m1, Proceed)
      else if Panics(fault, BurnCredit) then (m1, Panicking)
      else if Refuses(fault, BurnCredit) then (m1, Proceed)
      else
        var burnt := AddBalance(tipped, env.burntContract.value, BurnAmount(env, msg, m));
        (m1.(state := m1.state.(accounts := burnt)), Proceed)
  }

  // ----- the whole transition -----

  /** Runs the phases in order, stopping at the first that does not proceed. */
  function Phases(env: Env, msg: Message, opts: Options, intr: Intrinsic, evm: Evm, fault: Fault, m: Machine): (Machine, Exit) {
    if At(fault, SenderBalance) != Proceed then (m, At(fault, SenderBalance))
    else if !opts.noFeeBurnAndTip && At(fault, CoinbaseBalance) != Proceed then (m, At(fault, CoinbaseBalance))
    else
      var (m1, e1) := PreCheck(env, msg, opts.gasBailout, fault, m);
      if e1 != Proceed then (m1, e1) else
        var (m2, e2) := Prepare(env, msg, opts, intr, fault, m1);
        if e2 != Proceed then (m2, e2) else
          var (m3, e3) := Execute(msg, opts, evm, fault, m2);
          if e3 != Proceed then (m3, e3) else
            var (m4, e4) := RefundGas(env, msg, opts, intr, fault, m3);
            if e4 != Proceed then (m4, e4) else
              PayFees(env, msg, opts, fault, m4)
  }

  /** Whether the virtual machine reported failure; false if it was not reached. */
  function EvmFailed(env: Env, msg: Message, opts: Options, intr: Intrinsic, evm: Evm, fault: Fault, m: Machine): bool {
    var (m1, e1) := PreCheck(env, msg, opts.gasBailout, fault, m);
    var (m2, e2) := Prepare(env, msg, opts, intr, fault, m1);
    evm(m2.state, m2.gasRemaining, BailsOut(msg, opts, m2.state)).failed
  }

  function MakeResult(env: Env, msg: Message, opts: Options, failed: bool, start: State, m: Machine): Result {
    Result(GasUsed(m), failed, Balance(start.accounts, msg.from),
           if opts.noFeeBurnAndTip then 0 else Balance(start.accounts, env.coinbase),
           TipAmount(env, msg, m), BurnAmount(env, msg, m),
           if Burns(env, msg) then env.burntContract.value else 0, m.state.refund)
  }

  /** A panic is recovered only on a versioned state; the recovery hands the gas
      counted as used back to the block. */
  function TransitionDb(env: Env, msg: Message, opts: Options, intr: Intrinsic, evm: Evm, fault: Fault, m: Machine): (Machine, Outcome) {
    var (m', exit) := Phases(env, msg, opts, intr, evm, fault, m);
    match exit
    case Proceed =>
      (m', Executed(MakeResult(env, msg, opts, EvmFailed(env, msg, opts, intr, evm, fault, m), m.state, m')))
    case Fail(err) => (m', Rejected(err))
    case Panicking =>
      if env.versioned then (m'.(poolGas := m'.poolGas + GasUsed(m')), Aborted) else (m', Crashed)
  }
}
