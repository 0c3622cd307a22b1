/** What a transition does, in numbers and case by case, without its own functions: which
    messages it executes and why it refuses the others, how much gas it charges, what the
    virtual machine is entered with, and what is reported. */
module TransitionExact {
  import opened Common
  import opened Ledger
  import opened GasPools
  import opened Authorizations
  import opened Transition
  import opened TransitionTheorems
  import opened ValueTheorems

  // ----- who is executed -----

  /** The sender may send the message. */
  predicate MaySend(msg: Message, s: State) {
    var sender := Get(s.accounts, msg.from);
    msg.checkNonce ==> msg.nonce == sender.nonce && msg.nonce < MAX_U64 && !sender.code.Contract?
  }

  /** The prices offered suffice. */
  predicate PricesSuffice(env: Env, msg: Message) {
    && (env.rules.london && !(env.noBaseFee && msg.feeCap == 0 && msg.tipCap == 0) ==>
         msg.tipCap <= msg.feeCap && (env.baseFee <= msg.feeCap || msg.isFree))
    && (env.rules.cancun ==> env.blobBaseFee.Some?)
    && (env.rules.cancun && msg.blobGas > 0 && !env.noBaseFee ==> env.blobBaseFee.value <= msg.maxFeePerBlobGas)
    && (env.rules.osaka ==> msg.gas <= 16_777_216)
  }

  /** The sender can pay, at the highest prices it offers, and the block has the gas. */
  predicate CanBuy(env: Env, msg: Message, gasBailout: bool, m: Machine) {
    var blobs := if env.rules.cancun then msg.maxFeePerBlobGas * msg.blobGas else 0;
    && msg.gas * msg.gasPrice < TWO_256
    && (env.rules.cancun && env.blobBaseFee.Some? ==> msg.blobGas * env.blobBaseFee.value < TWO_256)
    && (env.rules.cancun ==> msg.blobGas <= m.poolBlobGas)
    && msg.gas <= m.poolGas
    && (!gasBailout ==> msg.gas * msg.feeCap + msg.value + blobs <= Balance(m.state.accounts, msg.from))
  }

  /** The message is well formed for the gas it brings. */
  predicate WellMade(env: Env, msg: Message, intr: Intrinsic) {
    && !intr.overflow && intr.gas <= msg.gas && intr.floor <= msg.gas
    && (msg.auths != [] ==> msg.to.Some?)
    && (env.rules.eip3860 && msg.to.None? ==> msg.dataLen <= 49152)
  }

  // Where the store stops a run: at the places the run gets to.

  predicate Stops(fault: Fault, site: Site) { fault.stop == StoreError(site) || fault.stop == Panic(site) }

  predicate StopsChecks(msg: Message, fault: Fault) { msg.checkNonce && (Stops(fault, NonceRead) || Stops(fault, CodeRead)) }

  predicate StopsPurchase(gasBailout: bool, fault: Fault) {
    !gasBailout && (Stops(fault, PurchaseBalance) || fault.stop == Panic(GasDebit) || fault.stop == Panic(BlobDebit))
  }

  /** In authorization `i`: its account is looked at if the signer is recovered, and written
      to if the authorization is accepted. */
  predicate StopsAuthorization(chainId: uint256, msg: Message, fault: Fault, s: State, i: nat)
    requires i < |msg.auths|
  {
    || (Stops(fault, AuthorityRead(i)) && Recovered(chainId, msg.auths[i]))
    || ((Stops(fault, AuthorityCode(i)) || Stops(fault, AuthorityNonce(i)))
        && Accepts(chainId, After(chainId, s, msg.auths, i), msg.auths[i]))
  }

  ghost predicate StopsPreparation(env: Env, msg: Message, opts: Options, fault: Fault, s: State) {
    || (msg.to.Some? && (Stops(fault, NonceBump) || fault.stop == Panic(NonceWrite)))
    || (exists i :: 0 <= i < |msg.auths| && StopsAuthorization(env.chainId, msg, fault, s, i))
    || (opts.gasBailout && Stops(fault, TransferCheck)) || Stops(fault, PrepareAccess)
  }

  predicate StopsSettlement(env: Env, msg: Message, opts: Options, fault: Fault) {
    || fault.stop == Panic(EvmRun) || (opts.refunds && !opts.gasBailout && fault.stop == Panic(RefundCredit))
    || (!opts.noFeeBurnAndTip && Stops(fault, TipCredit))
    || (!opts.noFeeBurnAndTip && env.rules.london && !msg.isFree && env.burntContract.Some? && fault.stop == Panic(BurnCredit))
  }

  lemma NonceCheckIff(msg: Message, fault: Fault, s: State)
    ensures CheckNonce(msg, fault, s) == Proceed <==> MaySend(msg, s) && !StopsChecks(msg, fault)
  {
  }

  lemma PriceCheckIff(env: Env, msg: Message)
    ensures CheckPrices(env, msg) == Proceed && (env.rules.cancun ==> env.blobBaseFee.Some?) <==> PricesSuffice(env, msg)
  {
  }

  /** What blobs cost: their gas at the block's blob price. */
  lemma BlobFee(env: Env, msg: Message)
    ensures BlobCost(env, msg) == if env.rules.cancun && env.blobBaseFee.Some? then msg.blobGas * env.blobBaseFee.value else 0
  {
  }

  lemma PurchaseIff(env: Env, msg: Message, gasBailout: bool, fault: Fault, m: Machine)
    ensures BuyGas(env, msg, gasBailout, fault, m).1 == Proceed <==>
              (env.rules.cancun ==> env.blobBaseFee.Some?) && CanBuy(env, msg, gasBailout, m) && !StopsPurchase(gasBailout, fault)
  {
    hide BlobCost, Charge;
    BlobFee(env, msg);
    ChargeExits(msg, fault, m.state.accounts);
    var blobs := if env.rules.cancun then msg.maxFeePerBlobGas * msg.blobGas else 0;
    assert RequiredBalance(env, msg) == msg.gas * msg.feeCap + msg.value + blobs;
    hide RequiredBalance;
  }

  lemma AuthorizationsIff(env: Env, msg: Message, fault: Fault, s: State)
    ensures ApplyAuthorizations(env, msg, fault, s).1 == Proceed <==>
              && (msg.auths != [] ==> msg.to.Some?)
              && !exists i :: 0 <= i < |msg.auths| && StopsAuthorization(env.chainId, msg, fault, s, i)
  {
    hide After, Accepts, Recovered;
    if AuthFault(env.chainId, msg, fault, s) {
      assert StopsAuthorization(env.chainId, msg, fault, s, fault.stop.at.index);
    }
  }

  lemma PreparationIff(env: Env, msg: Message, opts: Options, intr: Intrinsic, fault: Fault, m: Machine)
    requires m.gasRemaining == msg.gas
    ensures Prepare(env, msg, opts, intr, fault, m).1 == Proceed <==>
              WellMade(env, msg, intr) && !StopsPreparation(env, msg, opts, fault, BumpNonce(msg, fault, m.state))
  {
    hide ApplyAuthorizations, StopsAuthorization, BumpNonce;
    AuthorizationsIff(env, msg, fault, BumpNonce(msg, fault, m.state));
  }

  lemma SettlementIff(env: Env, msg: Message, opts: Options, intr: Intrinsic, evm: Evm, fault: Fault, m: Machine)
    ensures var (m3, e3) := Execute(msg, opts, evm, fault, m);
            var (m4, e4) := RefundGas(env, msg, opts, intr, fault, m3);
            e3 == Proceed && e4 == Proceed && PayFees(env, msg, opts, fault, m4).1 == Proceed
            <==> !StopsSettlement(env, msg, opts, fault)
  {
    hide ChargedGas, TipAmount, BurnAmount;
  }

  /** For every fault: a message is executed if and only if it may be sent, its prices
      suffice, its gas can be bought, it is well made, and the store does not stop the run
      at a place it gets to. */
  lemma ExecutesIff(env: Env, msg: Message, opts: Options, intr: Intrinsic, evm: Evm, fault: Fault, m: Machine)
    requires m.gasRemaining == m.initialGas == 0
    ensures TransitionDb(env, msg, opts, intr, evm, fault, m).1.Executed? <==>
              && MaySend(msg, m.state) && PricesSuffice(env, msg)
              && CanBuy(env, msg, opts.gasBailout, m) && WellMade(env, msg, intr)
              && !Stops(fault, SenderBalance) && (opts.noFeeBurnAndTip || !Stops(fault, CoinbaseBalance))
              && !StopsChecks(msg, fault) && !StopsPurchase(opts.gasBailout, fault)
              && !StopsPreparation(env, msg, opts, fault, BumpNonce(msg, fault, PreCheck(env, msg, opts.gasBailout, fault, m).0.state))
              && !StopsSettlement(env, msg, opts, fault)
  {
    hide CheckNonce, CheckPrices, BuyGas, Prepare, Execute, RefundGas, PayFees, MaySend, PricesSuffice, CanBuy, WellMade, BumpNonce,
         StopsChecks, StopsPurchase, StopsPreparation, StopsSettlement, EvmFailed, MakeResult;
    NonceCheckIff(msg, fault, m.state);
    PriceCheckIff(env, msg);
    PurchaseIff(env, msg, opts.gasBailout, fault, m);
    PurchaseGas(env, msg, opts, fault, m);
    var (m1, e1) := PreCheck(env, msg, opts.gasBailout, fault, m);
    if e1 == Proceed {
      PreparationIff(env, msg, opts, intr, fault, m1);
      SettlementIff(env, msg, opts, intr, evm, fault, Prepare(env, msg, opts, intr, fault, m1).0);
    }
  }

  /** A store that stops in authorization `i` leaves the effect of those before it: each
      nonce higher by its acceptances so far, and of authorization `i` the refund if its code
      was to be written next, and refund and code if its nonce was. */
  lemma InterruptedLeaves(
      env: Env, msg: Message, opts: Options, intr: Intrinsic, fault: Fault, m: Machine, i: nat, a: Address)
    requires m.gasRemaining == msg.gas && msg.to.Some? && !intr.overflow && intr.gas <= msg.gas && intr.floor <= msg.gas
    requires i < |msg.auths| && StopsAuthorization(env.chainId, msg, fault, BumpNonce(msg, fault, m.state), i)
    ensures var s := BumpNonce(msg, fault, m.state);
            var (s', before) := (Prepare(env, msg, opts, intr, fault, m).0.state, After(env.chainId, s, msg.auths, i));
            var auth := msg.auths[i];
            && Get(s'.accounts, a).nonce == Get(s.accounts, a).nonce + AcceptedFor(env.chainId, s, msg.auths, i, a)
            && Balance(s'.accounts, a) == Balance(m.state.accounts, a)
            && (Stops(fault, AuthorityRead(i)) ==> s' == before)
            && (!Stops(fault, AuthorityRead(i)) ==>
                 && auth.signer.Some?
                 && Get(s'.accounts, a).code == (if !Stops(fault, AuthorityNonce(i)) || Some(a) != auth.signer then Get(before.accounts, a).code
                                                 else if auth.target == 0 then NoCode else Delegation(auth.target))
                 && s'.refund == (if auth.signer.value in before.accounts then (before.refund + 12500) % TWO_64 else before.refund))
  {
    hide After, AcceptedFor;
    NonceCountsAcceptances(env.chainId, BumpNonce(msg, fault, m.state), msg.auths, i, a);
  }

  // ----- why a message is refused -----

  /** What each refusal says about the message. */
  predicate Explains(env: Env, msg: Message, opts: Options, intr: Intrinsic, fault: Fault, m: Machine, err: TxError) {
    var sender := Get(m.state.accounts, msg.from);
    match err
    case NonceTooHigh => msg.checkNonce && msg.nonce > sender.nonce
    case NonceTooLow => msg.checkNonce && msg.nonce < sender.nonce
    case NonceMax => msg.checkNonce && msg.nonce == sender.nonce == MAX_U64
    case SenderNoEOA => msg.checkNonce && sender.code.Contract?
    case TipAboveFeeCap => env.rules.london && msg.tipCap > msg.feeCap
    case FeeCapTooLow => env.rules.london && msg.feeCap < env.baseFee && !msg.isFree
    case InternalFailure => env.rules.cancun && env.blobBaseFee.None?
    case MaxFeePerBlobGasTooLow =>
      env.rules.cancun && msg.blobGas > 0 && !env.noBaseFee
      && env.blobBaseFee.Some? && env.blobBaseFee.value > msg.maxFeePerBlobGas
    case GasLimitTooHigh => env.rules.osaka && msg.gas > 16_777_216
    case InsufficientFunds =>
      || msg.gas * msg.gasPrice >= TWO_256
      || (env.rules.cancun && env.blobBaseFee.Some? && msg.blobGas * env.blobBaseFee.value >= TWO_256)
      || (!opts.gasBailout && sender.balance < RequiredBalance(env, msg))
    case PoolExhausted(GasLimitReached) => msg.gas > m.poolGas
    case PoolExhausted(BlobGasLimitReached) => env.rules.cancun && msg.blobGas > m.poolBlobGas
    case GasUintOverflow => intr.overflow
    case IntrinsicGasTooHigh => intr.gas > msg.gas || intr.floor > msg.gas
    case MaxInitCodeSizeExceeded => env.rules.eip3860 && msg.to.None? && msg.dataLen > 49152
    case CreationWithAuthorizations => msg.to.None? && msg.auths != []
    case StoreFailed => fault.stop.StoreError?
  }

  /** A phase goes on, fails for a reason that holds, or panics because the store did. */
  predicate Honest(env: Env, msg: Message, opts: Options, intr: Intrinsic, fault: Fault, m: Machine, exit: Exit) {
    match exit
    case Proceed => true
    case Fail(err) => Explains(env, msg, opts, intr, fault, m, err)
    case Panicking => fault.stop.Panic?
  }

  lemma CheckRefusals(env: Env, msg: Message, opts: Options, intr: Intrinsic, fault: Fault, m: Machine)
    ensures Honest(env, msg, opts, intr, fault, m, CheckNonce(msg, fault, m.state))
    ensures Honest(env, msg, opts, intr, fault, m, CheckPrices(env, msg))
  {
  }

  lemma PurchaseRefusal(env: Env, msg: Message, opts: Options, intr: Intrinsic, fault: Fault, m: Machine)
    ensures Honest(env, msg, opts, intr, fault, m, BuyGas(env, msg, opts.gasBailout, fault, m).1)
  {
    hide BlobCost, RequiredBalance, Charge;
    BlobFee(env, msg);
    ChargeExits(msg, fault, m.state.accounts);
  }

  lemma PreparationRefusal(env: Env, msg: Message, opts: Options, intr: Intrinsic, fault: Fault, m0: Machine, m: Machine)
    requires m.gasRemaining == msg.gas
    ensures Honest(env, msg, opts, intr, fault, m0, Prepare(env, msg, opts, intr, fault, m).1)
  {
    hide After, BumpNonce;
  }

  lemma SettlementRefusal(env: Env, msg: Message, opts: Options, intr: Intrinsic, evm: Evm, fault: Fault, m0: Machine, m: Machine)
    ensures Honest(env, msg, opts, intr, fault, m0, Execute(msg, opts, evm, fault, m).1)
    ensures Honest(env, msg, opts, intr, fault, m0, RefundGas(env, msg, opts, intr, fault, m).1)
    ensures Honest(env, msg, opts, intr, fault, m0, PayFees(env, msg, opts, fault, m).1)
  {
    hide ChargedGas, TipAmount, BurnAmount;
  }

  lemma StartRefusal(env: Env, msg: Message, opts: Options, intr: Intrinsic, fault: Fault, m: Machine)
    ensures Honest(env, msg, opts, intr, fault, m, At(fault, SenderBalance))
    ensures Honest(env, msg, opts, intr, fault, m, At(fault, CoinbaseBalance))
  {
  }

  /** A message that is not executed is refused for a reason that holds of it and of the
      block, or the store stopped the run: with an error, or by a panic, which a versioned
      state survives. */
  lemma RefusalIsTrue(env: Env, msg: Message, opts: Options, intr: Intrinsic, evm: Evm, fault: Fault, m: Machine)
    requires m.gasRemaining == m.initialGas == 0
    ensures match TransitionDb(env, msg, opts, intr, evm, fault, m).1
            case Executed(_) => true
            case Rejected(err) => Explains(env, msg, opts, intr, fault, m, err)
            case Aborted => fault.stop.Panic? && env.versioned
            case Crashed => fault.stop.Panic? && !env.versioned
  {
    hide CheckNonce, CheckPrices, BuyGas, Prepare, Execute, RefundGas, PayFees, Explains, EvmFailed, MakeResult;
    StartRefusal(env, msg, opts, intr, fault, m);
    CheckRefusals(env, msg, opts, intr, fault, m);
    PurchaseRefusal(env, msg, opts, intr, fault, m);
    PurchaseGas(env, msg, opts, fault, m);
    var (m1, e1) := PreCheck(env, msg, opts.gasBailout, fault, m);
    if e1 == Proceed {
      PreparationRefusal(env, msg, opts, intr, fault, m, m1);
      var m2 := Prepare(env, msg, opts, intr, fault, m1).0;
      SettlementRefusal(env, msg, opts, intr, evm, fault, m, m2);
      var m3 := Execute(msg, opts, evm, fault, m2).0;
      SettlementRefusal(env, msg, opts, intr, evm, fault, m, m3);
      SettlementRefusal(env, msg, opts, intr, evm, fault, m, RefundGas(env, msg, opts, intr, fault, m3).0);
    }
  }

  // ----- which reason is given -----

  /** The reasons against a message in the order in which they are looked for, numbered. */
  predicate Bars(k: nat, env: Env, msg: Message, opts: Options, intr: Intrinsic, m: Machine) {
    var sender := Get(m.state.accounts, msg.from);
    var priced := env.rules.london && !(env.noBaseFee && msg.feeCap == 0 && msg.tipCap == 0);
    match k
    case 0 => msg.checkNonce && msg.nonce > sender.nonce
    case 1 => msg.checkNonce && msg.nonce < sender.nonce
    case 2 => msg.checkNonce && msg.nonce == MAX_U64
    case 3 => msg.checkNonce && sender.code.Contract?
    case 4 => priced && msg.tipCap > msg.feeCap
    case 5 => priced && msg.feeCap < env.baseFee && !msg.isFree
    case 6 => env.rules.cancun && msg.blobGas > 0 && env.blobBaseFee.None?
    case 7 => env.rules.cancun && msg.blobGas > 0 && !env.noBaseFee
              && env.blobBaseFee.Some? && msg.maxFeePerBlobGas < env.blobBaseFee.value
    case 8 => env.rules.osaka && msg.gas > 16_777_216
    case 9 => msg.gas * msg.gasPrice >= TWO_256
    case 10 => env.rules.cancun && env.blobBaseFee.None?
    case 11 => env.rules.cancun && env.blobBaseFee.Some? && msg.blobGas * env.blobBaseFee.value >= TWO_256
    case 12 => env.rules.cancun && msg.blobGas > m.poolBlobGas
    case 13 => !opts.gasBailout
               && sender.balance < msg.gas * msg.feeCap + msg.value + if env.rules.cancun then msg.maxFeePerBlobGas * msg.blobGas else 0
    case 14 => msg.gas > m.poolGas
    case 15 => intr.overflow
    case 16 => intr.gas > msg.gas || intr.floor > msg.gas
    case 17 => msg.to.None? && msg.auths != []
    case 18 => env.rules.eip3860 && msg.to.None? && msg.dataLen > 49152
    case _ => false
  }

  function ErrorOf(k: nat): TxError {
    match k
    case 0 => NonceTooHigh
    case 1 => NonceTooLow
    case 2 => NonceMax
    case 3 => SenderNoEOA
    case 4 => TipAboveFeeCap
    case 5 => FeeCapTooLow
    case 6 => InternalFailure
    case 7 => MaxFeePerBlobGasTooLow
    case 8 => GasLimitTooHigh
    case 9 => InsufficientFunds
    case 10 => InternalFailure
    case 11 => InsufficientFunds
    case 12 => PoolExhausted(BlobGasLimitReached)
    case 13 => InsufficientFunds
    case 14 => PoolExhausted(GasLimitReached)
    case 15 => GasUintOverflow
    case 16 => IntrinsicGasTooHigh
    case 17 => CreationWithAuthorizations
    case 18 => MaxInitCodeSizeExceeded
    case _ => StoreFailed
  }

  /** No reason numbered from `lo` up to `hi` holds. */
  ghost predicate Clear(lo: nat, hi: nat, env: Env, msg: Message, opts: Options, intr: Intrinsic, m: Machine) {
    forall k :: lo <= k < hi ==> !Bars(k, env, msg, opts, intr, m)
  }

  /** Of the reasons from `lo` up to `hi` the first that holds is given, and none if none
      does. */
  ghost predicate GivesFirst(lo: nat, hi: nat, env: Env, msg: Message, opts: Options, intr: Intrinsic, m: Machine, exit: Exit) {
    match exit
    case Proceed => Clear(lo, hi, env, msg, opts, intr, m)
    case Fail(err) =>
      exists k :: lo <= k < hi && Bars(k, env, msg, opts, intr, m) && Clear(lo, k, env, msg, opts, intr, m) && err == ErrorOf(k)
    case Panicking => false
  }

  lemma Given(k: nat, lo: nat, hi: nat, env: Env, msg: Message, opts: Options, intr: Intrinsic, m: Machine)
    requires lo <= k < hi && Bars(k, env, msg, opts, intr, m) && Clear(lo, k, env, msg, opts, intr, m)
    ensures GivesFirst(lo, hi, env, msg, opts, intr, m, Fail(ErrorOf(k)))
  {
  }

  lemma NonceGivesFirst(env: Env, msg: Message, opts: Options, intr: Intrinsic, fault: Fault, m: Machine)
    requires fault.stop.NoStop?
    ensures GivesFirst(0, 4, env, msg, opts, intr, m, CheckNonce(msg, fault, m.state))
  {
    match CheckNonce(msg, fault, m.state)
    case Fail(NonceTooHigh) => Given(0, 0, 4, env, msg, opts, intr, m);
    case Fail(NonceTooLow) => Given(1, 0, 4, env, msg, opts, intr, m);
    case Fail(NonceMax) => Given(2, 0, 4, env, msg, opts, intr, m);
    case Fail(SenderNoEOA) => Given(3, 0, 4, env, msg, opts, intr, m);
    case _ =>
  }

  lemma PricesGiveFirst(env: Env, msg: Message, opts: Options, intr: Intrinsic, m: Machine)
    ensures GivesFirst(4, 9, env, msg, opts, intr, m, CheckPrices(env, msg))
  {
    match CheckPrices(env, msg)
    case Fail(TipAboveFeeCap) => Given(4, 4, 9, env, msg, opts, intr, m);
    case Fail(FeeCapTooLow) => Given(5, 4, 9, env, msg, opts, intr, m);
    case Fail(InternalFailure) => Given(6, 4, 9, env, msg, opts, intr, m);
    case Fail(MaxFeePerBlobGasTooLow) => Given(7, 4, 9, env, msg, opts, intr, m);
    case Fail(GasLimitTooHigh) => Given(8, 4, 9, env, msg, opts, intr, m);
    case _ =>
  }

  lemma BarsBuying(env: Env, msg: Message, opts: Options, intr: Intrinsic, m: Machine)
    ensures Bars(9, env, msg, opts, intr, m) <==> msg.gas * msg.gasPrice >= TWO_256
    ensures Bars(10, env, msg, opts, intr, m) <==> env.rules.cancun && env.blobBaseFee.None?
    ensures Bars(11, env, msg, opts, intr, m) <==> BlobCost(env, msg) >= TWO_256
    ensures Bars(12, env, msg, opts, intr, m) <==> env.rules.cancun && msg.blobGas > m.poolBlobGas
    ensures Bars(13, env, msg, opts, intr, m) <==> !opts.gasBailout && Balance(m.state.accounts, msg.from) < RequiredBalance(env, msg)
    ensures Bars(14, env, msg, opts, intr, m) <==> msg.gas > m.poolGas
  {
    BlobFee(env, msg);
  }

  lemma PurchaseGivesFirst(env: Env, msg: Message, opts: Options, intr: Intrinsic, fault: Fault, m: Machine)
    requires fault.stop.NoStop?
    ensures GivesFirst(9, 15, env, msg, opts, intr, m, BuyGas(env, msg, opts.gasBailout, fault, m).1)
  {
    hide Bars, BlobCost, RequiredBalance, Charge;
    BarsBuying(env, msg, opts, intr, m);
    ChargeExits(msg, fault, m.state.accounts);
    if msg.gas * msg.gasPrice >= TWO_256 { Given(9, 9, 15, env, msg, opts, intr, m); }
    else if env.rules.cancun && env.blobBaseFee.None? { Given(10, 9, 15, env, msg, opts, intr, m); }
    else if BlobCost(env, msg) >= TWO_256 { Given(11, 9, 15, env, msg, opts, intr, m); }
    else if env.rules.cancun && msg.blobGas > m.poolBlobGas { Given(12, 9, 15, env, msg, opts, intr, m); }
    else if !opts.gasBailout && Balance(m.state.accounts, msg.from) < RequiredBalance(env, msg) {
      Given(13, 9, 15, env, msg, opts, intr, m);
    } else if msg.gas > m.poolGas { Given(14, 9, 15, env, msg, opts, intr, m); }
  }

  lemma PreparationGivesFirst(env: Env, msg: Message, opts: Options, intr: Intrinsic, fault: Fault, m0: Machine, m: Machine)
    requires fault.stop.NoStop? && m.gasRemaining == msg.gas
    ensures GivesFirst(15, 19, env, msg, opts, intr, m0, Prepare(env, msg, opts, intr, fault, m).1)
  {
    hide After, BumpNonce;
    if intr.overflow { Given(15, 15, 19, env, msg, opts, intr, m0); }
    else if intr.gas > msg.gas || intr.floor > msg.gas { Given(16, 15, 19, env, msg, opts, intr, m0); }
    else if msg.to.None? && msg.auths != [] { Given(17, 15, 19, env, msg, opts, intr, m0); }
    else if env.rules.eip3860 && msg.to.None? && msg.dataLen > 49152 { Given(18, 15, 19, env, msg, opts, intr, m0); }
  }

  lemma GivesFirstOfBoth(lo: nat, mid: nat, hi: nat, env: Env, msg: Message, opts: Options, intr: Intrinsic, m: Machine, e1: Exit, e2: Exit)
    requires lo <= mid <= hi && GivesFirst(lo, mid, env, msg, opts, intr, m, e1)
    requires e1 == Proceed ==> GivesFirst(mid, hi, env, msg, opts, intr, m, e2)
    ensures GivesFirst(lo, hi, env, msg, opts, intr, m, if e1 == Proceed then e2 else e1)
  {
    hide Bars, ErrorOf;
    if e1.Fail? {
      var k :| lo <= k < mid && Bars(k, env, msg, opts, intr, m) && Clear(lo, k, env, msg, opts, intr, m) && e1.err == ErrorOf(k);
    } else if e2.Fail? {
      var k :| mid <= k < hi && Bars(k, env, msg, opts, intr, m) && Clear(mid, k, env, msg, opts, intr, m) && e2.err == ErrorOf(k);
      assert Clear(lo, k, env, msg, opts, intr, m);
    }
  }

  /** With a store that does not stop the run, a message is executed exactly if no reason is
      against it, and otherwise refused with the first reason in the order above. */
  lemma RefusedForFirst(env: Env, msg: Message, opts: Options, intr: Intrinsic, evm: Evm, fault: Fault, m: Machine)
    requires m.gasRemaining == m.initialGas == 0 && fault.stop.NoStop?
    ensures match TransitionDb(env, msg, opts, intr, evm, fault, m).1
            case Executed(_) => Clear(0, 19, env, msg, opts, intr, m)
            case Rejected(err) => exists k :: 0 <= k < 19 && Bars(k, env, msg, opts, intr, m)
                                    && Clear(0, k, env, msg, opts, intr, m) && err == ErrorOf(k)
            case _ => false
  {
    hide CheckNonce, CheckPrices, BuyGas, Prepare, Execute, RefundGas, PayFees, Bars, ErrorOf, Clear, EvmFailed, MakeResult;
    var (e1, e2, e3) := (CheckNonce(msg, fault, m.state), CheckPrices(env, msg), BuyGas(env, msg, opts.gasBailout, fault, m).1);
    NonceGivesFirst(env, msg, opts, intr, fault, m);
    PricesGiveFirst(env, msg, opts, intr, m);
    GivesFirstOfBoth(0, 4, 9, env, msg, opts, intr, m, e1, e2);
    PurchaseGivesFirst(env, msg, opts, intr, fault, m);
    GivesFirstOfBoth(0, 9, 15, env, msg, opts, intr, m, if e1 == Proceed then e2 else e1, e3);
    PurchaseGas(env, msg, opts, fault, m);
    var (m1, exit) := PreCheck(env, msg, opts.gasBailout, fault, m);
    if exit == Proceed {
      PreparationGivesFirst(env, msg, opts, intr, fault, m, m1);
      SettlementIff(env, msg, opts, intr, evm, fault, Prepare(env, msg, opts, intr, fault, m1).0);
      GivesFirstOfBoth(0, 15, 19, env, msg, opts, intr, m, exit, Prepare(env, msg, opts, intr, fault, m1).1);
    }
  }

  // ----- what the virtual machine is entered with -----

  /** The machine the virtual machine is entered with. */
  ghost function Entry(env: Env, msg: Message, opts: Options, intr: Intrinsic, fault: Fault, m: Machine): Machine {
    Prepare(env, msg, opts, intr, fault, PreCheck(env, msg, opts.gasBailout, fault, m).0).0
  }

  ghost predicate Enters(env: Env, msg: Message, opts: Options, intr: Intrinsic, fault: Fault, m: Machine) {
    && PreCheck(env, msg, opts.gasBailout, fault, m).1 == Proceed
    && Prepare(env, msg, opts, intr, fault, PreCheck(env, msg, opts.gasBailout, fault, m).0).1 == Proceed
  }

  /** The next nonce; there is none after the largest, and the counter wraps. */
  function Successor(nonce: uint64): uint64 {
    if nonce == MAX_U64 then 0 else nonce + 1
  }

  /** The state in which the authorizations are looked at: that before the message, with
      the purchase paid, and for a call with the sender's nonce one higher. */
  ghost predicate IsCallState(msg: Message, fault: Fault, before: State, s: State) {
    && s.refund == before.refund
    && forall a: Address ::
         && Get(s.accounts, a).code == Get(before.accounts, a).code
         && Get(s.accounts, a).nonce == (if a == msg.from && msg.to.Some? && !Refuses(fault, NonceWrite)
                                         then Successor(Get(before.accounts, a).nonce) else Get(before.accounts, a).nonce)
         && (a != msg.from ==> Get(s.accounts, a).balance == Get(before.accounts, a).balance)
  }

  lemma NextNonce(nonce: uint64)
    ensures Add64(nonce, 1) == Successor(nonce)
  {
  }

  lemma ChargeTouches(msg: Message, blobCost: uint256, fault: Fault, accounts: Accounts, a: Address)
    requires msg.gas * msg.gasPrice < TWO_256
    ensures var paid := Charge(msg, blobCost, fault, accounts).0;
            && Get(paid, a).code == Get(accounts, a).code && Get(paid, a).nonce == Get(accounts, a).nonce
            && (a != msg.from ==> Get(paid, a) == Get(accounts, a))
  {
  }

  lemma PurchaseTouches(env: Env, msg: Message, gasBailout: bool, fault: Fault, m: Machine, a: Address)
    ensures var s := PreCheck(env, msg, gasBailout, fault, m).0.state;
            && s.refund == m.state.refund
            && Get(s.accounts, a).code == Get(m.state.accounts, a).code
            && Get(s.accounts, a).nonce == Get(m.state.accounts, a).nonce
            && (a != msg.from ==> Get(s.accounts, a) == Get(m.state.accounts, a))
  {
    hide CheckNonce, CheckPrices, RequiredBalance, BlobCost, Charge;
    if msg.gas * msg.gasPrice < TWO_256 && BlobCost(env, msg) < TWO_256 {
      ChargeTouches(msg, BlobCost(env, msg), fault, m.state.accounts, a);
    }
  }

  lemma CallState(env: Env, msg: Message, gasBailout: bool, fault: Fault, m: Machine)
    ensures IsCallState(msg, fault, m.state, BumpNonce(msg, fault, PreCheck(env, msg, gasBailout, fault, m).0.state))
  {
    hide PreCheck, Successor, Add64;
    NextNonce(Get(m.state.accounts, msg.from).nonce);
    forall a: Address ensures
      var s := PreCheck(env, msg, gasBailout, fault, m).0.state;
      && s.refund == m.state.refund
      && Get(s.accounts, a).code == Get(m.state.accounts, a).code
      && Get(s.accounts, a).nonce == Get(m.state.accounts, a).nonce
      && (a != msg.from ==> Get(s.accounts, a) == Get(m.state.accounts, a))
    {
      PurchaseTouches(env, msg, gasBailout, fault, m, a);
    }
  }

  /** Whenever the virtual machine is entered: the gas is the message's less the intrinsic
      gas; each nonce is that before, one more for the sender of a call, and one more for
      each authorization accepted for the account. */
  lemma EntryIs(env: Env, msg: Message, opts: Options, intr: Intrinsic, fault: Fault, m: Machine)
    returns (s: State)
    requires m.gasRemaining == m.initialGas == 0 && Enters(env, msg, opts, intr, fault, m)
    ensures IsCallState(msg, fault, m.state, s)
    ensures var e := Entry(env, msg, opts, intr, fault, m);
            && e.state == After(env.chainId, s, msg.auths, |msg.auths|)
            && intr.gas <= msg.gas && e.gasRemaining == msg.gas - intr.gas && e.initialGas == msg.gas
            && forall a: Address :: Get(e.state.accounts, a).nonce
                 == Get(s.accounts, a).nonce + AcceptedFor(env.chainId, s, msg.auths, |msg.auths|, a)
  {
    hide PreCheck, After, BumpNonce, IsCallState, AcceptedFor;
    PurchaseGas(env, msg, opts, fault, m);
    PrepareGas(env, msg, opts, intr, fault, m, PreCheck(env, msg, opts.gasBailout, fault, m).0);
    CallState(env, msg, opts.gasBailout, fault, m);
    s := BumpNonce(msg, fault, PreCheck(env, msg, opts.gasBailout, fault, m).0.state);
    forall a: Address ensures Get(After(env.chainId, s, msg.auths, |msg.auths|).accounts, a).nonce
                 == Get(s.accounts, a).nonce + AcceptedFor(env.chainId, s, msg.auths, |msg.auths|, a) {
      NonceCountsAcceptances(env.chainId, s, msg.auths, |msg.auths|, a);
    }
  }

  // ----- what is charged and reported -----

  /** The gas charged for a run that used `used` and left the refund counter at `counter`:
      with refunds, less the counter but at most a fifth of the gas used under London and
      half of it before; under Prague at least the floor. */
  predicate ChargedFor(env: Env, refunds: bool, floor: nat, used: nat, counter: nat, charged: int) {
    var cap := if env.rules.london then used / 5 else used / 2;
    var net := if !refunds then used else if counter < cap then used - counter else used - cap;
    charged == if env.rules.prague && net < floor then floor else net
  }

  lemma ChargeIs(env: Env, opts: Options, intr: Intrinsic, m: Machine)
    requires m.gasRemaining <= m.initialGas && intr.floor <= m.initialGas
    ensures ChargedFor(env, opts.refunds && !opts.gasBailout, intr.floor, m.initialGas - m.gasRemaining, m.state.refund,
                       ChargedGas(env, opts, intr, m))
  {
  }

  lemma SettledAs(env: Env, msg: Message, opts: Options, intr: Intrinsic, fault: Fault, m: Machine)
    requires m.gasRemaining <= m.initialGas && intr.floor <= m.initialGas
    ensures var (m1, e1) := RefundGas(env, msg, opts, intr, fault, m);
            var m2 := if e1 == Proceed then PayFees(env, msg, opts, fault, m1).0 else m1;
            && GasUsed(m2) == ChargedGas(env, opts, intr, m) && m2.state.refund == m.state.refund
  {
    ChargeBounds(env, opts, intr, m);
  }

  /** What the virtual machine did with the message. */
  ghost function RunOf(env: Env, msg: Message, opts: Options, intr: Intrinsic, evm: Evm, fault: Fault, m: Machine): EvmOutcome {
    var e := Entry(env, msg, opts, intr, fault, m);
    evm(e.state, e.gasRemaining, opts.gasBailout && msg.value > Balance(e.state.accounts, msg.from))
  }

  /** The machine when the virtual machine is done. */
  ghost function AfterRun(env: Env, msg: Message, opts: Options, intr: Intrinsic, evm: Evm, fault: Fault, m: Machine): Machine {
    var run := RunOf(env, msg, opts, intr, evm, fault, m);
    Entry(env, msg, opts, intr, fault, m).(state := run.state, gasRemaining := run.gasLeft)
  }

  /** An executed run is its entry, the virtual machine, the refund and the fees. */
  lemma ExecutedShape(env: Env, msg: Message, opts: Options, intr: Intrinsic, evm: Evm, fault: Fault, m: Machine)
    requires GasHonest(evm) && m.gasRemaining == m.initialGas == 0
    ensures var (m', out) := TransitionDb(env, msg, opts, intr, evm, fault, m);
            out.Executed? ==>
            var m3 := AfterRun(env, msg, opts, intr, evm, fault, m);
            var m4 := RefundGas(env, msg, opts, intr, fault, m3).0;
            && Enters(env, msg, opts, intr, fault, m)
            && m3.gasRemaining <= m3.initialGas == msg.gas && intr.floor <= msg.gas
            && RefundGas(env, msg, opts, intr, fault, m3).1 == Proceed
            && PayFees(env, msg, opts, fault, m4) == (m', Proceed)
            && out.result == MakeResult(env, msg, opts, RunOf(env, msg, opts, intr, evm, fault, m).failed, m.state, m')
  {
    hide PreCheck, Prepare, RefundGas, PayFees, MakeResult;
    PurchaseGas(env, msg, opts, fault, m);
    if Enters(env, msg, opts, intr, fault, m) {
      PrepareGas(env, msg, opts, intr, fault, m, PreCheck(env, msg, opts.gasBailout, fault, m).0);
    }
  }

  /** Every executed run, for every fault: what is charged for what the virtual machine
      used and refunds, and what is reported. */
  lemma ExecutedReports(env: Env, msg: Message, opts: Options, intr: Intrinsic, evm: Evm, fault: Fault, m: Machine)
    requires GasHonest(evm) && m.gasRemaining == m.initialGas == 0
    ensures var out := TransitionDb(env, msg, opts, intr, evm, fault, m).1;
            out.Executed? ==>
            var run, r := RunOf(env, msg, opts, intr, evm, fault, m), out.result;
            && Enters(env, msg, opts, intr, fault, m) && run.gasLeft <= msg.gas
            && ChargedFor(env, opts.refunds && !opts.gasBailout, intr.floor, msg.gas - run.gasLeft, run.state.refund, r.gasUsed)
            && r.failed == run.failed && r.evmRefund == run.state.refund
            && r.senderInitBalance == Balance(m.state.accounts, msg.from)
            && r.coinbaseInitBalance == (if opts.noFeeBurnAndTip then 0 else Balance(m.state.accounts, env.coinbase))
            && r.burntContract == if env.rules.london && !msg.isFree && env.burntContract.Some? then env.burntContract.value else 0
  {
    hide TransitionDb, Enters, RunOf, Entry, RefundGas, PayFees, ChargedGas, ChargedFor, TipAmount, BurnAmount;
    ExecutedShape(env, msg, opts, intr, evm, fault, m);
    if TransitionDb(env, msg, opts, intr, evm, fault, m).1.Executed? {
      var m3 := AfterRun(env, msg, opts, intr, evm, fault, m);
      SettledAs(env, msg, opts, intr, fault, m3);
      ChargeIs(env, opts, intr, m3);
    }
  }

  // ----- who is paid -----

  lemma RefundPays(env: Env, msg: Message, opts: Options, intr: Intrinsic, fault: Fault, m: Machine, a: Address)
    requires m.gasRemaining <= m.initialGas == msg.gas && intr.floor <= msg.gas
    requires RefundGas(env, msg, opts, intr, fault, m).1 == Proceed
    ensures var m1 := RefundGas(env, msg, opts, intr, fault, m).0;
            var acc := Get(m.state.accounts, a);
            && GasUsed(m1) <= msg.gas
            && Get(m1.state.accounts, a) == acc.(balance := Add256(acc.balance,
                 if a == msg.from && opts.refunds && !opts.gasBailout && !Refuses(fault, RefundCredit)
                 then Mul256(msg.gas - GasUsed(m1), msg.gasPrice) else 0))
  {
    hide Mul256, ChargedGas;
    ChargeBounds(env, opts, intr, m);
  }

  lemma FeesPay(env: Env, msg: Message, opts: Options, fault: Fault, m: Machine, a: Address)
    requires PayFees(env, msg, opts, fault, m).1 == Proceed
    ensures var m1 := PayFees(env, msg, opts, fault, m).0;
            var acc := Get(m.state.accounts, a);
            var tipped := Add256(acc.balance, if a == env.coinbase && !opts.noFeeBurnAndTip then TipAmount(env, msg, m) else 0);
            && GasUsed(m1) == GasUsed(m)
            && Get(m1.state.accounts, a) == acc.(balance := Add256(tipped,
                 if Some(a) == env.burntContract && !opts.noFeeBurnAndTip && !Refuses(fault, BurnCredit)
                 then BurnAmount(env, msg, m) else 0))
  {
    hide TipAmount, BurnAmount;
    NoBurn(env, msg, m);
  }

  /** After the virtual machine an executed run changes balances only: the sender is paid
      for the gas not used, the coinbase the reported tip and the burnt contract the
      reported burn, each as far as the options and the store let it. */
  lemma WhoIsPaid(env: Env, msg: Message, opts: Options, intr: Intrinsic, evm: Evm, fault: Fault, m: Machine, a: Address)
    requires GasHonest(evm) && m.gasRemaining == m.initialGas == 0
    ensures var (m', out) := TransitionDb(env, msg, opts, intr, evm, fault, m);
            out.Executed? ==>
            var r, acc := out.result, Get(RunOf(env, msg, opts, intr, evm, fault, m).state.accounts, a);
            var refund := if a == msg.from && opts.refunds && !opts.gasBailout && !Refuses(fault, RefundCredit) && r.gasUsed <= msg.gas
                          then Mul256(msg.gas - r.gasUsed, msg.gasPrice) else 0;
            var tip := if a == env.coinbase && !opts.noFeeBurnAndTip then r.feeTipped else 0;
            var burn := if Some(a) == env.burntContract && !opts.noFeeBurnAndTip && !Refuses(fault, BurnCredit) then r.feeBurnt else 0;
            && r.gasUsed <= msg.gas
            && Get(m'.state.accounts, a) == acc.(balance := Add256(Add256(Add256(acc.balance, refund), tip), burn))
  {
    hide TransitionDb, Enters, RunOf, Entry, RefundGas, PayFees, TipAmount, BurnAmount, Mul256, Add256;
    GasOnEveryExit(env, msg, opts, intr, evm, fault, m);
    ExecutedShape(env, msg, opts, intr, evm, fault, m);
    if TransitionDb(env, msg, opts, intr, evm, fault, m).1.Executed? {
      var m3 := AfterRun(env, msg, opts, intr, evm, fault, m);
      RefundPays(env, msg, opts, intr, fault, m3, a);
      var m4 := RefundGas(env, msg, opts, intr, fault, m3).0;
      FeesPay(env, msg, opts, fault, m4, a);
      SameFeesPaid(env, msg, opts, intr, fault, m3);
    }
  }

  lemma SameFeesPaid(env: Env, msg: Message, opts: Options, intr: Intrinsic, fault: Fault, m: Machine)
    ensures var m1 := RefundGas(env, msg, opts, intr, fault, m).0;
            var m2 := PayFees(env, msg, opts, fault, m1).0;
            TipAmount(env, msg, m2) == TipAmount(env, msg, m1) && BurnAmount(env, msg, m2) == BurnAmount(env, msg, m1)
  {
    hide RefundGas, TipAmount, BurnAmount;
    var m1 := RefundGas(env, msg, opts, intr, fault, m).0;
    SameFees(env, msg, m1, PayFees(env, msg, opts, fault, m1).0);
  }

  // ----- before London -----

  /** Before London the tip is the whole price. */
  lemma TipBeforeLondon(env: Env, msg: Message)
    requires !env.rules.london
    ensures EffectiveTip(env, msg) == msg.gasPrice && !Burns(env, msg)
  {
  }

  /** Before London an executed run changes the total by the virtual machine's own change
      and the blob fee only, and by what the store refused: all of the price is tipped. */
  lemma ConservationBeforeLondon(env: Env, msg: Message, intr: Intrinsic, evm: Evm, fault: Fault, m: Machine)
    requires GasHonest(evm) && NeverMints(evm)
    requires m.gasRemaining == m.initialGas == 0 && Total(m.state.accounts) + Unpaid(env, msg, fault) < TWO_256
    requires !env.rules.london && msg.gasPrice <= msg.feeCap && Affordable(env, msg, m)
    ensures var (m', out) := TransitionDb(env, msg, DIRECT, intr, evm, fault, m);
            out.Executed? ==>
              && out.result.feeTipped == out.result.gasUsed * msg.gasPrice && out.result.feeBurnt == 0
              && out.result.gasUsed <= msg.gas
              && Total(m'.state.accounts) == Total(m.state.accounts) + EvmNet(env, msg, intr, evm, fault, m)
                   - BlobCost(env, msg) + Drift(env, msg, fault, out.result.gasUsed, 0)
  {
    hide TransitionDb, StageOf, EvmNet, CheckPrices, EffectiveTip, BurnAmount, TipAmount, Burns;
    TipBeforeLondon(env, msg);
    ExecutedIsSettled(env, msg, intr, evm, fault, m);
    ValueAfterRunning(env, msg, intr, evm, fault, m);
    if TransitionDb(env, msg, DIRECT, intr, evm, fault, m).1.Executed? {
      var used := TransitionDb(env, msg, DIRECT, intr, evm, fault, m).1.result.gasUsed;
      CostSplits(msg.gas - used, used, msg.gasPrice);
      NoBurn(env, msg, TransitionDb(env, msg, DIRECT, intr, evm, fault, m).0);
    }
  }
}
