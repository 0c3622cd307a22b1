/** The state transition as the source runs it: an object whose methods update the
    gas counters, the block's pool and the accounts step by step, with machine
    arithmetic.  Each method is proved equal to its value-level meaning in
    `Transition`, so the theorems about that meaning are theorems about these
    methods. */
module StateTransitions {
  import opened Common
  import opened Ledger
  import opened GasPools
  import opened Authorizations
  import opened Transition
  import opened TransitionTheorems

  /** 256-bit product with the overflow flag the caller tests. */
  method MulOverflow(x: uint256, y: uint256) returns (z: uint256, overflow: bool)
    ensures overflow <==> x * y >= TWO_256
    ensures !overflow ==> z == x * y
  {
    z, overflow := Mul256(x, y), x * y >= TWO_256;
    if !overflow { MulExact(x, y); }
  }

  method AddOverflow(x: uint256, y: uint256) returns (z: uint256, overflow: bool)
    ensures overflow <==> x + y >= TWO_256
    ensures !overflow ==> z == x + y
  {
    z, overflow := Add256(x, y), x + y >= TWO_256;
  }

  class StateTransition {
    const gp: GasPool
    const env: Env
    const msg: Message
    const intr: Intrinsic
    const evm: Evm
    const fault: Fault
    var state: State
    var gasRemaining: uint64
    var initialGas: uint64
    var blobFee: uint256

    ghost function View(): Machine
      reads this, gp
    {
      Machine(state, gasRemaining, initialGas, gp.gas, gp.blobGas, blobFee)
    }

    constructor (gp: GasPool, env: Env, msg: Message, intr: Intrinsic, evm: Evm, fault: Fault, state: State)
      ensures this.gp == gp && this.env == env && this.msg == msg && this.intr == intr
      ensures this.evm == evm && this.fault == fault
      ensures View() == Start(state, gp.gas, gp.blobGas)
    {
      this.gp, this.env, this.msg, this.intr, this.evm, this.fault := gp, env, msg, intr, evm, fault;
      this.state, this.gasRemaining, this.initialGas, this.blobFee := state, 0, 0, 0;
    }

    function UsedGas(): uint64
      reads this
    {
      Sub64(initialGas, gasRemaining)
    }

    method SumRequired(blobs: bool) returns (want: Option<uint256>)
      requires blobs == env.rules.cancun
      ensures want == if RequiredBalance(env, msg) >= TWO_256 then None else Some(RequiredBalance(env, msg))
    {
      var check, overflow := MulOverflow(msg.gas, msg.feeCap);
      if overflow { return None; }
      check, overflow := AddOverflow(check, msg.value);
      if overflow { return None; }
      if blobs {
        var maxBlobFee;
        maxBlobFee, overflow := MulOverflow(msg.maxFeePerBlobGas, msg.blobGas);
        if overflow { return None; }
        check, overflow := AddOverflow(check, maxBlobFee);
        if overflow { return None; }
      }
      return Some(check);
    }

    /** The two debits, whose errors the source does not look at. */
    method Charge(gasVal: uint256, blobGasVal: uint256) returns (exit: Exit)
      requires gasVal == msg.gas * msg.gasPrice
      modifies this`state
      ensures state.refund == old(state.refund)
      ensures (state.accounts, exit) == Transition.Charge(msg, blobGasVal, fault, old(state.accounts))
    {
      if Panics(fault, GasDebit) { return Panicking; }
      if !Refuses(fault, GasDebit) { state := state.(accounts := SubBalance(state.accounts, msg.from, gasVal)); }
      if Panics(fault, BlobDebit) { return Panicking; }
      if !Refuses(fault, BlobDebit) { state := state.(accounts := SubBalance(state.accounts, msg.from, blobGasVal)); }
      return Proceed;
    }

    method BuyGas(gasBailout: bool) returns (exit: Exit)
      modifies this`state, this`gasRemaining, this`initialGas, this`blobFee, gp
      ensures (View(), exit) == Transition.BuyGas(env, msg, gasBailout, fault, old(View()))
    {
      hide Transition.Charge, RequiredBalance;
      var gasVal, overflow := MulOverflow(msg.gas, msg.gasPrice);
      if overflow { return Fail(InsufficientFunds); }
      var blobGasVal: uint256 := 0;
      if env.rules.cancun {
        if env.blobBaseFee.None? { return Fail(InternalFailure); }
        blobGasVal, overflow := MulOverflow(env.blobBaseFee.value, msg.blobGas);
        if overflow { return Fail(InsufficientFunds); }
        var err := gp.SubBlobGas(msg.blobGas);
        if err.Some? { return Fail(PoolExhausted(err.value)); }
      }
      if !gasBailout {
        var want := SumRequired(env.rules.cancun);
        if want.None? { return Fail(InsufficientFunds); }
        if At(fault, PurchaseBalance) != Proceed { return At(fault, PurchaseBalance); }
        if Balance(state.accounts, msg.from) < want.value { return Fail(InsufficientFunds); }
        exit := Charge(gasVal, blobGasVal);
        if exit != Proceed { return exit; }
      }
      var err := gp.SubGas(msg.gas);
      if err.Some? { return Fail(PoolExhausted(err.value)); }
      gasRemaining := Add64(gasRemaining, msg.gas);
      initialGas := msg.gas;
      blobFee := blobGasVal;
      return Proceed;
    }

    method PreCheck(gasBailout: bool) returns (exit: Exit)
      modifies this`state, this`gasRemaining, this`initialGas, this`blobFee, gp
      ensures (View(), exit) == Transition.PreCheck(env, msg, gasBailout, fault, old(View()))
    {
      if msg.checkNonce {
        if At(fault, NonceRead) != Proceed { return At(fault, NonceRead); }
        var stNonce := Get(state.accounts, msg.from).nonce;
        if stNonce < msg.nonce {
          return Fail(NonceTooHigh);
        } else if stNonce > msg.nonce {
          return Fail(NonceTooLow);
        } else if Add64(stNonce, 1) < stNonce {
          return Fail(NonceMax);
        }
        if At(fault, CodeRead) != Proceed { return At(fault, CodeRead); }
        var code := Get(state.accounts, msg.from).code;
        if !code.NoCode? && !code.Delegation? { return Fail(SenderNoEOA); }
      }
      if env.rules.london && !(env.noBaseFee && msg.feeCap == 0 && msg.tipCap == 0) {
        exit := CheckFeeCap(msg.feeCap, msg.tipCap, env.baseFee, msg.isFree);
        if exit != Proceed { return exit; }
      }
      if msg.blobGas > 0 && env.rules.cancun {
        if env.blobBaseFee.None? { return Fail(InternalFailure); }
        if !env.noBaseFee && env.blobBaseFee.value > msg.maxFeePerBlobGas { return Fail(MaxFeePerBlobGasTooLow); }
      }
      if env.rules.osaka && msg.gas > MAX_TXN_GAS_LIMIT { return Fail(GasLimitTooHigh); }
      exit := BuyGas(gasBailout);
    }

    /** Processes the authorization list in place; the addresses returned are the
        ones to warm up. */
    method VerifyAuthorities() returns (verified: seq<Address>, exit: Exit)
      modifies this`state
      ensures (state, exit) == ApplyAuthorizations(env, msg, fault, old(state))
      ensures exit == Proceed ==> verified == Verified(env.chainId, msg.auths, |msg.auths|)
    {
      verified := [];
      if |msg.auths| == 0 { return verified, Proceed; }
      if msg.to.None? { return verified, Fail(CreationWithAuthorizations); }
      var i := 0;
      while i < |msg.auths|
        invariant 0 <= i <= |msg.auths|
        invariant state == After(env.chainId, old(state), msg.auths, i)
        invariant verified == Verified(env.chainId, msg.auths, i)
        invariant AuthFault(env.chainId, msg, fault, old(state)) ==> i <= fault.stop.at.index
      {
        var auth := msg.auths[i];
        i := i + 1;
        if auth.chainId != 0 && auth.chainId != env.chainId { continue; }
        var signer := Recover(auth);
        if signer.None? { continue; }
        var authority := signer.value;
        verified := verified + [authority];
        if At(fault, AuthorityRead(i - 1)) != Proceed { return verified, At(fault, AuthorityRead(i - 1)); }
        var acc := Get(state.accounts, authority);
        if !acc.code.NoCode? && !acc.code.Delegation? { continue; }
        if acc.nonce != auth.nonce { continue; }
        if authority in state.accounts {
          state := state.(refund := Add64(state.refund, PER_EMPTY_ACCOUNT_COST - PER_AUTH_BASE_COST));
        }
        if At(fault, AuthorityCode(i - 1)) != Proceed { return verified, At(fault, AuthorityCode(i - 1)); }
        if auth.target == 0 {
          state := state.(accounts := state.accounts[authority := acc.(code := NoCode)]);
        } else {
          state := state.(accounts := state.accounts[authority := acc.(code := Delegation(auth.target))]);
        }
        if At(fault, AuthorityNonce(i - 1)) != Proceed { return verified, At(fault, AuthorityNonce(i - 1)); }
        state := state.(accounts :=
          state.accounts[authority := Get(state.accounts, authority).(nonce := Add64(acc.nonce, 1))]);
      }
      return verified, Proceed;
    }

    /** Nonce, intrinsic gas, authorizations, bailout and access preparation. */
    method Prepare(opts: Options) returns (bailout: bool, exit: Exit)
      modifies this`state, this`gasRemaining
      ensures (View(), exit) == Transition.Prepare(env, msg, opts, intr, fault, old(View()))
      ensures exit == Proceed ==> bailout == BailsOut(msg, opts, state)
    {
      bailout := false;
      if msg.to.Some? {
        if At(fault, NonceBump) != Proceed { return false, At(fault, NonceBump); }
        if Panics(fault, NonceWrite) { return false, Panicking; }
        var acc := Get(state.accounts, msg.from);
        if !Refuses(fault, NonceWrite) {
          state := state.(accounts := state.accounts[msg.from := acc.(nonce := Add64(acc.nonce, 1))]);
        }
      }
      if intr.overflow { return false, Fail(GasUintOverflow); }
      if gasRemaining < intr.gas || gasRemaining < intr.floor { return false, Fail(IntrinsicGasTooHigh); }
      var verified;
      verified, exit := VerifyAuthorities();
      if exit != Proceed { return false, exit; }
      gasRemaining := Sub64(gasRemaining, intr.gas);
      if opts.gasBailout {
        if At(fault, TransferCheck) != Proceed { return false, At(fault, TransferCheck); }
        var canTransfer := Balance(state.accounts, msg.from) >= msg.value;
        if msg.value != 0 && !canTransfer { bailout := true; }
      }
      if env.rules.eip3860 && msg.to.None? && msg.dataLen > MAX_INIT_CODE_SIZE {
        return bailout, Fail(MaxInitCodeSizeExceeded);
      }
      exit := At(fault, PrepareAccess);
    }

    /** Caps the refund, applies the floor and returns what was not charged.  The
        precondition is what keeps the pool's overflow panic out of reach. */
    method RefundGas(opts: Options) returns (exit: Exit)
      requires gasRemaining <= initialGas && intr.floor <= initialGas
      requires gp.gas + initialGas <= MAX_U64
      modifies this`state, this`gasRemaining, gp
      ensures (View(), exit) == Transition.RefundGas(env, msg, opts, intr, fault, old(View()))
      ensures gasRemaining <= initialGas && gp.gas + UsedGas() <= old(gp.gas) + initialGas
    {
      ChargeBounds(env, opts, intr, View());
      if opts.refunds && !opts.gasBailout {
        var quotient := Quotient(env);
        var gasUsed := UsedGas();
        var refund := Min(gasUsed / quotient, state.refund);
        gasUsed := gasUsed - refund;
        if env.rules.prague { gasUsed := Max(intr.floor, gasUsed); }
        gasRemaining := Sub64(initialGas, gasUsed);
        if Panics(fault, RefundCredit) { return Panicking; }
        if !Refuses(fault, RefundCredit) {
          var remaining := Mul256(gasRemaining, msg.gasPrice);
          state := state.(accounts := AddBalance(state.accounts, msg.from, remaining));
        }
        gp.AddGas(gasRemaining);
      } else if env.rules.prague {
        gasRemaining := Sub64(initialGas, Max(intr.floor, UsedGas()));
      }
      return Proceed;
    }

    /** Computes tip and burn, crediting them unless the caller will. */
    method PayFees(opts: Options) returns (tip: uint256, burn: uint256, burnt: Address, exit: Exit)
      modifies this`state
      ensures (View(), exit) == Transition.PayFees(env, msg, opts, fault, old(View()))
      ensures exit == Proceed ==> tip == TipAmount(env, msg, View()) && burn == BurnAmount(env, msg, View())
      ensures exit == Proceed ==> burnt == if Burns(env, msg) then env.burntContract.value else 0
    {
      var effectiveTip := msg.gasPrice;
      if env.rules.london {
        if msg.feeCap > env.baseFee {
          effectiveTip := Min(msg.tipCap, Sub256(msg.feeCap, env.baseFee));
        } else {
          effectiveTip := 0;
        }
      }
      tip, burn, burnt := Mul256(UsedGas(), effectiveTip), 0, 0;
      if !opts.noFeeBurnAndTip {
        if At(fault, TipCredit) != Proceed { return tip, burn, burnt, At(fault, TipCredit); }
        state := state.(accounts := AddBalance(state.accounts, env.coinbase, tip));
      }
      if !msg.isFree && env.rules.london && env.burntContract.Some? {
        burnt := env.burntContract.value;
        burn := Mul256(UsedGas(), env.baseFee);
        if env.rules.aura && env.rules.prague { burn := Add256(burn, blobFee); }
        if !opts.noFeeBurnAndTip {
          if Panics(fault, BurnCredit) { return tip, burn, burnt, Panicking; }
          if !Refuses(fault, BurnCredit) {
            state := state.(accounts := AddBalance(state.accounts, burnt, burn));
          }
        }
      }
      return tip, burn, burnt, Proceed;
    }

    /** The transition up to its last statement or its first interruption. */
    method RunPhases(opts: Options) returns (exit: Exit, result: Option<Result>)
      requires gasRemaining == initialGas == 0 && GasHonest(evm)
      modifies this`state, this`gasRemaining, this`initialGas, this`blobFee, gp
      ensures (View(), exit) == Phases(env, msg, opts, intr, evm, fault, old(View()))
      ensures exit == Proceed ==>
                result == Some(MakeResult(env, msg, opts,
                  EvmFailed(env, msg, opts, intr, evm, fault, old(View())), old(state), View()))
    {
      hide Transition.PreCheck, Transition.Prepare, Transition.RefundGas, Transition.PayFees;
      result := None;
      if At(fault, SenderBalance) != Proceed { return At(fault, SenderBalance), None; }
      var senderInit := Balance(state.accounts, msg.from);
      var coinbaseInit: uint256 := 0;
      if !opts.noFeeBurnAndTip {
        if At(fault, CoinbaseBalance) != Proceed { return At(fault, CoinbaseBalance), None; }
        coinbaseInit := Balance(state.accounts, env.coinbase);
      }
      ghost var m0 := View();
      PurchaseGas(env, msg, opts, fault, m0);
      exit := PreCheck(opts.gasBailout);
      if exit != Proceed { return exit, None; }
      PrepareGas(env, msg, opts, intr, fault, m0, View());
      var bailout;
      bailout, exit := Prepare(opts);
      if exit != Proceed { return exit, None; }
      var out := evm(state, gasRemaining, bailout);
      state := out.state;
      if Panics(fault, EvmRun) { return Panicking, None; }
      gasRemaining := out.gasLeft;
      exit := RefundGas(opts);
      if exit != Proceed { return exit, None; }
      var tip, burn, burnt;
      tip, burn, burnt, exit := PayFees(opts);
      if exit != Proceed { return exit, None; }
      result := Some(Result(UsedGas(), out.failed, senderInit, coinbaseInit, tip, burn, burnt, state.refund));
    }

    /** The whole transition with its deferred recovery. */
    method TransitionDb(opts: Options) returns (out: Outcome)
      requires gasRemaining == initialGas == 0 && GasHonest(evm)
      modifies this`state, this`gasRemaining, this`initialGas, this`blobFee, gp
      ensures (View(), out) == Transition.TransitionDb(env, msg, opts, intr, evm, fault, old(View()))
    {
      hide Phases, EvmFailed, MakeResult;
      PhasesGas(env, msg, opts, intr, evm, fault, View());
      var exit, result := RunPhases(opts);
      match exit
      case Proceed => out := Executed(result.value);
      case Fail(err) => out := Rejected(err);
      case Panicking =>
        if env.versioned {
          gp.AddGas(UsedGas());
          out := Aborted;
        } else {
          out := Crashed;
        }
    }
  }
}
