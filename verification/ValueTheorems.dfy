/** What one state transition guarantees about value: what a purchase takes, where the
    total balance goes in every run, and when deferred fees equal direct ones. */
module ValueTheorems {
  import opened Common
  import opened Ledger
  import opened Authorizations
  import opened Transition
  import opened TransitionTheorems

  /** Without bailout the virtual machine does not raise the total balance. */
  ghost predicate NeverMints(evm: Evm) {
    forall s: State, g: uint64 :: Total(evm(s, g, false).state.accounts) <= Total(s.accounts)
  }

  /** The price under London: the fee cap, or base fee plus tip if that is less. */
  predicate Priced(env: Env, msg: Message) {
    msg.gasPrice == Min(msg.feeCap, env.baseFee + msg.tipCap)
  }

  /** So much gas at such a price, as an unbounded number. */
  function Cost(gas: nat, price: nat): nat { gas * price }

  lemma CostMono(x: nat, y: nat, k: nat)
    requires x <= y
    ensures Cost(k, x) <= Cost(k, y) && Cost(x, k) <= Cost(y, k)
  {
  }

  lemma CostSplits(x: nat, y: nat, k: nat)
    ensures Cost(x, k) + Cost(y, k) == Cost(x + y, k) && Cost(k, x) + Cost(k, y) == Cost(k, x + y)
  {
  }

  lemma CostExact(x: uint256, y: uint256)
    requires Cost(x, y) < TWO_256
    ensures Mul256(x, y) == Cost(x, y)
  {
    MulExact(x, y);
  }

  // ----- the purchase -----

  /** The one case in which the balance test does not cover the blob fee: the blob price
      was not checked, and is above what the message offers. */
  predicate BlobPriceUnchecked(env: Env, msg: Message) {
    && env.noBaseFee && env.rules.cancun && msg.blobGas > 0
    && env.blobBaseFee.Some? && env.blobBaseFee.value > msg.maxFeePerBlobGas
  }

  /** The sender can pay for the message, where that is not tested. */
  predicate Affordable(env: Env, msg: Message, m: Machine) {
    BlobPriceUnchecked(env, msg) ==> Cost(msg.gas, msg.gasPrice) + BlobCost(env, msg) <= Balance(m.state.accounts, msg.from)
  }

  /** A purchase ends this way only if it got to its debits. */
  predicate Debits(exit: Exit, fault: Fault) {
    || exit == Proceed || exit == Fail(PoolExhausted(GasPools.GasLimitReached))
    || (exit == Panicking && (Panics(fault, GasDebit) || Panics(fault, BlobDebit)))
  }

  /** What the two debits take, an ignored error or a panic taking its own away. */
  function DebitedGas(msg: Message, fault: Fault): nat {
    if Refuses(fault, GasDebit) || Panics(fault, GasDebit) then 0 else Cost(msg.gas, msg.gasPrice)
  }

  function DebitedBlobs(env: Env, msg: Message, fault: Fault): nat {
    if Refuses(fault, BlobDebit) || Panics(fault, GasDebit) || Panics(fault, BlobDebit) then 0
    else BlobCost(env, msg)
  }

  function Charged(env: Env, msg: Message, gasBailout: bool, fault: Fault, m: Machine): nat {
    if gasBailout || !Debits(PreCheck(env, msg, gasBailout, fault, m).1, fault) then 0
    else DebitedGas(msg, fault) + DebitedBlobs(env, msg, fault)
  }

  /** What the checks have shown when the debits are reached, and that nothing was
      touched when they are not. */
  lemma PurchaseShape(env: Env, msg: Message, gasBailout: bool, fault: Fault, m: Machine)
    ensures var (m1, exit) := PreCheck(env, msg, gasBailout, fault, m);
            if gasBailout || !Debits(exit, fault) then m1.state == m.state
            else
              && (env.rules.cancun ==> env.blobBaseFee.Some?)
              && Cost(msg.gas, msg.gasPrice) < TWO_256 && BlobCost(env, msg) < TWO_256
              && RequiredBalance(env, msg) <= Balance(m.state.accounts, msg.from)
              && CheckPrices(env, msg) == Proceed
              && m1.state.accounts == Charge(msg, BlobCost(env, msg), fault, m.state.accounts).0
    ensures var (m1, exit) := PreCheck(env, msg, gasBailout, fault, m);
            exit == Proceed ==>
              && m1.blobFee == BlobCost(env, msg)
              && (!gasBailout ==> !Panics(fault, GasDebit) && !Panics(fault, BlobDebit))
  {
    hide CheckPrices, RequiredBalance, BlobCost;
    ChargeExits(msg, fault, m.state.accounts);
    PriceExits(env, msg);
  }

  lemma ChargeExits(msg: Message, fault: Fault, accounts: Accounts)
    ensures forall blobCost: uint256 :: Cost(msg.gas, msg.gasPrice) < TWO_256 ==>
              var exit := Charge(msg, blobCost, fault, accounts).1;
              exit == if Panics(fault, GasDebit) || Panics(fault, BlobDebit) then Panicking else Proceed
  {
  }

  lemma PriceExits(env: Env, msg: Message)
    ensures !CheckPrices(env, msg).Panicking? && CheckPrices(env, msg) != Fail(PoolExhausted(GasPools.GasLimitReached))
  {
  }

  /** The debits move exactly what they take if the balance covers both. */
  lemma ChargeTotal(env: Env, msg: Message, fault: Fault, accounts: Accounts)
    requires Cost(msg.gas, msg.gasPrice) + BlobCost(env, msg) <= Balance(accounts, msg.from)
    ensures var paid := Charge(msg, BlobCost(env, msg), fault, accounts).0;
            var taken := DebitedGas(msg, fault) + DebitedBlobs(env, msg, fault);
            && Total(paid) == Total(accounts) - taken
            && Balance(paid, msg.from) == Balance(accounts, msg.from) - taken
  {
    hide BlobCost;
    var gasVal := Cost(msg.gas, msg.gasPrice);
    var a1 := if Refuses(fault, GasDebit) then accounts else SubBalance(accounts, msg.from, gasVal);
    DebitTotal(accounts, msg.from, gasVal);
    DebitTotal(a1, msg.from, BlobCost(env, msg));
  }

  /** The balance test covers the price of the gas, and the blob fee where the blob
      price was checked, and then the transferred value as well. */
  lemma TestCovers(env: Env, msg: Message)
    requires msg.gasPrice <= msg.feeCap && CheckPrices(env, msg) == Proceed
    ensures Cost(msg.gas, msg.gasPrice) <= RequiredBalance(env, msg)
    ensures !BlobPriceUnchecked(env, msg) ==>
              Cost(msg.gas, msg.gasPrice) + BlobCost(env, msg) + msg.value <= RequiredBalance(env, msg)
  {
    CostMono(msg.gasPrice, msg.feeCap, msg.gas);
    if env.rules.cancun && msg.blobGas > 0 && !BlobPriceUnchecked(env, msg) {
      assert env.blobBaseFee.Some? && env.blobBaseFee.value <= msg.maxFeePerBlobGas;
      CostMono(env.blobBaseFee.value, msg.maxFeePerBlobGas, msg.blobGas);
    }
  }

  /** On every exit of the purchase the total is down by exactly what was charged; a
      purchase refused because the block is full is charged like a successful one. */
  lemma PurchaseTotal(env: Env, msg: Message, gasBailout: bool, fault: Fault, m: Machine)
    requires msg.gasPrice <= msg.feeCap && Affordable(env, msg, m)
    ensures var m1 := PreCheck(env, msg, gasBailout, fault, m).0;
            var taken := Charged(env, msg, gasBailout, fault, m);
            && Total(m1.state.accounts) == Total(m.state.accounts) - taken
            && Balance(m1.state.accounts, msg.from) == Balance(m.state.accounts, msg.from) - taken
            && (Debits(PreCheck(env, msg, gasBailout, fault, m).1, fault) && !gasBailout && !BlobPriceUnchecked(env, msg) ==>
                 Balance(m1.state.accounts, msg.from) >= msg.value)
  {
    hide PreCheck, Charge, CheckPrices, RequiredBalance, BlobCost, BlobPriceUnchecked;
    PurchaseShape(env, msg, gasBailout, fault, m);
    if !gasBailout && Debits(PreCheck(env, msg, gasBailout, fault, m).1, fault) {
      TestCovers(env, msg);
      ChargeTotal(env, msg, fault, m.state.accounts);
    }
  }

  /** The purchase takes no more than the sender has exactly if the sender can pay for
      the gas and the blobs; otherwise the second debit wraps. */
  lemma PurchaseWrapsIff(env: Env, msg: Message, m: Machine)
    requires msg.gasPrice <= msg.feeCap && PreCheck(env, msg, false, NO_FAULT, m).1 == Proceed
    ensures var cost := Cost(msg.gas, msg.gasPrice) + BlobCost(env, msg);
            var total := Total(PreCheck(env, msg, false, NO_FAULT, m).0.state.accounts);
            && (total == Total(m.state.accounts) - cost <==> cost <= Balance(m.state.accounts, msg.from))
            && (cost > Balance(m.state.accounts, msg.from) ==> BlobPriceUnchecked(env, msg))
  {
    hide PreCheck, CheckPrices, RequiredBalance, BlobCost, BlobPriceUnchecked;
    PurchaseShape(env, msg, false, NO_FAULT, m);
    TestCovers(env, msg);
    var gasVal := Cost(msg.gas, msg.gasPrice);
    DebitTotal(m.state.accounts, msg.from, gasVal);
    DebitWraps(SubBalance(m.state.accounts, msg.from, gasVal), msg.from, BlobCost(env, msg));
  }

  // ----- between purchase and execution -----

  /** Nonces and code do not weigh anything. */
  lemma SameBalanceTotal(m: Accounts, a: Address, acc: Account)
    requires acc.balance == Balance(m, a)
    ensures Total(m[a := acc]) == Total(m)
  {
    TotalUpdate(m, a, acc);
  }

  lemma AuthorizationsTotal(env: Env, msg: Message, fault: Fault, s: State)
    ensures Total(ApplyAuthorizations(env, msg, fault, s).0.accounts) == Total(s.accounts)
  {
    AuthorizationsKeepTotal(env.chainId, s, msg.auths, |msg.auths|);
    if AuthFault(env.chainId, msg, fault, s) {
      var i := fault.stop.at.index;
      AuthorizationsKeepTotal(env.chainId, s, msg.auths, i);
      var before := After(env.chainId, s, msg.auths, i);
      if !fault.stop.at.AuthorityRead? {
        var a := Recover(msg.auths[i]).value;
        SameBalanceTotal(before.accounts, a, Get(before.accounts, a).(code := Designated(msg.auths[i])));
      }
    }
  }

  lemma PrepareKeepsTotal(env: Env, msg: Message, opts: Options, intr: Intrinsic, fault: Fault, m: Machine)
    ensures var m1 := Prepare(env, msg, opts, intr, fault, m).0;
            Total(m1.state.accounts) == Total(m.state.accounts) && m1.blobFee == m.blobFee
  {
    hide ApplyAuthorizations;
    var acc := Get(m.state.accounts, msg.from);
    SameBalanceTotal(m.state.accounts, msg.from, acc.(nonce := Add64(acc.nonce, 1)));
    AuthorizationsTotal(env, msg, fault, BumpNonce(msg, fault, m.state));
  }

  /** A run that ends before the virtual machine leaves the total down by exactly what
      its purchase charged, whether or not it was then rejected. */
  lemma ValueBeforeRunning(env: Env, msg: Message, opts: Options, intr: Intrinsic, evm: Evm, fault: Fault, m: Machine)
    requires msg.gasPrice <= msg.feeCap && Affordable(env, msg, m)
    ensures var (m', out) := TransitionDb(env, msg, opts, intr, evm, fault, m);
            var stage := StageOf(env, msg, opts, intr, fault, m);
            stage.Unbought? || stage.Bought? ==>
              && !out.Executed?
              && Total(m'.state.accounts)
                 == Total(m.state.accounts) - if Starts(opts, fault) then Charged(env, msg, opts.gasBailout, fault, m) else 0
  {
    hide PreCheck, Prepare, Charged, RefundGas, PayFees, MakeResult, EvmFailed;
    PurchaseTotal(env, msg, opts.gasBailout, fault, m);
    PrepareKeepsTotal(env, msg, opts, intr, fault, PreCheck(env, msg, opts.gasBailout, fault, m).0);
  }

  // ----- settlement -----

  /** Refunds on, bailout off, fees credited in the transition. */
  const DIRECT: Options := Options(true, false, false)

  /** The machine the virtual machine is entered with. */
  ghost function BeforeEvm(env: Env, msg: Message, intr: Intrinsic, fault: Fault, m: Machine): Machine {
    Prepare(env, msg, DIRECT, intr, fault, PreCheck(env, msg, false, fault, m).0).0
  }

  /** The virtual machine's own net change of the total balance. */
  ghost function EvmNet(env: Env, msg: Message, intr: Intrinsic, evm: Evm, fault: Fault, m: Machine): int {
    var b := BeforeEvm(env, msg, intr, fault, m);
    Total(evm(b.state, b.gasRemaining, BailsOut(msg, DIRECT, b.state)).state.accounts) - Total(b.state.accounts)
  }

  /** The base fee as far as it is burnt. */
  function BurnPrice(env: Env, msg: Message): nat {
    if Burns(env, msg) then env.baseFee else 0
  }

  /** The exact burn, as an unbounded number. */
  function ExactBurn(env: Env, msg: Message, gasUsed: nat, blobCost: nat): nat {
    if !Burns(env, msg) then 0
    else Cost(gasUsed, env.baseFee) + if env.rules.aura && env.rules.prague then blobCost else 0
  }

  lemma RefundShape(env: Env, msg: Message, intr: Intrinsic, fault: Fault, m: Machine)
    requires m.gasRemaining <= m.initialGas == msg.gas && intr.floor <= msg.gas
    requires RefundGas(env, msg, DIRECT, intr, fault, m).1 == Proceed
    ensures var m1 := RefundGas(env, msg, DIRECT, intr, fault, m).0;
            && m1.initialGas == msg.gas && m1.gasRemaining <= msg.gas && m1.blobFee == m.blobFee
            && m1.state.accounts == if Refuses(fault, RefundCredit) then m.state.accounts
                 else AddBalance(m.state.accounts, msg.from, Mul256(m1.gasRemaining, msg.gasPrice))
  {
    ChargeBounds(env, DIRECT, intr, m);
  }

  /** The refund restores exactly the price of the gas not charged, unless the store
      refuses it, which goes unnoticed. */
  lemma RefundTotal(env: Env, msg: Message, intr: Intrinsic, fault: Fault, m: Machine)
    requires m.gasRemaining <= m.initialGas == msg.gas && intr.floor <= msg.gas
    requires RefundGas(env, msg, DIRECT, intr, fault, m).1 == Proceed
    requires Total(m.state.accounts) + Cost(msg.gas, msg.gasPrice) < TWO_256
    ensures var m1 := RefundGas(env, msg, DIRECT, intr, fault, m).0;
            && GasUsed(m1) <= msg.gas && m1.blobFee == m.blobFee
            && Cost(msg.gas - GasUsed(m1), msg.gasPrice) + Cost(GasUsed(m1), msg.gasPrice) == Cost(msg.gas, msg.gasPrice)
            && Total(m1.state.accounts) == Total(m.state.accounts)
                 + if Refuses(fault, RefundCredit) then 0 else Cost(msg.gas - GasUsed(m1), msg.gasPrice)
  {
    hide RefundGas, Cost, Mul256, AddBalance;
    RefundShape(env, msg, intr, fault, m);
    var left := RefundGas(env, msg, DIRECT, intr, fault, m).0.gasRemaining;
    CostSplits(left, msg.gas - left, msg.gasPrice);
    CostExact(left, msg.gasPrice);
    CreditTotal(m.state.accounts, msg.from, Cost(left, msg.gasPrice));
  }

  /** The fee amounts are exact: no product or sum wraps. */
  lemma FeesExact(env: Env, msg: Message, m: Machine)
    requires Cost(GasUsed(m), EffectiveTip(env, msg) + BurnPrice(env, msg)) + m.blobFee < TWO_256
    ensures TipAmount(env, msg, m) == Cost(GasUsed(m), EffectiveTip(env, msg))
    ensures BurnAmount(env, msg, m) == ExactBurn(env, msg, GasUsed(m), m.blobFee)
    ensures TipAmount(env, msg, m) + BurnAmount(env, msg, m)
         <= Cost(GasUsed(m), EffectiveTip(env, msg) + BurnPrice(env, msg)) + m.blobFee
  {
    hide EffectiveTip, Cost, Mul256;
    var used, tip, burn := GasUsed(m), EffectiveTip(env, msg), BurnPrice(env, msg);
    CostSplits(tip, burn, used);
    CostExact(used, tip);
    CostExact(used, burn);
  }

  /** What the fee payment credits: the tip unless it stops there, and the burn unless it
      stops or the store refuses it, which goes unnoticed. */
  function Tipped(env: Env, msg: Message, fault: Fault, m: Machine): nat {
    if At(fault, TipCredit) != Proceed then 0 else TipAmount(env, msg, m)
  }

  function Burnt(env: Env, msg: Message, fault: Fault, m: Machine): nat {
    if At(fault, TipCredit) != Proceed || Panics(fault, BurnCredit) || Refuses(fault, BurnCredit) then 0
    else BurnAmount(env, msg, m)
  }

  lemma FeesTotal(env: Env, msg: Message, fault: Fault, m: Machine)
    requires Total(m.state.accounts) + TipAmount(env, msg, m) + BurnAmount(env, msg, m) < TWO_256
    ensures var m1 := PayFees(env, msg, DIRECT, fault, m).0;
            && m1.initialGas == m.initialGas && m1.gasRemaining == m.gasRemaining && m1.blobFee == m.blobFee
            && Total(m1.state.accounts) == Total(m.state.accounts) + Tipped(env, msg, fault, m) + Burnt(env, msg, fault, m)
  {
    hide TipAmount, BurnAmount;
    CreditTotal(m.state.accounts, env.coinbase, TipAmount(env, msg, m));
    if Burns(env, msg) {
      var tipped := AddBalance(m.state.accounts, env.coinbase, TipAmount(env, msg, m));
      CreditTotal(tipped, env.burntContract.value, BurnAmount(env, msg, m));
    }
    NoBurn(env, msg, m);
  }

  lemma NoBurn(env: Env, msg: Message, m: Machine)
    ensures !Burns(env, msg) ==> BurnAmount(env, msg, m) == 0
  {
  }

  // ----- the whole run -----

  /** What debits refused by the store leave with the sender. */
  function Unpaid(env: Env, msg: Message, fault: Fault): nat {
    (if Refuses(fault, GasDebit) then Cost(msg.gas, msg.gasPrice) else 0)
    + if Refuses(fault, BlobDebit) then BlobCost(env, msg) else 0
  }

  /** The price pays for the fees. */
  predicate FeesCovered(env: Env, msg: Message) {
    EffectiveTip(env, msg) + BurnPrice(env, msg) <= msg.gasPrice
  }

  lemma FeesFit(start: nat, paid: nat, run: nat, refunded: nat, gas: nat, used: nat, price: nat, fees: nat, blob: nat, bound: nat)
    requires paid <= start && run <= start - paid && used <= gas && refunded <= run + Cost(gas - used, price)
    requires start + (Cost(gas, price) + blob - paid) < bound && fees <= price
    ensures run + Cost(gas, price) < bound && refunded + Cost(used, fees) + blob < bound
    ensures refunded + Cost(used, fees) <= run + Cost(gas, price)
  {
    hide Cost;
    CostSplits(gas - used, used, price);
    CostMono(fees, price, used);
  }

  /** What a run that entered the virtual machine refunds. */
  function Refunded(msg: Message, stage: Stage, fault: Fault, used: nat): nat {
    if stage != Settled || Refuses(fault, RefundCredit) || used > msg.gas then 0 else Cost(msg.gas - used, msg.gasPrice)
  }

  /** Where the total goes in every run that enters the virtual machine, for every rule
      set, every fault and every exit: the sender pays unless the store refused it; the
      refund, the tip and the burn come back as far as the run gets. */
  lemma ValueAfterRunning(env: Env, msg: Message, intr: Intrinsic, evm: Evm, fault: Fault, m: Machine)
    requires GasHonest(evm) && NeverMints(evm)
    requires m.gasRemaining == m.initialGas == 0 && Total(m.state.accounts) + Unpaid(env, msg, fault) < TWO_256
    requires msg.gasPrice <= msg.feeCap && Affordable(env, msg, m)
    requires CheckPrices(env, msg) == Proceed ==> FeesCovered(env, msg)
    ensures var m' := TransitionDb(env, msg, DIRECT, intr, evm, fault, m).0;
            var stage := StageOf(env, msg, DIRECT, intr, fault, m);
            stage.Ran? || stage.Settled? ==>
            var used := GasUsed(m');
            && used <= msg.gas
            && (stage.Settled? ==>
                 && TipAmount(env, msg, m') == Cost(used, EffectiveTip(env, msg))
                 && BurnAmount(env, msg, m') == ExactBurn(env, msg, used, BlobCost(env, msg)))
            && Total(m'.state.accounts)
               == Total(m.state.accounts) + EvmNet(env, msg, intr, evm, fault, m)
                  - Cost(msg.gas, msg.gasPrice) - BlobCost(env, msg) + Unpaid(env, msg, fault)
                  + Refunded(msg, stage, fault, used)
                  + (if stage.Settled? then Tipped(env, msg, fault, m') + Burnt(env, msg, fault, m') else 0)
            && Total(m'.state.accounts) <= Total(m.state.accounts) + Unpaid(env, msg, fault)
  {
    hide TransitionDb, StageOf, Settle, TipAmount, BurnAmount, BlobCost, ExactBurn, Cost, Affordable, FeesCovered,
         EffectiveTip, CheckPrices, PreCheck, Prepare, Unpaid;
    RunShape(env, msg, intr, evm, fault, m);
    var stage := StageOf(env, msg, DIRECT, intr, fault, m);
    if stage.Ran? || stage.Settled? {
      ReachesEvm(env, msg, intr, fault, m);
      var run := Execute(msg, DIRECT, evm, fault, BeforeEvm(env, msg, intr, fault, m)).0;
      assert Total(run.state.accounts) <= Total(BeforeEvm(env, msg, intr, fault, m).state.accounts);
      if !Panics(fault, EvmRun) {
        Settlement(env, msg, intr, fault, m, run);
        SameFees(env, msg, Settle(env, msg, intr, fault, run), TransitionDb(env, msg, DIRECT, intr, evm, fault, m).0);
      }
    }
  }

  /** Refund and fees. */
  function Settle(env: Env, msg: Message, intr: Intrinsic, fault: Fault, m: Machine): Machine {
    var (m1, e1) := RefundGas(env, msg, DIRECT, intr, fault, m);
    if e1 == Proceed then PayFees(env, msg, DIRECT, fault, m1).0 else m1
  }

  /** A run that enters the virtual machine passed the checks before, and but for the
      recovery of a panic is its entry, the machine and the settlement. */
  lemma RunShape(env: Env, msg: Message, intr: Intrinsic, evm: Evm, fault: Fault, m: Machine)
    ensures var m' := TransitionDb(env, msg, DIRECT, intr, evm, fault, m).0;
            var stage := StageOf(env, msg, DIRECT, intr, fault, m);
            stage.Ran? || stage.Settled? ==>
              var m1 := PreCheck(env, msg, false, fault, m).0;
              var run := Execute(msg, DIRECT, evm, fault, BeforeEvm(env, msg, intr, fault, m)).0;
              && PreCheck(env, msg, false, fault, m).1 == Proceed && CheckPrices(env, msg) == Proceed
              && Prepare(env, msg, DIRECT, intr, fault, m1).1 == Proceed
              && (stage.Ran? <==> Panics(fault, EvmRun) || Panics(fault, RefundCredit))
              && m' == (if Panics(fault, EvmRun) then run else Settle(env, msg, intr, fault, run)).(poolGas := m'.poolGas)
  {
    hide CheckNonce, CheckPrices, BuyGas, Prepare, RefundGas, PayFees, MakeResult, EvmFailed;
  }

  /** What holds when the virtual machine is entered. */
  lemma ReachesEvm(env: Env, msg: Message, intr: Intrinsic, fault: Fault, m: Machine)
    requires m.gasRemaining == m.initialGas == 0 && msg.gasPrice <= msg.feeCap && Affordable(env, msg, m)
    requires PreCheck(env, msg, false, fault, m).1 == Proceed
    requires Prepare(env, msg, DIRECT, intr, fault, PreCheck(env, msg, false, fault, m).0).1 == Proceed
    ensures var b := BeforeEvm(env, msg, intr, fault, m);
            && b.gasRemaining <= b.initialGas == msg.gas && intr.floor <= msg.gas && b.blobFee == BlobCost(env, msg)
            && Total(b.state.accounts)
               == Total(m.state.accounts) - Cost(msg.gas, msg.gasPrice) - BlobCost(env, msg) + Unpaid(env, msg, fault)
  {
    hide PreCheck, Prepare, Charge, RequiredBalance, CheckPrices, BlobCost, Cost, Affordable;
    PurchaseGas(env, msg, DIRECT, fault, m);
    PurchaseTotal(env, msg, false, fault, m);
    PurchaseShape(env, msg, false, fault, m);
    var m1 := PreCheck(env, msg, false, fault, m).0;
    PrepareKeepsTotal(env, msg, DIRECT, intr, fault, m1);
    PrepareGas(env, msg, DIRECT, intr, fault, m, m1);
  }

  /** Refund and fees after the virtual machine, at whatever point they stop. */
  lemma Settlement(env: Env, msg: Message, intr: Intrinsic, fault: Fault, m0: Machine, m: Machine)
    requires m.gasRemaining <= m.initialGas == msg.gas && intr.floor <= msg.gas && m.blobFee == BlobCost(env, msg)
    requires Cost(msg.gas, msg.gasPrice) + BlobCost(env, msg) <= Total(m0.state.accounts) + Unpaid(env, msg, fault)
    requires Total(m.state.accounts)
          <= Total(m0.state.accounts) - Cost(msg.gas, msg.gasPrice) - BlobCost(env, msg) + Unpaid(env, msg, fault)
    requires Total(m0.state.accounts) + Unpaid(env, msg, fault) < TWO_256 && FeesCovered(env, msg)
    ensures var m2 := Settle(env, msg, intr, fault, m);
            var used := GasUsed(m2);
            && used <= msg.gas
            && Total(m2.state.accounts) <= Total(m.state.accounts) + Cost(msg.gas, msg.gasPrice) + BlobCost(env, msg)
            && (Panics(fault, RefundCredit) ==> m2.state.accounts == m.state.accounts)
            && (!Panics(fault, RefundCredit) ==>
                 && TipAmount(env, msg, m2) == Cost(used, EffectiveTip(env, msg))
                 && BurnAmount(env, msg, m2) == ExactBurn(env, msg, used, BlobCost(env, msg))
                 && Total(m2.state.accounts) == Total(m.state.accounts) + Refunded(msg, Settled, fault, used)
                      + Tipped(env, msg, fault, m2) + Burnt(env, msg, fault, m2))
  {
    hide RefundGas, PayFees, EffectiveTip, TipAmount, BurnAmount, BlobCost, ExactBurn, BurnPrice, Cost, Unpaid;
    RefundStops(env, msg, intr, fault, m);
    var (m1, e1) := RefundGas(env, msg, DIRECT, intr, fault, m);
    if e1 != Proceed { return; }
    var start, run := Total(m0.state.accounts) + Unpaid(env, msg, fault), Total(m.state.accounts);
    var paid, fees := Cost(msg.gas, msg.gasPrice) + BlobCost(env, msg), EffectiveTip(env, msg) + BurnPrice(env, msg);
    CostSplits(0, msg.gas, msg.gasPrice);
    FeesFit(start, paid, run, run, msg.gas, msg.gas, msg.gasPrice, fees, m.blobFee, TWO_256);
    RefundTotal(env, msg, intr, fault, m);
    FeesFit(start, paid, run, Total(m1.state.accounts), msg.gas, GasUsed(m1), msg.gasPrice, fees, m.blobFee, TWO_256);
    FeesExact(env, msg, m1);
    FeesTotal(env, msg, fault, m1);
    SameFees(env, msg, m1, PayFees(env, msg, DIRECT, fault, m1).0);
  }

  lemma RefundStops(env: Env, msg: Message, intr: Intrinsic, fault: Fault, m: Machine)
    requires m.gasRemaining <= m.initialGas == msg.gas && intr.floor <= msg.gas
    ensures var (m1, e1) := RefundGas(env, msg, DIRECT, intr, fault, m);
            && GasUsed(m1) <= msg.gas && (e1 != Proceed <==> Panics(fault, RefundCredit))
            && (e1 != Proceed ==> m1.state.accounts == m.state.accounts)
  {
    ChargeBounds(env, DIRECT, intr, m);
  }

  lemma SameFees(env: Env, msg: Message, m: Machine, m': Machine)
    requires GasUsed(m') == GasUsed(m) && m'.blobFee == m.blobFee
    ensures TipAmount(env, msg, m') == TipAmount(env, msg, m) && BurnAmount(env, msg, m') == BurnAmount(env, msg, m)
  {
  }

  // ----- conservation -----

  /** The price a message carries when it is made from a transaction: under London the
      fee cap, or base fee plus tip if that is less; never above the cap. */
  predicate PriceOfMessage(env: Env, msg: Message) {
    msg.gasPrice <= msg.feeCap && (env.rules.london ==> Priced(env, msg))
  }

  /** In its context, a message that passes the price checks pays for its fees.  Where the
      base-fee check is made the price is base fee plus tip; where it is skipped there is
      no price, no tip and, in that context, no base fee. */
  lemma PriceSplits(outer: Env, msg: Message)
    requires PriceOfMessage(outer, msg)
    ensures var env := ContextOf(outer, msg);
            && (SkipsFeeCheck(env, msg) && env.rules.london ==> env.baseFee == 0)
            && (CheckPrices(env, msg) == Proceed ==> FeesCovered(env, msg))
            && (CheckPrices(env, msg) == Proceed && env.rules.london && !msg.isFree ==>
                 msg.gasPrice == env.baseFee + EffectiveTip(env, msg))
  {
  }

  /** An executed run is one that was settled and not stopped in its fees. */
  lemma ExecutedIsSettled(env: Env, msg: Message, intr: Intrinsic, evm: Evm, fault: Fault, m: Machine)
    ensures var (m', out) := TransitionDb(env, msg, DIRECT, intr, evm, fault, m);
            out.Executed? ==>
              && StageOf(env, msg, DIRECT, intr, fault, m) == Settled && CheckPrices(env, msg) == Proceed
              && At(fault, TipCredit) == Proceed && (Burns(env, msg) ==> !Panics(fault, BurnCredit))
              && out.result.gasUsed == GasUsed(m')
              && out.result.feeTipped == TipAmount(env, msg, m') && out.result.feeBurnt == BurnAmount(env, msg, m')
  {
    hide CheckNonce, CheckPrices, BuyGas, Prepare, TipAmount, BurnAmount, EvmFailed;
  }

  /** What keeps an executed run from conserving: the debits, the refund and the burn that
      the store refused unnoticed. */
  function Drift(env: Env, msg: Message, fault: Fault, used: nat, feeBurnt: nat): int
    requires used <= msg.gas
  {
    Unpaid(env, msg, fault)
    - (if Refuses(fault, RefundCredit) then Cost(msg.gas - used, msg.gasPrice) else 0)
    - (if Refuses(fault, BurnCredit) then feeBurnt else 0)
  }

  /** The total as conservation would have it: the machine's own net change, less base
      fee and blob fee, plus what goes to the burnt contract. */
  ghost function ConservedTotal(env: Env, msg: Message, intr: Intrinsic, evm: Evm, fault: Fault, m: Machine, r: Result): int {
    Total(m.state.accounts) + EvmNet(env, msg, intr, evm, fault, m)
    - Cost(r.gasUsed, env.baseFee) - BlobCost(env, msg) + r.feeBurnt
  }

  /** Value conservation under London, whatever the store refuses: an executed run is off
      by exactly the drift, so it conserves if and only if the drift is zero.  Under Aura
      and Prague with a burnt contract a conserving run loses nothing. */
  lemma Conservation(outer: Env, msg: Message, intr: Intrinsic, evm: Evm, fault: Fault, m: Machine)
    requires GasHonest(evm) && NeverMints(evm)
    requires m.gasRemaining == m.initialGas == 0 && Total(m.state.accounts) + Unpaid(outer, msg, fault) < TWO_256
    requires outer.rules.london && !msg.isFree && PriceOfMessage(outer, msg) && Affordable(outer, msg, m)
    ensures var env := ContextOf(outer, msg);
            var (m', out) := TransitionDb(env, msg, DIRECT, intr, evm, fault, m);
            out.Executed? ==>
            var r := out.result;
            var conserved := ConservedTotal(env, msg, intr, evm, fault, m, r);
            && r.gasUsed <= msg.gas
            && Total(m'.state.accounts) == conserved + Drift(env, msg, fault, r.gasUsed, r.feeBurnt)
            && (Total(m'.state.accounts) == conserved <==> Drift(env, msg, fault, r.gasUsed, r.feeBurnt) == 0)
            && r.feeTipped == Cost(r.gasUsed, EffectiveTip(env, msg))
            && r.feeBurnt == ExactBurn(env, msg, r.gasUsed, BlobCost(env, msg))
            && (env.burntContract.Some? && env.rules.aura && env.rules.prague ==>
                 conserved == Total(m.state.accounts) + EvmNet(env, msg, intr, evm, fault, m))
  {
    hide CheckPrices, TransitionDb, StageOf, EvmNet, BlobCost, EffectiveTip, Cost, FeesCovered, BurnAmount, TipAmount;
    var env := ContextOf(outer, msg);
    PriceSplits(outer, msg);
    SameBlobCost(outer, msg);
    ExecutedIsSettled(env, msg, intr, evm, fault, m);
    ValueAfterRunning(env, msg, intr, evm, fault, m);
    if TransitionDb(env, msg, DIRECT, intr, evm, fault, m).1.Executed? {
      var used := TransitionDb(env, msg, DIRECT, intr, evm, fault, m).1.result.gasUsed;
      CostSplits(msg.gas - used, used, msg.gasPrice);
      CostSplits(env.baseFee, EffectiveTip(env, msg), used);
      NoBurn(env, msg, TransitionDb(env, msg, DIRECT, intr, evm, fault, m).0);
    }
  }

  lemma SameBlobCost(outer: Env, msg: Message)
    ensures BlobCost(ContextOf(outer, msg), msg) == BlobCost(outer, msg)
  {
  }

  /** With a store that refuses nothing, wherever it may stop the run, every executed run
      conserves. */
  lemma UnrefusedConservation(outer: Env, msg: Message, intr: Intrinsic, evm: Evm, fault: Fault, m: Machine)
    requires GasHonest(evm) && NeverMints(evm)
    requires m.gasRemaining == m.initialGas == 0 && Total(m.state.accounts) < TWO_256
    requires outer.rules.london && !msg.isFree && PriceOfMessage(outer, msg) && Affordable(outer, msg, m)
    requires fault.refused == {}
    ensures var env := ContextOf(outer, msg);
            var (m', out) := TransitionDb(env, msg, DIRECT, intr, evm, fault, m);
            out.Executed? ==>
              Total(m'.state.accounts) == ConservedTotal(env, msg, intr, evm, fault, m, out.result)
  {
    hide CheckPrices, TransitionDb, EvmNet, BlobCost, EffectiveTip, ConservedTotal, Cost;
    Conservation(outer, msg, intr, evm, fault, m);
  }

  /** A store that keeps the sender's account once it was loaded can refuse the refund
      only if it refused the debit too, or if there was nothing to debit. */
  predicate KeepsSender(msg: Message, fault: Fault) {
    Refuses(fault, RefundCredit) ==> Refuses(fault, GasDebit) || Cost(msg.gas, msg.gasPrice) == 0
  }

  /** With such a store no refund is lost: a run drifts down only by a refused burn. */
  lemma KeptSenderLosesNoRefund(env: Env, msg: Message, fault: Fault, used: nat, feeBurnt: nat)
    requires used <= msg.gas && KeepsSender(msg, fault)
    ensures Drift(env, msg, fault, used, feeBurnt) >= if Refuses(fault, BurnCredit) then -(feeBurnt as int) else 0
  {
    CostMono(msg.gas - used, msg.gas, msg.gasPrice);
  }

  // ----- deferred fees -----

  /** Accounts that read the same everywhere. */
  ghost predicate SameAccounts(x: Accounts, y: Accounts) {
    forall a: Address :: Get(x, a) == Get(y, a)
  }

  /** The credits left to the caller of a deferred run. */
  ghost function CreditFees(env: Env, m: Accounts, r: Result): Accounts {
    AddBalance(AddBalance(m, env.coinbase, r.feeTipped), r.burntContract, r.feeBurnt)
  }

  /** Before the fees nothing looks at the deferral flag. */
  lemma SamePhases(env: Env, msg: Message, opts: Options, intr: Intrinsic, evm: Evm, fault: Fault, m: Machine)
    ensures var o, o' := opts.(noFeeBurnAndTip := true), opts.(noFeeBurnAndTip := false);
            && Prepare(env, msg, o, intr, fault, m) == Prepare(env, msg, o', intr, fault, m)
            && Execute(msg, o, evm, fault, m) == Execute(msg, o', evm, fault, m)
            && RefundGas(env, msg, o, intr, fault, m) == RefundGas(env, msg, o', intr, fault, m)
            && PayFees(env, msg, o, fault, m) == (m, Proceed)
  {
    hide ApplyAuthorizations, BumpNonce;
  }

  /** The first four phases do not look at the deferral flag; only the read of the
      coinbase's balance does. */
  lemma DeferralIsLate(env: Env, msg: Message, opts: Options, intr: Intrinsic, evm: Evm, fault: Fault, m: Machine)
    requires At(fault, CoinbaseBalance) == Proceed
    ensures var o, o' := opts.(noFeeBurnAndTip := true), opts.(noFeeBurnAndTip := false);
            var (d, de) := Phases(env, msg, o, intr, evm, fault, m);
            && Phases(env, msg, o', intr, evm, fault, m) == (if de == Proceed then PayFees(env, msg, o', fault, d) else (d, de))
            && EvmFailed(env, msg, o', intr, evm, fault, m) == EvmFailed(env, msg, o, intr, evm, fault, m)
  {
    hide PreCheck, Prepare, Execute, RefundGas, PayFees;
    var o := opts.(noFeeBurnAndTip := true);
    var m1 := PreCheck(env, msg, opts.gasBailout, fault, m).0;
    SamePhases(env, msg, opts, intr, evm, fault, m1);
    var m2 := Prepare(env, msg, o, intr, fault, m1).0;
    SamePhases(env, msg, opts, intr, evm, fault, m2);
    var m3 := Execute(msg, o, evm, fault, m2).0;
    SamePhases(env, msg, opts, intr, evm, fault, m3);
    SamePhases(env, msg, opts, intr, evm, fault, RefundGas(env, msg, o, intr, fault, m3).0);
  }

  /** The faults that stop a direct run where the deferred one goes on. */
  predicate StopsDirect(env: Env, msg: Message, fault: Fault) {
    At(fault, CoinbaseBalance) != Proceed || At(fault, TipCredit) != Proceed || (Panics(fault, BurnCredit) && Burns(env, msg))
  }

  /** A credit that is not nothing shows. */
  lemma CreditShows(m: Accounts, a: Address, x: uint256)
    ensures SameAccounts(m, AddBalance(m, a, x)) <==> x == 0
  {
    if x != 0 { assert Get(AddBalance(m, a, x), a) != Get(m, a); }
  }

  /** Paying the fees in the transition is crediting them afterwards, unless the burn
      was refused unnoticed and is not nothing. */
  lemma PaidLikeCredited(env: Env, msg: Message, opts: Options, failed: bool, fault: Fault, start: State, d: Machine)
    requires !opts.noFeeBurnAndTip && PayFees(env, msg, opts, fault, d).1 == Proceed
    ensures var x := PayFees(env, msg, opts, fault, d).0.state.accounts;
            var r := MakeResult(env, msg, opts.(noFeeBurnAndTip := true), failed, start, d);
            SameAccounts(x, CreditFees(env, d.state.accounts, r)) <==> !(Refuses(fault, BurnCredit) && r.feeBurnt != 0)
  {
    hide TipAmount, BurnAmount, AddBalance, SameAccounts;
    var tipped := AddBalance(d.state.accounts, env.coinbase, TipAmount(env, msg, d));
    NoBurn(env, msg, d);
    if Burns(env, msg) {
      CreditShows(tipped, env.burntContract.value, BurnAmount(env, msg, d));
    } else {
      CreditShows(tipped, 0, 0);
    }
    SameAsItself(tipped, if Burns(env, msg) then env.burntContract.value else 0, BurnAmount(env, msg, d));
  }

  lemma SameAsItself(m: Accounts, a: Address, x: uint256)
    ensures SameAccounts(AddBalance(m, a, x), AddBalance(m, a, x))
  {
  }

  /** Paying the fees leaves pool and report alone, and stops at its own faults only. */
  lemma PayingReports(env: Env, msg: Message, opts: Options, failed: bool, fault: Fault, start: State, d: Machine)
    requires !opts.noFeeBurnAndTip && At(fault, CoinbaseBalance) == Proceed
    ensures var (x, exit) := PayFees(env, msg, opts, fault, d);
            && (exit == Proceed <==> !StopsDirect(env, msg, fault))
            && x.poolGas == d.poolGas && x.poolBlobGas == d.poolBlobGas
            && MakeResult(env, msg, opts, failed, start, x).(coinbaseInitBalance := 0)
               == MakeResult(env, msg, opts.(noFeeBurnAndTip := true), failed, start, d)
  {
    hide TipAmount, BurnAmount;
    SameFees(env, msg, d, PayFees(env, msg, opts, fault, d).0);
  }

  /** Deferring the fees and crediting the reported amounts afterwards, in either order,
      leaves the accounts of the direct run, whatever the aliasing of sender, coinbase
      and burnt contract, for every fault but a refused burn; the two runs accept and
      reject alike for every fault but those on the coinbase's balance, the tip and the
      burn. */
  lemma DeferredFees(env: Env, msg: Message, opts: Options, intr: Intrinsic, evm: Evm, fault: Fault, m: Machine)
    ensures var (d, dout) := TransitionDb(env, msg, opts.(noFeeBurnAndTip := true), intr, evm, fault, m);
            var (x, xout) := TransitionDb(env, msg, opts.(noFeeBurnAndTip := false), intr, evm, fault, m);
            && (xout.Executed? <==> dout.Executed? && !StopsDirect(env, msg, fault))
            && (!dout.Executed? && At(fault, CoinbaseBalance) == Proceed ==> dout == xout && d == x)
            && (xout.Executed? ==>
                 && (SameAccounts(x.state.accounts, CreditFees(env, d.state.accounts, dout.result)) <==>
                      !(Refuses(fault, BurnCredit) && dout.result.feeBurnt != 0))
                 && CreditFees(env, d.state.accounts, dout.result)
                    == AddBalance(AddBalance(d.state.accounts, dout.result.burntContract, dout.result.feeBurnt),
                                  env.coinbase, dout.result.feeTipped)
                 && xout.result.(coinbaseInitBalance := 0) == dout.result
                 && d.poolGas == x.poolGas && d.poolBlobGas == x.poolBlobGas)
  {
    hide Phases, PayFees, EvmFailed, MakeResult, AddBalance, SameAccounts, StopsDirect;
    if At(fault, CoinbaseBalance) != Proceed {
      StopsAtOnce(env, msg, opts, intr, evm, fault, m);
      return;
    }
    DeferralIsLate(env, msg, opts, intr, evm, fault, m);
    var (d, dout) := TransitionDb(env, msg, opts.(noFeeBurnAndTip := true), intr, evm, fault, m);
    if dout.Executed? {
      var o', r := opts.(noFeeBurnAndTip := false), dout.result;
      var failed := EvmFailed(env, msg, o', intr, evm, fault, m);
      PayingReports(env, msg, o', failed, fault, m.state, d);
      CreditsCommute(d.state.accounts, env.coinbase, r.feeTipped, r.burntContract, r.feeBurnt);
      if PayFees(env, msg, o', fault, d).1 == Proceed {
        PaidLikeCredited(env, msg, o', failed, fault, m.state, d);
      }
    }
  }

  lemma StopsAtOnce(env: Env, msg: Message, opts: Options, intr: Intrinsic, evm: Evm, fault: Fault, m: Machine)
    requires At(fault, CoinbaseBalance) != Proceed
    ensures StopsDirect(env, msg, fault)
    ensures !TransitionDb(env, msg, opts.(noFeeBurnAndTip := false), intr, evm, fault, m).1.Executed?
  {
    hide PreCheck, Prepare, Execute, RefundGas, PayFees, MakeResult;
  }
}
