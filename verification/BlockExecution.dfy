/** The transaction loop of a block: one gas pool and two running counters shared
    by all transactions, receipts carrying the cumulative gas. */
module BlockExecution {
  import opened Common
  import opened Ledger
  import opened GasPools
  import opened Transition
  import opened TransitionTheorems
  import opened ValueTheorems
  import opened TransitionWitnesses
  import opened StateTransitions

  /** A transaction with everything unseen code decides about it: whether it turns
      into a message, how it executes, where the store fails, and whether the
      pending changes can be finalized. */
  datatype Txn = Txn(
    msg: Message, blobGas: uint64, intr: Intrinsic, evm: Evm, fault: Fault,
    convertible: bool, finalize: State -> Option<State>)

  datatype Receipt = Receipt(gasUsed: uint64, cumulativeGasUsed: uint64, succeeded: bool)

  datatype Config = Config(env: Env, stateless: bool, noReceipts: bool)

  datatype Block = Block(
    state: State, poolGas: nat, poolBlobGas: nat, gasUsed: uint64, usedBlobGas: uint64,
    receipts: seq<Receipt>, included: seq<nat>, rejected: seq<nat>, stopped: bool)

  function Begin(state: State, gasLimit: uint64, maxBlobGas: uint64): Block {
    Block(state, gasLimit, maxBlobGas, 0, 0, [], [], [], false)
  }

  function MessageOf(cfg: Config, t: Txn): Message {
    t.msg.(checkNonce := !cfg.stateless)
  }

  /** A failing transaction ends the block unless execution is stateless; a crash
      always does. */
  function Reject(cfg: Config, b: Block, i: nat, crashed: bool): Block {
    if cfg.stateless && !crashed then b.(rejected := b.rejected + [i]) else b.(stopped := true)
  }

  /** One turn of the loop. */
  function Apply(cfg: Config, b: Block, t: Txn, i: nat): Block {
    if !t.convertible then Reject(cfg, b, i, false)
    else
      var (m, out) := TransitionDb(cfg.env, MessageOf(cfg, t), DIRECT, t.intr, t.evm, t.fault,
                                   Start(b.state, b.poolGas, b.poolBlobGas));
      var b1 := b.(state := m.state, poolGas := m.poolGas, poolBlobGas := m.poolBlobGas);
      if !out.Executed? then Reject(cfg, b1, i, out.Crashed?)
      else if t.finalize(b1.state).None? then Reject(cfg, b1, i, false)
      else
        var total := Add64(b1.gasUsed, out.result.gasUsed);
        b1.(state := t.finalize(b1.state).value, gasUsed := total,
            usedBlobGas := Add64(b1.usedBlobGas, t.blobGas), included := b1.included + [i],
            receipts := if cfg.noReceipts then b1.receipts
                        else b1.receipts + [Receipt(out.result.gasUsed, total, !out.result.failed)])
  }

  /** The block after the first `k` transactions. */
  function Prefix(cfg: Config, start: Block, txs: seq<Txn>, k: nat): Block
    requires k <= |txs|
  {
    if k == 0 then start
    else
      var b := Prefix(cfg, start, txs, k - 1);
      if b.stopped then b else Apply(cfg, b, txs[k - 1], k - 1)
  }

  /** What the message conversion and the virtual machine owe the loop. */
  ghost predicate WellFormed(cfg: Config, t: Txn) {
    GasHonest(t.evm) && t.msg.blobGas == t.blobGas && (t.blobGas > 0 ==> cfg.env.rules.cancun)
  }

  ghost function SumGas(rs: seq<Receipt>, k: nat): nat
    requires k <= |rs|
  {
    if k == 0 then 0 else SumGas(rs, k - 1) + rs[k - 1].gasUsed
  }

  lemma {:induction false} SumGasPrefix(rs: seq<Receipt>, r: Receipt, k: nat)
    requires k <= |rs|
    ensures SumGas(rs + [r], k) == SumGas(rs, k)
  {
    if k != 0 { SumGasPrefix(rs, r, k - 1); }
  }

  /** How a transaction ends on a block: the machine it leaves and its outcome. */
  function Outcomes(cfg: Config, b: Block, t: Txn): (Machine, Outcome) {
    TransitionDb(cfg.env, MessageOf(cfg, t), DIRECT, t.intr, t.evm, t.fault, Start(b.state, b.poolGas, b.poolBlobGas))
  }

  predicate Included(cfg: Config, b: Block, t: Txn) {
    t.convertible && Outcomes(cfg, b, t).1.Executed? && t.finalize(Outcomes(cfg, b, t).0.state).Some?
  }

  /** The gas a transaction takes from the block without being counted: none if it is
      included, else what its exit keeps. */
  function LostGas(cfg: Config, b: Block, t: Txn): int {
    if !t.convertible || Included(cfg, b, t) then 0
    else
      var (m, out) := Outcomes(cfg, b, t);
      var stage := StageOf(cfg.env, MessageOf(cfg, t), DIRECT, t.intr, t.fault, Start(b.state, b.poolGas, b.poolBlobGas));
      Kept(MessageOf(cfg, t), DIRECT, stage, GasUsed(m)) - if out.Aborted? then GasUsed(m) else 0
  }

  function LostBlobGas(cfg: Config, b: Block, t: Txn): nat {
    if !t.convertible || Included(cfg, b, t) then 0
    else if DrawsBlobGas(cfg.env, MessageOf(cfg, t), DIRECT, t.fault, Start(b.state, b.poolGas, b.poolBlobGas))
    then t.blobGas else 0
  }

  function GasLoss(cfg: Config): (Block, Txn) -> int { (b, t) => LostGas(cfg, b, t) }

  function BlobLoss(cfg: Config): (Block, Txn) -> int { (b, t) => LostBlobGas(cfg, b, t) }

  /** What the first `k` transactions lost together. */
  function Lost(cfg: Config, start: Block, txs: seq<Txn>, k: nat, loss: (Block, Txn) -> int): int
    requires k <= |txs|
  {
    if k == 0 then 0
    else
      var b := Prefix(cfg, start, txs, k - 1);
      Lost(cfg, start, txs, k - 1, loss) + if b.stopped then 0 else loss(b, txs[k - 1])
  }

  /** The loop's accounting: pool, counters and losses add up to the limits; every
      receipt carries its prefix sum. */
  ghost predicate Accounted(cfg: Config, b: Block, lost: int, lostBlobs: int, gasLimit: nat, maxBlobGas: nat) {
    && 0 <= lost && b.poolGas + b.gasUsed + lost == gasLimit
    && 0 <= lostBlobs && b.poolBlobGas + b.usedBlobGas + lostBlobs == maxBlobGas
    && (!cfg.noReceipts ==> |b.receipts| == |b.included| && b.gasUsed == SumGas(b.receipts, |b.receipts|))
    && (forall i :: 0 <= i < |b.receipts| ==> b.receipts[i].cumulativeGasUsed == SumGas(b.receipts, i + 1))
  }

  /** The pool is down by what is counted and what is lost, in no other way. */
  lemma ApplyLoses(cfg: Config, b: Block, t: Txn, i: nat)
    requires WellFormed(cfg, t)
    ensures var b', out := Apply(cfg, b, t, i), Outcomes(cfg, b, t).1;
            && 0 <= LostGas(cfg, b, t)
            && b'.poolGas == b.poolGas - LostGas(cfg, b, t) - (if Included(cfg, b, t) then out.result.gasUsed else 0)
            && b'.poolBlobGas == b.poolBlobGas - LostBlobGas(cfg, b, t) - (if Included(cfg, b, t) then t.blobGas else 0)
            && (!Included(cfg, b, t) ==>
                 b'.gasUsed == b.gasUsed && b'.usedBlobGas == b.usedBlobGas && b'.receipts == b.receipts && b'.included == b.included)
  {
    hide TransitionDb, StageOf, DrawsBlobGas;
    if t.convertible {
      var msg, start := MessageOf(cfg, t), Start(b.state, b.poolGas, b.poolBlobGas);
      GasOnEveryExit(cfg.env, msg, DIRECT, t.intr, t.evm, t.fault, start);
      PoolOnEveryExit(cfg.env, msg, DIRECT, t.intr, t.evm, t.fault, start);
    }
  }

  lemma ApplyAccounts(
      cfg: Config, b: Block, t: Txn, i: nat, lost: int, lostBlobs: int, gasLimit: uint64, maxBlobGas: uint64)
    requires WellFormed(cfg, t) && Accounted(cfg, b, lost, lostBlobs, gasLimit, maxBlobGas) && !b.stopped
    ensures Accounted(cfg, Apply(cfg, b, t, i), lost + LostGas(cfg, b, t), lostBlobs + LostBlobGas(cfg, b, t), gasLimit, maxBlobGas)
  {
    hide TransitionDb, LostGas, LostBlobGas;
    ApplyLoses(cfg, b, t, i);
    var b' := Apply(cfg, b, t, i);
    if |b'.receipts| > |b.receipts| {
      var r := b'.receipts[|b.receipts|];
      forall j | 0 <= j <= |b.receipts| ensures SumGas(b'.receipts, j) == SumGas(b.receipts, j) {
        SumGasPrefix(b.receipts, r, j);
      }
    }
  }

  /** After every prefix of the loop the accounting holds, so the gas used never passes
      the block's limit and neither counter wraps. */
  lemma {:induction false} BlockGas(
      cfg: Config, state: State, gasLimit: uint64, maxBlobGas: uint64, txs: seq<Txn>, k: nat)
    requires k <= |txs| && forall i :: 0 <= i < |txs| ==> WellFormed(cfg, txs[i])
    ensures var start := Begin(state, gasLimit, maxBlobGas);
            Accounted(cfg, Prefix(cfg, start, txs, k),
                      Lost(cfg, start, txs, k, GasLoss(cfg)),
                      Lost(cfg, start, txs, k, BlobLoss(cfg)), gasLimit, maxBlobGas)
  {
    hide Apply, LostGas, LostBlobGas;
    if k != 0 {
      var start := Begin(state, gasLimit, maxBlobGas);
      BlockGas(cfg, state, gasLimit, maxBlobGas, txs, k - 1);
      var b := Prefix(cfg, start, txs, k - 1);
      if !b.stopped {
        ApplyAccounts(cfg, b, txs[k - 1], k - 1, Lost(cfg, start, txs, k - 1, GasLoss(cfg)),
                      Lost(cfg, start, txs, k - 1, BlobLoss(cfg)), gasLimit, maxBlobGas);
      }
    }
  }

  lemma LossIsNat(cfg: Config, b: Block, t: Txn)
    requires WellFormed(cfg, t)
    ensures 0 <= LostGas(cfg, b, t)
  {
    hide Apply, LostGas, LostBlobGas, Included, Outcomes;
    ApplyLoses(cfg, b, t, 0);
  }

  /** Transaction `j` was not reached, or lost nothing. */
  predicate LosesNothing(cfg: Config, start: Block, txs: seq<Txn>, j: nat, loss: (Block, Txn) -> int)
    requires j < |txs|
  {
    var b := Prefix(cfg, start, txs, j);
    b.stopped || loss(b, txs[j]) == 0
  }

  lemma {:induction false} NothingLost(cfg: Config, start: Block, txs: seq<Txn>, k: nat, loss: (Block, Txn) -> int)
    requires k <= |txs| && forall j :: 0 <= j < k ==> 0 <= loss(Prefix(cfg, start, txs, j), txs[j])
    ensures var lost := Lost(cfg, start, txs, k, loss);
            0 <= lost && (lost == 0 <==> forall j :: 0 <= j < k ==> LosesNothing(cfg, start, txs, j, loss))
  {
    hide Prefix;
    if k != 0 {
      NothingLost(cfg, start, txs, k - 1, loss);
      var last := LosesNothing(cfg, start, txs, k - 1, loss);
      assert (forall j :: 0 <= j < k ==> LosesNothing(cfg, start, txs, j, loss))
        <==> last && forall j :: 0 <= j < k - 1 ==> LosesNothing(cfg, start, txs, j, loss);
    }
  }

  /** Pool gas and gas used make up the block's limit if and only if no transaction that
      was reached has lost gas; so for blob gas. */
  lemma FullIffNothingLost(cfg: Config, state: State, gasLimit: uint64, maxBlobGas: uint64, txs: seq<Txn>, k: nat)
    requires k <= |txs| && forall i :: 0 <= i < |txs| ==> WellFormed(cfg, txs[i])
    ensures var start := Begin(state, gasLimit, maxBlobGas);
            var b := Prefix(cfg, start, txs, k);
            && (b.poolGas + b.gasUsed == gasLimit <==>
                 forall j :: 0 <= j < k ==> LosesNothing(cfg, start, txs, j, GasLoss(cfg)))
            && (b.poolBlobGas + b.usedBlobGas == maxBlobGas <==>
                 forall j :: 0 <= j < k ==> LosesNothing(cfg, start, txs, j, BlobLoss(cfg)))
  {
    hide Apply, LostGas, LostBlobGas, LosesNothing, Prefix;
    BlockGas(cfg, state, gasLimit, maxBlobGas, txs, k);
    var start := Begin(state, gasLimit, maxBlobGas);
    forall j | 0 <= j < k ensures 0 <= LostGas(cfg, Prefix(cfg, start, txs, j), txs[j]) {
      LossIsNat(cfg, Prefix(cfg, start, txs, j), txs[j]);
    }
    NothingLost(cfg, start, txs, k, GasLoss(cfg));
    NothingLost(cfg, start, txs, k, BlobLoss(cfg));
  }

  /** Without faults, what a transaction loses: its gas if it was rejected after it had
      bought it, the gas it used if only the finalization failed, and else nothing; a
      refused purchase loses none. */
  lemma LossWithoutFaults(cfg: Config, b: Block, t: Txn)
    requires WellFormed(cfg, t) && t.fault == NO_FAULT
    ensures var (out, msg) := (Outcomes(cfg, b, t).1, MessageOf(cfg, t));
            var bought := PreCheck(cfg.env, msg, false, NO_FAULT, Start(b.state, b.poolGas, b.poolBlobGas)).1 == Proceed;
            LostGas(cfg, b, t) ==
              if !t.convertible || Included(cfg, b, t) then 0
              else if out.Executed? then out.result.gasUsed
              else if bought then msg.gas else 0
  {
    hide TransitionDb, PreCheck, StageOf, DrawsBlobGas;
    if t.convertible {
      var msg, start := MessageOf(cfg, t), Start(b.state, b.poolGas, b.poolBlobGas);
      OnlyRejects(cfg.env, msg, t.intr, t.evm, start);
      GasOnEveryExit(cfg.env, msg, DIRECT, t.intr, t.evm, NO_FAULT, start);
      PoolOnEveryExit(cfg.env, msg, DIRECT, t.intr, t.evm, NO_FAULT, start);
      RejectionKeeps(cfg.env, msg, DIRECT, t.intr, t.evm, start);
    }
  }

  lemma OnlyRejects(env: Env, msg: Message, intr: Intrinsic, evm: Evm, m: Machine)
    ensures var out := TransitionDb(env, msg, DIRECT, intr, evm, NO_FAULT, m).1; out.Executed? || out.Rejected?
  {
    hide CheckNonce, CheckPrices, RequiredBalance, BlobCost, EvmFailed, MakeResult;
    NoPanics(env, msg, m);
  }

  lemma NoPanics(env: Env, msg: Message, m: Machine)
    ensures !CheckNonce(msg, NO_FAULT, m.state).Panicking? && !CheckPrices(env, msg).Panicking?
  {
  }

  /** A block of one message whose intrinsic gas is above its gas: the message is
      rejected, and its gas is neither in the pool nor counted. */
  lemma RejectionShrinksTheBlock()
    ensures var t := Txn(MSG, 0, Intrinsic(11, 0, false), IDLE, NO_FAULT, true, s => Some(s));
            var b := Prefix(Config(ENV, true, false), Begin(FUNDED, 100, 0), [t], 1);
            b.rejected == [0] && !b.stopped && b.gasUsed == 0 && b.poolGas == 90
  {
    var t := Txn(MSG, 0, Intrinsic(11, 0, false), IDLE, NO_FAULT, true, s => Some(s));
    var cfg := Config(ENV, true, false);
    RejectionIsNotUndone(false);
    assert Prefix(cfg, Begin(FUNDED, 100, 0), [t], 0) == Begin(FUNDED, 100, 0);
  }

  /** The loop of a block execution. */
  class BlockExecutor {
    const cfg: Config
    const gp: GasPool
    var state: State
    var gasUsed: uint64
    var usedBlobGas: uint64
    var receipts: seq<Receipt>
    var included: seq<nat>
    var rejected: seq<nat>
    var stopped: bool

    ghost function View(): Block
      reads this, gp
    {
      Block(state, gp.gas, gp.blobGas, gasUsed, usedBlobGas, receipts, included, rejected, stopped)
    }

    constructor (cfg: Config, state: State, gasLimit: uint64, maxBlobGas: uint64)
      ensures this.cfg == cfg && fresh(gp) && View() == Begin(state, gasLimit, maxBlobGas)
    {
      this.cfg, this.state := cfg, state;
      var pool := new GasPool(0, 0);
      pool.AddGas(gasLimit);
      pool.AddBlobGas(maxBlobGas);
      gp := pool;
      gasUsed, usedBlobGas, receipts, included, rejected, stopped := 0, 0, [], [], [], false;
    }

    /** Applies one transaction; on success the counters move and, unless receipts
        are off, a receipt is returned. */
    method ApplyTransaction(t: Txn) returns (ok: bool, crashed: bool, receipt: Option<Receipt>)
      requires GasHonest(t.evm)
      modifies this`state, this`gasUsed, this`usedBlobGas, gp
      ensures !ok ==> gasUsed == old(gasUsed) && usedBlobGas == old(usedBlobGas)
      ensures var b := old(View());
              forall i :: Apply(cfg, b, t, i) ==
                if ok then View().(included := included + [i],
                                   receipts := if receipt.Some? then receipts + [receipt.value] else receipts)
                else Reject(cfg, View(), i, crashed)
    {
      receipt := None;
      if !t.convertible { return false, false, None; }
      var msg := t.msg.(checkNonce := !cfg.stateless);
      var st := new StateTransition(gp, cfg.env, msg, t.intr, t.evm, t.fault, state);
      var out := st.TransitionDb(Options(true, false, false));
      state := st.state;
      if !out.Executed? { return false, out.Crashed?, None; }
      var final := t.finalize(state);
      if final.None? { return false, false, None; }
      state := final.value;
      gasUsed := Add64(gasUsed, out.result.gasUsed);
      usedBlobGas := Add64(usedBlobGas, t.blobGas);
      if !cfg.noReceipts {
        receipt := Some(Receipt(out.result.gasUsed, gasUsed, !out.result.failed));
      }
      return true, false, receipt;
    }

    method ExecuteTransactions(txs: seq<Txn>)
      requires !stopped
      requires forall i :: 0 <= i < |txs| ==> GasHonest(txs[i].evm)
      modifies this, gp
      ensures View() == Prefix(cfg, old(View()), txs, |txs|)
    {
      hide Apply;
      var i := 0;
      while i < |txs| && !stopped
        invariant 0 <= i <= |txs|
        invariant View() == Prefix(cfg, old(View()), txs, i)
      {
        var ok, crashed, receipt := ApplyTransaction(txs[i]);
        if !ok {
          if crashed || !cfg.stateless { stopped := true; } else { rejected := rejected + [i]; }
        } else {
          included := included + [i];
          if receipt.Some? { receipts := receipts + [receipt.value]; }
        }
        i := i + 1;
      }
      StoppedStays(cfg, old(View()), txs, i, |txs|);
    }
  }

  lemma {:induction false} StoppedStays(cfg: Config, start: Block, txs: seq<Txn>, i: nat, k: nat)
    requires i <= k <= |txs|
    ensures Prefix(cfg, start, txs, i).stopped || i == k ==> Prefix(cfg, start, txs, k) == Prefix(cfg, start, txs, i)
    decreases k
  {
    hide Apply;
    if i < k { StoppedStays(cfg, start, txs, i, k - 1); }
  }
}
