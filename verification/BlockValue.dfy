/** The total balance over a block: after every prefix of its transactions it is the
    start plus what each of them changed, whether it was included or not. */
module BlockValue {
  import opened Common
  import opened Ledger
  import opened Transition
  import opened TransitionTheorems
  import opened ValueTheorems
  import opened BlockExecution

  /** Writing the pending changes out does not move value. */
  ghost predicate FinalKeeps(t: Txn) {
    forall s: State :: t.finalize(s).Some? ==> Total(t.finalize(s).value.accounts) == Total(s.accounts)
  }

  /** What conversion, virtual machine and finalization owe the value accounts.  Blocks
      are executed with all price checks on. */
  ghost predicate Valued(cfg: Config, t: Txn) {
    && GasHonest(t.evm) && NeverMints(t.evm) && FinalKeeps(t)
    && !cfg.env.noBaseFee && PriceOfMessage(cfg.env, t.msg)
  }

  function StartOf(b: Block): Machine { Start(b.state, b.poolGas, b.poolBlobGas) }

  /** What a transaction does to the total: what its purchase charged if it did not get to
      the virtual machine, else the machine's own change, the payment, and the refund, tip
      and burn as far as it got. */
  ghost function ValueChange(cfg: Config, b: Block, t: Txn): int {
    var env, msg, m := cfg.env, MessageOf(cfg, t), Outcomes(cfg, b, t).0;
    var stage := StageOf(env, msg, DIRECT, t.intr, t.fault, StartOf(b));
    if !t.convertible || (stage.Unbought? && !Starts(DIRECT, t.fault)) then 0
    else if stage.Unbought? || stage.Bought? then -(Charged(env, msg, false, t.fault, StartOf(b)) as int)
    else
      EvmNet(env, msg, t.intr, t.evm, t.fault, StartOf(b))
      - Cost(msg.gas, msg.gasPrice) - BlobCost(env, msg) + Unpaid(env, msg, t.fault)
      + Refunded(msg, stage, t.fault, GasUsed(m))
      + if stage.Settled? then Tipped(env, msg, t.fault, m) + Burnt(env, msg, t.fault, m) else 0
  }

  /** One transaction moves the total by exactly that, and up by no more than the store
      let it go unpaid. */
  lemma ApplyMovesValue(cfg: Config, b: Block, t: Txn, i: nat)
    requires Valued(cfg, t) && Total(b.state.accounts) + Unpaid(cfg.env, t.msg, t.fault) < TWO_256
    ensures var b' := Apply(cfg, b, t, i);
            && Total(b'.state.accounts) == Total(b.state.accounts) + ValueChange(cfg, b, t)
            && Total(b'.state.accounts) <= Total(b.state.accounts) + Unpaid(cfg.env, t.msg, t.fault)
  {
    hide TransitionDb, StageOf, Charged, EvmNet, Cost, BlobCost, Tipped, Burnt, Refunded, Priced, FeesCovered, CheckPrices, Starts;
    if t.convertible {
      var msg := MessageOf(cfg, t);
      assert Unpaid(cfg.env, msg, t.fault) == Unpaid(cfg.env, t.msg, t.fault) && PriceOfMessage(cfg.env, msg) by {
        SameTerms(cfg, t);
      }
      PriceSplits(cfg.env, msg);
      ValueBeforeRunning(cfg.env, msg, DIRECT, t.intr, t.evm, t.fault, StartOf(b));
      ValueAfterRunning(cfg.env, msg, t.intr, t.evm, t.fault, StartOf(b));
      NotStarted(cfg.env, msg, t.intr, t.fault, StartOf(b));
    }
  }

  lemma SameTerms(cfg: Config, t: Txn)
    ensures Unpaid(cfg.env, MessageOf(cfg, t), t.fault) == Unpaid(cfg.env, t.msg, t.fault)
    ensures PriceOfMessage(cfg.env, MessageOf(cfg, t)) == PriceOfMessage(cfg.env, t.msg)
  {
  }

  lemma NotStarted(env: Env, msg: Message, intr: Intrinsic, fault: Fault, m: Machine)
    ensures !Starts(DIRECT, fault) ==> StageOf(env, msg, DIRECT, intr, fault, m) == Unbought
  {
  }

  /** The changes of the first `k` transactions together. */
  ghost function Changes(cfg: Config, start: Block, txs: seq<Txn>, k: nat): int
    requires k <= |txs|
  {
    if k == 0 then 0
    else
      var b := Prefix(cfg, start, txs, k - 1);
      Changes(cfg, start, txs, k - 1) + if b.stopped then 0 else ValueChange(cfg, b, txs[k - 1])
  }

  /** What the store may let go unpaid in the first `k` transactions. */
  function AllUnpaid(cfg: Config, txs: seq<Txn>, k: nat): nat
    requires k <= |txs|
  {
    if k == 0 then 0 else AllUnpaid(cfg, txs, k - 1) + Unpaid(cfg.env, txs[k - 1].msg, txs[k - 1].fault)
  }

  lemma {:induction false} UnpaidGrows(cfg: Config, txs: seq<Txn>, i: nat, k: nat)
    requires i <= k <= |txs|
    ensures AllUnpaid(cfg, txs, i) <= AllUnpaid(cfg, txs, k)
    decreases k
  {
    hide Unpaid;
    if i < k { UnpaidGrows(cfg, txs, i, k - 1); }
  }

  /** After every prefix of a block, for every choice of faults, the total is the start
      plus the changes of the transactions reached. */
  lemma {:induction false} BlockValueFlow(
      cfg: Config, state: State, gasLimit: uint64, maxBlobGas: uint64, txs: seq<Txn>, k: nat)
    requires k <= |txs| && forall i :: 0 <= i < |txs| ==> Valued(cfg, txs[i])
    requires Total(state.accounts) + AllUnpaid(cfg, txs, |txs|) < TWO_256
    ensures var start := Begin(state, gasLimit, maxBlobGas);
            var total := Total(Prefix(cfg, start, txs, k).state.accounts);
            && total == Total(state.accounts) + Changes(cfg, start, txs, k)
            && total <= Total(state.accounts) + AllUnpaid(cfg, txs, k)
  {
    hide Apply, ValueChange, Valued, Unpaid;
    if k != 0 {
      BlockValueFlow(cfg, state, gasLimit, maxBlobGas, txs, k - 1);
      UnpaidGrows(cfg, txs, k, |txs|);
      var b := Prefix(cfg, Begin(state, gasLimit, maxBlobGas), txs, k - 1);
      if !b.stopped { ApplyMovesValue(cfg, b, txs[k - 1], k - 1); }
    }
  }

  /** What a transaction that is executed under London changes: the machine's own net
      change, less base fee and blob fee, plus the burn, and what the store refused. */
  lemma ExecutedChange(cfg: Config, b: Block, t: Txn)
    requires Valued(cfg, t) && Total(b.state.accounts) + Unpaid(cfg.env, t.msg, t.fault) < TWO_256
    requires t.convertible && cfg.env.rules.london && !t.msg.isFree
    ensures var env, msg, out := cfg.env, MessageOf(cfg, t), Outcomes(cfg, b, t).1;
            out.Executed? ==>
              && out.result.gasUsed <= msg.gas
              && ValueChange(cfg, b, t)
                 == EvmNet(env, msg, t.intr, t.evm, t.fault, StartOf(b)) - Cost(out.result.gasUsed, env.baseFee)
                    - BlobCost(env, msg) + out.result.feeBurnt
                    + Drift(env, msg, t.fault, out.result.gasUsed, out.result.feeBurnt)
  {
    hide TransitionDb, StageOf, ValueChange, EvmNet, Cost, BlobCost, Priced, FeesCovered, CheckPrices, Drift, Unpaid;
    SameTerms(cfg, t);
    Conservation(cfg.env, MessageOf(cfg, t), t.intr, t.evm, t.fault, StartOf(b));
    ExecutedMoves(cfg, b, t);
  }

  lemma ExecutedMoves(cfg: Config, b: Block, t: Txn)
    requires Valued(cfg, t) && Total(b.state.accounts) + Unpaid(cfg.env, t.msg, t.fault) < TWO_256 && t.convertible
    ensures Outcomes(cfg, b, t).1.Executed? ==>
              Total(Outcomes(cfg, b, t).0.state.accounts) == Total(b.state.accounts) + ValueChange(cfg, b, t)
  {
    hide TransitionDb, ValueChange, Unpaid;
    ApplyMovesValue(cfg, b, t, 0);
  }
}
