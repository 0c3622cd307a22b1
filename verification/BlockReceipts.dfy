/** What a block records: which transactions it includes, what their receipts say, and that
    no call is included twice. */
module BlockReceipts {
  import opened Common
  import opened Ledger
  import opened Authorizations
  import opened Transition
  import opened TransitionTheorems
  import opened ValueTheorems
  import opened TransitionExact
  import opened TransitionWitnesses
  import opened BlockExecution
  import opened BlockValue

  // ----- one turn -----

  /** A crash ends the block; so does, unless execution is stateless, any other failure. */
  predicate Ends(cfg: Config, b: Block, t: Txn) {
    !Included(cfg, b, t) && (!cfg.stateless || (t.convertible && Outcomes(cfg, b, t).1.Crashed?))
  }

  /** A turn of the loop lists its transaction as included, lists it as rejected, or stops
      the block; what state it leaves. */
  lemma TurnRecords(cfg: Config, b: Block, t: Txn, i: nat)
    requires !b.stopped
    ensures var b' := Apply(cfg, b, t, i);
            && b'.included == b.included + (if Included(cfg, b, t) then [i] else [])
            && b'.rejected == b.rejected + (if !Included(cfg, b, t) && !Ends(cfg, b, t) then [i] else [])
            && b'.stopped == Ends(cfg, b, t)
            && |b'.receipts| == |b.receipts| + (if Included(cfg, b, t) && !cfg.noReceipts then 1 else 0)
            && b.receipts <= b'.receipts
            && b'.state == if Included(cfg, b, t) then t.finalize(Outcomes(cfg, b, t).0.state).value
                           else if t.convertible then Outcomes(cfg, b, t).0.state else b.state
  {
    hide TransitionDb;
  }

  // ----- receipts -----

  /** What the virtual machine did with a transaction on a block. */
  ghost function MachineRun(cfg: Config, b: Block, t: Txn): EvmOutcome {
    RunOf(cfg.env, MessageOf(cfg, t), DIRECT, t.intr, t.evm, t.fault, StartOf(b))
  }

  /** A receipt that is true of the transaction on that block: success is what the virtual
      machine reported when it was entered with the transaction, and the gas is what it
      used, less its refunds and above the floor. */
  ghost predicate Reports(cfg: Config, b: Block, t: Txn, r: Receipt) {
    var run := MachineRun(cfg, b, t);
    && r.succeeded == !run.failed
    && run.gasLeft <= t.msg.gas
    && ChargedFor(cfg.env, true, t.intr.floor, t.msg.gas - run.gasLeft, run.state.refund, r.gasUsed)
  }

  lemma TurnReports(cfg: Config, b: Block, t: Txn, i: nat)
    requires !b.stopped && !cfg.noReceipts && GasHonest(t.evm)
    ensures var b' := Apply(cfg, b, t, i);
            Included(cfg, b, t) ==> |b'.receipts| == |b.receipts| + 1 && Reports(cfg, b, t, b'.receipts[|b.receipts|])
  {
    hide TransitionDb, RunOf, Enters, ChargedFor;
    ExecutedReports(cfg.env, MessageOf(cfg, t), DIRECT, t.intr, t.evm, t.fault, StartOf(b));
  }

  /** The receipts of a block, one by one. */
  ghost predicate Recorded(cfg: Config, start: Block, txs: seq<Txn>, k: nat, b: Block)
    requires k <= |txs|
  {
    && |b.receipts| == |b.included|
    && (forall i :: 0 <= i < |b.included| ==>
          && b.included[i] < k && !Prefix(cfg, start, txs, b.included[i]).stopped
          && Included(cfg, Prefix(cfg, start, txs, b.included[i]), txs[b.included[i]])
          && Reports(cfg, Prefix(cfg, start, txs, b.included[i]), txs[b.included[i]], b.receipts[i]))
    && (forall i, j :: 0 <= i < j < |b.included| ==> b.included[i] < b.included[j])
  }

  /** A turn adds an included transaction with a receipt that is true of it, or nothing. */
  ghost predicate Adds(cfg: Config, b: Block, t: Txn, i: nat, b': Block) {
    if Included(cfg, b, t) then
      && b'.included == b.included + [i] && |b'.receipts| == |b.receipts| + 1 && b.receipts <= b'.receipts
      && Reports(cfg, b, t, b'.receipts[|b.receipts|])
    else b'.included == b.included && b'.receipts == b.receipts
  }

  lemma TurnRecorded(cfg: Config, b: Block, t: Txn, i: nat)
    requires !b.stopped && !cfg.noReceipts && GasHonest(t.evm)
    ensures Adds(cfg, b, t, i, Apply(cfg, b, t, i))
  {
    hide Apply, Included, Reports, Ends, GasHonest;
    TurnRecords(cfg, b, t, i);
    TurnReports(cfg, b, t, i);
  }

  lemma RecordedMore(cfg: Config, start: Block, txs: seq<Txn>, k: nat, b: Block, b': Block)
    requires k < |txs| && Recorded(cfg, start, txs, k, b) && b == Prefix(cfg, start, txs, k) && !b.stopped
    requires Adds(cfg, b, txs[k], k, b')
    ensures Recorded(cfg, start, txs, k + 1, b')
  {
    hide Prefix, Included, Reports;
  }

  /** Every receipt of a block is true of its transaction. */
  lemma {:induction false} ReceiptsReport(cfg: Config, state: State, gasLimit: uint64, maxBlobGas: uint64, txs: seq<Txn>, k: nat)
    requires k <= |txs| && !cfg.noReceipts && forall i :: 0 <= i < |txs| ==> GasHonest(txs[i].evm)
    ensures var start := Begin(state, gasLimit, maxBlobGas);
            Recorded(cfg, start, txs, k, Prefix(cfg, start, txs, k))
  {
    hide Apply, Prefix, GasHonest, Recorded;
    var start := Begin(state, gasLimit, maxBlobGas);
    if k == 0 {
      NothingRecorded(cfg, state, gasLimit, maxBlobGas, txs);
    } else {
      ReceiptsReport(cfg, state, gasLimit, maxBlobGas, txs, k - 1);
      OneMore(cfg, start, txs, k);
      var b := Prefix(cfg, start, txs, k - 1);
      if b.stopped {
        RecordedStays(cfg, start, txs, k - 1, b);
      } else {
        TurnRecorded(cfg, b, txs[k - 1], k - 1);
        RecordedMore(cfg, start, txs, k - 1, b, Prefix(cfg, start, txs, k));
      }
    }
  }

  lemma NothingRecorded(cfg: Config, state: State, gasLimit: uint64, maxBlobGas: uint64, txs: seq<Txn>)
    ensures var start := Begin(state, gasLimit, maxBlobGas); Recorded(cfg, start, txs, 0, Prefix(cfg, start, txs, 0))
  {
    hide Apply, Included, Reports;
  }

  lemma RecordedStays(cfg: Config, start: Block, txs: seq<Txn>, k: nat, b: Block)
    requires k < |txs| && Recorded(cfg, start, txs, k, b)
    ensures Recorded(cfg, start, txs, k + 1, b)
  {
    hide Prefix, Included, Reports;
  }

  /** The same, index by index. */
  lemma TurnLists(cfg: Config, b: Block, t: Txn, i: nat, j: nat)
    requires !b.stopped
    ensures var b' := Apply(cfg, b, t, i);
            && (j in b'.included <==> j in b.included || (j == i && Included(cfg, b, t)))
            && (j in b'.rejected <==> j in b.rejected || (j == i && !Included(cfg, b, t) && !Ends(cfg, b, t)))
            && b'.stopped == Ends(cfg, b, t)
  {
    hide Apply, Included, Ends;
    TurnRecords(cfg, b, t, i);
  }

  lemma OneMore(cfg: Config, start: Block, txs: seq<Txn>, k: nat)
    requires 0 < k <= |txs|
    ensures var b := Prefix(cfg, start, txs, k - 1);
            Prefix(cfg, start, txs, k) == if b.stopped then b else Apply(cfg, b, txs[k - 1], k - 1)
  {
    hide Apply;
  }

  /** A block includes exactly the transactions it reached that are executed and can be
      finalized; of the others it reached it lists those that did not end it. */
  lemma {:induction false} IncludedIff(cfg: Config, state: State, gasLimit: uint64, maxBlobGas: uint64, txs: seq<Txn>, k: nat, j: nat)
    requires j < k <= |txs|
    ensures var start := Begin(state, gasLimit, maxBlobGas);
            var (before, b) := (Prefix(cfg, start, txs, j), Prefix(cfg, start, txs, k));
            && (j in b.included <==> !before.stopped && Included(cfg, before, txs[j]))
            && (j in b.rejected <==> !before.stopped && !Included(cfg, before, txs[j]) && !Ends(cfg, before, txs[j]))
            && (!before.stopped && Ends(cfg, before, txs[j]) ==> b.stopped)
    decreases k
  {
    hide Apply, Included, Ends, Prefix, Below;
    var start := Begin(state, gasLimit, maxBlobGas);
    var b := Prefix(cfg, start, txs, k - 1);
    OneMore(cfg, start, txs, k);
    Listed(cfg, state, gasLimit, maxBlobGas, txs, k - 1);
    if !b.stopped { TurnLists(cfg, b, txs[k - 1], k - 1, j); }
    if j < k - 1 { IncludedIff(cfg, state, gasLimit, maxBlobGas, txs, k - 1, j); }
    StopStays(cfg, start, txs, j, k - 1);
  }

  predicate Below(s: seq<nat>, k: nat) { forall i :: 0 <= i < |s| ==> s[i] < k }

  lemma BelowGrows(s: seq<nat>, k: nat)
    requires Below(s, k)
    ensures Below(s + [k], k + 1) && Below(s + [], k + 1) && k !in s
  {
  }

  lemma {:induction false} Listed(cfg: Config, state: State, gasLimit: uint64, maxBlobGas: uint64, txs: seq<Txn>, k: nat)
    requires k <= |txs|
    ensures var b := Prefix(cfg, Begin(state, gasLimit, maxBlobGas), txs, k);
            Below(b.included, k) && Below(b.rejected, k) && k !in b.included && k !in b.rejected
  {
    hide Apply, Included, Ends;
    if k != 0 {
      Listed(cfg, state, gasLimit, maxBlobGas, txs, k - 1);
      var b := Prefix(cfg, Begin(state, gasLimit, maxBlobGas), txs, k - 1);
      BelowGrows(b.included, k - 1);
      BelowGrows(b.rejected, k - 1);
      if !b.stopped { TurnRecords(cfg, b, txs[k - 1], k - 1); }
    }
  }

  lemma StopStays(cfg: Config, start: Block, txs: seq<Txn>, i: nat, k: nat)
    requires i <= k <= |txs|
    ensures Prefix(cfg, start, txs, i).stopped ==> Prefix(cfg, start, txs, k).stopped
  {
    hide Apply;
    StoppedStays(cfg, start, txs, i, k);
  }

  // ----- nonces -----

  /** Neither the virtual machine nor the finalization lowers a nonce. */
  ghost predicate KeepsNonces(t: Txn) {
    && (forall s: State, g: uint64, b: bool, a: Address ::
          Get(t.evm(s, g, b).state.accounts, a).nonce >= Get(s.accounts, a).nonce)
    && (forall s: State, a: Address :: t.finalize(s).Some? ==>
          Get(t.finalize(s).value.accounts, a).nonce >= Get(s.accounts, a).nonce)
  }

  /** A call whose nonce the store takes down. */
  predicate Counts(t: Txn) { t.msg.to.Some? && !Refuses(t.fault, NonceWrite) }

  /** An included transaction whose nonce was checked carries its sender's nonce; no nonce
      is lower afterwards, and that of a call's sender is higher. */
  lemma InclusionRaises(cfg: Config, b: Block, t: Txn, i: nat, a: Address)
    requires !cfg.stateless && GasHonest(t.evm) && KeepsNonces(t) && Included(cfg, b, t)
    ensures var before, now := Get(b.state.accounts, a).nonce, Get(Apply(cfg, b, t, i).state.accounts, a).nonce;
            && before <= now
            && (a == t.msg.from ==> t.msg.nonce == before && (Counts(t) ==> before < now))
  {
    hide TransitionDb, Enters, RunOf, Entry, IsCallState, AcceptedFor, MaySend, PricesSuffice, CanBuy, WellMade, Mul256;
    var msg, m := MessageOf(cfg, t), StartOf(b);
    ExecutesIff(cfg.env, msg, DIRECT, t.intr, t.evm, t.fault, m);
    ExecutedShape(cfg.env, msg, DIRECT, t.intr, t.evm, t.fault, m);
    WhoIsPaid(cfg.env, msg, DIRECT, t.intr, t.evm, t.fault, m, a);
    SentNonce(msg, m.state);
    EntryRaises(cfg.env, msg, t.intr, t.evm, t.fault, m, a);
  }

  lemma SentNonce(msg: Message, s: State)
    requires msg.checkNonce
    ensures MaySend(msg, s) ==> msg.nonce == Get(s.accounts, msg.from).nonce < MAX_U64
  {
  }

  lemma EntryRaises(env: Env, msg: Message, intr: Intrinsic, evm: Evm, fault: Fault, m: Machine, a: Address)
    requires m.gasRemaining == m.initialGas == 0 && Enters(env, msg, DIRECT, intr, fault, m)
    requires Get(m.state.accounts, msg.from).nonce < MAX_U64
    requires forall s: State, g: uint64, b: bool, x: Address ::
               Get(evm(s, g, b).state.accounts, x).nonce >= Get(s.accounts, x).nonce
    ensures Get(RunOf(env, msg, DIRECT, intr, evm, fault, m).state.accounts, a).nonce >= Get(m.state.accounts, a).nonce
              + if a == msg.from && msg.to.Some? && !Refuses(fault, NonceWrite) then 1 else 0
  {
    hide Enters, Entry, AcceptedFor, After;
    var s := EntryIs(env, msg, DIRECT, intr, fault, m);
  }

  lemma {:induction false} NoncesRise(cfg: Config, start: Block, txs: seq<Txn>, i: nat, k: nat, a: Address)
    requires i <= k <= |txs| && !cfg.stateless && !Prefix(cfg, start, txs, k).stopped
    requires forall j :: 0 <= j < |txs| ==> GasHonest(txs[j].evm) && KeepsNonces(txs[j])
    ensures Get(Prefix(cfg, start, txs, i).state.accounts, a).nonce <= Get(Prefix(cfg, start, txs, k).state.accounts, a).nonce
    decreases k
  {
    hide Apply, Included, KeepsNonces, GasHonest;
    if i < k {
      NoncesRise(cfg, start, txs, i, k - 1, a);
      var b := Prefix(cfg, start, txs, k - 1);
      TurnRecords(cfg, b, txs[k - 1], k - 1);
      InclusionRaises(cfg, b, txs[k - 1], k - 1, a);
    }
  }

  /** In a block whose nonces are checked, a call and a later transaction of the same sender
      carry increasing nonces: no (sender, nonce) pair is included twice. */
  lemma NoReplayInBlock(cfg: Config, state: State, gasLimit: uint64, maxBlobGas: uint64, txs: seq<Txn>, k: nat, i: nat, j: nat)
    requires i < j < k <= |txs| && !cfg.stateless
    requires forall l :: 0 <= l < |txs| ==> GasHonest(txs[l].evm) && KeepsNonces(txs[l])
    requires Counts(txs[i]) && txs[i].msg.from == txs[j].msg.from
    ensures var included := Prefix(cfg, Begin(state, gasLimit, maxBlobGas), txs, k).included;
            i in included && j in included ==> txs[i].msg.nonce < txs[j].msg.nonce
  {
    hide Apply, Included, KeepsNonces, GasHonest, Ends, Counts;
    var start, a := Begin(state, gasLimit, maxBlobGas), txs[i].msg.from;
    IncludedIff(cfg, state, gasLimit, maxBlobGas, txs, k, i);
    IncludedIff(cfg, state, gasLimit, maxBlobGas, txs, k, j);
    var (bi, bj) := (Prefix(cfg, start, txs, i), Prefix(cfg, start, txs, j));
    if !bi.stopped && !bj.stopped && Included(cfg, bi, txs[i]) && Included(cfg, bj, txs[j]) {
      InclusionRaises(cfg, bi, txs[i], i, a);
      InclusionRaises(cfg, bj, txs[j], j, a);
      NoncesRise(cfg, start, txs, i + 1, j, a);
    }
  }

  /** A call whose nonce the store refuses to take down, unnoticed. */
  const FORGOTTEN: Txn := Txn(MSG, 0, FREE, IDLE, Fault({NonceWrite}, NoStop), true, s => Some(s))

  const CHECKED: Config := Config(ENV, false, false)

  lemma ForgottenEntry(m: Machine)
    requires m.gasRemaining == m.initialGas == 0 && m.poolGas >= 10 && Get(m.state.accounts, SENDER) == Account(10, 0, NoCode)
    ensures Enters(ENV, MSG, DIRECT, FREE, FORGOTTEN.fault, m) ==>
              && Entry(ENV, MSG, DIRECT, FREE, FORGOTTEN.fault, m).gasRemaining == 10
              && Get(Entry(ENV, MSG, DIRECT, FREE, FORGOTTEN.fault, m).state.accounts, SENDER) == Account(0, 0, NoCode)
  {
    hide CheckPrices;
  }

  lemma ForgottenTurn(b: Block, i: nat)
    requires !b.stopped && b.poolGas >= 10 && Get(b.state.accounts, SENDER) == Account(10, 0, NoCode)
    ensures Included(CHECKED, b, FORGOTTEN)
    ensures var b' := Apply(CHECKED, b, FORGOTTEN, i);
            b'.poolGas == b.poolGas && Get(b'.state.accounts, SENDER) == Account(10, 0, NoCode)
  {
    hide TransitionDb, Enters, Entry, Mul256;
    var m, fault := StartOf(b), FORGOTTEN.fault;
    ExecutesIff(ENV, MSG, DIRECT, FREE, IDLE, fault, m);
    ExecutedShape(ENV, MSG, DIRECT, FREE, IDLE, fault, m);
    ExecutedReports(ENV, MSG, DIRECT, FREE, IDLE, fault, m);
    WhoIsPaid(ENV, MSG, DIRECT, FREE, IDLE, fault, m, SENDER);
    ForgottenEntry(m);
    GasOnEveryExit(ENV, MSG, DIRECT, FREE, IDLE, fault, m);
    MulExact(10, 1);
  }

  /** With such a store the same call is included twice, so the hypothesis of
      `NoReplayInBlock` on the store is needed. */
  lemma ForgottenNonceReplays()
    ensures Prefix(CHECKED, Begin(FUNDED, 100, 0), [FORGOTTEN, FORGOTTEN], 2).included == [0, 1]
  {
    hide Apply, Included;
    var start, txs := Begin(FUNDED, 100, 0), [FORGOTTEN, FORGOTTEN];
    assert Prefix(CHECKED, start, txs, 0) == start;
    ForgottenTurn(start, 0);
    TurnRecords(CHECKED, start, FORGOTTEN, 0);
    var b1 := Apply(CHECKED, start, FORGOTTEN, 0);
    assert Prefix(CHECKED, start, txs, 1) == b1;
    ForgottenTurn(b1, 1);
    TurnRecords(CHECKED, b1, FORGOTTEN, 1);
  }
}
