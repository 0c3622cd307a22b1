/** A peer's goroutines and the channels between them: the token that serialises
    protocol writes, and the bounded channels that must never hold up a shutdown.

    Every step is one channel operation or one local action; a goroutine about to
    send is a state of its own, so "a send blocks" would be a reachable state in
    which its channel is full.  After the hang-up that follows the main loop, reads and
    pongs no longer succeed. */
module WriteToken {

  /** A call of WriteMsg: choosing between token and shutdown, writing, or about to
      report its result. */
  datatype Writer = Idle | Waiting | Writing | Reporting(failed: bool)

  /** The main loop: in its select, holding the token between the two sends, or
      returned (perhaps with the token of a failed write). */
  datatype Main = Selecting | Holding | Returned(withToken: bool)

  /** A goroutine that reports at most one error: running, about to send, or done. */
  datatype Reporter = Active | Sending | Finished

  /** The read loop: reading, passing a ping or a message on, about to send its error, or
      done. */
  datatype Reader = Reading | PassingPing | PassingMsg(q: nat) | SendingErr | Ended

  datatype Peer = Peer(
    main: Main, closed: bool, hungUp: bool, writeStart: nat, writeErr: seq<bool>, readErr: nat, protoErr: nat, pings: nat,
    writers: map<nat, Writer>, reader: Reader, pinger: Reporter, protocols: map<nat, Reporter>)

  datatype Step =
    | BeginWrite(w: nat)
    | TakeToken(w: nat)
    | SeeClosed(w: nat)
    | EndWrite(w: nat, failed: bool)
    | Report(w: nat)
    | MainWriteErr
    | MainRelease
    | MainReadErr
    | MainProtoErr
    | MainDisconnect
    | Close
    | HangUp
    | ReadsPing
    | ReadsMsg(p: nat)
    | PassPing
    | PassMsg
    | PassSeesClosed
    | ReaderFails
    | ReaderSends
    | Pong
    | PongFails
    | PingFails
    | PingSends
    | PingStops
    | ProtocolEnds(p: nat)
    | ProtocolSends(p: nat)

  const WRITE_START_CAP: nat := 1
  const WRITE_ERR_CAP: nat := 1
  const READ_ERR_CAP: nat := 1
  const PING_CAP: nat := 16

  /** Room for every protocol and the ping loop. */
  function ProtoErrCap(p: Peer): nat { |p.protocols| + 1 }

  /** After the token was put into `writeStart` and the protocols were started. */
  ghost predicate Initial(p: Peer) {
    && p.main == Selecting && !p.closed && !p.hungUp && p.pings == 0
    && p.writeStart == 1 && p.writeErr == [] && p.readErr == 0 && p.protoErr == 0
    && p.writers == map[] && p.reader == Reading && p.pinger == Active
    && forall q :: q in p.protocols ==> p.protocols[q] == Active
  }

  function At(p: Peer, w: nat): Writer { if w in p.writers then p.writers[w] else Idle }

  /** A send is enabled only while its channel has room. */
  predicate Enabled(p: Peer, s: Step) {
    match s
    case BeginWrite(w) => At(p, w) == Idle
    case TakeToken(w) => At(p, w) == Waiting && p.writeStart > 0
    case SeeClosed(w) => At(p, w) == Waiting && p.closed
    case EndWrite(w, _) => At(p, w) == Writing
    case Report(w) => At(p, w).Reporting? && |p.writeErr| < WRITE_ERR_CAP
    case MainWriteErr => p.main == Selecting && |p.writeErr| > 0
    case MainRelease => p.main == Holding && p.writeStart < WRITE_START_CAP
    case MainReadErr => p.main == Selecting && p.readErr > 0
    case MainProtoErr => p.main == Selecting && p.protoErr > 0
    case MainDisconnect => p.main == Selecting
    case Close => p.main.Returned? && !p.closed
    case HangUp => p.closed && !p.hungUp
    case ReadsPing => p.reader == Reading && !p.hungUp
    case ReadsMsg(q) => p.reader == Reading && !p.hungUp && q in p.protocols
    case PassPing => p.reader == PassingPing && p.pings < PING_CAP
    case PassMsg => p.reader.PassingMsg? && p.reader.q in p.protocols && p.protocols[p.reader.q] == Active
    case PassSeesClosed => (p.reader == PassingPing || p.reader.PassingMsg?) && p.closed
    case ReaderFails => p.reader == Reading
    case ReaderSends => p.reader == SendingErr && p.readErr < READ_ERR_CAP
    case Pong => p.pinger == Active && p.pings > 0 && !p.hungUp
    case PongFails => p.pinger == Active && p.pings > 0
    case PingFails => p.pinger == Active
    case PingSends => p.pinger == Sending && p.protoErr < ProtoErrCap(p)
    case PingStops => p.pinger == Active && p.closed
    case ProtocolEnds(q) => q in p.protocols && p.protocols[q] == Active
    case ProtocolSends(q) => q in p.protocols && p.protocols[q] == Sending && p.protoErr < ProtoErrCap(p)
  }

  function Next(p: Peer, s: Step): Peer
    requires Enabled(p, s)
  {
    match s
    case BeginWrite(w) => p.(writers := p.writers[w := Waiting])
    case TakeToken(w) => p.(writeStart := p.writeStart - 1, writers := p.writers[w := Writing])
    case SeeClosed(w) => p.(writers := p.writers[w := Idle])
    case EndWrite(w, failed) => p.(writers := p.writers[w := Reporting(failed)])
    case Report(w) => p.(writeErr := p.writeErr + [At(p, w).failed], writers := p.writers[w := Idle])
    case MainWriteErr => p.(writeErr := p.writeErr[1..], main := if p.writeErr[0] then Returned(true) else Holding)
    case MainRelease => p.(writeStart := p.writeStart + 1, main := Selecting)
    case MainReadErr => p.(readErr := p.readErr - 1, main := Returned(false))
    case MainProtoErr => p.(protoErr := p.protoErr - 1, main := Returned(false))
    case MainDisconnect => p.(main := Returned(false))
    case Close => p.(closed := true)
    case HangUp => p.(hungUp := true)
    case ReadsPing => p.(reader := PassingPing)
    case ReadsMsg(q) => p.(reader := PassingMsg(q))
    case PassPing => p.(reader := Reading, pings := p.pings + 1)
    case PassMsg => p.(reader := Reading)
    case PassSeesClosed => p.(reader := if p.reader == PassingPing then Reading else SendingErr)
    case ReaderFails => p.(reader := SendingErr)
    case ReaderSends => p.(readErr := p.readErr + 1, reader := Ended)
    case Pong => p.(pings := p.pings - 1)
    case PongFails => p.(pings := p.pings - 1, pinger := Sending)
    case PingFails => p.(pinger := Sending)
    case PingSends => p.(protoErr := p.protoErr + 1, pinger := Finished)
    case PingStops => p.(pinger := Finished)
    case ProtocolEnds(q) => p.(protocols := p.protocols[q := Sending])
    case ProtocolSends(q) => p.(protoErr := p.protoErr + 1, protocols := p.protocols[q := Finished])
  }

  // ----- the token -----

  /** The writers that hold the token. */
  ghost function Holders(ws: map<nat, Writer>): set<nat> {
    set w | w in ws && (ws[w] == Writing || ws[w].Reporting?)
  }

  function HeldByMain(m: Main): nat {
    if m == Holding || (m.Returned? && m.withToken) then 1 else 0
  }

  /** The token is in exactly one place. */
  ghost predicate OneToken(p: Peer) {
    p.writeStart + |p.writeErr| + |Holders(p.writers)| + HeldByMain(p.main) == 1
  }

  /** Protocols that have not reported yet. */
  ghost function Unreported(ps: map<nat, Reporter>): set<nat> {
    set q | q in ps && ps[q] != Finished
  }

  /** Each channel still has room for everyone who may send on it. */
  ghost predicate RoomLeft(p: Peer) {
    && p.readErr + (if p.reader == Ended then 0 else 1) <= READ_ERR_CAP
    && p.protoErr + |Unreported(p.protocols)| + (if p.pinger == Finished then 0 else 1) <= ProtoErrCap(p)
  }

  ghost predicate Inv(p: Peer) {
    OneToken(p) && RoomLeft(p) && (p.closed ==> p.main.Returned?) && (p.hungUp ==> p.closed)
  }

  lemma HoldersWith(ws: map<nat, Writer>, w: nat, x: Writer)
    ensures var before := w in ws && (ws[w] == Writing || ws[w].Reporting?);
            var after := x == Writing || x.Reporting?;
            |Holders(ws[w := x])| == |Holders(ws)| - (if before then 1 else 0) + (if after then 1 else 0)
  {
    var rest := Holders(ws) - {w};
    assert Holders(ws[w := x]) == if x == Writing || x.Reporting? then rest + {w} else rest;
    assert Holders(ws) == if w in Holders(ws) then rest + {w} else rest;
  }

  lemma UnreportedWith(ps: map<nat, Reporter>, q: nat, x: Reporter)
    requires q in ps && ps[q] != Finished
    ensures |Unreported(ps[q := x])| == |Unreported(ps)| - if x == Finished then 1 else 0
    ensures |ps[q := x]| == |ps|
  {
    var rest := Unreported(ps) - {q};
    assert Unreported(ps) == rest + {q};
    assert Unreported(ps[q := x]) == if x == Finished then rest else rest + {q};
    assert ps[q := x].Keys == ps.Keys;
  }

  lemma WriteKeeps(p: Peer, s: Step)
    requires Inv(p) && Enabled(p, s) && (s.BeginWrite? || s.TakeToken? || s.SeeClosed? || s.EndWrite? || s.Report?)
    ensures Inv(Next(p, s))
  {
    hide Holders, Unreported, RoomLeft;
    HoldersWith(p.writers, s.w, Next(p, s).writers[s.w]);
    SameRoom(p, Next(p, s));
  }

  lemma SameRoom(p: Peer, p': Peer)
    requires RoomLeft(p) && p'.readErr == p.readErr && p'.reader == p.reader
    requires p'.protoErr == p.protoErr && p'.protocols == p.protocols && p'.pinger == p.pinger
    ensures RoomLeft(p')
  {
  }

  lemma ProtocolKeeps(p: Peer, s: Step)
    requires Inv(p) && Enabled(p, s) && (s.ProtocolEnds? || s.ProtocolSends?)
    ensures Inv(Next(p, s))
  {
    hide Holders, Unreported;
    UnreportedWith(p.protocols, s.p, Next(p, s).protocols[s.p]);
  }

  lemma OtherKeeps(p: Peer, s: Step)
    requires Inv(p) && Enabled(p, s) && Next(p, s).writers == p.writers && Next(p, s).protocols == p.protocols
    ensures Inv(Next(p, s))
  {
    hide Holders, Unreported;
  }

  /** Every step of every goroutine keeps the invariant. */
  lemma NextKeeps(p: Peer, s: Step)
    requires Inv(p) && Enabled(p, s)
    ensures Inv(Next(p, s))
  {
    hide Inv, Enabled;
    if s.BeginWrite? || s.TakeToken? || s.SeeClosed? || s.EndWrite? || s.Report? {
      WriteKeeps(p, s);
    } else if s.ProtocolEnds? || s.ProtocolSends? {
      ProtocolKeeps(p, s);
    } else {
      OtherKeeps(p, s);
    }
  }

  ghost predicate IsRun(run: seq<Peer>, steps: seq<Step>) {
    && |run| == |steps| + 1 && Initial(run[0])
    && forall i :: 0 <= i < |steps| ==> Enabled(run[i], steps[i]) && run[i + 1] == Next(run[i], steps[i])
  }

  lemma InitialInv(p: Peer)
    requires Initial(p)
    ensures Inv(p)
  {
    assert Holders(p.writers) == {};
    assert Unreported(p.protocols) == p.protocols.Keys;
  }

  lemma {:induction false} TokenInvariant(run: seq<Peer>, steps: seq<Step>, i: nat)
    requires IsRun(run, steps) && i < |run|
    ensures Inv(run[i])
  {
    hide Inv, Next, Enabled, Initial;
    if i == 0 {
      InitialInv(run[0]);
    } else {
      TokenInvariant(run, steps, i - 1);
      NextKeeps(run[i - 1], steps[i - 1]);
    }
  }

  // ----- what it means -----

  lemma HolderIsOnly(p: Peer, w: nat)
    requires Inv(p) && (At(p, w) == Writing || At(p, w).Reporting?)
    ensures Holders(p.writers) == {w} && p.writeStart == 0 && p.writeErr == [] && HeldByMain(p.main) == 0
  {
    assert w in Holders(p.writers);
    var rest := Holders(p.writers) - {w};
    assert |rest| == |Holders(p.writers)| - 1;
    assert rest == {};
  }

  /** Every goroutine about to send finds room. */
  ghost predicate SendsFree(p: Peer) {
    && (forall w :: At(p, w).Reporting? ==> Enabled(p, Report(w)))
    && (p.main == Holding ==> Enabled(p, MainRelease))
    && (p.reader == SendingErr ==> Enabled(p, ReaderSends))
    && (p.pinger == Sending ==> Enabled(p, PingSends))
    && (forall q :: q in p.protocols && p.protocols[q] == Sending ==> Enabled(p, ProtocolSends(q)))
  }

  /** In every state of every run at most one protocol write is in progress, and no
      goroutine that is about to send finds its channel full, whether or not the main
      loop has returned. */
  lemma NoSendBlocks(run: seq<Peer>, steps: seq<Step>, i: nat)
    requires IsRun(run, steps) && i < |run|
    ensures SendsFree(run[i]) && forall w, v :: At(run[i], w) == Writing && At(run[i], v) == Writing ==> w == v
  {
    hide IsRun;
    TokenInvariant(run, steps, i);
    var p := run[i];
    forall w, v | At(p, w) == Writing && At(p, v) == Writing ensures w == v {
      HolderIsOnly(p, w);
      HolderIsOnly(p, v);
      assert v in {w};
    }
    forall w | At(p, w).Reporting? ensures |p.writeErr| < WRITE_ERR_CAP { HolderIsOnly(p, w); }
    forall q | q in p.protocols && p.protocols[q] == Sending ensures p.protoErr < ProtoErrCap(p) {
      assert q in Unreported(p.protocols);
      assert |Unreported(p.protocols)| >= 1 by { assert Unreported(p.protocols) == Unreported(p.protocols) - {q} + {q}; }
    }
  }

  /** A waiting write is never stranded: wherever the token is, some step that moves
      the token or the shutdown along is enabled. */
  lemma WaitingIsNeverStuck(run: seq<Peer>, steps: seq<Step>, i: nat, w: nat)
    requires IsRun(run, steps) && i < |run| && At(run[i], w) == Waiting
    ensures var p := run[i];
            || Enabled(p, TakeToken(w)) || Enabled(p, SeeClosed(w)) || Enabled(p, MainWriteErr)
            || Enabled(p, MainRelease) || Enabled(p, Close)
            || exists v :: Enabled(p, EndWrite(v, false)) || Enabled(p, Report(v))
  {
    TokenInvariant(run, steps, i);
    var p := run[i];
    if p.main == Selecting && p.writeStart == 0 && p.writeErr == [] {
      assert |Holders(p.writers)| == 1;
      var v :| v in Holders(p.writers);
      assert Enabled(p, EndWrite(v, false)) || Enabled(p, Report(v));
    }
  }

  // ----- shutdown -----

  /** How many steps a writer, the reader or a reporter still has to take. */
  function WriterRank(w: Writer): nat {
    match w
    case Idle => 0
    case Waiting => 3
    case Writing => 2
    case Reporting(_) => 1
  }

  function ReaderRank(r: Reader): nat {
    match r
    case Ended => 0
    case SendingErr => 1
    case Reading => 2
    case _ => 3
  }

  function ReporterRank(r: Reporter): nat {
    match r
    case Finished => 0
    case Sending => 1
    case Active => 2
  }

  ghost function WritersAbove(ws: map<nat, Writer>, n: nat): set<nat> { set w | w in ws && WriterRank(ws[w]) > n }

  ghost function ReportersAbove(ps: map<nat, Reporter>, n: nat): set<nat> { set q | q in ps && ReporterRank(ps[q]) > n }

  /** The steps left to all goroutines together. */
  ghost function StepsLeft(p: Peer): nat {
    |WritersAbove(p.writers, 0)| + |WritersAbove(p.writers, 1)| + |WritersAbove(p.writers, 2)|
    + |ReportersAbove(p.protocols, 0)| + |ReportersAbove(p.protocols, 1)|
    + ReaderRank(p.reader) + ReporterRank(p.pinger)
  }

  lemma WritersAboveWith(ws: map<nat, Writer>, w: nat, x: Writer, n: nat)
    ensures |WritersAbove(ws[w := x], n)|
         == |WritersAbove(ws, n)| - (if w in ws && WriterRank(ws[w]) > n then 1 else 0) + if WriterRank(x) > n then 1 else 0
  {
    var rest := WritersAbove(ws, n) - {w};
    assert WritersAbove(ws, n) == if w in WritersAbove(ws, n) then rest + {w} else rest;
    assert WritersAbove(ws[w := x], n) == if WriterRank(x) > n then rest + {w} else rest;
  }

  lemma ReportersAboveWith(ps: map<nat, Reporter>, q: nat, x: Reporter, n: nat)
    requires q in ps
    ensures |ReportersAbove(ps[q := x], n)|
         == |ReportersAbove(ps, n)| - (if ReporterRank(ps[q]) > n then 1 else 0) + if ReporterRank(x) > n then 1 else 0
  {
    var rest := ReportersAbove(ps, n) - {q};
    assert ReportersAbove(ps, n) == if q in ReportersAbove(ps, n) then rest + {q} else rest;
    assert ReportersAbove(ps[q := x], n) == if ReporterRank(x) > n then rest + {q} else rest;
  }

  lemma WriterStep(p: Peer, w: nat, x: Writer)
    ensures StepsLeft(p.(writers := p.writers[w := x])) == StepsLeft(p) - WriterRank(At(p, w)) + WriterRank(x)
  {
    hide WritersAbove, ReportersAbove;
    WritersAboveWith(p.writers, w, x, 0);
    WritersAboveWith(p.writers, w, x, 1);
    WritersAboveWith(p.writers, w, x, 2);
  }

  lemma ProtocolStep(p: Peer, q: nat, x: Reporter)
    requires q in p.protocols
    ensures StepsLeft(p.(protocols := p.protocols[q := x])) == StepsLeft(p) - ReporterRank(p.protocols[q]) + ReporterRank(x)
  {
    hide WritersAbove, ReportersAbove;
    ReportersAboveWith(p.protocols, q, x, 0);
    ReportersAboveWith(p.protocols, q, x, 1);
  }

  /** After the hang-up every step but the beginning of a new write uses up a step that
      was left; a new write brings three. */
  lemma ShutdownStep(p: Peer, s: Step)
    requires Inv(p) && p.hungUp && Enabled(p, s)
    ensures Next(p, s).hungUp
    ensures if s.BeginWrite? then StepsLeft(Next(p, s)) == StepsLeft(p) + 3 else StepsLeft(Next(p, s)) < StepsLeft(p)
  {
    hide WritersAbove, ReportersAbove, OneToken, RoomLeft;
    match s
    case BeginWrite(w) => WriterStep(p, w, Waiting);
    case TakeToken(w) => WriterStep(p, w, Writing);
    case SeeClosed(w) => WriterStep(p, w, Idle);
    case EndWrite(w, failed) => WriterStep(p, w, Reporting(failed));
    case Report(w) => WriterStep(p, w, Idle);
    case ProtocolEnds(q) => ProtocolStep(p, q, Sending);
    case ProtocolSends(q) => ProtocolStep(p, q, Finished);
    case _ =>
  }

  /** The steps from `q` to `i` that begin a write. */
  ghost function Begun(steps: seq<Step>, q: nat, i: nat): nat
    requires q <= i <= |steps|
  {
    if q == i then 0 else Begun(steps, q, i - 1) + if steps[i - 1].BeginWrite? then 1 else 0
  }

  /** In every run the steps taken after the hang-up are bounded by the steps left then and
      four for every write that is begun after it: if the protocols stop writing, the
      shutdown ends. */
  lemma {:induction false} ShutdownEnds(run: seq<Peer>, steps: seq<Step>, q: nat, i: nat)
    requires IsRun(run, steps) && q <= i < |run| && run[q].hungUp
    ensures run[i].hungUp && StepsLeft(run[i]) + (i - q) <= StepsLeft(run[q]) + 4 * Begun(steps, q, i)
    decreases i
  {
    hide Inv, Next, Enabled, Initial, StepsLeft;
    if q < i {
      ShutdownEnds(run, steps, q, i - 1);
      TokenInvariant(run, steps, i - 1);
      ShutdownStep(run[i - 1], steps[i - 1]);
    }
  }

  /** The goroutines the peer waits for at its end. */
  ghost predicate AllDone(p: Peer) {
    p.reader == Ended && p.pinger == Finished && forall q :: q in p.protocols ==> p.protocols[q] == Finished
  }

  /** Each goroutine that is waited for and not done has a step to take, and so has every
      write. */
  ghost predicate Moves(p: Peer) {
    && (p.reader != Ended ==> Enabled(p, ReaderFails) || Enabled(p, ReaderSends) || Enabled(p, PassSeesClosed))
    && (p.pinger != Finished ==> Enabled(p, PingStops) || Enabled(p, PingSends))
    && (forall q :: q in p.protocols && p.protocols[q] != Finished ==>
         Enabled(p, ProtocolEnds(q)) || Enabled(p, ProtocolSends(q)))
    && (forall w :: At(p, w) != Idle ==> Enabled(p, SeeClosed(w)) || Enabled(p, EndWrite(w, true)) || Enabled(p, Report(w)))
  }

  lemma ClosedMoves(p: Peer)
    requires SendsFree(p) && p.closed
    ensures Moves(p)
  {
    hide Enabled;
    ReadersMove(p);
    forall q | q in p.protocols && p.protocols[q] != Finished ensures Enabled(p, ProtocolEnds(q)) || Enabled(p, ProtocolSends(q)) {
      ProtocolMoves(p, q);
    }
    forall w | At(p, w) != Idle ensures Enabled(p, SeeClosed(w)) || Enabled(p, EndWrite(w, true)) || Enabled(p, Report(w)) {
      WriterMoves(p, w);
    }
  }

  lemma ReadersMove(p: Peer)
    requires p.closed
    ensures p.reader == Ended || p.reader == SendingErr || Enabled(p, ReaderFails) || Enabled(p, PassSeesClosed)
    ensures p.pinger == Finished || p.pinger == Sending || Enabled(p, PingStops)
  {
  }

  lemma ProtocolMoves(p: Peer, q: nat)
    requires q in p.protocols && p.protocols[q] != Finished
    ensures p.protocols[q] == Sending || Enabled(p, ProtocolEnds(q))
  {
  }

  lemma WriterMoves(p: Peer, w: nat)
    requires At(p, w) != Idle && p.closed
    ensures At(p, w).Reporting? || Enabled(p, SeeClosed(w)) || Enabled(p, EndWrite(w, true))
  {
  }

  lemma RestIsDone(p: Peer)
    requires Moves(p) && forall s :: Enabled(p, s) ==> s.BeginWrite?
    ensures AllDone(p)
  {
    hide Enabled;
  }

  /** In every state of every run after the close nobody is stuck, so the shutdown can only
      come to rest with all goroutines done that the peer waits for. */
  lemma NoneIsStuck(run: seq<Peer>, steps: seq<Step>, i: nat)
    requires IsRun(run, steps) && i < |run| && run[i].closed
    ensures Moves(run[i]) && ((forall s :: Enabled(run[i], s) ==> s.BeginWrite?) ==> AllDone(run[i]))
  {
    hide IsRun, Enabled, SendsFree, Moves, AllDone;
    NoSendBlocks(run, steps, i);
    ClosedMoves(run[i]);
    if forall s :: Enabled(run[i], s) ==> s.BeginWrite? { RestIsDone(run[i]); }
  }
}
