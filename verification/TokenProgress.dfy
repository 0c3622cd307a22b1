/** A peer's goroutines make progress: its channels stay within their sizes, a write goes
    through and gives the token back, and from every state of every run the shutdown can
    be completed. */
module TokenProgress {
  import opened WriteToken

  // ----- channels -----

  lemma PingStep(p: Peer, s: Step)
    requires Enabled(p, s) && p.pings <= 16
    ensures Next(p, s).pings <= 16
  {
  }

  lemma SameProtocols(p: Peer, s: Step)
    requires Enabled(p, s)
    ensures Next(p, s).protocols.Keys == p.protocols.Keys
  {
    if s.ProtocolEnds? || s.ProtocolSends? {
      assert Next(p, s).protocols == p.protocols[s.p := Next(p, s).protocols[s.p]];
    } else {
      assert Next(p, s).protocols == p.protocols;
    }
  }

  lemma {:induction false} PingsBounded(run: seq<Peer>, steps: seq<Step>, i: nat)
    requires IsRun(run, steps) && i < |run|
    ensures run[i].pings <= 16 && run[i].protocols.Keys == run[0].protocols.Keys
  {
    hide Next, Enabled;
    if i != 0 {
      PingsBounded(run, steps, i - 1);
      PingStep(run[i - 1], steps[i - 1]);
      SameProtocols(run[i - 1], steps[i - 1]);
    }
  }

  /** In every state of every run no channel holds more than it was made for: one token,
      one write result, one read error, an error for each protocol and the ping loop, and
      sixteen pings. */
  lemma ChannelsBounded(run: seq<Peer>, steps: seq<Step>, i: nat)
    requires IsRun(run, steps) && i < |run|
    ensures var p := run[i];
            && p.writeStart + |p.writeErr| <= 1 && p.readErr <= 1 && p.pings <= 16
            && p.protoErr <= |run[0].protocols| + 1
  {
    TokenInvariant(run, steps, i);
    PingsBounded(run, steps, i);
    assert |run[i].protocols.Keys| == |run[0].protocols.Keys|;
  }

  /** Until the main loop returns every error sent is there to be received: one of the read
      loop if that has ended, one of each protocol that has finished and one of the ping
      loop if that has. */
  ghost predicate ErrorsKept(p: Peer) {
    !p.main.Returned? ==>
      && p.readErr == (if p.reader == Ended then 1 else 0)
      && p.protoErr + |Unreported(p.protocols)| == |p.protocols| + if p.pinger == Finished then 1 else 0
  }

  lemma ErrorsKeptByProtocol(p: Peer, s: Step)
    requires Enabled(p, s) && ErrorsKept(p) && (s.ProtocolEnds? || s.ProtocolSends?)
    ensures ErrorsKept(Next(p, s))
  {
    hide Unreported;
    UnreportedWith(p.protocols, s.p, Next(p, s).protocols[s.p]);
  }

  lemma ErrorsKeptByOthers(p: Peer, s: Step)
    requires Enabled(p, s) && ErrorsKept(p) && (p.closed ==> p.main.Returned?) && !(s.ProtocolEnds? || s.ProtocolSends?)
    ensures ErrorsKept(Next(p, s))
  {
    hide Unreported;
  }

  /** In every run no error that was sent is lost while the main loop may receive it. */
  lemma {:induction false} NoErrorIsLost(run: seq<Peer>, steps: seq<Step>, i: nat)
    requires IsRun(run, steps) && i < |run|
    ensures ErrorsKept(run[i])
  {
    hide Next, Enabled, ErrorsKept, OneToken, RoomLeft;
    if i == 0 {
      NoErrorsYet(run[0]);
    } else {
      NoErrorIsLost(run, steps, i - 1);
      TokenInvariant(run, steps, i - 1);
      var p, s := run[i - 1], steps[i - 1];
      if s.ProtocolEnds? || s.ProtocolSends? { ErrorsKeptByProtocol(p, s); } else { ErrorsKeptByOthers(p, s); }
    }
  }

  lemma NoErrorsYet(p: Peer)
    requires Initial(p)
    ensures ErrorsKept(p)
  {
    assert Unreported(p.protocols) == p.protocols.Keys;
  }

  // ----- runs go on -----

  lemma Extended(run: seq<Peer>, steps: seq<Step>, s: Step) returns (run': seq<Peer>, steps': seq<Step>)
    requires IsRun(run, steps) && Enabled(run[|steps|], s)
    ensures IsRun(run', steps') && run <= run' && steps <= steps' && |steps'| == |steps| + 1
    ensures run'[|steps'|] == Next(run[|steps|], s)
  {
    hide Enabled, Next, Initial;
    run', steps' := run + [Next(run[|steps|], s)], steps + [s];
    forall i | 0 <= i < |steps'| ensures Enabled(run'[i], steps'[i]) && run'[i + 1] == Next(run'[i], steps'[i]) {
      if i < |steps| { assert run'[i] == run[i] && run'[i + 1] == run[i + 1] && steps'[i] == steps[i]; }
    }
  }

  /** A peer starts with the token in its channel and everyone at work. */
  lemma FirstSteps(p: Peer, w: nat, q: nat)
    requires Initial(p)
    ensures At(p, w) == Idle && p.writeStart == 1 && p.pings == 0 && Enabled(p, MainDisconnect)
    ensures Enabled(p, ReadsPing) && Enabled(p, ReaderFails) && Enabled(p, PingFails)
    ensures q in p.protocols ==> Enabled(p, ReadsMsg(q)) && Enabled(p, ProtocolEnds(q))
    ensures !Enabled(p, Close) && !Enabled(p, HangUp) && !Enabled(p, PingStops)
  {
  }

  /** A write that takes the token, ends and reports. */
  lemma WriteReports(p: Peer, w: nat, failed: bool)
    requires p.main == Selecting && p.writeStart == 1 && p.writeErr == [] && At(p, w) == Waiting
    ensures Enabled(p, TakeToken(w)) && Enabled(Next(p, TakeToken(w)), EndWrite(w, failed))
    ensures var p2 := Next(Next(p, TakeToken(w)), EndWrite(w, failed));
            && Enabled(p2, Report(w))
            && Next(p2, Report(w)) == p.(writeStart := 0, writeErr := [failed], writers := p.writers[w := Idle])
  {
    var p2 := Next(Next(p, TakeToken(w)), EndWrite(w, failed));
    assert p2 == p.(writeStart := 0, writers := p.writers[w := Reporting(failed)]);
  }

  lemma MainTakes(p: Peer, failed: bool)
    requires p.main == Selecting && p.writeStart == 0 && p.writeErr == [failed]
    ensures Enabled(p, MainWriteErr)
    ensures Next(p, MainWriteErr) == p.(writeErr := [], main := if failed then Returned(true) else Holding)
    ensures !failed ==> Enabled(p.(writeErr := [], main := Holding), MainRelease)
  {
  }

  lemma MainReleases(p: Peer)
    requires p.main == Holding && p.writeStart == 0
    ensures Enabled(p, MainRelease) && Next(p, MainRelease) == p.(writeStart := 1, main := Selecting)
  {
  }

  lemma TokenOnlyThere(p: Peer)
    requires Inv(p) && p.writeStart == 1
    ensures p.writeErr == []
  {
  }

  /** From every state of every run in which the token is in its channel and the main loop
      selects, a write that waits can end.  If it succeeds all is as it was but for itself;
      if it fails the main loop returns and keeps the token. */
  lemma WriteEnds(run: seq<Peer>, steps: seq<Step>, w: nat, failed: bool) returns (run': seq<Peer>, steps': seq<Step>)
    requires IsRun(run, steps)
    requires var p := run[|steps|]; p.main == Selecting && p.writeStart == 1 && At(p, w) == Waiting
    ensures IsRun(run', steps') && run <= run' && steps <= steps'
    ensures var p, p' := run[|steps|], run'[|steps'|];
            p' == if failed then p.(main := Returned(true), writeStart := 0, writers := p.writers[w := Idle])
                  else p.(writers := p.writers[w := Idle])
  {
    hide Enabled, Next, Initial, Inv, At;
    var p := run[|steps|];
    TokenInvariant(run, steps, |steps|);
    TokenOnlyThere(p);
    WriteReports(p, w, failed);
    run', steps' := Extended(run, steps, TakeToken(w));
    run', steps' := Extended(run', steps', EndWrite(w, failed));
    run', steps' := Extended(run', steps', Report(w));
    MainTakes(run'[|steps'|], failed);
    run', steps' := Extended(run', steps', MainWriteErr);
    if !failed {
      MainReleases(run'[|steps'|]);
      run', steps' := Extended(run', steps', MainRelease);
    }
  }

  // ----- the read loop and the ping loop -----

  /** A ping that is read is passed on and answered, and all is as before. */
  lemma PingIsAnswered(p: Peer)
    requires p.reader == Reading && !p.hungUp && p.pinger == Active && p.pings < 16
    ensures Enabled(p, ReadsPing) && Enabled(Next(p, ReadsPing), PassPing)
    ensures var p2 := Next(Next(p, ReadsPing), PassPing);
            && p2 == p.(pings := p.pings + 1)
            && Enabled(p2, Pong) && Next(p2, Pong) == p
            && Enabled(p2, PongFails) && Next(p2, PongFails) == p.(pinger := Sending)
  {
  }

  /** A message is passed to a protocol that runs, and to no other, before the reader reads
      on; at the close a ping is given up and a message is an error. */
  lemma MessageIsPassed(p: Peer, q: nat)
    requires p.reader == Reading && !p.hungUp
    ensures Enabled(p, ReadsMsg(q)) <==> q in p.protocols
    ensures q in p.protocols ==>
              var p1 := Next(p, ReadsMsg(q));
              && p1 == p.(reader := PassingMsg(q)) && !Enabled(p1, ReadsPing)
              && (Enabled(p1, PassMsg) <==> p.protocols[q] == Active)
              && (p.protocols[q] == Active ==> Next(p1, PassMsg) == p)
              && (Enabled(p1, PassSeesClosed) <==> p.closed)
              && (p.closed ==> Next(p1, PassSeesClosed) == p.(reader := SendingErr))
    ensures var p1 := p.(reader := PassingPing);
            (Enabled(p1, PassSeesClosed) <==> p.closed) && (p.closed ==> Next(p1, PassSeesClosed) == p)
  {
  }

  /** An error that was sent makes the main loop return while it selects. */
  lemma ErrorsReachMain(p: Peer)
    requires p.main == Selecting
    ensures p.readErr >= 1 ==> Enabled(p, MainReadErr) && Next(p, MainReadErr) == p.(readErr := p.readErr - 1, main := Returned(false))
    ensures p.protoErr >= 1 ==>
              Enabled(p, MainProtoErr) && Next(p, MainProtoErr) == p.(protoErr := p.protoErr - 1, main := Returned(false))
  {
  }

  // ----- shutdown -----

  lemma HungUpFinishes(run: seq<Peer>, steps: seq<Step>) returns (run': seq<Peer>, steps': seq<Step>)
    requires IsRun(run, steps) && run[|steps|].hungUp
    ensures IsRun(run', steps') && run <= run' && steps <= steps'
    ensures AllDone(run'[|steps'|]) && forall w :: At(run'[|steps'|], w) == Idle
    decreases StepsLeft(run[|steps|])
  {
    TokenInvariant(run, steps, |steps|);
    var p := run[|steps|];
    assert p.closed;
    NoneIsStuck(run, steps, |steps|);
    hide IsRun, Inv, Enabled, Next, StepsLeft, AllDone;
    if s :| Enabled(p, s) && !s.BeginWrite? {
      ShutdownStep(p, s);
      run', steps' := Extended(run, steps, s);
      run', steps' := HungUpFinishes(run', steps');
    } else {
      run', steps' := run, steps;
      forall w ensures At(p, w) == Idle { AtRest(p, w); }
    }
  }

  lemma AtRest(p: Peer, w: nat)
    requires Moves(p) && forall s :: Enabled(p, s) ==> s.BeginWrite?
    ensures At(p, w) == Idle
  {
    hide Enabled;
  }

  lemma MainReturns(p: Peer)
    ensures p.main == Selecting ==> Enabled(p, MainDisconnect) && Next(p, MainDisconnect) == p.(main := Returned(false))
    ensures p.main.Returned? && !p.closed ==> Enabled(p, Close) && Next(p, Close) == p.(closed := true)
    ensures p.closed && !p.hungUp ==> Enabled(p, HangUp) && Next(p, HangUp) == p.(hungUp := true)
  {
  }

  lemma HoldingIsToken(p: Peer)
    requires Inv(p)
    ensures p.main == Holding ==> p.writeStart == 0
    ensures p.closed ==> p.main.Returned?
    ensures p.hungUp ==> p.closed
  {
  }

  /** The main loop can always return, and the connection be closed and hung up. */
  lemma CanHangUp(run: seq<Peer>, steps: seq<Step>) returns (run': seq<Peer>, steps': seq<Step>)
    requires IsRun(run, steps)
    ensures IsRun(run', steps') && run <= run' && steps <= steps' && run'[|steps'|].hungUp
  {
    hide Enabled, Next, Initial, Inv;
    TokenInvariant(run, steps, |steps|);
    HoldingIsToken(run[|steps|]);
    run', steps' := run, steps;
    if run[|steps|].main == Holding {
      MainReleases(run[|steps|]);
      run', steps' := Extended(run, steps, MainRelease);
    }
    if run'[|steps'|].main == Selecting {
      MainReturns(run'[|steps'|]);
      run', steps' := Extended(run', steps', MainDisconnect);
    }
    if !run'[|steps'|].closed {
      MainReturns(run'[|steps'|]);
      run', steps' := Extended(run', steps', Close);
    }
    if !run'[|steps'|].hungUp {
      MainReturns(run'[|steps'|]);
      run', steps' := Extended(run', steps', HangUp);
    }
  }

  /** From every state of every run, wherever the token is and whoever is about to send, the
      peer can be shut down: every goroutine it waits for done, and every write returned. */
  lemma ShutdownCanComplete(run: seq<Peer>, steps: seq<Step>) returns (run': seq<Peer>, steps': seq<Step>)
    requires IsRun(run, steps)
    ensures IsRun(run', steps') && run <= run' && steps <= steps'
    ensures AllDone(run'[|steps'|]) && forall w :: At(run'[|steps'|], w) == Idle
  {
    hide IsRun, AllDone;
    RunShape(run, steps);
    run', steps' := CanHangUp(run, steps);
    RunShape(run', steps');
    run', steps' := HungUpFinishes(run', steps');
    RunShape(run', steps');
  }

  lemma RunShape(run: seq<Peer>, steps: seq<Step>)
    requires IsRun(run, steps)
    ensures |run| == |steps| + 1
  {
  }
}
