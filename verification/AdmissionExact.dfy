/** What the server's limits and steps are, stated without its own functions. */
module AdmissionExact {
  import opened Common
  import opened DialScheduling
  import opened DialTheorems
  import opened PeerAdmission

  function Abs(x: int): nat { if x < 0 then -x else x }

  /** The ratio that is used: three if none was set. */
  function RatioOf(cfg: ServerConfig): int { if cfg.dialRatio == 0 then 3 else cfg.dialRatio }

  /** A negative divisor only changes the sign. */
  lemma DivSign(n: nat, b: int)
    requires b != 0
    ensures n / b == if b > 0 then n / Abs(b) else -(n / Abs(b))
  {
    if b < 0 {
      var q, t := n / b, n % b;
      assert n == q * b + t;
      assert (-q) * Abs(b) == q * b;
      QuotientIs(n, Abs(b), -q, t);
    }
  }

  lemma DivBounds(n: nat, d: nat)
    requires d > 0
    ensures (n / d) * d <= n < (n / d + 1) * d && 0 <= n / d
  {
    var q := n / d;
    assert n == q * d + n % d;
    assert (q + 1) * d == q * d + d;
  }

  /** The source's division rounds towards zero. */
  lemma QuoBounds(a: int, b: int)
    requires b != 0
    ensures Abs(Quo(a, b)) * Abs(b) <= Abs(a) < (Abs(Quo(a, b)) + 1) * Abs(b)
    ensures Quo(a, b) != 0 ==> (Quo(a, b) > 0 <==> (a > 0 <==> b > 0))
  {
    DivSign(Abs(a), b);
    DivBounds(Abs(a), Abs(b));
    var n := Abs(a) / Abs(b);
    assert Quo(a, b) == if a >= 0 <==> b > 0 then n else -n;
    hide Quo;
    assert Abs(Quo(a, b)) == n;
    if a == 0 { QuotientIs(0, Abs(b), 0, 0); }
  }

  /** Dialed connections are the share of the peers that the ratio says, rounded towards
      zero but at least one; none if dialing is off or no peers are wanted.  The others may
      be inbound. */
  lemma MaxDialedBounds(cfg: ServerConfig)
    ensures var limit, ratio := MaxDialedConns(cfg), RatioOf(cfg);
            && (cfg.noDial || cfg.maxPeers == 0 ==> limit == 0)
            && (!cfg.noDial && cfg.maxPeers != 0 ==>
                 if Abs(cfg.maxPeers) < Abs(ratio) then limit == 1
                 else
                   && Abs(limit) * Abs(ratio) <= Abs(cfg.maxPeers) < (Abs(limit) + 1) * Abs(ratio)
                   && (limit > 0 <==> (cfg.maxPeers > 0 <==> ratio > 0)))
            && MaxInboundConns(cfg) + limit == cfg.maxPeers
  {
    hide Quo;
    var ratio := RatioOf(cfg);
    QuoBounds(cfg.maxPeers, ratio);
    var q := Abs(Quo(cfg.maxPeers, ratio));
    if q >= 1 { MulAtLeast(q, Abs(ratio)); }
    assert q == 0 <==> Abs(cfg.maxPeers) < Abs(ratio);
  }

  // ----- the checks after the handshake -----

  /** What each refusal says. */
  predicate Holds(cfg: ServerConfig, s: Server, c: Conn, matching: nat, reason: Reason) {
    match reason
    case TooManyPeers =>
      !c.trusted && (|s.peers| >= cfg.maxPeers || (c.kind.Inbound? && s.inboundCount + MaxDialedConns(cfg) >= cfg.maxPeers))
    case AlreadyPeer => c.id in s.peers
    case Self => c.id == cfg.self
    case UselessPeer => cfg.hasProtocols && matching == 0
  }

  /** The order in which the refusals are given. */
  function Rank(reason: Reason): nat {
    match reason
    case TooManyPeers => 0
    case AlreadyPeer => 1
    case Self => 2
    case UselessPeer => 3
  }

  /** A connection is admitted exactly if no refusal holds of it; else the first that does
      is given. */
  lemma ChecksGiveFirst(cfg: ServerConfig, s: Server, c: Conn, matching: nat)
    ensures var refusal := PostHandshakeChecks(cfg, s, c, matching);
            && (refusal.None? <==> forall r :: !Holds(cfg, s, c, matching, r))
            && (refusal.Some? ==>
                 && Holds(cfg, s, c, matching, refusal.value)
                 && forall r :: Holds(cfg, s, c, matching, r) ==> Rank(refusal.value) <= Rank(r))
  {
    hide MaxDialedConns;
    var refusal := PostHandshakeChecks(cfg, s, c, matching);
    if refusal.None? {
      forall r ensures !Holds(cfg, s, c, matching, r) { }
    } else {
      assert Holds(cfg, s, c, matching, refusal.value);
    }
  }

  // ----- what a step changes -----

  predicate Admits(cfg: ServerConfig, s: Server, st: Step) {
    st.Admit? && PostHandshakeChecks(cfg, s, st.conn, st.matching).None?
  }

  /** The trust flag of a connected peer: as last set, else as it was admitted with. */
  predicate FlagAfter(cfg: ServerConfig, s: Server, st: Step, id: NodeID, flag: bool) {
    if st.Trust? && st.id == id then flag == st.on
    else if Admits(cfg, s, st) && st.conn.id == id then flag == st.conn.trusted
    else id in s.peers && flag == s.peers[id].conn.trusted
  }

  ghost predicate Does(cfg: ServerConfig, sys: System, st: Step, sys': System, id: NodeID) {
    var (s, s') := (sys.server, sys'.server);
    && (st.Report? ==> st.g < |sys.goroutines|)
    && s'.peers.Keys == s.peers.Keys + (if Admits(cfg, s, st) then {st.conn.id} else {})
                        - (if st.Report? then {sys.goroutines[st.g].peer.conn.id} else {})
    && s'.trusted == (if !st.Trust? then s.trusted else if st.on then s.trusted + {st.id} else s.trusted - {st.id})
    && (id in s'.peers ==> FlagAfter(cfg, s, st, id, s'.peers[id].conn.trusted))
    && |sys'.goroutines| == |sys.goroutines| + (if Admits(cfg, s, st) then 1 else 0)
    && (s'.phase == SpinningDown <==> s.phase == SpinningDown || st.Quit?)
  }

  lemma ApplyDoes(cfg: ServerConfig, dial: DialConfig, sys: System, st: Step, id: NodeID)
    requires CanStep(dial, sys, st)
    ensures Does(cfg, sys, st, PeerAdmission.Apply(cfg, dial, sys, st), id)
  {
    hide IsTurn, PostHandshakeChecks;
  }

  /** In every run a step changes the connected peers only by an admission or a report,
      the trusted nodes and a peer's trust only as told, and starts a goroutine exactly for
      each peer it admits. */
  lemma StepDoes(cfg: ServerConfig, dial: DialConfig, run: seq<System>, steps: seq<Step>, i: nat, id: NodeID)
    requires PeerAdmission.IsRun(cfg, dial, run, steps) && i < |steps|
    ensures Does(cfg, run[i], steps[i], run[i + 1], id)
  {
    hide CanStep, PeerAdmission.Apply, Does;
    ApplyDoes(cfg, dial, run[i], steps[i], id);
  }

  // ----- spindown can always be completed -----

  lemma Extended(cfg: ServerConfig, dial: DialConfig, run: seq<System>, steps: seq<Step>, st: Step)
    returns (run': seq<System>, steps': seq<Step>)
    requires PeerAdmission.IsRun(cfg, dial, run, steps) && CanStep(dial, run[|steps|], st)
    ensures PeerAdmission.IsRun(cfg, dial, run', steps') && run <= run' && steps <= steps' && |steps'| == |steps| + 1
    ensures run'[|steps'|] == PeerAdmission.Apply(cfg, dial, run[|steps|], st)
  {
    hide CanStep, PeerAdmission.Apply, Begin;
    run', steps' := run + [PeerAdmission.Apply(cfg, dial, run[|steps|], st)], steps + [st];
    forall i | 0 <= i < |steps'|
      ensures CanStep(dial, run'[i], steps'[i]) && run'[i + 1] == PeerAdmission.Apply(cfg, dial, run'[i], steps'[i])
    {
      if i < |steps| { assert run'[i] == run[i] && run'[i + 1] == run[i + 1] && steps'[i] == steps[i]; }
    }
  }

  /** A peer that runs can end, and its report takes it away. */
  lemma EndThenReport(cfg: ServerConfig, dial: DialConfig, sys: System, g: nat)
    requires g < |sys.goroutines| && Unreported(sys.goroutines[g]) && sys.server.outbox == None
    requires sys.server.phase == SpinningDown && sys.goroutines[g].peer.conn.id in sys.server.peers
    ensures sys.goroutines[g].life == Alive ==>
              && CanStep(dial, sys, End(g))
              && PeerAdmission.Apply(cfg, dial, sys, End(g)).server == sys.server
              && PeerAdmission.Apply(cfg, dial, sys, End(g)).goroutines == sys.goroutines[g := sys.goroutines[g].(life := Reporting)]
    ensures sys.goroutines[g].life == Reporting ==>
              && CanStep(dial, sys, Report(g))
              && PeerAdmission.Apply(cfg, dial, sys, Report(g)).server
                 == sys.server.(peers := sys.server.peers - {sys.goroutines[g].peer.conn.id})
  {
    assert sys.goroutines[g].peer.conn.id in sys.server.peers.Keys;
  }

  lemma SomeGoroutine(cfg: ServerConfig, dial: DialConfig, sys: System) returns (g: nat)
    requires Good(cfg, dial, sys) && sys.server.peers != map[]
    ensures g < |sys.goroutines| && Unreported(sys.goroutines[g]) && sys.goroutines[g].peer.conn.id in sys.server.peers
  {
    hide Inv, Keyed, Counted, Agree;
    assert sys.server.peers.Keys != {};
    var id :| id in sys.server.peers;
    assert HasGoroutine(sys.goroutines, id);
    g :| 0 <= g < |sys.goroutines| && Unreported(sys.goroutines[g]) && sys.goroutines[g].peer.conn.id == id;
  }

  /** The last state of a run in which the server spins down. */
  ghost predicate Down(run: seq<System>, steps: seq<Step>) {
    |run| == |steps| + 1 && run[|steps|].server.phase == SpinningDown && run[|steps|].server.outbox == None
  }

  /** From every state of every run that spins down, the peers can all be let go. */
  lemma {:induction false} PeersCanLeave(cfg: ServerConfig, dial: DialConfig, run: seq<System>, steps: seq<Step>)
    returns (run': seq<System>, steps': seq<Step>)
    requires PeerAdmission.IsRun(cfg, dial, run, steps) && Down(run, steps)
    ensures PeerAdmission.IsRun(cfg, dial, run', steps') && run <= run' && steps <= steps' && Down(run', steps')
    ensures run'[|steps'|].server.peers == map[]
    decreases |run[|steps|].server.peers|
  {
    hide CanStep, PeerAdmission.Apply, Begin, Good;
    var sys := run[|steps|];
    if sys.server.peers == map[] { return run, steps; }
    AdmissionInvariant(cfg, dial, run, steps, |steps|);
    var g := SomeGoroutine(cfg, dial, sys);
    var id := sys.goroutines[g].peer.conn.id;
    EndThenReport(cfg, dial, sys, g);
    run', steps' := run, steps;
    if sys.goroutines[g].life == Alive {
      run', steps' := Extended(cfg, dial, run, steps, End(g));
      EndThenReport(cfg, dial, run'[|steps'|], g);
    }
    run', steps' := Extended(cfg, dial, run', steps', Report(g));
    assert run'[|steps'|].server.peers.Keys == sys.server.peers.Keys - {id};
    run', steps' := PeersCanLeave(cfg, dial, run', steps');
  }

  /** In every run: whenever the server is not busy with the scheduler it can quit, and from
      there reach the end of its spindown, with every peer gone and every goroutine done. */
  lemma ShutdownCanComplete(cfg: ServerConfig, dial: DialConfig, run: seq<System>, steps: seq<Step>)
    returns (run': seq<System>, steps': seq<Step>)
    requires PeerAdmission.IsRun(cfg, dial, run, steps) && run[|steps|].server.outbox == None
    ensures PeerAdmission.IsRun(cfg, dial, run', steps') && run <= run' && steps <= steps' && Down(run', steps')
    ensures var sys := run'[|steps'|];
            sys.server.peers == map[] && forall g :: 0 <= g < |sys.goroutines| ==> sys.goroutines[g].life == Reported
  {
    hide CanStep, PeerAdmission.Apply, Begin, Good;
    run', steps' := run, steps;
    if run[|steps|].server.phase == Running {
      QuitStep(cfg, dial, run[|steps|]);
      run', steps' := Extended(cfg, dial, run, steps, Quit);
    }
    run', steps' := PeersCanLeave(cfg, dial, run', steps');
    SpinDownReports(cfg, dial, run', steps', |steps'|, |steps'|);
  }

  lemma QuitStep(cfg: ServerConfig, dial: DialConfig, sys: System)
    requires sys.server.phase == Running && sys.server.outbox == None
    ensures CanStep(dial, sys, Quit)
    ensures PeerAdmission.Apply(cfg, dial, sys, Quit).server == sys.server.(phase := SpinningDown)
  {
  }
}
