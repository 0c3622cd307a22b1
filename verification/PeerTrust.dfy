/** Where a connection's trust comes from: the server marks it once, between the two
    handshakes, and holds it against the limits only later, by which time the node
    may have lost its trust.  The runs here are those of `PeerAdmission`, with the
    connections between the two checkpoints. */
module PeerTrust {
  import opened Common
  import opened DialScheduling
  import opened DialTheorems
  import opened PeerAdmission

  /** The flag is set before the connection is held against the limits. */
  function PostHandshake(s: Server, c: Conn): Conn {
    if c.id in s.trusted then c.(trusted := true) else c
  }

  /** `waiting` are the connections between the checkpoints, `everTrusted` records the
      nodes that were trusted at some time. */
  datatype Net = Net(sys: System, waiting: set<Conn>, everTrusted: set<NodeID>)

  datatype NetStep = Shake(c: Conn) | Loops(step: Step)

  /** Connections are made without trust and admitted once, as they were marked. */
  ghost predicate CanNet(dial: DialConfig, n: Net, st: NetStep) {
    match st
    case Shake(c) => n.sys.server.outbox == None && n.sys.server.phase == Running && !c.trusted
    case Loops(step) => CanStep(dial, n.sys, step) && (step.Admit? ==> step.conn in n.waiting)
  }

  ghost function NextNet(cfg: ServerConfig, dial: DialConfig, n: Net, st: NetStep): Net
    requires CanNet(dial, n, st)
  {
    match st
    case Shake(c) => n.(waiting := n.waiting + {PostHandshake(n.sys.server, c)})
    case Loops(step) =>
      Net(Apply(cfg, dial, n.sys, step),
          if step.Admit? then n.waiting - {step.conn} else n.waiting,
          if step.Trust? && step.on then n.everTrusted + {step.id} else n.everTrusted)
  }

  /** Whoever is trusted, marked or admitted past the limits was once trusted. */
  ghost predicate Earned(n: Net) {
    && n.sys.server.trusted <= n.everTrusted
    && (forall c :: c in n.waiting && c.trusted ==> c.id in n.everTrusted)
    && (forall id :: id in n.sys.server.peers && n.sys.server.peers[id].admittedTrusted ==> id in n.everTrusted)
  }

  lemma NextEarned(cfg: ServerConfig, dial: DialConfig, n: Net, st: NetStep)
    requires Earned(n) && CanNet(dial, n, st)
    ensures Earned(NextNet(cfg, dial, n, st))
  {
    hide IsTurn, PostHandshakeChecks;
  }

  ghost predicate IsNetRun(cfg: ServerConfig, dial: DialConfig, run: seq<Net>, steps: seq<NetStep>) {
    && |run| == |steps| + 1
    && run[0] == Net(Begin(run[0].sys.server.trusted, run[0].sys.sched.now), {}, run[0].sys.server.trusted)
    && forall i :: 0 <= i < |steps| ==> CanNet(dial, run[i], steps[i]) && run[i + 1] == NextNet(cfg, dial, run[i], steps[i])
  }

  /** In every run, however the trusted set changes between the checkpoints. */
  lemma {:induction false} TrustIsEarned(
      cfg: ServerConfig, dial: DialConfig, run: seq<Net>, steps: seq<NetStep>, i: nat)
    requires IsNetRun(cfg, dial, run, steps) && i < |run|
    ensures Earned(run[i]) && Good(cfg, dial, run[i].sys)
  {
    hide Good, CanStep, Apply, Earned;
    if i == 0 {
      BeginGood(cfg, dial, run[0].sys.server.trusted, run[0].sys.sched.now);
      BeginEarned(run[0].sys.server.trusted, run[0].sys.sched.now);
    } else {
      TrustIsEarned(cfg, dial, run, steps, i - 1);
      NextEarned(cfg, dial, run[i - 1], steps[i - 1]);
      if steps[i - 1].Loops? { StepKeeps(cfg, dial, run[i - 1].sys, steps[i - 1].step); }
    }
  }

  lemma BeginEarned(trusted: set<NodeID>, now: int)
    ensures Earned(Net(Begin(trusted, now), {}, trusted))
  {
  }

  ghost function Strangers(n: Net): set<NodeID> {
    set id | id in n.sys.server.peers && id !in n.everTrusted
  }

  ghost function InboundStrangers(n: Net): set<NodeID> {
    set id | id in n.sys.server.peers && id !in n.everTrusted && n.sys.server.peers[id].conn.kind.Inbound?
  }

  /** Nodes that were never trusted cannot pass either limit together, in any run. */
  lemma StrangersAreLimited(cfg: ServerConfig, dial: DialConfig, run: seq<Net>, steps: seq<NetStep>, i: nat)
    requires IsNetRun(cfg, dial, run, steps) && i < |run|
    ensures |Strangers(run[i])| <= Natural(cfg.maxPeers)
    ensures |InboundStrangers(run[i])| <= Natural(MaxInboundConns(cfg))
  {
    TrustIsEarned(cfg, dial, run, steps, i);
    hide IsNetRun, Inv;
    var peers := run[i].sys.server.peers;
    SubsetSize(Strangers(run[i]), Untrusted(peers));
    SubsetSize(InboundStrangers(run[i]), UntrustedInbounds(peers));
  }

  // ----- when the mark and the present trust decide alike -----

  /** The connection runs into one of the limits that only trust passes. */
  predicate LimitReached(cfg: ServerConfig, s: Server, c: Conn) {
    |s.peers| >= cfg.maxPeers || (c.kind.Inbound? && s.inboundCount >= MaxInboundConns(cfg))
  }

  /** The connection is decided as if it had been marked just now. */
  predicate FollowsTrust(cfg: ServerConfig, s: Server, c: Conn, matching: nat) {
    PostHandshakeChecks(cfg, s, c, matching) == PostHandshakeChecks(cfg, s, c.(trusted := c.id in s.trusted), matching)
  }

  /** The mark decides as the present trust would if and only if it agrees with it or no
      limit is reached. */
  lemma MarkDecidesIff(cfg: ServerConfig, s: Server, c: Conn, matching: nat)
    ensures FollowsTrust(cfg, s, c, matching) <==> c.trusted == (c.id in s.trusted) || !LimitReached(cfg, s, c)
  {
    hide MaxInboundConns;
  }

  /** Connection `c` was marked by step `j`. */
  ghost predicate MarkedBy(run: seq<Net>, steps: seq<NetStep>, j: nat, c: Conn)
    requires j < |steps| < |run|
  {
    steps[j].Shake? && !steps[j].c.trusted && c == PostHandshake(run[j].sys.server, steps[j].c)
  }

  /** Whoever waits was marked by an earlier step, as the trust was then. */
  lemma {:induction false} WaitingWasMarked(
      cfg: ServerConfig, dial: DialConfig, run: seq<Net>, steps: seq<NetStep>, i: nat, c: Conn)
    requires IsNetRun(cfg, dial, run, steps) && i < |run| && c in run[i].waiting
    ensures exists j :: 0 <= j < i && MarkedBy(run, steps, j, c)
  {
    hide Apply, CanStep, PostHandshake;
    if i != 0 {
      assert run[i - 1 + 1] == NextNet(cfg, dial, run[i - 1], steps[i - 1]);
      if c in run[i - 1].waiting {
        WaitingWasMarked(cfg, dial, run, steps, i - 1, c);
      } else {
        assert MarkedBy(run, steps, i - 1, c);
      }
    }
  }

  /** In every run, at every admission: the connection was marked by some earlier step,
      and it is decided as the present trust would decide it if and only if the node's
      trust is as it was at that step or no limit is reached. */
  lemma AdmissionFollowsTrustIff(
      cfg: ServerConfig, dial: DialConfig, run: seq<Net>, steps: seq<NetStep>, i: nat, c: Conn, matching: nat)
    requires IsNetRun(cfg, dial, run, steps) && i < |steps| && steps[i] == Loops(Admit(c, matching))
    ensures exists j :: 0 <= j < i && MarkedBy(run, steps, j, c) &&
              (FollowsTrust(cfg, run[i].sys.server, c, matching) <==>
                || (c.id in run[j].sys.server.trusted <==> c.id in run[i].sys.server.trusted)
                || !LimitReached(cfg, run[i].sys.server, c))
  {
    hide FollowsTrust, LimitReached;
    assert CanNet(dial, run[i], steps[i]);
    WaitingWasMarked(cfg, dial, run, steps, i, c);
    var j :| 0 <= j < i && MarkedBy(run, steps, j, c);
    MarkDecidesIff(cfg, run[i].sys.server, c, matching);
    assert c.trusted <==> c.id in run[j].sys.server.trusted;
  }

  // ----- once per mark -----

  /** How many of the first `i` steps marked connection `c`, and how many admitted it. */
  ghost function Marks(run: seq<Net>, steps: seq<NetStep>, i: nat, c: Conn): nat
    requires i <= |steps| < |run|
  {
    if i == 0 then 0 else Marks(run, steps, i - 1, c) + if MarkedBy(run, steps, i - 1, c) then 1 else 0
  }

  ghost function Admissions(steps: seq<NetStep>, i: nat, c: Conn): nat
    requires i <= |steps|
  {
    if i == 0 then 0
    else Admissions(steps, i - 1, c) + if steps[i - 1].Loops? && steps[i - 1].step.Admit? && steps[i - 1].step.conn == c then 1 else 0
  }

  lemma WaitingAfter(cfg: ServerConfig, dial: DialConfig, n: Net, st: NetStep, c: Conn)
    requires CanNet(dial, n, st)
    ensures c in NextNet(cfg, dial, n, st).waiting <==>
              || (st.Shake? && c == st.c.(trusted := c.trusted) && c.trusted == (c.id in n.sys.server.trusted))
              || (c in n.waiting && !(st.Loops? && st.step.Admit? && st.step.conn == c))
    ensures st.Loops? && st.step.Admit? && st.step.conn == c ==> c in n.waiting
  {
    hide CanStep, Apply;
  }

  /** In every run a connection is held against the limits at most once for each time it
      was marked. */
  lemma {:induction false} AdmittedOncePerMark(
      cfg: ServerConfig, dial: DialConfig, run: seq<Net>, steps: seq<NetStep>, i: nat, c: Conn)
    requires IsNetRun(cfg, dial, run, steps) && i < |run|
    ensures Admissions(steps, i, c) + (if c in run[i].waiting then 1 else 0) <= Marks(run, steps, i, c)
  {
    hide NextNet;
    if i != 0 {
      AdmittedOncePerMark(cfg, dial, run, steps, i - 1, c);
      assert run[i - 1 + 1] == NextNet(cfg, dial, run[i - 1], steps[i - 1]);
      WaitingAfter(cfg, dial, run[i - 1], steps[i - 1], c);
    }
  }

  // ----- runs on which they do not -----

  /** A run goes on by any step that can be taken. */
  lemma Extends(cfg: ServerConfig, dial: DialConfig, run: seq<Net>, steps: seq<NetStep>, st: NetStep)
    returns (run': seq<Net>, steps': seq<NetStep>, last: Net)
    requires IsNetRun(cfg, dial, run, steps) && CanNet(dial, run[|steps|], st)
    ensures IsNetRun(cfg, dial, run', steps') && |run'| == |steps'| + 1 && |steps'| == |steps| + 1
    ensures run <= run' && steps <= steps' && steps'[|steps|] == st
    ensures last == run'[|steps'|] == NextNet(cfg, dial, run[|steps|], st)
  {
    hide CanNet, NextNet, Begin;
    last := NextNet(cfg, dial, run[|steps|], st);
    run', steps' := run + [NextNet(cfg, dial, run[|steps|], st)], steps + [st];
    forall i | 0 <= i < |steps'| ensures CanNet(dial, run'[i], steps'[i]) && run'[i + 1] == NextNet(cfg, dial, run'[i], steps'[i]) {
      if i < |steps| { assert run'[i] == run[i] && run'[i + 1] == run[i + 1] && steps'[i] == steps[i]; }
    }
  }

  /** The server takes a connection of a stranger: it is up, not busy, and the node is not
      connected and not its own. */
  ghost predicate Takes(cfg: ServerConfig, n: Net, id: NodeID) {
    n.sys.server.phase == Running && n.sys.server.outbox == None && id !in n.sys.server.peers && id != cfg.self
  }

  lemma TrustStep(cfg: ServerConfig, dial: DialConfig, n: Net, id: NodeID, on: bool)
    requires Takes(cfg, n, id)
    ensures CanNet(dial, n, Loops(Trust(id, on)))
    ensures var n' := NextNet(cfg, dial, n, Loops(Trust(id, on)));
            && Takes(cfg, n', id) && n'.waiting == n.waiting && n'.sys.server.peers == n.sys.server.peers
            && n'.sys.server.inboundCount == n.sys.server.inboundCount && (id in n'.sys.server.trusted <==> on)
  {
    hide IsTurn, PostHandshakeChecks;
  }

  lemma ShakeStep(cfg: ServerConfig, dial: DialConfig, n: Net, c: Conn)
    requires Takes(cfg, n, c.id) && !c.trusted
    ensures CanNet(dial, n, Shake(c))
    ensures var n' := NextNet(cfg, dial, n, Shake(c));
            n'.sys == n.sys && c.(trusted := c.id in n.sys.server.trusted) in n'.waiting
  {
    hide IsTurn, PostHandshakeChecks;
  }

  lemma AdmitStep(cfg: ServerConfig, dial: DialConfig, n: Net, c: Conn, matching: nat)
    requires Takes(cfg, n, c.id) && c in n.waiting && matching > 0
    ensures CanNet(dial, n, Loops(Admit(c, matching)))
    ensures var s, s' := n.sys.server, NextNet(cfg, dial, n, Loops(Admit(c, matching))).sys.server;
            && s'.trusted == s.trusted
            && s'.peers == if !c.trusted && LimitReached(cfg, s, c) then s.peers else s.peers[c.id := Peer(c, c.trusted)]
  {
    hide IsTurn, MaxInboundConns;
  }

  /** From every state of every run in which the server takes it, however full: a node
      trusted at its mark and no longer at its admission ends up connected, untrusted. */
  lemma LapsedTrustIsAdmitted(
      cfg: ServerConfig, dial: DialConfig, run: seq<Net>, steps: seq<NetStep>, id: NodeID, kind: ConnKind)
    returns (run': seq<Net>, steps': seq<NetStep>)
    requires IsNetRun(cfg, dial, run, steps) && Takes(cfg, run[|steps|], id)
    ensures IsNetRun(cfg, dial, run', steps') && run <= run' && steps <= steps'
    ensures var s, s' := run[|steps|].sys.server, run'[|steps'|].sys.server;
            s'.peers.Keys == s.peers.Keys + {id} && id !in s'.trusted
  {
    hide CanNet, NextNet, LimitReached;
    var c, n := Conn(id, kind, false), run[|steps|];
    TrustStep(cfg, dial, n, id, true);
    run', steps', n := Extends(cfg, dial, run, steps, Loops(Trust(id, true)));
    ShakeStep(cfg, dial, n, c);
    run', steps', n := Extends(cfg, dial, run', steps', Shake(c));
    TrustStep(cfg, dial, n, id, false);
    run', steps', n := Extends(cfg, dial, run', steps', Loops(Trust(id, false)));
    AdmitStep(cfg, dial, n, c.(trusted := true), 1);
    run', steps', n := Extends(cfg, dial, run', steps', Loops(Admit(c.(trusted := true), 1)));
  }

  /** From every such state of a full server: a node trusted only after its mark is
      refused, trusted. */
  lemma LateTrustIsRefused(
      cfg: ServerConfig, dial: DialConfig, run: seq<Net>, steps: seq<NetStep>, id: NodeID, kind: ConnKind)
    returns (run': seq<Net>, steps': seq<NetStep>)
    requires IsNetRun(cfg, dial, run, steps) && Takes(cfg, run[|steps|], id) && id !in run[|steps|].sys.server.trusted
    requires LimitReached(cfg, run[|steps|].sys.server, Conn(id, kind, false))
    ensures IsNetRun(cfg, dial, run', steps') && run <= run' && steps < steps'
    ensures steps'[|steps'| - 1] == Loops(Admit(Conn(id, kind, false), 1))
    ensures var s, s' := run[|steps|].sys.server, run'[|steps'|].sys.server;
            s'.peers == s.peers && id in s'.trusted
  {
    hide CanNet, NextNet;
    var c, n := Conn(id, kind, false), run[|steps|];
    ShakeStep(cfg, dial, n, c);
    run', steps', n := Extends(cfg, dial, run, steps, Shake(c));
    TrustStep(cfg, dial, n, id, true);
    run', steps', n := Extends(cfg, dial, run', steps', Loops(Trust(id, true)));
    AdmitStep(cfg, dial, n, c, 1);
    run', steps', n := Extends(cfg, dial, run', steps', Loops(Admit(c, 1)));
  }
}
