/** Peer admission: the server's main loop, the dial scheduler and one goroutine per
    admitted peer, which share nothing but messages.  The server blocks while it tells
    the scheduler about a peer, so between a change of its own peer set and the
    scheduler's there is one message in flight.  A peer's goroutine reports once, after
    its peer has run; the server deletes by what the report names. */
module PeerAdmission {
  import opened Common
  import opened DialScheduling
  import opened DialTheorems

  const DEFAULT_DIAL_RATIO: int := 3

  datatype ConnKind = DynDial | StaticDial | Inbound

  datatype Conn = Conn(id: NodeID, kind: ConnKind, trusted: bool)

  /** A connected peer, with the trust its connection had when it was admitted. */
  datatype Peer = Peer(conn: Conn, admittedTrusted: bool)

  datatype ServerConfig = ServerConfig(
    self: NodeID, maxPeers: int, dialRatio: int, noDial: bool, hasProtocols: bool)

  datatype Reason = TooManyPeers | AlreadyPeer | Self | UselessPeer

  /** The message the server is blocked on sending to the scheduler. */
  datatype Message = Joined(peer: Peer) | Left(peer: Peer)

  datatype Phase = Running | SpinningDown

  datatype Server = Server(
    phase: Phase, peers: map<NodeID, Peer>, inboundCount: int, trusted: set<NodeID>,
    outbox: Option<Message>)

  /** Division as the source's language does it, towards zero. */
  function Quo(a: int, b: int): int
    requires b != 0
  {
    if a >= 0 then a / b else -((-a) / b)
  }

  function MaxDialedConns(cfg: ServerConfig): int {
    if cfg.noDial || cfg.maxPeers == 0 then 0
    else
      var limit := Quo(cfg.maxPeers, if cfg.dialRatio == 0 then DEFAULT_DIAL_RATIO else cfg.dialRatio);
      if limit == 0 then 1 else limit
  }

  function MaxInboundConns(cfg: ServerConfig): int {
    cfg.maxPeers - MaxDialedConns(cfg)
  }

  /** The checks after the handshake, in the order the source makes them;
      `matching` is the number of protocols shared with the remote. */
  function PostHandshakeChecks(cfg: ServerConfig, s: Server, c: Conn, matching: nat): Option<Reason> {
    if !c.trusted && |s.peers| >= cfg.maxPeers then Some(TooManyPeers)
    else if !c.trusted && c.kind.Inbound? && s.inboundCount >= MaxInboundConns(cfg) then Some(TooManyPeers)
    else if c.id in s.peers then Some(AlreadyPeer)
    else if c.id == cfg.self then Some(Self)
    else if cfg.hasProtocols && matching == 0 then Some(UselessPeer)
    else None
  }

  function SetTrust(s: Server, id: NodeID, on: bool): Server {
    var t := if on then s.trusted + {id} else s.trusted - {id};
    var p := if id in s.peers then s.peers[id := s.peers[id].(conn := s.peers[id].conn.(trusted := on))] else s.peers;
    s.(trusted := t, peers := p)
  }

  function AddPeer(cfg: ServerConfig, s: Server, c: Conn, matching: nat): Server {
    if PostHandshakeChecks(cfg, s, c, matching) != None then s
    else s.(peers := s.peers[c.id := Peer(c, c.trusted)], outbox := Some(Joined(Peer(c, c.trusted))))
  }

  /** A report of a peer's end: whatever the report names is deleted, and announced
      unless the server is spinning down. */
  function DropPeer(s: Server, p: Peer): Server {
    if s.phase == Running then s.(peers := s.peers - {p.conn.id}, outbox := Some(Left(p)))
    else s.(peers := s.peers - {p.conn.id})
  }

  /** The scheduler took the message; the server goes on and counts. */
  function Unblock(s: Server): Server
    requires s.outbox.Some?
  {
    var inbound := s.outbox.value.peer.conn.kind.Inbound?;
    s.(outbox := None,
       inboundCount := s.inboundCount + if !inbound then 0 else if s.outbox.value.Joined? then 1 else -1)
  }

  // ----- the goroutines of the peers -----

  /** Running its peer, about to report, or done. */
  datatype Life = Alive | Reporting | Reported

  /** A peer's goroutine with the peer it was started for. */
  datatype Goroutine = Goroutine(peer: Peer, life: Life)

  predicate Unreported(g: Goroutine) { g.life != Reported }

  /** A goroutine shares its peer with the server, whose trust flag it sees change. */
  function TrustShared(gs: seq<Goroutine>, id: NodeID, on: bool): seq<Goroutine> {
    seq(|gs|, i requires 0 <= i < |gs| =>
      if Unreported(gs[i]) && gs[i].peer.conn.id == id
      then gs[i].(peer := gs[i].peer.(conn := gs[i].peer.conn.(trusted := on))) else gs[i])
  }

  // ----- the goroutines together -----

  datatype System = System(server: Server, sched: Sched, goroutines: seq<Goroutine>)

  datatype Step =
    | Trust(id: NodeID, on: bool)
    | Admit(conn: Conn, matching: nat)
    | End(g: nat)
    | Report(g: nat)
    | Quit
    | Schedule(turn: Turn, next: Sched)

  /** The scheduler's event for a message of the server. */
  function EventFor(m: Message): Event {
    var dialed := !m.peer.conn.kind.Inbound?;
    if m.Joined? then PeerAdded(m.peer.conn.id, dialed) else PeerRemoved(m.peer.conn.id, dialed)
  }

  predicate IsPeerEvent(e: Event) {
    e.PeerAdded? || e.PeerRemoved?
  }

  /** The server acts only when it is not blocked; a connection carries any trust
      flag (`PeerTrust` says where it comes from); the scheduler hears of peers only from the blocked server. */
  ghost predicate CanStep(dial: DialConfig, sys: System, st: Step) {
    match st
    case Trust(_, _) => sys.server.outbox == None && sys.server.phase == Running
    case Admit(_, _) => sys.server.outbox == None && sys.server.phase == Running
    case End(g) => g < |sys.goroutines| && sys.goroutines[g].life == Alive
    case Report(g) =>
      && g < |sys.goroutines| && sys.goroutines[g].life == Reporting
      && sys.server.outbox == None && (sys.server.phase == SpinningDown ==> |sys.server.peers| > 0)
    case Quit => sys.server.outbox == None && sys.server.phase == Running
    case Schedule(turn, next) =>
      && IsTurn(dial, sys.sched, turn, next)
      && (IsPeerEvent(turn.event) ==> sys.server.outbox.Some? && turn.event == EventFor(sys.server.outbox.value))
  }

  ghost function Apply(cfg: ServerConfig, dial: DialConfig, sys: System, st: Step): System
    requires CanStep(dial, sys, st)
  {
    match st
    case Trust(id, on) =>
      sys.(server := SetTrust(sys.server, id, on), goroutines := TrustShared(sys.goroutines, id, on))
    case Admit(c, matching) =>
      sys.(server := AddPeer(cfg, sys.server, c, matching),
           goroutines := if PostHandshakeChecks(cfg, sys.server, c, matching) != None then sys.goroutines
                         else sys.goroutines + [Goroutine(Peer(c, c.trusted), Alive)])
    case End(g) => sys.(goroutines := sys.goroutines[g := sys.goroutines[g].(life := Reporting)])
    case Report(g) =>
      sys.(server := DropPeer(sys.server, sys.goroutines[g].peer),
           goroutines := sys.goroutines[g := sys.goroutines[g].(life := Reported)])
    case Quit => sys.(server := sys.server.(phase := SpinningDown))
    case Schedule(turn, next) =>
      sys.(server := if IsPeerEvent(turn.event) then Unblock(sys.server) else sys.server, sched := next)
  }

  function Begin(trusted: set<NodeID>, now: int): System {
    System(Server(Running, map[], 0, trusted, None), Init(now), [])
  }

  // ----- what holds in every run -----

  ghost function Inbounds(peers: map<NodeID, Peer>): set<NodeID> {
    set id | id in peers && peers[id].conn.kind.Inbound?
  }

  ghost function Untrusted(peers: map<NodeID, Peer>): set<NodeID> {
    set id | id in peers && !peers[id].admittedTrusted
  }

  ghost function UntrustedInbounds(peers: map<NodeID, Peer>): set<NodeID> {
    set id | id in peers && !peers[id].admittedTrusted && peers[id].conn.kind.Inbound?
  }

  ghost function Dialed(peers: map<NodeID, bool>): set<NodeID> {
    set id | id in peers && peers[id]
  }

  function Natural(x: int): nat { if x < 0 then 0 else x }

  /** The peers the scheduler has been told about. */
  ghost function Told(s: Server): map<NodeID, Peer> {
    match s.outbox
    case None => s.peers
    case Some(Joined(p)) => s.peers - {p.conn.id}
    case Some(Left(p)) => s.peers[p.conn.id := p]
  }

  ghost predicate Keyed(s: Server) {
    && (forall id :: id in s.peers ==> s.peers[id].conn.id == id)
    && (s.outbox.Some? ==>
         if s.outbox.value.Joined? then
           s.outbox.value.peer.conn.id in s.peers && s.peers[s.outbox.value.peer.conn.id] == s.outbox.value.peer
         else s.outbox.value.peer.conn.id !in s.peers)
  }

  /** The counters and limits of the server. */
  ghost predicate Counted(cfg: ServerConfig, s: Server) {
    && (s.phase == Running ==> s.inboundCount == |Inbounds(Told(s))|)
    && |Untrusted(s.peers)| <= Natural(cfg.maxPeers)
    && |UntrustedInbounds(s.peers)| <= Natural(MaxInboundConns(cfg))
  }

  /** The scheduler's peer set is the server's, up to the message in flight, and
      it counts the dialed ones. */
  ghost predicate Agree(s: Server, d: Sched) {
    && d.dialPeers == |Dialed(d.peers)|
    && (s.phase == Running ==>
         && d.peers.Keys == Told(s).Keys
         && forall id :: id in d.peers ==> d.peers[id] == !Told(s)[id].conn.kind.Inbound?)
  }

  /** The goroutines that have not reported are exactly those of the connected peers:
      one for each, holding the peer itself. */
  ghost predicate Attended(peers: map<NodeID, Peer>, gs: seq<Goroutine>) {
    && (forall g :: 0 <= g < |gs| && Unreported(gs[g]) ==>
         gs[g].peer.conn.id in peers && peers[gs[g].peer.conn.id] == gs[g].peer)
    && (forall g, h :: 0 <= g < h < |gs| && Unreported(gs[g]) && Unreported(gs[h]) ==>
         gs[g].peer.conn.id != gs[h].peer.conn.id)
    && (forall id :: id in peers ==> HasGoroutine(gs, id))
  }

  ghost predicate HasGoroutine(gs: seq<Goroutine>, id: NodeID) {
    exists g :: 0 <= g < |gs| && Unreported(gs[g]) && gs[g].peer.conn.id == id
  }

  ghost predicate Good(cfg: ServerConfig, dial: DialConfig, sys: System) {
    Keyed(sys.server) && Counted(cfg, sys.server) && Agree(sys.server, sys.sched) && Inv(dial, sys.sched)
    && Attended(sys.server.peers, sys.goroutines)
    && (sys.server.phase == SpinningDown ==> sys.server.outbox == None)
  }

  // Only peer events touch the scheduler's peer set.

  lemma {:induction false} LaunchPeers(s: Sched, launch: seq<Sched>, picks: seq<Pick>, i: nat)
    requires Launches(s, launch, picks) && i < |launch|
    ensures launch[i].peers == s.peers && launch[i].dialPeers == s.dialPeers
  {
    if i != 0 {
      LaunchPeers(s, launch, picks, i - 1);
      assert launch[i - 1 + 1] == StartPooled(launch[i - 1], picks[i - 1]);
    }
  }

  lemma {:induction false} ForgetPeers(cfg: DialConfig, s: Sched, items: seq<ExpiryHeap.Item>, k: nat)
    requires Closed(s) && k <= |items|
    ensures ForgetDials(cfg, s, items, k).peers == s.peers && ForgetDials(cfg, s, items, k).dialPeers == s.dialPeers
  {
    hide Dialable;
    if k != 0 { ForgetPeers(cfg, s, items, k - 1); }
  }

  lemma HandlePeers(cfg: DialConfig, s: Sched, slots: int, e: Event)
    requires Handles(s) && Enabled(s, slots, e)
    ensures var s' := Handle(cfg, s, slots, e);
            match e
            case PeerAdded(id, d) => s'.peers == s.peers[id := d] && s'.dialPeers == s.dialPeers + if d then 1 else 0
            case PeerRemoved(id, d) => s'.peers == s.peers - {id} && s'.dialPeers == s.dialPeers - if d then 1 else 0
            case _ => s'.peers == s.peers && s'.dialPeers == s.dialPeers
  {
    hide Dialable;
    if e.HistoryTimer? { ForgetPeers(cfg, s, e.expired, |e.expired|); }
  }

  lemma TurnPeers(cfg: DialConfig, s: Sched, t: Turn, s': Sched)
    requires IsTurn(cfg, s, t, s')
    ensures match t.event
            case PeerAdded(id, d) => s'.peers == s.peers[id := d] && s'.dialPeers == s.dialPeers + if d then 1 else 0
            case PeerRemoved(id, d) => s'.peers == s.peers - {id} && s'.dialPeers == s.dialPeers - if d then 1 else 0
            case _ => s'.peers == s.peers && s'.dialPeers == s.dialPeers
  {
    hide Handle, Handles, Enabled, StartPooled, Closed;
    LaunchPeers(s, t.launch, t.picks, |t.picks|);
    HandlePeers(cfg, Waiting(t), FreeDialSlots(cfg, s), t.event);
  }

  // One more peer moves each count by what the peer is.

  lemma InboundsWith(m: map<NodeID, Peer>, id: NodeID, p: Peer)
    requires id !in m
    ensures |Inbounds(m[id := p])| == |Inbounds(m)| + if p.conn.kind.Inbound? then 1 else 0
  {
    assert Inbounds(m[id := p]) == if p.conn.kind.Inbound? then Inbounds(m) + {id} else Inbounds(m);
  }

  lemma UntrustedWith(m: map<NodeID, Peer>, id: NodeID, p: Peer)
    requires id !in m
    ensures |Untrusted(m[id := p])| == |Untrusted(m)| + if p.admittedTrusted then 0 else 1
  {
    assert Untrusted(m[id := p]) == if p.admittedTrusted then Untrusted(m) else Untrusted(m) + {id};
  }

  lemma UntrustedInboundsWith(m: map<NodeID, Peer>, id: NodeID, p: Peer)
    requires id !in m
    ensures |UntrustedInbounds(m[id := p])|
         == |UntrustedInbounds(m)| + if !p.admittedTrusted && p.conn.kind.Inbound? then 1 else 0
  {
    assert UntrustedInbounds(m[id := p])
        == UntrustedInbounds(m) + if !p.admittedTrusted && p.conn.kind.Inbound? then {id} else {};
  }

  lemma CountWith(m: map<NodeID, Peer>, id: NodeID, p: Peer)
    requires id !in m
    ensures |Inbounds(m[id := p])| == |Inbounds(m)| + if p.conn.kind.Inbound? then 1 else 0
    ensures |Untrusted(m[id := p])| == |Untrusted(m)| + if p.admittedTrusted then 0 else 1
    ensures |UntrustedInbounds(m[id := p])|
         == |UntrustedInbounds(m)| + if !p.admittedTrusted && p.conn.kind.Inbound? then 1 else 0
  {
    hide Inbounds, Untrusted, UntrustedInbounds;
    InboundsWith(m, id, p);
    UntrustedWith(m, id, p);
    UntrustedInboundsWith(m, id, p);
  }

  lemma CountDialedWith(m: map<NodeID, bool>, id: NodeID, d: bool)
    requires id !in m
    ensures |Dialed(m[id := d])| == |Dialed(m)| + if d then 1 else 0
  {
    assert Dialed(m[id := d]) == if d then Dialed(m) + {id} else Dialed(m);
  }

  /** The counts never exceed what they count among. */
  lemma CountBounds(m: map<NodeID, Peer>)
    ensures |Untrusted(m)| <= |m| && |UntrustedInbounds(m)| <= |Inbounds(m)|
  {
    SubsetSize(Untrusted(m), m.Keys);
    SubsetSize(UntrustedInbounds(m), Inbounds(m));
  }

  // Each step keeps the invariant.

  lemma TrustKeeps(cfg: ServerConfig, s: Server, id: NodeID, on: bool)
    requires Keyed(s) && Counted(cfg, s) && s.outbox == None
    ensures var s' := SetTrust(s, id, on);
            && Keyed(s') && Counted(cfg, s') && Told(s').Keys == Told(s).Keys
            && forall k :: k in Told(s) ==> Told(s')[k].conn.kind == Told(s)[k].conn.kind
  {
    var s' := SetTrust(s, id, on);
    assert Inbounds(s'.peers) == Inbounds(s.peers) && Untrusted(s'.peers) == Untrusted(s.peers);
    assert UntrustedInbounds(s'.peers) == UntrustedInbounds(s.peers);
  }

  lemma AddPeerKeeps(cfg: ServerConfig, s: Server, c: Conn, matching: nat)
    requires Keyed(s) && Counted(cfg, s) && s.outbox == None && s.phase == Running
    ensures var s' := AddPeer(cfg, s, c, matching);
            Keyed(s') && Counted(cfg, s') && Told(s') == Told(s)
  {
    hide Inbounds, Untrusted, UntrustedInbounds, MaxInboundConns;
    if PostHandshakeChecks(cfg, s, c, matching) == None {
      assert Told(AddPeer(cfg, s, c, matching)) == s.peers;
      CountBounds(s.peers);
      CountWith(s.peers, c.id, Peer(c, c.trusted));
    }
  }

  lemma DropPeerKeeps(cfg: ServerConfig, s: Server, p: Peer)
    requires Keyed(s) && Counted(cfg, s) && s.outbox == None && p.conn.id in s.peers && s.peers[p.conn.id] == p
    ensures var s' := DropPeer(s, p);
            Keyed(s') && Counted(cfg, s') && (s.phase == Running ==> Told(s') == Told(s))
  {
    hide Inbounds, Untrusted, UntrustedInbounds, MaxInboundConns;
    var rest := s.peers - {p.conn.id};
    assert rest[p.conn.id := p] == s.peers;
    CountWith(rest, p.conn.id, p);
  }

  // Each step keeps the goroutines in step with the peers.

  lemma TrustAttended(s: Server, gs: seq<Goroutine>, id: NodeID, on: bool)
    requires Attended(s.peers, gs)
    ensures Attended(SetTrust(s, id, on).peers, TrustShared(gs, id, on))
  {
    var gs', peers' := TrustShared(gs, id, on), SetTrust(s, id, on).peers;
    assert forall g :: 0 <= g < |gs| ==> gs'[g].life == gs[g].life && gs'[g].peer.conn.id == gs[g].peer.conn.id;
    forall i | i in peers' ensures HasGoroutine(gs', i) {
      var g :| 0 <= g < |gs| && Unreported(gs[g]) && gs[g].peer.conn.id == i;
      assert Unreported(gs'[g]);
    }
  }

  lemma AdmitAttended(peers: map<NodeID, Peer>, gs: seq<Goroutine>, p: Peer)
    requires Attended(peers, gs) && p.conn.id !in peers
    ensures Attended(peers[p.conn.id := p], gs + [Goroutine(p, Alive)])
  {
    var gs' := gs + [Goroutine(p, Alive)];
    forall id | id in peers[p.conn.id := p] ensures HasGoroutine(gs', id) {
      if id == p.conn.id {
        assert Unreported(gs'[|gs|]);
      } else {
        var g :| 0 <= g < |gs| && Unreported(gs[g]) && gs[g].peer.conn.id == id;
        assert gs'[g] == gs[g];
      }
    }
  }

  lemma EndAttended(peers: map<NodeID, Peer>, gs: seq<Goroutine>, g: nat)
    requires Attended(peers, gs) && g < |gs| && Unreported(gs[g])
    ensures Attended(peers, gs[g := gs[g].(life := Reporting)])
  {
    var gs' := gs[g := gs[g].(life := Reporting)];
    forall id | id in peers ensures HasGoroutine(gs', id) {
      var h :| 0 <= h < |gs| && Unreported(gs[h]) && gs[h].peer.conn.id == id;
      assert Unreported(gs'[h]) && gs'[h].peer == gs[h].peer;
    }
  }

  /** A report names the peer in the map, and takes it and its goroutine away. */
  lemma ReportAttended(peers: map<NodeID, Peer>, gs: seq<Goroutine>, g: nat)
    requires Attended(peers, gs) && g < |gs| && Unreported(gs[g])
    ensures var p := gs[g].peer;
            && p.conn.id in peers && peers[p.conn.id] == p
            && Attended(peers - {p.conn.id}, gs[g := gs[g].(life := Reported)])
  {
    var p, gs' := gs[g].peer, gs[g := gs[g].(life := Reported)];
    forall id | id in peers - {p.conn.id} ensures HasGoroutine(gs', id) {
      var h :| 0 <= h < |gs| && Unreported(gs[h]) && gs[h].peer.conn.id == id;
      assert gs'[h] == gs[h];
    }
  }

  /** Delivering the message brings both sides together again. */
  lemma UnblockKeeps(cfg: ServerConfig, s: Server)
    requires Keyed(s) && Counted(cfg, s) && s.outbox.Some? && s.phase == Running
    ensures Keyed(Unblock(s)) && Counted(cfg, Unblock(s))
  {
    hide Inbounds, Untrusted, UntrustedInbounds, MaxInboundConns;
    var p := s.outbox.value.peer;
    if s.outbox.value.Joined? {
      assert (s.peers - {p.conn.id})[p.conn.id := p] == s.peers;
      CountWith(s.peers - {p.conn.id}, p.conn.id, p);
    } else {
      CountWith(s.peers, p.conn.id, p);
    }
  }

  lemma DeliverAgrees(s: Server, d: Sched, d': Sched)
    requires Keyed(s) && Agree(s, d) && s.outbox.Some? && s.phase == Running
    requires var m := s.outbox.value;
             var id, dialed := m.peer.conn.id, !m.peer.conn.kind.Inbound?;
             && d'.peers == (if m.Joined? then d.peers[id := dialed] else d.peers - {id})
             && d'.dialPeers == d.dialPeers + (if !dialed then 0 else if m.Joined? then 1 else -1)
    ensures Agree(Unblock(s), d')
  {
    hide Dialed;
    var id, dialed := s.outbox.value.peer.conn.id, !s.outbox.value.peer.conn.kind.Inbound?;
    if s.outbox.value.Joined? {
      CountDialedWith(d.peers, id, dialed);
    } else {
      assert id in Told(s) && d.peers[id] == dialed;
      assert d'.peers[id := dialed] == d.peers;
      CountDialedWith(d'.peers, id, dialed);
    }
  }

  lemma StepKeeps(cfg: ServerConfig, dial: DialConfig, sys: System, st: Step)
    requires Good(cfg, dial, sys) && CanStep(dial, sys, st)
    ensures Good(cfg, dial, Apply(cfg, dial, sys, st))
  {
    hide Inv, IsTurn, Counted, Keyed, Attended;
    match st
    case Trust(id, on) =>
      TrustKeeps(cfg, sys.server, id, on);
      TrustAttended(sys.server, sys.goroutines, id, on);
    case Admit(c, matching) =>
      AddPeerKeeps(cfg, sys.server, c, matching);
      if PostHandshakeChecks(cfg, sys.server, c, matching) == None {
        AdmitAttended(sys.server.peers, sys.goroutines, Peer(c, c.trusted));
      }
    case End(g) => EndAttended(sys.server.peers, sys.goroutines, g);
    case Report(g) =>
      ReportAttended(sys.server.peers, sys.goroutines, g);
      DropPeerKeeps(cfg, sys.server, sys.goroutines[g].peer);
    case Quit => QuitKeeps(cfg, sys.server);
    case Schedule(turn, next) =>
      TurnKeeps(dial, sys.sched, turn, next);
      TurnPeers(dial, sys.sched, turn, next);
      if IsPeerEvent(turn.event) {
        UnblockKeeps(cfg, sys.server);
        DeliverAgrees(sys.server, sys.sched, next);
      }
  }

  lemma QuitKeeps(cfg: ServerConfig, s: Server)
    requires Keyed(s) && Counted(cfg, s)
    ensures Keyed(s.(phase := SpinningDown)) && Counted(cfg, s.(phase := SpinningDown))
  {
  }

  ghost predicate IsRun(cfg: ServerConfig, dial: DialConfig, run: seq<System>, steps: seq<Step>) {
    && |run| == |steps| + 1 && run[0] == Begin(run[0].server.trusted, run[0].sched.now)
    && forall i :: 0 <= i < |steps| ==> CanStep(dial, run[i], steps[i]) && run[i + 1] == Apply(cfg, dial, run[i], steps[i])
  }

  /** In every state of every run of both loops: the inbound count is the number of
      inbound peers the scheduler was told about, the two peer sets agree up to the
      message in flight, the scheduler counts the dialed peers, and peers admitted
      without trust respect both limits. */
  lemma {:induction false} AdmissionInvariant(
      cfg: ServerConfig, dial: DialConfig, run: seq<System>, steps: seq<Step>, i: nat)
    requires IsRun(cfg, dial, run, steps) && i < |run|
    ensures Good(cfg, dial, run[i])
  {
    hide Good, CanStep, Apply;
    if i == 0 {
      BeginGood(cfg, dial, run[0].server.trusted, run[0].sched.now);
    } else {
      AdmissionInvariant(cfg, dial, run, steps, i - 1);
      StepKeeps(cfg, dial, run[i - 1], steps[i - 1]);
    }
  }

  lemma BeginGood(cfg: ServerConfig, dial: DialConfig, trusted: set<NodeID>, now: int)
    ensures Good(cfg, dial, Begin(trusted, now))
  {
    InitInv(dial, now);
    hide Inv;
    assert Inbounds(map[]) == {} && Untrusted(map[]) == {} && UntrustedInbounds(map[]) == {} && Dialed(map[]) == {};
  }

  /** When the server is not blocked the agreement is exact. */
  lemma WhenUnblocked(cfg: ServerConfig, dial: DialConfig, sys: System)
    requires Good(cfg, dial, sys) && sys.server.phase == Running && sys.server.outbox == None
    ensures sys.sched.peers.Keys == sys.server.peers.Keys
    ensures sys.server.inboundCount == |Inbounds(sys.server.peers)|
    ensures sys.sched.dialPeers == |sys.server.peers| - sys.server.inboundCount
  {
    var s := sys.server;
    assert s.peers.Keys == Inbounds(s.peers) + Dialed(sys.sched.peers);
    assert Inbounds(s.peers) !! Dialed(sys.sched.peers);
    assert |s.peers.Keys| == |Inbounds(s.peers)| + |Dialed(sys.sched.peers)|;
  }

  // ----- reports and spindown -----

  /** In every run, a goroutine about to report names the peer that is in the map, and
      its report can be received whenever the server is not busy with the scheduler,
      also while it spins down. */
  lemma ReportsAreReceived(cfg: ServerConfig, dial: DialConfig, run: seq<System>, steps: seq<Step>, i: nat, g: nat)
    requires IsRun(cfg, dial, run, steps) && i < |run| && g < |run[i].goroutines| && run[i].goroutines[g].life == Reporting
    ensures var p := run[i].goroutines[g].peer;
            && p.conn.id in run[i].server.peers && run[i].server.peers[p.conn.id] == p
            && (run[i].server.outbox == None ==> CanStep(dial, run[i], Report(g)))
            && (run[i].server.phase == SpinningDown ==> run[i].server.outbox == None)
  {
    hide IsRun, Inv, Counted, Keyed, Agree;
    AdmissionInvariant(cfg, dial, run, steps, i);
    assert run[i].goroutines[g].peer.conn.id in run[i].server.peers.Keys;
  }

  /** The reports received from step `q` on. */
  ghost function Reports(steps: seq<Step>, q: nat, i: nat): nat
    requires q <= i <= |steps|
  {
    if q == i then 0 else Reports(steps, q, i - 1) + if steps[i - 1].Report? then 1 else 0
  }

  lemma SpinningStep(cfg: ServerConfig, dial: DialConfig, sys: System, st: Step)
    requires Good(cfg, dial, sys) && CanStep(dial, sys, st) && sys.server.phase == SpinningDown
    ensures var sys' := Apply(cfg, dial, sys, st);
            && sys'.server.phase == SpinningDown
            && |sys'.server.peers| == |sys.server.peers| - if st.Report? then 1 else 0
  {
    hide Inv, Counted, Keyed, Agree, IsTurn, Attended;
    if st.Report? {
      ReportAttended(sys.server.peers, sys.goroutines, st.g);
      var id := sys.goroutines[st.g].peer.conn.id;
      assert (sys.server.peers - {id}).Keys == sys.server.peers.Keys - {id};
    }
  }

  /** Spindown: the peers still connected and the reports received since make up the
      peers there were at the quit, in every run; so the loop ends after exactly that
      many reports, and then every goroutine has reported. */
  lemma {:induction false} SpinDownReports(
      cfg: ServerConfig, dial: DialConfig, run: seq<System>, steps: seq<Step>, q: nat, i: nat)
    requires IsRun(cfg, dial, run, steps) && q <= i < |run| && run[q].server.phase == SpinningDown
    ensures run[i].server.phase == SpinningDown
    ensures |run[i].server.peers| + Reports(steps, q, i) == |run[q].server.peers|
    ensures run[i].server.peers == map[] ==>
              forall g :: 0 <= g < |run[i].goroutines| ==> run[i].goroutines[g].life == Reported
    decreases i
  {
    hide Good, CanStep, Apply;
    AdmissionInvariant(cfg, dial, run, steps, i);
    AllReported(cfg, dial, run[i]);
    if q < i {
      SpinDownReports(cfg, dial, run, steps, q, i - 1);
      AdmissionInvariant(cfg, dial, run, steps, i - 1);
      SpinningStep(cfg, dial, run[i - 1], steps[i - 1]);
    }
  }

  lemma AllReported(cfg: ServerConfig, dial: DialConfig, sys: System)
    requires Good(cfg, dial, sys)
    ensures sys.server.peers == map[] ==>
              forall g :: 0 <= g < |sys.goroutines| ==> sys.goroutines[g].life == Reported
  {
    hide Inv, Counted, Keyed, Agree;
  }
}
