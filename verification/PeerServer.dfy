/** The server's main loop in imperative form, with the scheduler it talks to. */
module PeerServer {
  import opened Common
  import opened DialScheduling
  import opened DialTheorems
  import opened DialLoop
  import opened PeerAdmission

  class ServerLoop {
    const cfg: ServerConfig
    const dialsched: DialScheduler
    var peers: map<NodeID, Peer>
    var inboundCount: int
    var trusted: set<NodeID>
    /** The goroutines launched for peers, in the order of their launch. */
    var goroutines: seq<Goroutine>

    ghost function View(): Server
      reads this
    {
      Server(Running, peers, inboundCount, trusted, None)
    }

    ghost predicate Valid()
      reads this, dialsched, dialsched.history
    {
      dialsched.Valid() && Good(cfg, dialsched.cfg, System(View(), dialsched.View(), goroutines))
    }

    constructor (cfg: ServerConfig, dial: DialConfig, trustedNodes: set<NodeID>, now: int)
      ensures Valid() && fresh(dialsched) && fresh(dialsched.history)
      ensures this.cfg == cfg && View() == Begin(trustedNodes, now).server && dialsched.View() == Init(now)
      ensures goroutines == []
    {
      this.cfg := cfg;
      dialsched := new DialScheduler(dial, now);
      peers, inboundCount, trusted, goroutines := map[], 0, trustedNodes, [];
      new;
      BeginGood(cfg, dial, trustedNodes, now);
    }

    method CheckAfterHandshake(c: Conn, matching: nat) returns (err: Option<Reason>)
      ensures err == PostHandshakeChecks(cfg, View(), c, matching)
    {
      var limit := 0;
      if !cfg.noDial && cfg.maxPeers != 0 {
        limit := Quo(cfg.maxPeers, if cfg.dialRatio == 0 then DEFAULT_DIAL_RATIO else cfg.dialRatio);
        if limit == 0 { limit := 1; }
      }
      if !c.trusted && |peers| >= cfg.maxPeers { return Some(TooManyPeers); }
      if !c.trusted && c.kind.Inbound? && inboundCount >= cfg.maxPeers - limit { return Some(TooManyPeers); }
      if c.id in peers { return Some(AlreadyPeer); }
      if c.id == cfg.self { return Some(Self); }
      if cfg.hasProtocols && matching == 0 { return Some(UselessPeer); }
      return None;
    }

    /** A connection past the encryption handshake, its trust flag settled. */
    method MarkTrusted(c: Conn) returns (marked: Conn)
      ensures marked.id == c.id && marked.kind == c.kind
      ensures marked.trusted <==> c.trusted || c.id in trusted
    {
      marked := c;
      if c.id in trusted { marked := marked.(trusted := true); }
    }

    /** The trusted set and the flag of a connected peer, which its goroutine shares. */
    method ChangeTrust(id: NodeID, on: bool)
      requires Valid()
      modifies this`trusted, this`peers, this`goroutines
      ensures Valid() && View() == SetTrust(old(View()), id, on)
      ensures goroutines == TrustShared(old(goroutines), id, on)
    {
      hide Inv, Counted, Keyed, Attended;
      TrustKeeps(cfg, View(), id, on);
      TrustAttended(View(), goroutines, id, on);
      trusted := if on then trusted + {id} else trusted - {id};
      if id in peers {
        peers := peers[id := peers[id].(conn := peers[id].conn.(trusted := on))];
      }
      goroutines := TrustShared(goroutines, id, on);
    }

    /** A connection past its handshakes: checked, launched, added, announced to the
        scheduler, counted. */
    method AdmitPeer(c: Conn, matching: nat) returns (err: Option<Reason>)
      requires Valid()
      modifies this`peers, this`inboundCount, this`goroutines, dialsched
      ensures Valid() && err == PostHandshakeChecks(cfg, old(View()), c, matching)
      ensures err != None ==> View() == old(View()) && dialsched.View() == old(dialsched.View()) && goroutines == old(goroutines)
      ensures err == None ==>
                && View() == Unblock(AddPeer(cfg, old(View()), c, matching))
                && dialsched.View() == OnPeerAdded(old(dialsched.View()), c.id, !c.kind.Inbound?)
                && goroutines == old(goroutines) + [Goroutine(Peer(c, c.trusted), Alive)]
    {
      hide Inv, Good, OnPeerAdded, PostHandshakeChecks;
      err := CheckAfterHandshake(c, matching);
      if err == None {
        JoinKeeps(cfg, dialsched.cfg, System(View(), dialsched.View(), goroutines), c, matching);
        var p := Peer(c, c.trusted);
        goroutines := goroutines + [Goroutine(p, Alive)];
        peers := peers[c.id := p];
        dialsched.PeerJoined(c.id, !c.kind.Inbound?);
        if c.kind.Inbound? { inboundCount := inboundCount + 1; }
      }
    }

    /** Goroutine `g` reported the end of its peer; what it names is deleted. */
    method RemovePeer(g: nat)
      requires Valid() && g < |goroutines| && Unreported(goroutines[g])
      modifies this`peers, this`inboundCount, this`goroutines, dialsched
      ensures Valid() && View() == Unblock(DropPeer(old(View()), old(goroutines[g].peer)))
      ensures goroutines == old(goroutines)[g := old(goroutines)[g].(life := Reported)]
      ensures var p := old(goroutines)[g].peer;
              && p.conn.id in old(peers) && old(peers)[p.conn.id] == p
              && dialsched.View() == OnPeerRemoved(dialsched.cfg, old(dialsched.View()), p.conn.id, !p.conn.kind.Inbound?)
    {
      hide Inv, Good, OnPeerRemoved, Attended;
      LeaveKeeps(cfg, dialsched.cfg, System(View(), dialsched.View(), goroutines), g);
      var p := goroutines[g].peer;
      goroutines := goroutines[g := goroutines[g].(life := Reported)];
      peers := peers - {p.conn.id};
      dialsched.PeerLeft(p.conn.id, !p.conn.kind.Inbound?);
      if p.conn.kind.Inbound? { inboundCount := inboundCount - 1; }
    }

    /** Spindown: reports are taken from whichever goroutine has not reported yet, while
        peers are left.  There is such a goroutine as long as there is a peer, so the
        loop ends, after one report per peer and with no goroutine left to report. */
    method SpinDown() returns (reports: nat)
      requires Attended(peers, goroutines)
      modifies this`peers, this`goroutines
      ensures peers == map[] && reports == old(|peers|)
      ensures |goroutines| == old(|goroutines|)
      ensures forall g :: 0 <= g < |goroutines| ==> goroutines[g] == old(goroutines[g]).(life := Reported)
    {
      hide Attended;
      reports := 0;
      while |peers| > 0
        invariant Attended(peers, goroutines) && reports + |peers| == old(|peers|)
        invariant |goroutines| == old(|goroutines|)
        invariant forall g :: 0 <= g < |goroutines| ==>
                    goroutines[g] == old(goroutines[g]) || goroutines[g] == old(goroutines[g]).(life := Reported)
        decreases |peers|
      {
        SomeReport(peers, goroutines);
        var g :| 0 <= g < |goroutines| && Unreported(goroutines[g]);
        ReportAttended(peers, goroutines, g);
        var id := goroutines[g].peer.conn.id;
        goroutines := goroutines[g := goroutines[g].(life := Reported)];
        ghost var rest := peers.Keys - {id};
        peers := peers - {id};
        assert peers.Keys == rest;
        reports := reports + 1;
      }
      NoReport(goroutines);
    }
  }

  lemma NoReport(gs: seq<Goroutine>)
    requires Attended(map[], gs)
    ensures forall g :: 0 <= g < |gs| ==> gs[g].life == Reported
  {
  }

  /** While a peer is connected some goroutine has still to report. */
  lemma SomeReport(peers: map<NodeID, Peer>, gs: seq<Goroutine>)
    requires Attended(peers, gs) && |peers| > 0
    ensures exists g :: 0 <= g < |gs| && Unreported(gs[g])
  {
    assert peers.Keys != {};
    var id :| id in peers;
    assert HasGoroutine(gs, id);
  }

  /** Adding a peer and delivering the announcement at once. */
  lemma JoinKeeps(cfg: ServerConfig, dial: DialConfig, sys: System, c: Conn, matching: nat)
    requires Good(cfg, dial, sys) && sys.server.outbox == None && sys.server.phase == Running
    requires PostHandshakeChecks(cfg, sys.server, c, matching) == None
    ensures Handles(sys.sched)
    ensures Good(cfg, dial, System(Unblock(AddPeer(cfg, sys.server, c, matching)),
                                   OnPeerAdded(sys.sched, c.id, !c.kind.Inbound?),
                                   sys.goroutines + [Goroutine(Peer(c, c.trusted), Alive)]))
  {
    hide Inv, Counted, Keyed, Attended;
    var blocked := AddPeer(cfg, sys.server, c, matching);
    AddPeerKeeps(cfg, sys.server, c, matching);
    AdmitAttended(sys.server.peers, sys.goroutines, Peer(c, c.trusted));
    OnPeerAddedKeeps(dial, sys.sched, c.id, !c.kind.Inbound?);
    UnblockKeeps(cfg, blocked);
    DeliverAgrees(blocked, sys.sched, OnPeerAdded(sys.sched, c.id, !c.kind.Inbound?));
  }

  lemma LeaveKeeps(cfg: ServerConfig, dial: DialConfig, sys: System, g: nat)
    requires Good(cfg, dial, sys) && sys.server.outbox == None && sys.server.phase == Running
    requires g < |sys.goroutines| && Unreported(sys.goroutines[g])
    ensures Handles(sys.sched)
    ensures var p := sys.goroutines[g].peer;
            && p.conn.id in sys.server.peers && sys.server.peers[p.conn.id] == p
            && Good(cfg, dial, System(Unblock(DropPeer(sys.server, p)),
                                      OnPeerRemoved(dial, sys.sched, p.conn.id, !p.conn.kind.Inbound?),
                                      sys.goroutines[g := sys.goroutines[g].(life := Reported)]))
  {
    hide Inv, Counted, Keyed, Dialable, Attended;
    var p := sys.goroutines[g].peer;
    ReportAttended(sys.server.peers, sys.goroutines, g);
    var blocked := DropPeer(sys.server, p);
    var dialed := !p.conn.kind.Inbound?;
    DropPeerKeeps(cfg, sys.server, p);
    OnPeerRemovedKeeps(dial, sys.sched, p.conn.id, dialed);
    UnblockKeeps(cfg, blocked);
    DeliverAgrees(blocked, sys.sched, OnPeerRemoved(dial, sys.sched, p.conn.id, dialed));
  }
}
