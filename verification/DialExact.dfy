/** What the dial scheduler does, stated without its own functions: when there is room for
    a dial, why a node is not dialed, what each pass changes, and that no static node that
    may be dialed is forgotten. */
module DialExact {
  import opened Common
  import opened ExpiryHeap
  import opened DialScheduling
  import opened DialTheorems

  // ----- slots -----

  /** There is room for `k` more dials exactly if, with those running, they are at most
      twice the peers wanted and at most the active dials allowed. */
  lemma SlotsIff(cfg: DialConfig, s: Sched, k: int)
    ensures k <= FreeDialSlots(cfg, s) <==>
              k + |s.dialing| <= 2 * (cfg.maxDialPeers - s.dialPeers) && k + |s.dialing| <= cfg.maxActiveDials
  {
  }

  // ----- the dial check -----

  /** What each reason not to dial says. */
  predicate Holds(cfg: DialConfig, dialing: set<NodeID>, peers: set<NodeID>, recent: bool, n: Node, err: DialError) {
    match err
    case IsSelf => n.id == cfg.self
    case NoPort => n.ip.Some? && n.tcp == 0
    case AlreadyDialing => n.id in dialing
    case AlreadyConnected => n.id in peers
    case NotWhitelisted => cfg.netRestrict.Some? && (n.ip.None? || n.ip.value !in cfg.netRestrict.value)
    case RecentlyDialed => recent
  }

  /** The order in which the reasons are given. */
  function Rank(err: DialError): nat {
    match err
    case IsSelf => 0
    case NoPort => 1
    case AlreadyDialing => 2
    case AlreadyConnected => 3
    case NotWhitelisted => 4
    case RecentlyDialed => 5
  }

  /** A node passes the check exactly if no reason holds; else the first that does is given. */
  lemma CheckGivesFirst(cfg: DialConfig, dialing: set<NodeID>, peers: set<NodeID>, recent: bool, n: Node)
    ensures var err := CheckError(cfg, dialing, peers, recent, n);
            && (err.None? <==> forall e :: !Holds(cfg, dialing, peers, recent, n, e))
            && (err.Some? ==>
                 && Holds(cfg, dialing, peers, recent, n, err.value)
                 && forall e :: Holds(cfg, dialing, peers, recent, n, e) ==> Rank(err.value) <= Rank(e))
  {
    var err := CheckError(cfg, dialing, peers, recent, n);
    if err.None? {
      forall e ensures !Holds(cfg, dialing, peers, recent, n, e) { }
    } else {
      assert Holds(cfg, dialing, peers, recent, n, err.value);
    }
  }

  // ----- what a pass changes -----

  /** Only the pool, the pool positions, the dials and the clock move while the pool is
      emptied. */
  ghost predicate SameButLaunched(s: Sched, s': Sched) {
    && s'.peers == s.peers && s'.dialPeers == s.dialPeers && s'.statics == s.statics
    && |s'.tasks| == |s.tasks| && s.dialing.Keys <= s'.dialing.Keys && s.history <= s'.history
    && (forall t :: 0 <= t < |s.tasks| ==> s'.tasks[t].dest == s.tasks[t].dest && s'.tasks[t].kind == s.tasks[t].kind)
  }

  /** What updating the pool leaves alone. */
  ghost predicate SameButPool(s: Sched, s': Sched) {
    && s'.peers == s.peers && s'.dialPeers == s.dialPeers && s'.statics == s.statics && s'.starts == s.starts
    && s'.dialing == s.dialing && s'.history == s.history && s'.now == s.now && |s'.tasks| == |s.tasks|
    && (forall t :: 0 <= t < |s.tasks| ==> s'.tasks[t].dest == s.tasks[t].dest && s'.tasks[t].kind == s.tasks[t].kind)
  }

  lemma RemovalSame(s: Sched, idx: nat)
    requires Closed(s) && idx < |s.pool|
    ensures SameButPool(s, RemoveFromStaticPool(s, idx))
  {
  }

  lemma PoolNotDialing(cfg: DialConfig, s: Sched, idx: nat)
    requires Inv(cfg, s) && idx < |s.pool|
    ensures s.pool[idx] < |s.tasks| && s.tasks[s.pool[idx]].dest.id !in s.dialing
  {
    assert Dialable(cfg, s, s.tasks[s.pool[idx]].dest);
  }

  /** What starting one pooled dial leaves alone. */
  lemma StartPooledSame(s: Sched, p: Pick)
    requires Closed(s) && p.idx < |s.pool|
    ensures SameButLaunched(s, StartPooled(s, p))
    ensures var s1 := StartDial(s.(now := s.now + p.elapsed), s.pool[p.idx]);
            SameButPool(s1, StartPooled(s, p))
  {
    hide RemoveFromStaticPool;
    var s1 := StartDial(s.(now := s.now + p.elapsed), s.pool[p.idx]);
    RemovalSame(s1, p.idx);
  }

  /** One pooled dial: its node is dialed, the dial is recorded and remembered for the
      throttle time and five seconds. */
  lemma StartPooledDoes(cfg: DialConfig, s: Sched, p: Pick)
    requires Inv(cfg, s) && p.idx < |s.pool|
    ensures var s', id := StartPooled(s, p), s.tasks[s.pool[p.idx]].dest.id;
            && SameButLaunched(s, s') && s'.now == s.now + p.elapsed
            && s'.dialing == s.dialing[id := s.pool[p.idx]] && id !in s.dialing
            && s'.starts == s.starts + [Start(id, s.now + p.elapsed)]
            && s'.history == s.history + multiset{Item(id, s.now + p.elapsed + 35)}
  {
    hide Inv, Closed, StartPooled, SameButLaunched;
    PoolNotDialing(cfg, s, p.idx);
    StartPooledSame(s, p);
  }

  /** Emptying the pool records one dial for each pick. */
  lemma {:induction false} LaunchDoes(cfg: DialConfig, s: Sched, t: Turn, i: nat)
    requires Inv(cfg, s) && IsLaunch(s, t) && i < |t.launch|
    ensures SameButLaunched(s, t.launch[i]) && |t.launch[i].starts| == |s.starts| + i && s.starts <= t.launch[i].starts
  {
    hide Inv, Dynamic, StartPooled;
    if i != 0 {
      LaunchKeeps(cfg, s, t, i - 1);
      LaunchDoes(cfg, s, t, i - 1);
      StartPooledDoes(cfg, t.launch[i - 1], t.picks[i - 1]);
    }
  }

  lemma WaitingLaunched(cfg: DialConfig, s: Sched, t: Turn, s': Sched)
    requires Inv(cfg, s) && IsTurn(cfg, s, t, s')
    ensures SameButLaunched(s, Waiting(t)) && |Waiting(t).starts| == |s.starts| + |t.picks| && s.starts <= Waiting(t).starts
    ensures Inv(cfg, Waiting(t)) && Waiting(t).pool == [] && Dynamic(Waiting(t)) == Dynamic(s)
  {
    hide Inv, Dynamic, StartPooled, Handle;
    TurnKeeps(cfg, s, t, s');
    LaunchKeeps(cfg, s, t, |t.picks|);
    LaunchDoes(cfg, s, t, |t.picks|);
    SameDynamic(t.launch[|t.picks|], Waiting(t));
  }

  lemma UpdateSame(cfg: DialConfig, s: Sched, id: NodeID)
    requires Closed(s)
    ensures SameButPool(s, UpdateStaticPool(cfg, s, id))
  {
    hide Dialable;
  }

  lemma {:induction false} ForgetSame(cfg: DialConfig, s: Sched, items: seq<Item>, k: nat)
    requires Closed(s) && k <= |items|
    ensures var s' := ForgetDials(cfg, s, items, k); SameButPool(s, s'.(history := s.history))
  {
    hide UpdateStaticPool;
    if k != 0 {
      ForgetSame(cfg, s, items, k - 1);
      var s1 := ForgetDials(cfg, s, items, k - 1);
      UpdateSame(cfg, s1.(history := s1.history - multiset{items[k - 1]}), items[k - 1].key);
    }
  }

  /** The nodes kept as static after an event. */
  function StaticsAfter(ids: set<NodeID>, e: Event): set<NodeID> {
    match e
    case AddStatic(n) => ids + {n.id}
    case RemoveStatic(id) => ids - {id}
    case _ => ids
  }

  function PeersAfter(peers: map<NodeID, bool>, e: Event): map<NodeID, bool> {
    match e
    case PeerAdded(id, dialed) => peers[id := dialed]
    case PeerRemoved(id, _) => peers - {id}
    case _ => peers
  }

  function DialedChange(e: Event): int {
    match e
    case PeerAdded(_, dialed) => if dialed then 1 else 0
    case PeerRemoved(_, dialed) => if dialed then -1 else 0
    case _ => 0
  }

  /** An event changes the static nodes, the peers and the count of dialed peers as it says
      and in no other way; it starts a dial, a dynamic one, only if it is a node that passes
      the check, and ends one only if that has reported. */
  ghost predicate Did(cfg: DialConfig, s: Sched, e: Event, s': Sched) {
    var started := if e.NodeFound? && Dialable(cfg, s, e.node) then {e.node.id} else {};
    var ended := if e.TaskDone? then {e.id} else {};
    && s'.statics.Keys == StaticsAfter(s.statics.Keys, e)
    && s'.peers == PeersAfter(s.peers, e) && s'.dialPeers == s.dialPeers + DialedChange(e)
    && s'.dialing.Keys == s.dialing.Keys + started - ended && Dynamic(s') == Dynamic(s) + started - ended
    && s'.starts == s.starts + if started != {} then [Start(e.node.id, s.now)] else []
  }

  lemma SameDialing(s: Sched, s': Sched)
    requires SameButPool(s, s')
    ensures Dynamic(s') == Dynamic(s)
  {
  }

  lemma NodeDoes(cfg: DialConfig, s: Sched, n: Node)
    requires Linked(s)
    ensures Did(cfg, s, NodeFound(n), OnNode(cfg, s, n))
  {
    hide PoolLinked, StaticsKeyed, InHistory;
    var s' := OnNode(cfg, s, n);
    assert s' != s ==> n.id !in s.dialing && s'.dialing == s.dialing[n.id := |s.tasks|];
  }

  lemma TaskDoneDoes(cfg: DialConfig, s: Sched, id: NodeID)
    requires Closed(s) && id in s.dialing
    ensures Did(cfg, s, TaskDone(id), OnTaskDone(cfg, s, id))
  {
    hide UpdateStaticPool;
    var s1 := s.(dialing := s.dialing - {id}, running := s.running - {s.dialing[id]});
    UpdateSame(cfg, s1, id);
    SameDialing(s1, OnTaskDone(cfg, s, id));
  }

  lemma PeerAddedDoes(cfg: DialConfig, s: Sched, id: NodeID, dialed: bool)
    requires Handles(s)
    ensures Did(cfg, s, PeerAdded(id, dialed), OnPeerAdded(s, id, dialed))
  {
    hide RemoveFromStaticPool, Dynamic;
    var s1 := s.(dialPeers := if dialed then s.dialPeers + 1 else s.dialPeers, peers := s.peers[id := dialed]);
    SameDynamic(s, s1);
    if id in s.statics && s.tasks[s.statics[id]].poolIndex >= 0 {
      RemovalSame(s1, s.tasks[s.statics[id]].poolIndex);
      SameDialing(s1, OnPeerAdded(s, id, dialed));
    }
  }

  lemma PeerRemovedDoes(cfg: DialConfig, s: Sched, id: NodeID, dialed: bool)
    requires Handles(s)
    ensures Did(cfg, s, PeerRemoved(id, dialed), OnPeerRemoved(cfg, s, id, dialed))
  {
    hide UpdateStaticPool, Dynamic;
    var s1 := s.(dialPeers := if dialed then s.dialPeers - 1 else s.dialPeers, peers := s.peers - {id});
    SameDynamic(s, s1);
    UpdateSame(cfg, s1, id);
    SameDialing(s1, OnPeerRemoved(cfg, s, id, dialed));
  }

  lemma AddStaticDoes(cfg: DialConfig, s: Sched, n: Node)
    requires Handles(s)
    ensures Did(cfg, s, AddStatic(n), OnAddStatic(cfg, s, n))
  {
    hide Dialable;
  }

  lemma RemoveStaticDoes(cfg: DialConfig, s: Sched, id: NodeID)
    requires Handles(s)
    ensures Did(cfg, s, RemoveStatic(id), OnRemoveStatic(s, id))
  {
    hide RemoveFromStaticPool, Dynamic;
    if id in s.statics {
      var s1 := s.(statics := s.statics - {id});
      SameDynamic(s, s1);
      if s.tasks[s.statics[id]].poolIndex >= 0 {
        RemovalSame(s1, s.tasks[s.statics[id]].poolIndex);
        SameDialing(s1, OnRemoveStatic(s, id));
      }
    }
  }

  lemma OtherDoes(cfg: DialConfig, s: Sched, expired: seq<Item>, t: nat, n: Node)
    requires Handles(s)
    ensures Did(cfg, s, HistoryTimer(expired), ForgetDials(cfg, s, expired, |expired|)) && Did(cfg, s, LogTimer, s)
    ensures t < |s.tasks| ==> Did(cfg, s, Resolved(t, n), OnResolved(s, t, n))
  {
    hide ForgetDials;
    var s' := ForgetDials(cfg, s, expired, |expired|);
    ForgetSame(cfg, s, expired, |expired|);
    SameDialing(s, s'.(history := s.history));
    SameDynamic(s'.(history := s.history), s');
  }

  lemma HandleDoes(cfg: DialConfig, s: Sched, slots: int, e: Event)
    requires Inv(cfg, s) && Handles(s) && Enabled(s, slots, e)
    ensures Did(cfg, s, e, Handle(cfg, s, slots, e))
  {
    hide Linked, Spaced, Remembered, PoolDialable, CapKept, OnNode, OnTaskDone, OnPeerAdded, OnPeerRemoved, OnAddStatic,
         OnRemoveStatic, OnResolved, ForgetDials, Did;
    match e
    case NodeFound(n) => NodeDoes(cfg, s, n);
    case TaskDone(id) => TaskDoneDoes(cfg, s, id);
    case PeerAdded(id, dialed) => PeerAddedDoes(cfg, s, id, dialed);
    case PeerRemoved(id, dialed) => PeerRemovedDoes(cfg, s, id, dialed);
    case AddStatic(n) => AddStaticDoes(cfg, s, n);
    case RemoveStatic(id) => RemoveStaticDoes(cfg, s, id);
    case HistoryTimer(expired) => OtherDoes(cfg, s, expired, 0, Node(0, None, 0));
    case Resolved(t, n) => OtherDoes(cfg, s, [], t, n);
    case LogTimer => OtherDoes(cfg, s, [], 0, Node(0, None, 0));
  }

  /** Which dynamic dials a pass starts: the node it was given, if that passes the check;
      and it is given one only if the pass began with fewer dialed peers than wanted and
      fewer dials than allowed. */
  lemma DynamicDialNeedsRoom(cfg: DialConfig, run: seq<Sched>, turns: seq<Turn>, i: nat, id: NodeID)
    requires IsRun(cfg, run, turns) && i < |turns|
    ensures |turns[i].launch| > 0
    ensures id in Dynamic(run[i + 1]) && id !in Dynamic(run[i]) <==>
              var e := turns[i].event; e.NodeFound? && e.node.id == id && Dialable(cfg, Waiting(turns[i]), e.node)
    ensures id in Dynamic(run[i + 1]) && id !in Dynamic(run[i]) ==>
              && run[i].dialPeers < cfg.maxDialPeers && |run[i].dialing| < cfg.maxActiveDials
              && |run[i].dialing| < 2 * (cfg.maxDialPeers - run[i].dialPeers)
  {
    hide Inv, Handle, Dynamic, Dialable, FreeDialSlots;
    SchedulerInvariant(cfg, run, turns, i);
    WaitingLaunched(cfg, run[i], turns[i], run[i + 1]);
    HandleDoes(cfg, Waiting(turns[i]), FreeDialSlots(cfg, run[i]), turns[i].event);
    DialingIsNotDialable(cfg, Waiting(turns[i]), id);
    SlotsIff(cfg, run[i], 1);
  }

  lemma DialingIsNotDialable(cfg: DialConfig, s: Sched, id: NodeID)
    ensures forall n: Node :: n.id in Dynamic(s) ==> !Dialable(cfg, s, n)
  {
  }

  /** Over every run the count of dialed peers is what its events say. */
  lemma {:induction false} DialPeersCount(cfg: DialConfig, run: seq<Sched>, turns: seq<Turn>, k: nat)
    requires IsRun(cfg, run, turns) && k <= |turns|
    ensures run[k].dialPeers == SumOfChanges(turns, k)
  {
    hide IsTurn, Inv;
    if k != 0 {
      DialPeersCount(cfg, run, turns, k - 1);
      SchedulerInvariant(cfg, run, turns, k - 1);
      TurnChange(cfg, run[k - 1], turns[k - 1], run[k]);
    }
  }

  ghost function SumOfChanges(turns: seq<Turn>, k: nat): int
    requires k <= |turns|
  {
    if k == 0 then 0 else SumOfChanges(turns, k - 1) + DialedChange(turns[k - 1].event)
  }

  lemma TurnChange(cfg: DialConfig, s: Sched, t: Turn, s': Sched)
    requires Inv(cfg, s) && IsTurn(cfg, s, t, s')
    ensures |t.launch| > 0
    ensures s'.dialPeers == s.dialPeers + DialedChange(t.event) && s'.peers == PeersAfter(s.peers, t.event)
    ensures s'.statics.Keys == StaticsAfter(s.statics.Keys, t.event)
    ensures |s'.starts| == |s.starts| + |t.picks| + if t.event.NodeFound? && Dialable(cfg, Waiting(t), t.event.node) then 1 else 0
  {
    hide Inv, Handle, Dynamic, Dialable, FreeDialSlots;
    WaitingLaunched(cfg, s, t, s');
    HandleDoes(cfg, Waiting(t), FreeDialSlots(cfg, s), t.event);
  }

  // ----- when an event is taken, and what it does to tasks and history -----

  /** Nodes are taken exactly while the pass began with room; peers, static nodes and the
      log always; a task when it is running. */
  lemma EventsAreTaken(cfg: DialConfig, s: Sched, w: Sched, n: Node, id: NodeID, dialed: bool)
    ensures var slots := FreeDialSlots(cfg, s);
            && (Enabled(w, slots, NodeFound(n)) <==>
                 |s.dialing| < 2 * (cfg.maxDialPeers - s.dialPeers) && |s.dialing| < cfg.maxActiveDials)
            && Enabled(w, slots, PeerAdded(id, dialed)) && Enabled(w, slots, PeerRemoved(id, dialed))
            && Enabled(w, slots, AddStatic(n)) && Enabled(w, slots, RemoveStatic(id)) && Enabled(w, slots, LogTimer)
            && (Enabled(w, slots, TaskDone(id)) <==> id in w.dialing)
  {
    hide FreeDialSlots;
    SlotsIff(cfg, s, 1);
  }

  /** Dials that are due are forgotten and no others: what is left of the history is what
      has not expired, as often as it was there. */
  lemma TimerForgetsDue(s: Sched, slots: int, expired: seq<Item>, it: Item)
    requires Enabled(s, slots, HistoryTimer(expired))
    ensures (s.history - multiset(expired))[it] == if it.exp < s.now then 0 else s.history[it]
  {
    var left := s.history - multiset(expired);
    if it.exp < s.now {
      assert it !in left;
    } else {
      assert forall x :: x in multiset(expired) ==> x.exp < s.now;
      assert it !in multiset(expired);
    }
  }

  lemma AllButLast(s: seq<Item>, now: Time)
    requires ExpiryOrder(s, now) && s != []
    ensures var init, last := s[..|s| - 1], s[|s| - 1];
            && ExpiryOrder(init, now) && last.exp < now && s == init + [last]
            && forall y: Item :: y in init ==> y.exp <= last.exp
  {
  }

  /** An item put in its place among others in the order they expire. */
  lemma {:induction false} Inserted(s: seq<Item>, x: Item, now: Time) returns (r: seq<Item>)
    requires ExpiryOrder(s, now) && x.exp < now
    ensures ExpiryOrder(r, now) && multiset(r) == multiset(s) + multiset{x}
  {
    hide ExpiryOrder;
    if s == [] || s[|s| - 1].exp <= x.exp {
      ExpiryOrderAppend(s, x, now);
      r := s + [x];
    } else {
      AllButLast(s, now);
      var init, last := s[..|s| - 1], s[|s| - 1];
      r := Inserted(init, x, now);
      assert r != [] ==> r[|r| - 1] in multiset(r);
      assert r != [] ==> r[|r| - 1] == x || r[|r| - 1] in multiset(init);
      assert multiset(s) == multiset(init) + multiset{last};
      ExpiryOrderAppend(r, last, now);
      r := r + [last];
    }
  }

  lemma {:induction false} DueInOrder(h: multiset<Item>, now: Time) returns (expired: seq<Item>)
    ensures multiset(expired) <= h && ExpiryOrder(expired, now) && AllFrom(h - multiset(expired), now)
    decreases |h|
  {
    if x :| x in h && x.exp < now {
      var rest := DueInOrder(h - multiset{x}, now);
      expired := Inserted(rest, x, now);
      assert h - multiset(expired) == h - multiset{x} - multiset(rest);
    } else {
      expired := [];
      assert h - multiset([]) == h;
    }
  }

  /** The timer can fire in every state, and drops what is due in the order it expires. */
  lemma TimerCanFire(s: Sched, slots: int) returns (expired: seq<Item>)
    ensures Enabled(s, slots, HistoryTimer(expired))
  {
    expired := DueInOrder(s.history, s.now);
  }

  /** A task keeps what it dials but for the address its own resolver found; an event adds
      at most the task of its node; the history gains the dial that is started and loses
      what the timer dropped. */
  ghost predicate Keeps(cfg: DialConfig, s: Sched, e: Event, s': Sched) {
    var started := e.NodeFound? && Dialable(cfg, s, e.node);
    var listed := e.AddStatic? && e.node.id !in s.statics;
    && |s'.tasks| == |s.tasks| + (if started || listed then 1 else 0)
    && (started ==> s'.tasks[|s.tasks|].dest == e.node && s'.tasks[|s.tasks|].kind == DynDialed)
    && (listed ==> s'.tasks[|s.tasks|].dest == e.node && s'.tasks[|s.tasks|].kind == StaticDialed
                   && s'.statics == s.statics[e.node.id := |s.tasks|])
    && (forall t :: 0 <= t < |s.tasks| ==>
          s'.tasks[t].kind == s.tasks[t].kind && s'.tasks[t].dest == if e.Resolved? && e.task == t then e.node else s.tasks[t].dest)
    && s'.history == (if started then s.history + multiset{Item(e.node.id, s.now + 35)}
                      else if e.HistoryTimer? then s.history - multiset(e.expired) else s.history)
    && s'.now == s.now
  }

  lemma PeersKeep(cfg: DialConfig, s: Sched, id: NodeID, dialed: bool)
    requires Handles(s)
    ensures Keeps(cfg, s, PeerAdded(id, dialed), OnPeerAdded(s, id, dialed))
    ensures Keeps(cfg, s, PeerRemoved(id, dialed), OnPeerRemoved(cfg, s, id, dialed))
  {
    hide UpdateStaticPool, RemoveFromStaticPool, Dialable;
    var s1 := s.(dialPeers := if dialed then s.dialPeers + 1 else s.dialPeers, peers := s.peers[id := dialed]);
    if id in s.statics && s.tasks[s.statics[id]].poolIndex >= 0 { RemovalSame(s1, s.tasks[s.statics[id]].poolIndex); }
    UpdateSame(cfg, s.(dialPeers := if dialed then s.dialPeers - 1 else s.dialPeers, peers := s.peers - {id}), id);
  }

  lemma FoundKeeps(cfg: DialConfig, s: Sched, n: Node)
    ensures Keeps(cfg, s, NodeFound(n), OnNode(cfg, s, n))
  {
    hide Dialable;
  }

  lemma ListedKeeps(cfg: DialConfig, s: Sched, n: Node)
    ensures Keeps(cfg, s, AddStatic(n), OnAddStatic(cfg, s, n))
  {
    hide Dialable;
  }

  lemma UnlistedKeeps(cfg: DialConfig, s: Sched, id: NodeID)
    requires Handles(s)
    ensures Keeps(cfg, s, RemoveStatic(id), OnRemoveStatic(s, id))
  {
    hide RemoveFromStaticPool, Dialable;
    if id in s.statics && s.tasks[s.statics[id]].poolIndex >= 0 {
      RemovalSame(s.(statics := s.statics - {id}), s.tasks[s.statics[id]].poolIndex);
    }
  }

  lemma TasksKeep(cfg: DialConfig, s: Sched, id: NodeID, t: nat, n: Node)
    requires Handles(s)
    ensures id in s.dialing ==> Keeps(cfg, s, TaskDone(id), OnTaskDone(cfg, s, id))
    ensures t < |s.tasks| ==> Keeps(cfg, s, Resolved(t, n), OnResolved(s, t, n))
    ensures Keeps(cfg, s, LogTimer, s)
  {
    hide UpdateStaticPool, Dialable;
    if id in s.dialing { UpdateSame(cfg, s.(dialing := s.dialing - {id}, running := s.running - {s.dialing[id]}), id); }
  }

  lemma TimerHistory(cfg: DialConfig, s: Sched, slots: int, expired: seq<Item>)
    requires Inv(cfg, s) && Enabled(s, slots, HistoryTimer(expired))
    ensures ForgetDials(cfg, s, expired, |expired|).history == s.history - multiset(expired)
  {
    hide Inv, ForgetDials, AllFrom;
    ForgetAllKeeps(cfg, s, expired, |expired|);
    assert expired[..|expired|] == expired;
  }

  lemma TimerKeeps(cfg: DialConfig, s: Sched, slots: int, expired: seq<Item>)
    requires Inv(cfg, s) && Enabled(s, slots, HistoryTimer(expired))
    ensures Keeps(cfg, s, HistoryTimer(expired), ForgetDials(cfg, s, expired, |expired|))
  {
    hide Inv, ForgetDials, AllFrom, ExpiryOrder, Closed, Dialable;
    ForgetSame(cfg, s, expired, |expired|);
    TimerHistory(cfg, s, slots, expired);
  }

  /** Every case of the select. */
  lemma HandleKeepsTasks(cfg: DialConfig, s: Sched, slots: int, e: Event)
    requires Inv(cfg, s) && Handles(s) && Enabled(s, slots, e)
    ensures Keeps(cfg, s, e, Handle(cfg, s, slots, e))
  {
    hide Inv, OnNode, OnTaskDone, OnPeerAdded, OnPeerRemoved, OnAddStatic, OnRemoveStatic, OnResolved, ForgetDials, Keeps;
    match e
    case NodeFound(n) => FoundKeeps(cfg, s, n);
    case TaskDone(id) => TasksKeep(cfg, s, id, 0, Node(0, None, 0));
    case PeerAdded(id, dialed) => PeersKeep(cfg, s, id, dialed);
    case PeerRemoved(id, dialed) => PeersKeep(cfg, s, id, dialed);
    case AddStatic(n) => ListedKeeps(cfg, s, n);
    case RemoveStatic(id) => UnlistedKeeps(cfg, s, id);
    case HistoryTimer(expired) => TimerKeeps(cfg, s, slots, expired);
    case Resolved(t, n) => TasksKeep(cfg, s, 0, t, n);
    case LogTimer => TasksKeep(cfg, s, 0, 0, Node(0, None, 0));
  }
}
