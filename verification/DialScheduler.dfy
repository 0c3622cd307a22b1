/** The dial scheduler: one goroutine that owns the set of running dials, the
    connected peers, the static tasks with their index-linked pool, and the dial
    history.  Each pass of its loop starts every pooled static dial and then
    handles one event.

    Tasks are objects shared by reference in the source; here they live in a
    table and are referred to by position, so sharing and updates in place stay
    visible.  This module gives each operation its meaning on values; the
    invariant and the theorems over runs are in `DialTheorems`, the imperative
    scheduler in `DialLoop`. */
module DialScheduling {
  import opened Common
  import opened ExpiryHeap

  type NodeID = Key

  /** Inbound throttle time plus five seconds, in seconds. */
  const DIAL_HISTORY_EXPIRATION: Time := 35

  /** A node record; the address may be unknown for static nodes. */
  datatype Node = Node(id: NodeID, ip: Option<nat>, tcp: nat)

  datatype TaskKind = DynDialed | StaticDialed

  datatype DialError =
    | IsSelf | NoPort | AlreadyDialing | AlreadyConnected | NotWhitelisted | RecentlyDialed

  datatype DialConfig = DialConfig(
    self: NodeID, maxDialPeers: int, maxActiveDials: int, netRestrict: Option<set<nat>>)

  datatype Task = Task(kind: TaskKind, dest: Node, poolIndex: int)

  /** A dial that was started: whom and when. */
  datatype Start = Start(id: NodeID, at: Time)

  /** The scheduler's state.  `running` and `starts` record what the program does
      not store: the tasks whose goroutine has not reported, and all dials made. */
  datatype Sched = Sched(
    tasks: seq<Task>, dialing: map<NodeID, nat>, peers: map<NodeID, bool>, dialPeers: int,
    statics: map<NodeID, nat>, pool: seq<nat>, history: multiset<Item>, now: Time,
    running: set<nat>, starts: seq<Start>)

  function Init(now: Time): Sched {
    Sched([], map[], map[], 0, map[], [], multiset{}, now, {}, [])
  }

  predicate Whitelisted(cfg: DialConfig, ip: Option<nat>) {
    cfg.netRestrict.None? || (ip.Some? && ip.value in cfg.netRestrict.value)
  }

  /** The first reason not to dial `n`, in the order the source tests them. */
  function CheckError(cfg: DialConfig, dialing: set<NodeID>, peers: set<NodeID>, recent: bool, n: Node): Option<DialError> {
    if n.id == cfg.self then Some(IsSelf)
    else if n.ip.Some? && n.tcp == 0 then Some(NoPort)
    else if n.id in dialing then Some(AlreadyDialing)
    else if n.id in peers then Some(AlreadyConnected)
    else if !Whitelisted(cfg, n.ip) then Some(NotWhitelisted)
    else if recent then Some(RecentlyDialed)
    else None
  }

  ghost predicate InHistory(items: multiset<Item>, id: NodeID) {
    exists it :: it in items && it.key == id
  }

  /** The node passes the dial check. */
  ghost predicate Dialable(cfg: DialConfig, s: Sched, n: Node) {
    CheckError(cfg, s.dialing.Keys, s.peers.Keys, InHistory(s.history, n.id), n) == None
  }

  /** References in the pool and in the static map point into the task table. */
  predicate Closed(s: Sched) {
    && (forall i :: 0 <= i < |s.pool| ==> s.pool[i] < |s.tasks|)
    && (forall id :: id in s.statics ==> s.statics[id] < |s.tasks|)
    && (forall id :: id in s.dialing ==> s.dialing[id] < |s.tasks|)
  }

  function SetIndex(tasks: seq<Task>, t: nat, index: int): seq<Task>
    requires t < |tasks|
  {
    tasks[t := tasks[t].(poolIndex := index)]
  }

  /** The source panics on a task that is in the pool already; the precondition
      says that no caller gets there. */
  function AddToStaticPool(s: Sched, t: nat): Sched
    requires t < |s.tasks| && s.tasks[t].poolIndex < 0
  {
    s.(pool := s.pool + [t], tasks := SetIndex(s.tasks, t, |s.pool|))
  }

  /** Moves the last task into the hole and shortens the pool. */
  function RemoveFromStaticPool(s: Sched, idx: nat): Sched
    requires Closed(s) && idx < |s.pool|
  {
    var end := |s.pool| - 1;
    s.(pool := s.pool[idx := s.pool[end]][..end],
       tasks := SetIndex(SetIndex(s.tasks, s.pool[end], idx), s.pool[idx], -1))
  }

  function StartDial(s: Sched, t: nat): Sched
    requires t < |s.tasks|
  {
    var id := s.tasks[t].dest.id;
    s.(history := s.history + multiset{Item(id, s.now + DIAL_HISTORY_EXPIRATION)},
       dialing := s.dialing[id := t], running := s.running + {t}, starts := s.starts + [Start(id, s.now)])
  }

  /** Starting one pooled dial: which one, and how much time has passed. */
  datatype Pick = Pick(idx: nat, elapsed: nat)

  function StartPooled(s: Sched, p: Pick): Sched
    requires Closed(s) && p.idx < |s.pool|
  {
    RemoveFromStaticPool(StartDial(s.(now := s.now + p.elapsed), s.pool[p.idx]), p.idx)
  }

  ghost function UpdateStaticPool(cfg: DialConfig, s: Sched, id: NodeID): (s': Sched)
    requires Closed(s)
    ensures Closed(s')
  {
    if id in s.statics && s.tasks[s.statics[id]].poolIndex < 0 && Dialable(cfg, s, s.tasks[s.statics[id]].dest)
    then AddToStaticPool(s, s.statics[id]) else s
  }

  /** One expired history entry is dropped and its node reconsidered. */
  ghost function ForgetDial(cfg: DialConfig, s: Sched, item: Item): (s': Sched)
    requires Closed(s)
    ensures Closed(s')
  {
    UpdateStaticPool(cfg, s.(history := s.history - multiset{item}), item.key)
  }

  /** The first `k` expired entries are dropped, in the order the heap gives them. */
  ghost function ForgetDials(cfg: DialConfig, s: Sched, items: seq<Item>, k: nat): (s': Sched)
    requires Closed(s) && k <= |items|
    ensures Closed(s')
  {
    if k == 0 then s else ForgetDial(cfg, ForgetDials(cfg, s, items, k - 1), items[k - 1])
  }

  function FreeDialSlots(cfg: DialConfig, s: Sched): int {
    var slots := (cfg.maxDialPeers - s.dialPeers) * 2;
    (if slots > cfg.maxActiveDials then cfg.maxActiveDials else slots) - |s.dialing|
  }

  // ----- the events of the loop -----

  ghost function OnNode(cfg: DialConfig, s: Sched, n: Node): Sched {
    if !Dialable(cfg, s, n) then s
    else StartDial(s.(tasks := s.tasks + [Task(DynDialed, n, -1)]), |s.tasks|)
  }

  ghost function OnTaskDone(cfg: DialConfig, s: Sched, id: NodeID): Sched
    requires Closed(s) && id in s.dialing
  {
    UpdateStaticPool(cfg, s.(dialing := s.dialing - {id}, running := s.running - {s.dialing[id]}), id)
  }

  function OnPeerAdded(s: Sched, id: NodeID, dialed: bool): Sched
    requires Closed(s) && forall k :: k in s.statics ==> s.tasks[s.statics[k]].poolIndex < |s.pool|
  {
    var s1 := s.(dialPeers := if dialed then s.dialPeers + 1 else s.dialPeers, peers := s.peers[id := dialed]);
    if id in s.statics && s.tasks[s.statics[id]].poolIndex >= 0
    then RemoveFromStaticPool(s1, s.tasks[s.statics[id]].poolIndex) else s1
  }

  ghost function OnPeerRemoved(cfg: DialConfig, s: Sched, id: NodeID, dialed: bool): Sched
    requires Closed(s)
  {
    var s1 := s.(dialPeers := if dialed then s.dialPeers - 1 else s.dialPeers, peers := s.peers - {id});
    UpdateStaticPool(cfg, s1, id)
  }

  ghost function OnAddStatic(cfg: DialConfig, s: Sched, n: Node): Sched {
    if n.id in s.statics then s
    else
      var t := |s.tasks|;
      var s1 := s.(tasks := s.tasks + [Task(StaticDialed, n, -1)], statics := s.statics[n.id := t]);
      if Dialable(cfg, s1, n) then AddToStaticPool(s1, t) else s1
  }

  function OnRemoveStatic(s: Sched, id: NodeID): Sched
    requires Closed(s) && forall k :: k in s.statics ==> s.tasks[s.statics[k]].poolIndex < |s.pool|
  {
    if id !in s.statics then s
    else
      var s1 := s.(statics := s.statics - {id});
      var index := s.tasks[s.statics[id]].poolIndex;
      if index >= 0 then RemoveFromStaticPool(s1, index) else s1
  }

  /** A running task may replace its own address; the identity stays. */
  function OnResolved(s: Sched, t: nat, n: Node): Sched
    requires t < |s.tasks|
  {
    s.(tasks := s.tasks[t := s.tasks[t].(dest := n)])
  }

  datatype Event =
    | NodeFound(node: Node)
    | TaskDone(id: NodeID)
    | PeerAdded(id: NodeID, dialed: bool)
    | PeerRemoved(id: NodeID, dialed: bool)
    | AddStatic(node: Node)
    | RemoveStatic(id: NodeID)
    | HistoryTimer(expired: seq<Item>)
    | Resolved(task: nat, node: Node)
    | LogTimer

  /** When an event can happen.  Nodes are received only while a slot was free at
      the top of the pass; the timer drops exactly the entries past their expiry;
      a resolver keeps the identity of the node it was asked for. */
  ghost predicate Enabled(s: Sched, slots: int, e: Event) {
    match e
    case NodeFound(_) => slots > 0
    case TaskDone(id) => id in s.dialing
    case HistoryTimer(expired) =>
      && multiset(expired) <= s.history && ExpiryOrder(expired, s.now)
      && AllFrom(s.history - multiset(expired), s.now)
    case Resolved(t, n) => t in s.running && t < |s.tasks| && n.id == s.tasks[t].dest.id
    case _ => true
  }

  ghost predicate Handles(s: Sched) {
    Closed(s) && forall k :: k in s.statics ==> s.tasks[s.statics[k]].poolIndex < |s.pool|
  }

  ghost function Handle(cfg: DialConfig, s: Sched, slots: int, e: Event): Sched
    requires Handles(s) && Enabled(s, slots, e)
  {
    match e
    case NodeFound(n) => OnNode(cfg, s, n)
    case TaskDone(id) => OnTaskDone(cfg, s, id)
    case PeerAdded(id, dialed) => OnPeerAdded(s, id, dialed)
    case PeerRemoved(id, dialed) => OnPeerRemoved(cfg, s, id, dialed)
    case AddStatic(n) => OnAddStatic(cfg, s, n)
    case RemoveStatic(id) => OnRemoveStatic(s, id)
    case HistoryTimer(expired) => ForgetDials(cfg, s, expired, |expired|)
    case Resolved(t, n) => OnResolved(s, t, n)
    case LogTimer => s
  }
}
