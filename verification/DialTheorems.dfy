/** What holds in every reachable state of the dial scheduler. */
module DialTheorems {
  import opened ExpiryHeap
  import opened DialScheduling

  // ----- the invariant -----

  /** The pool is index-linked: its tasks are static tasks carrying their own
      position, hence distinct, and every other task carries -1. */
  ghost predicate PoolLinked(s: Sched) {
    && (forall i :: 0 <= i < |s.pool| ==>
         && s.pool[i] < |s.tasks| && s.tasks[s.pool[i]].poolIndex == i
         && s.tasks[s.pool[i]].dest.id in s.statics && s.statics[s.tasks[s.pool[i]].dest.id] == s.pool[i])
    && (forall t :: 0 <= t < |s.tasks| ==>
         || s.tasks[t].poolIndex == -1
         || (0 <= s.tasks[t].poolIndex < |s.pool| && s.pool[s.tasks[t].poolIndex] == t))
  }

  ghost predicate StaticsKeyed(s: Sched) {
    forall id :: id in s.statics ==>
      s.statics[id] < |s.tasks| && s.tasks[s.statics[id]].dest.id == id && s.tasks[s.statics[id]].kind == StaticDialed
  }

  /** One running goroutine per entry of `dialing`, under its node's identity. */
  ghost predicate DialingKeyed(s: Sched) {
    && (forall id :: id in s.dialing ==> s.dialing[id] < |s.tasks| && s.tasks[s.dialing[id]].dest.id == id)
    && s.running == s.dialing.Values
  }

  ghost predicate PoolDialable(cfg: DialConfig, s: Sched) {
    forall i :: 0 <= i < |s.pool| && s.pool[i] < |s.tasks| ==> Dialable(cfg, s, s.tasks[s.pool[i]].dest)
  }

  /** Dials of one node are more than the history expiration apart. */
  ghost predicate Spaced(starts: seq<Start>) {
    forall i, j :: 0 <= i < j < |starts| && starts[i].id == starts[j].id ==>
      starts[j].at - starts[i].at > DIAL_HISTORY_EXPIRATION
  }

  /** Every dial started is still remembered, or long enough ago. */
  ghost predicate Remembered(starts: seq<Start>, items: multiset<Item>, now: Time) {
    forall i :: 0 <= i < |starts| ==>
      || Item(starts[i].id, starts[i].at + DIAL_HISTORY_EXPIRATION) in items
      || starts[i].at + DIAL_HISTORY_EXPIRATION < now
  }

  /** The nodes being dialed that discovery brought in. */
  ghost function Dynamic(s: Sched): set<NodeID> {
    set id | id in s.dialing && s.dialing[id] < |s.tasks| && s.tasks[s.dialing[id]].kind == DynDialed
  }

  ghost predicate CapKept(cfg: DialConfig, s: Sched) {
    |Dynamic(s)| <= if cfg.maxActiveDials < 0 then 0 else cfg.maxActiveDials
  }

  ghost predicate Linked(s: Sched)
    ensures Linked(s) ==> Closed(s)
  {
    PoolLinked(s) && StaticsKeyed(s) && DialingKeyed(s)
  }

  ghost predicate Inv(cfg: DialConfig, s: Sched)
    ensures Inv(cfg, s) ==> Handles(s)
  {
    Linked(s) && PoolDialable(cfg, s) && Spaced(s.starts) && Remembered(s.starts, s.history, s.now) && CapKept(cfg, s)
  }

  /** What the invariant means for goroutines: at most one per node. */
  lemma OneRunningPerNode(s: Sched, t: nat, u: nat)
    requires Linked(s) && t in s.running && u in s.running
    ensures t < |s.tasks| && u < |s.tasks|
    ensures s.tasks[t].dest.id == s.tasks[u].dest.id ==> t == u
  {
    var x :| x in s.dialing && s.dialing[x] == t;
    var y :| y in s.dialing && s.dialing[y] == u;
  }

  // ----- each operation keeps it -----

  lemma RemoveKeepsPool(s: Sched, idx: nat)
    requires Linked(s) && idx < |s.pool|
    ensures PoolLinked(RemoveFromStaticPool(s, idx))
  {
    hide DialingKeyed;
  }

  lemma RemoveKeeps(s: Sched, idx: nat)
    requires Linked(s) && idx < |s.pool|
    ensures Linked(RemoveFromStaticPool(s, idx))
    ensures |RemoveFromStaticPool(s, idx).pool| == |s.pool| - 1
    ensures forall i :: 0 <= i < |s.pool| - 1 ==>
              RemoveFromStaticPool(s, idx).pool[i] == s.pool[if i == idx then |s.pool| - 1 else i]
  {
    RemoveKeepsPool(s, idx);
    hide PoolLinked;
  }

  lemma AddKeeps(s: Sched, t: nat)
    requires Linked(s) && t < |s.tasks| && s.tasks[t].poolIndex < 0
    requires s.tasks[t].dest.id in s.statics && s.statics[s.tasks[t].dest.id] == t
    ensures Linked(AddToStaticPool(s, t))
  {
  }

  lemma StartKeepsLinks(s: Sched, t: nat)
    requires Linked(s) && t < |s.tasks| && s.tasks[t].dest.id !in s.dialing
    ensures Linked(StartDial(s, t))
  {
    var s' := StartDial(s, t);
    assert forall id :: id in s.dialing ==> s'.dialing[id] == s.dialing[id];
    assert s'.dialing[s.tasks[t].dest.id] == t;
  }

  /** Only entries for the node itself can make it undialable. */
  lemma DialableFrame(cfg: DialConfig, s: Sched, s': Sched, n: Node)
    requires Dialable(cfg, s, n)
    requires (n.id in s'.dialing ==> n.id in s.dialing) && (n.id in s'.peers ==> n.id in s.peers)
    requires forall it :: it in s'.history && it.key == n.id ==> it in s.history
    ensures Dialable(cfg, s', n)
  {
  }

  lemma SpacingGrows(starts: seq<Start>, items: multiset<Item>, now: Time, id: NodeID)
    requires Spaced(starts) && Remembered(starts, items, now) && !InHistory(items, id)
    ensures Spaced(starts + [Start(id, now)])
    ensures Remembered(starts + [Start(id, now)], items + multiset{Item(id, now + DIAL_HISTORY_EXPIRATION)}, now)
  {
    var s' := starts + [Start(id, now)];
    forall i, j | 0 <= i < j < |s'| && s'[i].id == s'[j].id
      ensures s'[j].at - s'[i].at > DIAL_HISTORY_EXPIRATION
    {
      if j == |starts| {
        assert Item(starts[i].id, starts[i].at + DIAL_HISTORY_EXPIRATION) !in items;
      }
    }
  }

  lemma {:induction false} SubsetSize(a: set<NodeID>, b: set<NodeID>)
    requires a <= b
    ensures |a| <= |b|
    decreases |a|
  {
    if a != {} {
      var x :| x in a;
      SubsetSize(a - {x}, b - {x});
    }
  }

  lemma SameDynamic(s: Sched, s': Sched)
    requires s'.tasks == s.tasks && s'.dialing == s.dialing
    ensures Dynamic(s') == Dynamic(s)
  {
  }

  lemma StaticInPool(s: Sched, i: nat)
    requires Linked(s) && i < |s.pool|
    ensures s.tasks[s.pool[i]].kind == StaticDialed
  {
  }

  /** Starting a dial that passes the check keeps links, spacing and, for a
      dynamic one with room, the cap. */
  lemma StartKeeps(cfg: DialConfig, s: Sched, t: nat)
    requires Linked(s) && Spaced(s.starts) && Remembered(s.starts, s.history, s.now)
    requires t < |s.tasks| && Dialable(cfg, s, s.tasks[t].dest)
    ensures var s' := StartDial(s, t);
            && Linked(s') && Spaced(s'.starts) && Remembered(s'.starts, s'.history, s'.now)
            && Dynamic(s') == Dynamic(s) + if s.tasks[t].kind == DynDialed then {s.tasks[t].dest.id} else {}
  {
    hide Spaced, Remembered;
    StartKeepsLinks(s, t);
    SpacingGrows(s.starts, s.history, s.now, s.tasks[t].dest.id);
  }

  /** Removing from the pool touches nothing but pool positions. */
  lemma RemoveFrame(s: Sched, idx: nat)
    requires Linked(s) && idx < |s.pool|
    ensures var s' := RemoveFromStaticPool(s, idx);
            && s' == s.(pool := s'.pool, tasks := s'.tasks) && |s'.tasks| == |s.tasks|
            && (forall t :: 0 <= t < |s.tasks| ==> s'.tasks[t].dest == s.tasks[t].dest && s'.tasks[t].kind == s.tasks[t].kind)
            && Dynamic(s') == Dynamic(s)
  {
  }

  /** Taking out a pool task keeps the others dialable. */
  lemma RemoveKeepsDialable(cfg: DialConfig, s: Sched, idx: nat)
    requires Linked(s) && idx < |s.pool|
    requires forall i :: 0 <= i < |s.pool| && i != idx ==> Dialable(cfg, s, s.tasks[s.pool[i]].dest)
    ensures Linked(RemoveFromStaticPool(s, idx)) && PoolDialable(cfg, RemoveFromStaticPool(s, idx))
    ensures Dynamic(RemoveFromStaticPool(s, idx)) == Dynamic(s)
  {
    hide Linked, Dialable;
    RemoveKeeps(s, idx);
    RemoveFrame(s, idx);
    var s' := RemoveFromStaticPool(s, idx);
    forall i | 0 <= i < |s'.pool| ensures Dialable(cfg, s', s'.tasks[s'.pool[i]].dest) {
      DialableFrame(cfg, s, s', s'.tasks[s'.pool[i]].dest);
    }
  }

  lemma PoolIdsDistinct(s: Sched, i: nat, j: nat)
    requires Linked(s) && i < |s.pool| && j < |s.pool| && i != j
    ensures s.tasks[s.pool[i]].dest.id != s.tasks[s.pool[j]].dest.id
  {
  }

  lemma TimePasses(cfg: DialConfig, s: Sched, elapsed: nat)
    requires Inv(cfg, s)
    ensures Inv(cfg, s.(now := s.now + elapsed))
  {
  }

  lemma StartPooledKeeps(cfg: DialConfig, s: Sched, p: Pick)
    requires Inv(cfg, s) && p.idx < |s.pool|
    ensures Inv(cfg, StartPooled(s, p)) && Dynamic(StartPooled(s, p)) == Dynamic(s)
    ensures |StartPooled(s, p).pool| == |s.pool| - 1
  {
    hide Linked, Spaced, Remembered, Dialable, Dynamic, RemoveFromStaticPool;
    TimePasses(cfg, s, p.elapsed);
    var s0 := s.(now := s.now + p.elapsed);
    assert Dynamic(s0) == Dynamic(s) by { SameDynamic(s, s0); }
    var t := s.pool[p.idx];
    StaticInPool(s0, p.idx);
    StartKeeps(cfg, s0, t);
    var s1 := StartDial(s0, t);
    forall i | 0 <= i < |s1.pool| && i != p.idx ensures Dialable(cfg, s1, s1.tasks[s1.pool[i]].dest) {
      PoolIdsDistinct(s0, i, p.idx);
      DialableFrame(cfg, s0, s1, s1.tasks[s1.pool[i]].dest);
    }
    RemoveKeepsDialable(cfg, s1, p.idx);
    RemoveFrame(s1, p.idx);
    RemoveKeeps(s1, p.idx);
  }

  /** Reconsidering a static task keeps the invariant and pools it if it may be dialed. */
  lemma UpdateKeeps(cfg: DialConfig, s: Sched, id: NodeID)
    requires Inv(cfg, s)
    ensures Inv(cfg, UpdateStaticPool(cfg, s, id))
    ensures id in s.statics && Dialable(cfg, s, s.tasks[s.statics[id]].dest) ==>
              s.statics[id] in UpdateStaticPool(cfg, s, id).pool
  {
    hide Spaced, Remembered;
    var s' := UpdateStaticPool(cfg, s, id);
    if s' != s {
      AddKeeps(s, s.statics[id]);
      forall i | 0 <= i < |s'.pool| ensures Dialable(cfg, s', s'.tasks[s'.pool[i]].dest) {
        DialableFrame(cfg, s, s', s'.tasks[s'.pool[i]].dest);
      }
      assert Dynamic(s') == Dynamic(s);
    }
  }

  /** Fewer dials, peers or history entries: the pool stays dialable. */
  lemma FewerKeepsDialable(cfg: DialConfig, s: Sched, s': Sched)
    requires PoolDialable(cfg, s) && s'.pool == s.pool && s'.tasks == s.tasks
    requires s'.dialing.Keys <= s.dialing.Keys && s'.peers.Keys <= s.peers.Keys && s'.history <= s.history
    ensures PoolDialable(cfg, s')
  {
    forall i | 0 <= i < |s.pool| && s.pool[i] < |s.tasks| ensures Dialable(cfg, s', s.tasks[s.pool[i]].dest) {
      DialableFrame(cfg, s, s', s.tasks[s.pool[i]].dest);
    }
  }

  lemma ForgetKeeps(cfg: DialConfig, s: Sched, item: Item)
    requires Inv(cfg, s) && item in s.history && item.exp < s.now
    ensures Inv(cfg, ForgetDial(cfg, s, item))
    ensures ForgetDial(cfg, s, item).history == s.history - multiset{item} && ForgetDial(cfg, s, item).now == s.now
  {
    var s1 := s.(history := s.history - multiset{item});
    FewerKeepsDialable(cfg, s, s1);
    forall i | 0 <= i < |s.starts|
      ensures Item(s.starts[i].id, s.starts[i].at + DIAL_HISTORY_EXPIRATION) in s1.history
              || s.starts[i].at + DIAL_HISTORY_EXPIRATION < s1.now
    {
      var it := Item(s.starts[i].id, s.starts[i].at + DIAL_HISTORY_EXPIRATION);
      if it != item { assert s1.history[it] == s.history[it]; }
    }
    assert Dynamic(s1) == Dynamic(s);
    UpdateKeeps(cfg, s1, item.key);
  }

  /** A new task is in no map and not in the pool. */
  lemma NewTaskKeeps(cfg: DialConfig, s: Sched, kind: TaskKind, n: Node)
    requires Inv(cfg, s)
    ensures var s1 := s.(tasks := s.tasks + [Task(kind, n, -1)]);
            Inv(cfg, s1) && Dynamic(s1) == Dynamic(s)
  {
    hide Spaced, Remembered;
    var s1 := s.(tasks := s.tasks + [Task(kind, n, -1)]);
    assert Dynamic(s1) == Dynamic(s);
  }

  lemma OnNodeKeeps(cfg: DialConfig, s: Sched, n: Node)
    requires Inv(cfg, s) && s.pool == [] && |Dynamic(s)| < cfg.maxActiveDials
    ensures Inv(cfg, OnNode(cfg, s, n))
  {
    hide Spaced, Remembered, Linked, Dynamic, Dialable;
    if Dialable(cfg, s, n) {
      NewTaskKeeps(cfg, s, DynDialed, n);
      var s1 := s.(tasks := s.tasks + [Task(DynDialed, n, -1)]);
      DialableFrame(cfg, s, s1, n);
      StartKeeps(cfg, s1, |s.tasks|);
    }
  }

  lemma OnTaskDoneKeeps(cfg: DialConfig, s: Sched, id: NodeID)
    requires Inv(cfg, s) && id in s.dialing
    ensures Inv(cfg, OnTaskDone(cfg, s, id))
    ensures OnTaskDone(cfg, s, id).running == s.running - {s.dialing[id]} && s.dialing[id] in s.running
  {
    hide Spaced, Remembered, Dialable;
    var s1 := s.(dialing := s.dialing - {id}, running := s.running - {s.dialing[id]});
    assert forall k :: k in s1.dialing ==> s1.dialing[k] == s.dialing[k] && s1.dialing[k] != s.dialing[id];
    assert s1.running == s1.dialing.Values;
    FewerKeepsDialable(cfg, s, s1);
    SubsetSize(Dynamic(s1), Dynamic(s));
    UpdateKeeps(cfg, s1, id);
  }

  lemma OnPeerAddedKeeps(cfg: DialConfig, s: Sched, id: NodeID, dialed: bool)
    requires Inv(cfg, s)
    ensures Inv(cfg, OnPeerAdded(s, id, dialed))
  {
    var s1 := s.(dialPeers := if dialed then s.dialPeers + 1 else s.dialPeers, peers := s.peers[id := dialed]);
    hide Spaced, Remembered, Dialable, Dynamic;
    SameDynamic(s, s1);
    forall i | 0 <= i < |s.pool| && s.tasks[s.pool[i]].dest.id != id
      ensures Dialable(cfg, s1, s1.tasks[s1.pool[i]].dest)
    {
      DialableFrame(cfg, s, s1, s.tasks[s.pool[i]].dest);
    }
    if id in s.statics && s.tasks[s.statics[id]].poolIndex >= 0 {
      RemoveKeepsDialable(cfg, s1, s.tasks[s.statics[id]].poolIndex);
    }
  }

  lemma OnPeerRemovedKeeps(cfg: DialConfig, s: Sched, id: NodeID, dialed: bool)
    requires Inv(cfg, s)
    ensures Inv(cfg, OnPeerRemoved(cfg, s, id, dialed))
  {
    var s1 := s.(dialPeers := if dialed then s.dialPeers - 1 else s.dialPeers, peers := s.peers - {id});
    hide Spaced, Remembered, Dialable, Dynamic;
    FewerKeepsDialable(cfg, s, s1);
    SameDynamic(s, s1);
    UpdateKeeps(cfg, s1, id);
  }

  lemma RegisterKeeps(cfg: DialConfig, s: Sched, t: nat)
    requires Inv(cfg, s) && t < |s.tasks| && s.tasks[t].kind == StaticDialed && s.tasks[t].dest.id !in s.statics
    ensures Inv(cfg, s.(statics := s.statics[s.tasks[t].dest.id := t]))
  {
    hide Spaced, Remembered, Dialable, Dynamic;
    var s' := s.(statics := s.statics[s.tasks[t].dest.id := t]);
    FewerKeepsDialable(cfg, s, s');
    SameDynamic(s, s');
  }

  lemma OnAddStaticKeeps(cfg: DialConfig, s: Sched, n: Node)
    requires Inv(cfg, s)
    ensures Inv(cfg, OnAddStatic(cfg, s, n))
  {
    hide Inv, Dialable;
    if n.id !in s.statics {
      NewTaskKeeps(cfg, s, StaticDialed, n);
      var s0 := s.(tasks := s.tasks + [Task(StaticDialed, n, -1)]);
      RegisterKeeps(cfg, s0, |s.tasks|);
      UpdateKeeps(cfg, s0.(statics := s.statics[n.id := |s.tasks|]), n.id);
    }
  }

  lemma UnregisterKeeps(cfg: DialConfig, s: Sched, id: NodeID)
    requires Inv(cfg, s) && (id in s.statics ==> s.tasks[s.statics[id]].poolIndex == -1)
    ensures Inv(cfg, s.(statics := s.statics - {id}))
  {
    hide Spaced, Remembered, Dialable, Dynamic;
    var s' := s.(statics := s.statics - {id});
    FewerKeepsDialable(cfg, s, s');
    SameDynamic(s, s');
  }

  lemma RemoveKeepsInv(cfg: DialConfig, s: Sched, id: NodeID)
    requires Inv(cfg, s) && id in s.statics && s.tasks[s.statics[id]].poolIndex >= 0
    ensures var s' := RemoveFromStaticPool(s, s.tasks[s.statics[id]].poolIndex);
            Inv(cfg, s') && s'.statics == s.statics && s'.tasks[s'.statics[id]].poolIndex == -1
  {
    hide Spaced, Remembered, Dialable, Dynamic;
    var index := s.tasks[s.statics[id]].poolIndex;
    RemoveKeepsDialable(cfg, s, index);
    RemoveFrame(s, index);
  }

  lemma OnRemoveStaticKeeps(cfg: DialConfig, s: Sched, id: NodeID)
    requires Inv(cfg, s)
    ensures Inv(cfg, OnRemoveStatic(s, id))
  {
    if id in s.statics {
      var index := s.tasks[s.statics[id]].poolIndex;
      assert index >= -1;
      hide Inv;
      if index >= 0 {
        RemoveKeepsInv(cfg, s, id);
        UnregisterKeeps(cfg, RemoveFromStaticPool(s, index), id);
      } else {
        UnregisterKeeps(cfg, s, id);
      }
    }
  }

  lemma OnResolvedKeeps(cfg: DialConfig, s: Sched, t: nat, n: Node)
    requires Inv(cfg, s) && t in s.running && t < |s.tasks| && n.id == s.tasks[t].dest.id
    ensures Inv(cfg, OnResolved(s, t, n))
  {
    var s' := OnResolved(s, t, n);
    assert n.id in s.dialing;
    forall i | 0 <= i < |s.pool| ensures s.pool[i] != t { assert Dialable(cfg, s, s.tasks[s.pool[i]].dest); }
    assert Dynamic(s') == Dynamic(s);
  }

  lemma TakeOne(h: multiset<Item>, items: seq<Item>, k: nat)
    requires multiset(items) <= h && 0 < k <= |items|
    ensures items[k - 1] in h - multiset(items[..k - 1])
    ensures h - multiset(items[..k - 1]) - multiset{items[k - 1]} == h - multiset(items[..k])
  {
    assert items[..k] == items[..k - 1] + [items[k - 1]];
    assert items == items[..k] + items[k..];
    assert multiset(items) == multiset(items[..k - 1]) + multiset{items[k - 1]} + multiset(items[k..]);
  }

  /** Dropping expired entries one by one keeps the invariant throughout. */
  lemma {:induction false} ForgetAllKeeps(cfg: DialConfig, s: Sched, items: seq<Item>, k: nat)
    requires Inv(cfg, s) && k <= |items|
    requires multiset(items) <= s.history && forall i :: 0 <= i < |items| ==> items[i].exp < s.now
    ensures Inv(cfg, ForgetDials(cfg, s, items, k))
    ensures ForgetDials(cfg, s, items, k).history == s.history - multiset(items[..k])
    ensures ForgetDials(cfg, s, items, k).now == s.now
  {
    hide Inv, ForgetDial;
    if k == 0 {
      assert items[..0] == [];
    } else {
      ForgetAllKeeps(cfg, s, items, k - 1);
      TakeOne(s.history, items, k);
      ForgetKeeps(cfg, ForgetDials(cfg, s, items, k - 1), items[k - 1]);
    }
  }

  lemma HandleKeeps(cfg: DialConfig, s: Sched, slots: int, e: Event)
    requires Inv(cfg, s) && s.pool == [] && Handles(s) && Enabled(s, slots, e)
    requires slots > 0 ==> |Dynamic(s)| < cfg.maxActiveDials
    ensures Inv(cfg, Handle(cfg, s, slots, e))
  {
    hide Inv, OnNode, OnTaskDone, OnPeerAdded, OnPeerRemoved, OnAddStatic, OnRemoveStatic, OnResolved, Dynamic;
    match e
    case NodeFound(n) => OnNodeKeeps(cfg, s, n);
    case TaskDone(id) => OnTaskDoneKeeps(cfg, s, id);
    case PeerAdded(id, dialed) => OnPeerAddedKeeps(cfg, s, id, dialed);
    case PeerRemoved(id, dialed) => OnPeerRemovedKeeps(cfg, s, id, dialed);
    case AddStatic(n) => OnAddStaticKeeps(cfg, s, n);
    case RemoveStatic(id) => OnRemoveStaticKeeps(cfg, s, id);
    case HistoryTimer(expired) => ForgetAllKeeps(cfg, s, expired, |expired|);
    case Resolved(t, n) => OnResolvedKeeps(cfg, s, t, n);
    case LogTimer =>
  }

  // ----- whole runs -----

  /** One pass of the loop: the states while the pool is emptied, the picks made,
      the time spent waiting, and the event that ends the wait. */
  datatype Turn = Turn(launch: seq<Sched>, picks: seq<Pick>, wait: nat, event: Event)

  /** `launch` are the states while `picks` are started one after the other. */
  ghost predicate Launches(s: Sched, launch: seq<Sched>, picks: seq<Pick>) {
    && |launch| == |picks| + 1 && launch[0] == s
    && (forall i :: 0 <= i < |picks| ==>
         && Closed(launch[i]) && picks[i].idx < |launch[i].pool|
         && launch[i + 1] == StartPooled(launch[i], picks[i]))
  }

  ghost predicate IsLaunch(s: Sched, t: Turn) {
    Launches(s, t.launch, t.picks) && t.launch[|t.picks|].pool == []
  }

  lemma LaunchesMore(s: Sched, launch: seq<Sched>, picks: seq<Pick>, p: Pick)
    requires Launches(s, launch, picks)
    requires Closed(launch[|picks|]) && p.idx < |launch[|picks|].pool|
    ensures Launches(s, launch + [StartPooled(launch[|picks|], p)], picks + [p])
  {
    hide StartPooled, Closed;
  }

  /** The state in which the scheduler waits for its event. */
  ghost function Waiting(t: Turn): Sched
    requires |t.launch| > 0
  {
    var w := t.launch[|t.launch| - 1];
    w.(now := w.now + t.wait)
  }

  ghost predicate IsTurn(cfg: DialConfig, s: Sched, t: Turn, s': Sched) {
    && IsLaunch(s, t)
    && Handles(Waiting(t)) && Enabled(Waiting(t), FreeDialSlots(cfg, s), t.event)
    && s' == Handle(cfg, Waiting(t), FreeDialSlots(cfg, s), t.event)
  }

  lemma {:induction false} LaunchKeeps(cfg: DialConfig, s: Sched, t: Turn, i: nat)
    requires Inv(cfg, s) && IsLaunch(s, t) && i < |t.launch|
    ensures Inv(cfg, t.launch[i]) && Dynamic(t.launch[i]) == Dynamic(s)
  {
    hide Inv, Dynamic, StartPooled;
    if i != 0 {
      LaunchKeeps(cfg, s, t, i - 1);
      StartPooledKeeps(cfg, t.launch[i - 1], t.picks[i - 1]);
    }
  }

  /** A slot counted as free before the static dials start still bounds the
      dynamic ones afterwards. */
  lemma SlotsBound(cfg: DialConfig, s: Sched)
    requires FreeDialSlots(cfg, s) > 0
    ensures |Dynamic(s)| < cfg.maxActiveDials
  {
    SubsetSize(Dynamic(s), s.dialing.Keys);
  }

  lemma TurnKeeps(cfg: DialConfig, s: Sched, t: Turn, s': Sched)
    requires Inv(cfg, s) && IsTurn(cfg, s, t, s')
    ensures Inv(cfg, Waiting(t)) && Waiting(t).pool == [] && Inv(cfg, s')
  {
    hide Inv, Dynamic, Handle, StartPooled, FreeDialSlots;
    LaunchKeeps(cfg, s, t, |t.picks|);
    TimePasses(cfg, t.launch[|t.picks|], t.wait);
    if FreeDialSlots(cfg, s) > 0 { SlotsBound(cfg, s); }
    SameDynamic(t.launch[|t.picks|], Waiting(t));
    HandleKeeps(cfg, Waiting(t), FreeDialSlots(cfg, s), t.event);
  }

  ghost predicate IsRun(cfg: DialConfig, run: seq<Sched>, turns: seq<Turn>) {
    && |run| == |turns| + 1 && run[0] == Init(run[0].now)
    && forall i :: 0 <= i < |turns| ==> IsTurn(cfg, run[i], turns[i], run[i + 1])
  }

  lemma InitInv(cfg: DialConfig, now: Time)
    ensures Inv(cfg, Init(now))
  {
    assert Dynamic(Init(now)) == {};
  }

  /** In every reachable state: the pool is index-linked and holds only static
      tasks that may be dialed, one goroutine runs per dialed node, dials of a node
      are more than the expiration apart, and the dynamic cap holds. */
  lemma {:induction false} SchedulerInvariant(cfg: DialConfig, run: seq<Sched>, turns: seq<Turn>, i: nat)
    requires IsRun(cfg, run, turns) && i < |run|
    ensures Inv(cfg, run[i])
  {
    hide Inv, IsTurn;
    if i == 0 {
      InitInv(cfg, run[0].now);
    } else {
      SchedulerInvariant(cfg, run, turns, i - 1);
      TurnKeeps(cfg, run[i - 1], turns[i - 1], run[i]);
    }
  }

  // ----- shutdown -----

  lemma {:induction false} InjectiveValues(m: map<NodeID, nat>)
    requires forall x, y :: x in m && y in m && m[x] == m[y] ==> x == y
    ensures |m.Values| == |m|
    decreases |m|
  {
    if m == map[] {
      assert m.Values == {};
    } else {
      var x :| x in m;
      var m' := m - {x};
      InjectiveValues(m');
      forall v | v in m.Values ensures v in m'.Values + {m[x]} {
        var k :| k in m && m[k] == v;
        if k != x { assert k in m' && m'[k] == v; }
      }
      forall v | v in m'.Values ensures v in m.Values && v != m[x] {
        var k :| k in m' && m'[k] == v;
        assert k in m && m[k] == v;
      }
      assert m.Values == m'.Values + {m[x]};
      assert m.Keys == m'.Keys + {x};
    }
  }

  /** The drain at shutdown waits once per entry of `dialing`; that is exactly
      once per running goroutine. */
  lemma DrainCount(cfg: DialConfig, s: Sched)
    requires Inv(cfg, s)
    ensures |s.running| == |s.dialing|
  {
    forall x, y | x in s.dialing && y in s.dialing && s.dialing[x] == s.dialing[y] ensures x == y { }
    InjectiveValues(s.dialing);
  }
}
