/** No static node is forgotten: in every reachable state a static node that may be dialed
    is in the pool, so while the scheduler waits none may be dialed. */
module DialCompleteness {
  import opened Common
  import opened ExpiryHeap
  import opened DialScheduling
  import opened DialTheorems
  import opened DialExact

  /** If `id` is a static node that passes the dial check, its task is in the pool. */
  ghost predicate PooledIfDialable(cfg: DialConfig, s: Sched, id: NodeID) {
    id in s.statics && s.statics[id] < |s.tasks| && Dialable(cfg, s, s.tasks[s.statics[id]].dest) ==>
      s.tasks[s.statics[id]].poolIndex >= 0
  }

  ghost predicate Complete(cfg: DialConfig, s: Sched) {
    forall id :: PooledIfDialable(cfg, s, id)
  }

  /** All but perhaps the one node that is still to be reconsidered. */
  ghost predicate CompleteBut(cfg: DialConfig, s: Sched, id0: NodeID) {
    forall id :: id != id0 ==> PooledIfDialable(cfg, s, id)
  }

  /** Nothing speaks for dialing `id` that did not before, and its task keeps its place. */
  ghost predicate NoReasonLost(s: Sched, s': Sched, id: NodeID) {
    && (id in s.dialing ==> id in s'.dialing) && (id in s.peers ==> id in s'.peers)
    && (InHistory(s.history, id) ==> InHistory(s'.history, id))
    && (id in s'.statics ==>
         && id in s.statics && s'.statics[id] == s.statics[id] < |s.tasks| <= |s'.tasks|
         && s'.tasks[s.statics[id]].dest == s.tasks[s.statics[id]].dest
         && (s.tasks[s.statics[id]].poolIndex >= 0 ==> s'.tasks[s.statics[id]].poolIndex >= 0))
  }

  lemma StaysPooled(cfg: DialConfig, s: Sched, s': Sched, id: NodeID)
    requires StaticsKeyed(s) && PooledIfDialable(cfg, s, id) && NoReasonLost(s, s', id)
    ensures PooledIfDialable(cfg, s', id)
  {
    hide InHistory;
  }

  /** A node with a reason against it need not be in the pool. */
  lemma BusyNeedsNoPool(cfg: DialConfig, s: Sched, id: NodeID)
    requires StaticsKeyed(s) && (id in s.dialing || id in s.peers)
    ensures PooledIfDialable(cfg, s, id)
  {
    hide InHistory;
  }

  lemma RemovedKeepsPlaces(s: Sched, idx: nat, t: nat)
    requires Closed(s) && idx < |s.pool| && t < |s.tasks| && t != s.pool[idx] && s.tasks[t].poolIndex >= 0
    ensures RemoveFromStaticPool(s, idx).tasks[t].poolIndex >= 0
  {
  }

  // ----- each operation keeps it -----

  /** Taking the task of `id0` out of the pool leaves the others in it. */
  lemma RemoveKeepsOthers(cfg: DialConfig, s: Sched, idx: nat, id0: NodeID)
    requires Linked(s) && CompleteBut(cfg, s, id0) && idx < |s.pool| && s.tasks[s.pool[idx]].dest.id == id0
    ensures CompleteBut(cfg, RemoveFromStaticPool(s, idx), id0)
  {
    hide PooledIfDialable, RemoveFromStaticPool, InHistory, PoolLinked, DialingKeyed;
    var s' := RemoveFromStaticPool(s, idx);
    RemovalSame(s, idx);
    forall id | id != id0 ensures PooledIfDialable(cfg, s', id) {
      if id in s.statics && s.tasks[s.statics[id]].poolIndex >= 0 { RemovedKeepsPlaces(s, idx, s.statics[id]); }
      StaysPooled(cfg, s, s', id);
    }
  }

  lemma StartKeepsOthers(cfg: DialConfig, s: Sched, t: nat)
    requires Linked(s) && t < |s.tasks| && CompleteBut(cfg, s, s.tasks[t].dest.id)
    ensures Complete(cfg, StartDial(s, t))
  {
    hide PooledIfDialable, InHistory, PoolLinked, DialingKeyed;
    var s', id0 := StartDial(s, t), s.tasks[t].dest.id;
    forall id ensures PooledIfDialable(cfg, s', id) {
      if id == id0 {
        BusyNeedsNoPool(cfg, s', id);
      } else {
        MoreHistory(s.history, Item(id0, s.now + DIAL_HISTORY_EXPIRATION), id);
        StaysPooled(cfg, s, s', id);
      }
    }
  }

  lemma MoreHistory(items: multiset<Item>, item: Item, id: NodeID)
    ensures InHistory(items, id) ==> InHistory(items + multiset{item}, id)
    ensures InHistory(items, id) && item.key != id ==> InHistory(items - multiset{item}, id)
  {
    if InHistory(items, id) {
      var it :| it in items && it.key == id;
      assert it in items + multiset{item};
      if item.key != id { assert it in items - multiset{item}; }
    }
  }

  /** Time does not bear on it. */
  lemma LaterComplete(cfg: DialConfig, s: Sched, elapsed: nat)
    requires Complete(cfg, s)
    ensures Complete(cfg, s.(now := s.now + elapsed))
  {
    var s' := s.(now := s.now + elapsed);
    forall id ensures PooledIfDialable(cfg, s', id) { assert PooledIfDialable(cfg, s, id); }
  }

  lemma StartPooledCompletes(cfg: DialConfig, s: Sched, p: Pick)
    requires Inv(cfg, s) && Complete(cfg, s) && p.idx < |s.pool|
    ensures Complete(cfg, StartPooled(s, p))
  {
    hide PooledIfDialable, StartDial, RemoveFromStaticPool, Spaced, Remembered, PoolDialable, CapKept, Linked;
    PoolNotDialing(cfg, s, p.idx);
    TimePasses(cfg, s, p.elapsed);
    LaterComplete(cfg, s, p.elapsed);
    var s0, t := s.(now := s.now + p.elapsed), s.pool[p.idx];
    StartKeepsOthers(cfg, s0, t);
    StartKeepsLinks(s0, t);
    StartedIs(s0, t);
    var s1, id0 := StartDial(s0, t), s.tasks[t].dest.id;
    RemoveKeepsOthers(cfg, s1, p.idx, id0);
    RemoveKeeps(s1, p.idx);
    RemovalSame(s1, p.idx);
    KeyedBusy(cfg, StartPooled(s, p), id0);
  }

  lemma StartedIs(s: Sched, t: nat)
    requires t < |s.tasks|
    ensures var s' := StartDial(s, t); s'.pool == s.pool && s'.tasks == s.tasks && s.tasks[t].dest.id in s'.dialing
  {
  }

  lemma KeyedBusy(cfg: DialConfig, s: Sched, id: NodeID)
    requires Linked(s) && CompleteBut(cfg, s, id) && (id in s.dialing || id in s.peers || id !in s.statics)
    ensures Complete(cfg, s)
  {
    hide PoolLinked, DialingKeyed, Dialable;
    if id in s.dialing || id in s.peers { BusyNeedsNoPool(cfg, s, id); }
  }

  /** Reconsidering the one node left completes the pool. */
  lemma UpdateCompletes(cfg: DialConfig, s: Sched, id0: NodeID)
    requires Linked(s) && CompleteBut(cfg, s, id0)
    ensures Complete(cfg, UpdateStaticPool(cfg, s, id0))
  {
    hide InHistory, PoolLinked, DialingKeyed, PooledIfDialable;
    var s' := UpdateStaticPool(cfg, s, id0);
    UpdateSame(cfg, s, id0);
    forall id ensures PooledIfDialable(cfg, s', id) {
      if id == id0 {
        UpdateDecides(cfg, s, id0);
      } else {
        StaysPooled(cfg, s, s', id);
      }
    }
  }

  lemma UpdateDecides(cfg: DialConfig, s: Sched, id: NodeID)
    requires Linked(s)
    ensures PooledIfDialable(cfg, UpdateStaticPool(cfg, s, id), id)
  {
    hide InHistory, PoolLinked, DialingKeyed;
  }

  lemma ForgetCompletes(cfg: DialConfig, s: Sched, item: Item)
    requires Linked(s) && Complete(cfg, s)
    ensures Complete(cfg, ForgetDial(cfg, s, item))
  {
    hide InHistory, PooledIfDialable, UpdateStaticPool;
    var s1 := s.(history := s.history - multiset{item});
    forall id | id != item.key ensures PooledIfDialable(cfg, s1, id) {
      MoreHistory(s.history, item, id);
      StaysPooled(cfg, s, s1, id);
    }
    UpdateCompletes(cfg, s1, item.key);
  }

  lemma {:induction false} ForgetAllCompletes(cfg: DialConfig, s: Sched, items: seq<Item>, k: nat)
    requires Inv(cfg, s) && Complete(cfg, s) && k <= |items|
    requires multiset(items) <= s.history && forall i :: 0 <= i < |items| ==> items[i].exp < s.now
    ensures Complete(cfg, ForgetDials(cfg, s, items, k))
  {
    hide Linked, Spaced, Remembered, PoolDialable, CapKept, ForgetDial, Complete;
    if k != 0 {
      ForgetAllKeeps(cfg, s, items, k - 1);
      ForgetAllCompletes(cfg, s, items, k - 1);
      ForgetCompletes(cfg, ForgetDials(cfg, s, items, k - 1), items[k - 1]);
    }
  }

  lemma NewTaskCompletes(cfg: DialConfig, s: Sched, task: Task)
    requires Linked(s) && Complete(cfg, s)
    ensures Complete(cfg, s.(tasks := s.tasks + [task]))
  {
    hide InHistory, PooledIfDialable, PoolLinked, DialingKeyed;
    var s' := s.(tasks := s.tasks + [task]);
    forall id ensures PooledIfDialable(cfg, s', id) { StaysPooled(cfg, s, s', id); }
  }

  lemma OnNodeCompletes(cfg: DialConfig, s: Sched, n: Node)
    requires Inv(cfg, s) && Complete(cfg, s)
    ensures Complete(cfg, OnNode(cfg, s, n))
  {
    hide Linked, Spaced, Remembered, PoolDialable, CapKept, PooledIfDialable, StartDial;
    var s1 := s.(tasks := s.tasks + [Task(DynDialed, n, -1)]);
    NewTaskCompletes(cfg, s, Task(DynDialed, n, -1));
    NewTaskKeeps(cfg, s, DynDialed, n);
    StartKeepsOthers(cfg, s1, |s.tasks|);
  }

  lemma OnTaskDoneCompletes(cfg: DialConfig, s: Sched, id0: NodeID)
    requires Linked(s) && Complete(cfg, s) && id0 in s.dialing
    ensures Complete(cfg, OnTaskDone(cfg, s, id0))
  {
    hide InHistory, PooledIfDialable, UpdateStaticPool, PoolLinked;
    var s1 := s.(dialing := s.dialing - {id0}, running := s.running - {s.dialing[id0]});
    assert forall k :: k in s1.dialing ==> s1.dialing[k] == s.dialing[k] && s1.dialing[k] != s.dialing[id0];
    assert s1.running == s1.dialing.Values;
    SamePool(s, s1);
    forall id | id != id0 ensures PooledIfDialable(cfg, s1, id) { StaysPooled(cfg, s, s1, id); }
    UpdateCompletes(cfg, s1, id0);
  }

  lemma SamePool(s: Sched, s': Sched)
    requires PoolLinked(s) && s'.pool == s.pool && s'.tasks == s.tasks && s'.statics == s.statics
    ensures PoolLinked(s')
  {
  }

  lemma OnPeerAddedCompletes(cfg: DialConfig, s: Sched, id0: NodeID, dialed: bool)
    requires Linked(s) && Handles(s) && s.pool == [] && Complete(cfg, s)
    ensures Complete(cfg, OnPeerAdded(s, id0, dialed))
  {
    hide InHistory, PooledIfDialable;
    var s' := OnPeerAdded(s, id0, dialed);
    forall id ensures PooledIfDialable(cfg, s', id) {
      if id == id0 { BusyNeedsNoPool(cfg, s', id); } else { StaysPooled(cfg, s, s', id); }
    }
  }

  lemma OnPeerRemovedCompletes(cfg: DialConfig, s: Sched, id0: NodeID, dialed: bool)
    requires Linked(s) && Complete(cfg, s)
    ensures Complete(cfg, OnPeerRemoved(cfg, s, id0, dialed))
  {
    hide InHistory, PooledIfDialable, UpdateStaticPool;
    var s1 := s.(dialPeers := if dialed then s.dialPeers - 1 else s.dialPeers, peers := s.peers - {id0});
    forall id | id != id0 ensures PooledIfDialable(cfg, s1, id) { StaysPooled(cfg, s, s1, id); }
    UpdateCompletes(cfg, s1, id0);
  }

  lemma OnAddStaticCompletes(cfg: DialConfig, s: Sched, n: Node)
    requires Inv(cfg, s) && Complete(cfg, s)
    ensures Complete(cfg, OnAddStatic(cfg, s, n))
  {
    hide Linked, Spaced, Remembered, PoolDialable, CapKept, PooledIfDialable, Dialable;
    if n.id !in s.statics {
      NewTaskKeeps(cfg, s, StaticDialed, n);
      NewTaskCompletes(cfg, s, Task(StaticDialed, n, -1));
      var s0 := s.(tasks := s.tasks + [Task(StaticDialed, n, -1)]);
      RegisterKeeps(cfg, s0, |s.tasks|);
      var s1 := s0.(statics := s0.statics[n.id := |s.tasks|]);
      Registered(cfg, s0, s1, n.id);
      UpdateCompletes(cfg, s1, n.id);
    }
  }

  lemma Registered(cfg: DialConfig, s: Sched, s': Sched, id0: NodeID)
    requires Linked(s) && Complete(cfg, s) && s' == s.(statics := s'.statics)
    requires forall id :: id in s'.statics && id != id0 ==> id in s.statics && s'.statics[id] == s.statics[id]
    ensures CompleteBut(cfg, s', id0)
  {
    hide InHistory, PooledIfDialable, PoolLinked, DialingKeyed;
    forall id | id != id0 ensures PooledIfDialable(cfg, s', id) { StaysPooled(cfg, s, s', id); }
  }

  lemma OnRemoveStaticCompletes(cfg: DialConfig, s: Sched, id0: NodeID)
    requires Linked(s) && Handles(s) && s.pool == [] && Complete(cfg, s)
    ensures Complete(cfg, OnRemoveStatic(s, id0))
  {
    hide InHistory, PooledIfDialable;
    var s' := OnRemoveStatic(s, id0);
    Registered(cfg, s, s', id0);
    Unlisted(cfg, s', id0);
  }

  lemma Unlisted(cfg: DialConfig, s: Sched, id: NodeID)
    requires id !in s.statics
    ensures PooledIfDialable(cfg, s, id)
  {
  }

  lemma OnResolvedCompletes(cfg: DialConfig, s: Sched, t: nat, n: Node)
    requires Linked(s) && Complete(cfg, s) && t in s.running && t < |s.tasks| && n.id == s.tasks[t].dest.id
    ensures Complete(cfg, OnResolved(s, t, n))
  {
    hide InHistory, PooledIfDialable, PoolLinked;
    var s' := OnResolved(s, t, n);
    assert n.id in s.dialing;
    forall id ensures PooledIfDialable(cfg, s', id) {
      if id == n.id { BusyNeedsNoPool(cfg, s', id); } else { StaysPooled(cfg, s, s', id); }
    }
  }

  lemma HandleCompletes(cfg: DialConfig, s: Sched, slots: int, e: Event)
    requires Inv(cfg, s) && Complete(cfg, s) && s.pool == [] && Handles(s) && Enabled(s, slots, e)
    ensures Complete(cfg, Handle(cfg, s, slots, e))
  {
    hide Linked, Spaced, Remembered, PoolDialable, CapKept, Complete,
         OnNode, OnTaskDone, OnPeerAdded, OnPeerRemoved, OnAddStatic, OnRemoveStatic, OnResolved;
    match e
    case NodeFound(n) => OnNodeCompletes(cfg, s, n);
    case TaskDone(id) => OnTaskDoneCompletes(cfg, s, id);
    case PeerAdded(id, dialed) => OnPeerAddedCompletes(cfg, s, id, dialed);
    case PeerRemoved(id, dialed) => OnPeerRemovedCompletes(cfg, s, id, dialed);
    case AddStatic(n) => OnAddStaticCompletes(cfg, s, n);
    case RemoveStatic(id) => OnRemoveStaticCompletes(cfg, s, id);
    case HistoryTimer(expired) => ForgetAllCompletes(cfg, s, expired, |expired|);
    case Resolved(t, n) => OnResolvedCompletes(cfg, s, t, n);
    case LogTimer =>
  }

  // ----- whole runs -----

  lemma {:induction false} LaunchCompletes(cfg: DialConfig, s: Sched, t: Turn, i: nat)
    requires Inv(cfg, s) && Complete(cfg, s) && IsLaunch(s, t) && i < |t.launch|
    ensures Complete(cfg, t.launch[i])
  {
    hide Inv, Complete, StartPooled;
    if i != 0 {
      LaunchKeeps(cfg, s, t, i - 1);
      LaunchCompletes(cfg, s, t, i - 1);
      StartPooledCompletes(cfg, t.launch[i - 1], t.picks[i - 1]);
    }
  }

  lemma TurnCompletes(cfg: DialConfig, s: Sched, t: Turn, s': Sched)
    requires Inv(cfg, s) && Complete(cfg, s) && IsTurn(cfg, s, t, s')
    ensures Complete(cfg, Waiting(t)) && Complete(cfg, s')
  {
    hide Inv, Complete, Handle, StartPooled, FreeDialSlots;
    TurnKeeps(cfg, s, t, s');
    LaunchCompletes(cfg, s, t, |t.picks|);
    LaterComplete(cfg, t.launch[|t.picks|], t.wait);
    HandleCompletes(cfg, Waiting(t), FreeDialSlots(cfg, s), t.event);
  }

  lemma {:induction false} RunCompletes(cfg: DialConfig, run: seq<Sched>, turns: seq<Turn>, i: nat)
    requires IsRun(cfg, run, turns) && i < |run|
    ensures Complete(cfg, run[i])
  {
    hide Inv, IsTurn;
    if i != 0 {
      hide Complete;
      RunCompletes(cfg, run, turns, i - 1);
      SchedulerInvariant(cfg, run, turns, i - 1);
      TurnCompletes(cfg, run[i - 1], turns[i - 1], run[i]);
    }
  }

  /** In every run, at the top of a pass a static node that may be dialed is in the pool;
      and while the scheduler waits for its event no static node may be dialed: each is
      itself, without a port, being dialed, connected, not allowed, or dialed recently. */
  lemma NoStaticForgotten(cfg: DialConfig, run: seq<Sched>, turns: seq<Turn>, i: nat, id: NodeID)
    requires IsRun(cfg, run, turns) && i < |turns|
    ensures |turns[i].launch| > 0
    ensures Closed(run[i]) && Closed(Waiting(turns[i]))
    ensures id in run[i].statics && Dialable(cfg, run[i], run[i].tasks[run[i].statics[id]].dest) ==>
              run[i].statics[id] in run[i].pool
    ensures var w := Waiting(turns[i]); id in w.statics ==> !Dialable(cfg, w, w.tasks[w.statics[id]].dest)
  {
    hide Inv, Handle, Dialable, IsTurn;
    SchedulerInvariant(cfg, run, turns, i);
    RunCompletes(cfg, run, turns, i);
    TurnCompletes(cfg, run[i], turns[i], run[i + 1]);
    TurnKeeps(cfg, run[i], turns[i], run[i + 1]);
    assert IsTurn(cfg, run[i], turns[i], run[i + 1]);
    WaitsAfterLaunch(cfg, run[i], turns[i], run[i + 1]);
    Placed(cfg, run[i], id);
    Placed(cfg, Waiting(turns[i]), id);
  }

  lemma WaitsAfterLaunch(cfg: DialConfig, s: Sched, t: Turn, s': Sched)
    requires IsTurn(cfg, s, t, s')
    ensures |t.launch| > 0
  {
  }

  lemma Placed(cfg: DialConfig, s: Sched, id: NodeID)
    requires Inv(cfg, s) && Complete(cfg, s)
    ensures Closed(s)
    ensures id in s.statics && Dialable(cfg, s, s.tasks[s.statics[id]].dest) ==> s.statics[id] in s.pool
  {
    hide Spaced, Remembered, PoolDialable, CapKept, Dialable;
    assert PooledIfDialable(cfg, s, id);
  }
}
