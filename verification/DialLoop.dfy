/** The dial scheduler as the source writes it: fields updated step by step.  Each
    method is proved equal to its meaning in `DialScheduling`, and `Loop` drives
    any list of passes with the invariant in force throughout. */
module DialLoop {
  import opened Common
  import opened ExpiryHeap
  import opened DialScheduling
  import opened DialTheorems

  class DialScheduler {
    const cfg: DialConfig
    const history: ExpHeap
    var tasks: seq<Task>
    var dialing: map<NodeID, nat>
    var peers: map<NodeID, bool>
    var dialPeers: int
    var statics: map<NodeID, nat>
    var pool: seq<nat>
    var now: Time
    ghost var running: set<nat>
    ghost var starts: seq<Start>

    ghost function View(): Sched
      reads this, history
    {
      Sched(tasks, dialing, peers, dialPeers, statics, pool, multiset(history.items), now, running, starts)
    }

    ghost predicate Valid()
      reads this, history
    {
      history.Valid() && Inv(cfg, View())
    }

    constructor (cfg: DialConfig, now: Time)
      ensures Valid() && fresh(history) && this.cfg == cfg && View() == Init(now)
    {
      this.cfg, this.now := cfg, now;
      history := new ExpHeap();
      tasks, dialing, peers, dialPeers, statics, pool := [], map[], map[], 0, map[], [];
      running, starts := {}, [];
      new;
      assert View() == Init(now);
      InitInv(cfg, now);
    }

    method FreeSlots() returns (free: int)
      ensures free == FreeDialSlots(cfg, View())
    {
      free := (cfg.maxDialPeers - dialPeers) * 2;
      if free > cfg.maxActiveDials { free := cfg.maxActiveDials; }
      free := free - |dialing|;
    }

    method CheckDial(n: Node) returns (err: Option<DialError>)
      ensures err == CheckError(cfg, dialing.Keys, peers.Keys, InHistory(multiset(history.items), n.id), n)
      ensures err == None <==> Dialable(cfg, View(), n)
    {
      if n.id == cfg.self { return Some(IsSelf); }
      if n.ip.Some? && n.tcp == 0 { return Some(NoPort); }
      if n.id in dialing { return Some(AlreadyDialing); }
      if n.id in peers { return Some(AlreadyConnected); }
      if !Whitelisted(cfg, n.ip) { return Some(NotWhitelisted); }
      var recent := history.Contains(n.id);
      if recent { return Some(RecentlyDialed); }
      return None;
    }

    method AddToPool(t: nat)
      requires t < |tasks| && tasks[t].poolIndex < 0
      modifies this`pool, this`tasks
      ensures View() == AddToStaticPool(old(View()), t)
    {
      pool := pool + [t];
      tasks := tasks[t := tasks[t].(poolIndex := |pool| - 1)];
    }

    method RemoveFromPool(idx: nat)
      requires Closed(View()) && idx < |pool|
      modifies this`pool, this`tasks
      ensures View() == RemoveFromStaticPool(old(View()), idx)
    {
      var task := pool[idx];
      var end := |pool| - 1;
      pool := pool[idx := pool[end]];
      tasks := tasks[pool[idx] := tasks[pool[idx]].(poolIndex := idx)];
      pool := pool[..end];
      tasks := tasks[task := tasks[task].(poolIndex := -1)];
    }

    method LaunchDial(t: nat)
      requires t < |tasks| && history.Valid()
      modifies this`dialing, this`running, this`starts, history
      ensures history.Valid() && View() == StartDial(old(View()), t)
    {
      var id := tasks[t].dest.id;
      history.Push(id, now + DIAL_HISTORY_EXPIRATION);
      dialing := dialing[id := t];
      running := running + {t};
      starts := starts + [Start(id, now)];
    }

    method UpdatePool(id: NodeID)
      requires Closed(View())
      modifies this`pool, this`tasks
      ensures View() == UpdateStaticPool(cfg, old(View()), id)
    {
      if id in statics && tasks[statics[id]].poolIndex < 0 {
        var err := CheckDial(tasks[statics[id]].dest);
        if err == None { AddToPool(statics[id]); }
      }
    }

    method StartOne(idx: nat, elapsed: nat)
      requires Valid() && idx < |pool|
      modifies this`dialing, this`running, this`starts, this`pool, this`tasks, this`now, history
      ensures Valid() && View() == StartPooled(old(View()), Pick(idx, elapsed))
    {
      hide Inv, IsHeap;
      StartPooledKeeps(cfg, View(), Pick(idx, elapsed));
      now := now + elapsed;
      LaunchDial(pool[idx]);
      RemoveFromPool(idx);
    }

    /** Empties the pool in random order, however long each start takes. */
    method StartStaticDials(random: nat -> nat, elapsed: nat -> nat)
      returns (ghost launch: seq<Sched>, ghost picks: seq<Pick>)
      requires Valid()
      modifies this`dialing, this`running, this`starts, this`pool, this`tasks, this`now, history
      ensures Valid() && pool == [] && Dynamic(View()) == old(Dynamic(View()))
      ensures Launches(old(View()), launch, picks) && launch[|picks|] == View()
    {
      hide Inv, Dynamic, IsHeap, StartPooled;
      var i := 0;
      launch, picks := [View()], [];
      while |pool| > 0
        invariant Valid() && Dynamic(View()) == old(Dynamic(View()))
        invariant Launches(old(View()), launch, picks) && launch[|picks|] == View()
        decreases |pool|
      {
        var idx := random(i) % |pool|;
        StartPooledKeeps(cfg, View(), Pick(idx, elapsed(i)));
        LaunchesMore(old(View()), launch, picks, Pick(idx, elapsed(i)));
        launch, picks := launch + [StartPooled(View(), Pick(idx, elapsed(i)))], picks + [Pick(idx, elapsed(i))];
        StartOne(idx, elapsed(i));
        i := i + 1;
      }
    }

    /** Pops the oldest dial from the history and reconsiders its node. */
    method ForgetOldest() returns (item: Item)
      requires Valid() && |history.items| > 0 && history.items[0].exp < now
      modifies this`pool, this`tasks, history
      ensures Valid() && View() == ForgetDial(cfg, old(View()), item)
      ensures item == old(history.items[0]) && AllFrom(old(multiset(history.items)), item.exp)
      ensures multiset(history.items) + multiset{item} == old(multiset(history.items))
      ensures |history.items| < old(|history.items|)
    {
      hide Inv, IsHeap, AllFrom, UpdateStaticPool;
      assert history.items[0] in multiset(history.items);
      ForgetKeeps(cfg, View(), history.items[0]);
      item := history.Pop();
      assert multiset(history.items) == old(multiset(history.items)) - multiset{item};
      UpdatePool(item.key);
    }

    /** Forgets every dial whose expiry has passed, and only those, in the order
        the heap gives them. */
    method ExpireHistory() returns (ghost expired: seq<Item>)
      requires Valid()
      modifies this`pool, this`tasks, history
      ensures Valid() && Enabled(old(View()), 0, HistoryTimer(expired))
      ensures View() == ForgetDials(cfg, old(View()), expired, |expired|)
    {
      hide Inv, IsHeap, ForgetDial, Expiring, Enabled;
      expired := [];
      ExpiringStart(cfg, View());
      while |history.items| > 0 && history.items[0].exp < now
        invariant Valid() && Expiring(cfg, old(View()), View(), expired)
        decreases |history.items|
      {
        ghost var s := View();
        var item := ForgetOldest();
        ExpiringStep(cfg, old(View()), s, View(), expired, item);
        expired := expired + [item];
      }
      AllLive(history.items, now);
      ExpiringEnd(cfg, old(View()), View(), expired);
    }

    method NodeArrived(n: Node)
      requires Valid() && pool == [] && |Dynamic(View())| < cfg.maxActiveDials
      modifies this`tasks, this`dialing, this`running, this`starts, history
      ensures Valid() && View() == OnNode(cfg, old(View()), n)
    {
      hide Inv, IsHeap;
      OnNodeKeeps(cfg, View(), n);
      var err := CheckDial(n);
      if err == None {
        tasks := tasks + [Task(DynDialed, n, -1)];
        LaunchDial(|tasks| - 1);
      }
    }

    method DialFinished(id: NodeID)
      requires Valid() && id in dialing
      modifies this`dialing, this`running, this`pool, this`tasks
      ensures Valid() && View() == OnTaskDone(cfg, old(View()), id)
    {
      hide Inv, IsHeap, UpdateStaticPool;
      OnTaskDoneKeeps(cfg, View(), id);
      running := running - {dialing[id]};
      dialing := dialing - {id};
      UpdatePool(id);
    }

    method PeerJoined(id: NodeID, dialed: bool)
      requires Valid()
      modifies this`peers, this`dialPeers, this`pool, this`tasks
      ensures Valid() && View() == OnPeerAdded(old(View()), id, dialed)
    {
      hide Inv, IsHeap;
      OnPeerAddedKeeps(cfg, View(), id, dialed);
      if dialed { dialPeers := dialPeers + 1; }
      peers := peers[id := dialed];
      if id in statics && tasks[statics[id]].poolIndex >= 0 { RemoveFromPool(tasks[statics[id]].poolIndex); }
    }

    method PeerLeft(id: NodeID, dialed: bool)
      requires Valid()
      modifies this`peers, this`dialPeers, this`pool, this`tasks
      ensures Valid() && View() == OnPeerRemoved(cfg, old(View()), id, dialed)
    {
      hide Inv, IsHeap, UpdateStaticPool;
      OnPeerRemovedKeeps(cfg, View(), id, dialed);
      if dialed { dialPeers := dialPeers - 1; }
      peers := peers - {id};
      UpdatePool(id);
    }

    method StaticAdded(n: Node)
      requires Valid()
      modifies this`tasks, this`statics, this`pool
      ensures Valid() && View() == OnAddStatic(cfg, old(View()), n)
    {
      hide Inv, IsHeap;
      OnAddStaticKeeps(cfg, View(), n);
      if n.id in statics { return; }
      tasks := tasks + [Task(StaticDialed, n, -1)];
      statics := statics[n.id := |tasks| - 1];
      var err := CheckDial(n);
      if err == None { AddToPool(|tasks| - 1); }
    }

    method StaticRemoved(id: NodeID)
      requires Valid()
      modifies this`statics, this`pool, this`tasks
      ensures Valid() && View() == OnRemoveStatic(old(View()), id)
    {
      hide Inv, IsHeap;
      OnRemoveStaticKeeps(cfg, View(), id);
      if id in statics {
        var task := statics[id];
        statics := statics - {id};
        if tasks[task].poolIndex >= 0 { RemoveFromPool(tasks[task].poolIndex); }
      }
    }

    /** A running task replaces its address by what the resolver found. */
    method AddressResolved(n: Node)
      requires Valid() && n.id in dialing
      modifies this`tasks
      ensures Valid() && View() == OnResolved(old(View()), dialing[n.id], n)
    {
      hide Inv, IsHeap;
      RunningHas(cfg, View(), n.id);
      var t := dialing[n.id];
      OnResolvedKeeps(cfg, View(), t, n);
      tasks := tasks[t := tasks[t].(dest := n)];
    }

    /** Handles one event; an event that cannot happen now is no event. */
    method Dispatch(slots: int, e: Event) returns (ghost done: Event)
      requires Valid() && pool == [] && (slots > 0 ==> |Dynamic(View())| < cfg.maxActiveDials)
      modifies this, history
      ensures Valid() && Handles(old(View())) && Enabled(old(View()), slots, done)
      ensures View() == Handle(cfg, old(View()), slots, done)
    {
      hide Inv, IsHeap, Dynamic, OnNode, OnTaskDone, OnPeerAdded, OnPeerRemoved, OnAddStatic, OnRemoveStatic,
        OnResolved, ForgetDials, ExpiryOrder, AllFrom;
      done := LogTimer;
      match e
      case NodeFound(n) => if slots > 0 { NodeArrived(n); done := e; }
      case TaskDone(id) => if id in dialing { DialFinished(id); done := e; }
      case PeerAdded(id, dialed) => PeerJoined(id, dialed); done := e;
      case PeerRemoved(id, dialed) => PeerLeft(id, dialed); done := e;
      case AddStatic(n) => StaticAdded(n); done := e;
      case RemoveStatic(id) => StaticRemoved(id); done := e;
      case HistoryTimer(_) =>
        ghost var expired := ExpireHistory();
        done := HistoryTimer(expired);
      case Resolved(_, n) =>
        if n.id in dialing {
          RunningHas(cfg, View(), n.id);
          done := Resolved(dialing[n.id], n);
          AddressResolved(n);
        }
      case LogTimer =>
    }

    /** One pass of the loop: count slots, start the pooled dials, wait, handle one event. */
    method Pass(random: nat -> nat, elapsed: nat -> nat, wait: nat, e: Event) returns (ghost turn: Turn)
      requires Valid()
      modifies this, history
      ensures Valid() && IsTurn(cfg, old(View()), turn, View())
    {
      hide Inv, IsHeap, Dynamic, Handle, Launches, Enabled, FreeDialSlots, IsTurn;
      var slots := FreeSlots();
      if slots > 0 { SlotsBound(cfg, View()); }
      ghost var launch, picks := StartStaticDials(random, elapsed);
      LaunchLength(old(View()), launch, picks);
      TimePasses(cfg, View(), wait);
      SameDynamic(View(), View().(now := now + wait));
      now := now + wait;
      ghost var w := View();
      ghost var done := Dispatch(slots, e);
      turn := Turn(launch, picks, wait, done);
      AssembleTurn(cfg, old(View()), turn, slots, w, View());
    }

    /** Receives one completion per entry of `dialing`; no goroutine is left. */
    method Drain() returns (received: nat)
      requires Valid()
      modifies this`running
      ensures running == {} && received == |dialing|
    {
      DrainCount(cfg, View());
      hide *;
      received := 0;
      while received < |dialing|
        invariant received <= |dialing| && |running| == |dialing| - received
      {
        ghost var t :| t in running;
        running := running - {t};
        received := received + 1;
      }
    }

    /** The loop for any list of waits and events: a run of the scheduler. */
    method Loop(random: nat -> nat, elapsed: nat -> nat, passes: seq<(nat, Event)>)
      returns (ghost run: seq<Sched>, ghost turns: seq<Turn>)
      requires Valid() && View() == Init(now)
      modifies this, history
      ensures Valid() && IsRun(cfg, run, turns) && |turns| == |passes| && run[|passes|] == View()
    {
      hide Inv, IsHeap, IsTurn;
      run, turns := [View()], [];
      for i := 0 to |passes|
        invariant Valid() && IsRun(cfg, run, turns) && |turns| == i && run[i] == View()
      {
        ghost var turn := Pass(random, elapsed, passes[i].0, passes[i].1);
        run, turns := run + [View()], turns + [turn];
      }
    }
  }

  lemma RunningHas(cfg: DialConfig, s: Sched, id: NodeID)
    requires Inv(cfg, s) && id in s.dialing
    ensures s.dialing[id] in s.running && s.tasks[s.dialing[id]].dest.id == id
  {
  }

  lemma LaunchLength(s: Sched, launch: seq<Sched>, picks: seq<Pick>)
    requires Launches(s, launch, picks)
    ensures |launch| == |picks| + 1
  {
  }

  lemma AssembleTurn(cfg: DialConfig, s: Sched, t: Turn, slots: int, w: Sched, s': Sched)
    requires Launches(s, t.launch, t.picks) && |t.launch| == |t.picks| + 1
    requires t.launch[|t.picks|].pool == [] && w == t.launch[|t.picks|].(now := t.launch[|t.picks|].now + t.wait)
    requires slots == FreeDialSlots(cfg, s) && Handles(w) && Enabled(w, slots, t.event)
    requires s' == Handle(cfg, w, slots, t.event)
    ensures IsTurn(cfg, s, t, s')
  {
    hide Handle, Enabled, Handles, FreeDialSlots;
  }

  // Steps of the expiry loop, one fact each.

  /** What is left expires no earlier than what was taken last. */
  ghost predicate Follows(rest: multiset<Item>, expired: seq<Item>) {
    expired != [] ==> AllFrom(rest, expired[|expired| - 1].exp)
  }

  lemma FollowsOn(all: multiset<Item>, item: Item, rest: multiset<Item>, expired: seq<Item>)
    requires rest + multiset{item} == all && AllFrom(all, item.exp) && Follows(all, expired)
    ensures expired != [] ==> expired[|expired| - 1].exp <= item.exp
    ensures Follows(rest, expired + [item])
  {
    assert item in all;
    forall it | it in rest ensures item.exp <= it.exp { assert it in all; }
  }

  /** The loop has taken `expired` from the history of `s0` and arrived at `s`. */
  ghost predicate Expiring(cfg: DialConfig, s0: Sched, s: Sched, expired: seq<Item>) {
    && Closed(s0) && s == ForgetDials(cfg, s0, expired, |expired|) && s.now == s0.now
    && ExpiryOrder(expired, s0.now) && Follows(s.history, expired)
    && s.history + multiset(expired) == s0.history
  }

  lemma ExpiringStart(cfg: DialConfig, s: Sched)
    requires Closed(s)
    ensures Expiring(cfg, s, s, [])
  {
  }

  lemma ExpiringStep(cfg: DialConfig, s0: Sched, s: Sched, s': Sched, expired: seq<Item>, item: Item)
    requires Expiring(cfg, s0, s, expired) && Closed(s) && s' == ForgetDial(cfg, s, item) && s'.now == s.now
    requires item.exp < s.now && AllFrom(s.history, item.exp) && s'.history + multiset{item} == s.history
    ensures Expiring(cfg, s0, s', expired + [item])
  {
    hide ForgetDial, ExpiryOrder, AllFrom;
    FollowsOn(s.history, item, s'.history, expired);
    ExpiryOrderAppend(expired, item, s0.now);
    ForgetMore(cfg, s0, expired, item);
  }

  lemma ExpiringEnd(cfg: DialConfig, s0: Sched, s: Sched, expired: seq<Item>)
    requires Expiring(cfg, s0, s, expired) && AllFrom(s.history, s.now)
    ensures Enabled(s0, 0, HistoryTimer(expired)) && s == ForgetDials(cfg, s0, expired, |expired|)
  {
    hide ForgetDial, ExpiryOrder, AllFrom;
    assert s0.history - multiset(expired) == s.history;
  }

  lemma AllLive(items: seq<Item>, now: Time)
    requires IsHeap(items) && (|items| > 0 ==> now <= items[0].exp)
    ensures AllFrom(multiset(items), now)
  {
    if |items| > 0 { HeapAllFromRoot(items); }
  }

  lemma {:induction false} ForgetPrefix(cfg: DialConfig, s: Sched, items: seq<Item>, item: Item, k: nat)
    requires Closed(s) && k <= |items|
    ensures ForgetDials(cfg, s, items + [item], k) == ForgetDials(cfg, s, items, k)
  {
    hide ForgetDial;
    if k != 0 { ForgetPrefix(cfg, s, items, item, k - 1); }
  }

  lemma ForgetMore(cfg: DialConfig, s: Sched, items: seq<Item>, item: Item)
    requires Closed(s)
    ensures ForgetDials(cfg, s, items + [item], |items| + 1) == ForgetDial(cfg, ForgetDials(cfg, s, items, |items|), item)
  {
    hide ForgetDial;
    ForgetPrefix(cfg, s, items, item, |items|);
  }
}
