/** The block-hash lookup of the virtual machine: a closure over a cache and a
    moving cursor that drops its lock while it reads a header.

    The reference is the plain walk over parent hashes (`Ancestor`).  A call is a
    chain of critical sections: `Enter` from the first lock to the first header
    read, `Resume` from each re-lock to the next read or to the answer.  Any
    number of calls interleave at those points, and the cache may forget entries
    at any time. */
module AncestorCache {

  type Hash = nat

  /** The chain below a header: its parent's number and hash, and the parent hash
      recorded in the header of each hash and number. */
  datatype Chain = Chain(refNumber: nat, refHash: Hash, parentOf: (Hash, nat) -> Hash)

  /** The plain walk over parent hashes. */
  function Ancestor(c: Chain, k: nat): Hash
    requires k <= c.refNumber
    decreases c.refNumber - k
  {
    if k == c.refNumber then c.refHash else c.parentOf(Ancestor(c, k + 1), k + 1)
  }

  /** What all calls share: the cursor and the cache. */
  datatype Shared = Shared(number: nat, hash: Hash, cache: map<nat, Hash>)

  ghost predicate OnChain(c: Chain, s: Shared) {
    && s.number <= c.refNumber && s.hash == Ancestor(c, s.number)
    && forall k :: k in s.cache ==> k <= c.refNumber && s.cache[k] == Ancestor(c, k)
  }

  /** The answer of a call; `Missing` is the zero hash without an error. */
  datatype Answer = Found(hash: Hash) | Missing | StoreFailed | OutOfRange

  /** How a critical section ends: with an answer, or at a header read. */
  datatype Progress = Return(answer: Answer) | Fetch(hash: Hash, number: nat)

  /** What a header read brings back. */
  datatype Fetched = Header(parentHash: Hash, number: nat) | NoHeader | Failure

  /** Walks the cursor down through consecutive cached hashes. */
  function Scan(s: Shared, n: nat): (Shared, Progress)
    requires n < s.number
    decreases s.number
  {
    if s.number - 1 !in s.cache then (s, Fetch(s.hash, s.number))
    else
      var s' := s.(number := s.number - 1, hash := s.cache[s.number - 1]);
      if n == s'.number then (s', Return(Found(s'.hash))) else Scan(s', n)
  }

  function Enter(c: Chain, s: Shared, n: nat): (Shared, Progress) {
    if n == s.number then (s, Return(Found(s.hash)))
    else if n == c.refNumber then (s, Return(Found(c.refHash)))
    else if n in s.cache then (s, Return(Found(s.cache[n])))
    else if n > c.refNumber && n > s.number then (s, Return(OutOfRange))
    else if n > s.number then Scan(s.(number := c.refNumber, hash := c.refHash), n)
    else Scan(s, n)
  }

  /** `evicted` is what the cache drops when the new entry is added. */
  function Resume(s: Shared, n: nat, got: Fetched, evicted: set<nat>): (Shared, Progress)
    requires got.Header? ==> n < got.number
  {
    match got
    case Failure => (s, Return(StoreFailed))
    case NoHeader => (s, Return(Missing))
    case Header(parent, number) =>
      var s' := Shared(number - 1, parent, s.cache[number - 1 := parent] - evicted);
      if n == s'.number then (s', Return(Found(parent))) else Scan(s', n)
  }

  /** A read is honest when a header it returns is the one asked for. */
  ghost predicate Honest(c: Chain, got: Fetched, hash: Hash, number: nat) {
    got.Header? ==> got.number == number && got.parentHash == c.parentOf(hash, number)
  }

  /** An answer is right when a hash is the walk's and out-of-range means just that. */
  ghost predicate Right(c: Chain, n: nat, a: Answer) {
    && (a.Found? ==> n <= c.refNumber && a.hash == Ancestor(c, n))
    && (a == OutOfRange <==> n > c.refNumber)
  }

  /** A critical section ended well: right answer, or a read of a chain element
      strictly between `n` and `bound`. */
  ghost predicate Sound(c: Chain, n: nat, bound: nat, p: Progress) {
    match p
    case Return(a) => Right(c, n, a)
    case Fetch(h, k) => n < k <= bound && k <= c.refNumber && h == Ancestor(c, k)
  }

  lemma {:induction false} ScanSound(c: Chain, s: Shared, n: nat)
    requires OnChain(c, s) && n < s.number
    ensures OnChain(c, Scan(s, n).0) && Scan(s, n).0.cache == s.cache
    ensures Sound(c, n, s.number, Scan(s, n).1)
    ensures Scan(s, n).1.Return? ==> Scan(s, n).1.answer.Found?
    decreases s.number
  {
    if s.number - 1 in s.cache && n != s.number - 1 {
      ScanSound(c, s.(number := s.number - 1, hash := s.cache[s.number - 1]), n);
    }
  }

  lemma EnterSound(c: Chain, s: Shared, n: nat)
    requires OnChain(c, s)
    ensures OnChain(c, Enter(c, s, n).0) && Sound(c, n, c.refNumber, Enter(c, s, n).1)
    ensures Enter(c, s, n).1.Return? && n <= c.refNumber ==> Enter(c, s, n).1.answer.Found?
  {
    if n < s.number {
      ScanSound(c, s, n);
    } else if s.number < n < c.refNumber {
      ScanSound(c, s.(number := c.refNumber, hash := c.refHash), n);
    }
  }

  /** Resuming uses the call's own captured header, so it does not matter where
      other calls left the cursor; the next read is strictly lower. */
  lemma ResumeSound(c: Chain, s: Shared, n: nat, hash: Hash, number: nat, got: Fetched, evicted: set<nat>)
    requires OnChain(c, s)
    requires n < number <= c.refNumber && hash == Ancestor(c, number) && Honest(c, got, hash, number)
    ensures OnChain(c, Resume(s, n, got, evicted).0)
    ensures Sound(c, n, number - 1, Resume(s, n, got, evicted).1)
    ensures var p := Resume(s, n, got, evicted).1;
            p.Return? ==> (p.answer == Missing <==> got == NoHeader) && (p.answer == StoreFailed <==> got == Failure)
  {
    hide Scan, Ancestor, OnChain;
    if got.Header? {
      StoreOnChain(c, s, number - 1, evicted);
      if n != number - 1 { ScanSound(c, Resumed(s, got, evicted), n); }
    }
  }

  /** The shared state with a fetched header, before the cache is looked at again. */
  function Resumed(s: Shared, got: Fetched, evicted: set<nat>): Shared
    requires got.Header? && got.number > 0
  {
    Shared(got.number - 1, got.parentHash, s.cache[got.number - 1 := got.parentHash] - evicted)
  }

  /** Storing the next ancestor keeps cache and cursor on the chain. */
  lemma StoreOnChain(c: Chain, s: Shared, k: nat, evicted: set<nat>)
    requires OnChain(c, s) && k < c.refNumber
    ensures var parent := c.parentOf(Ancestor(c, k + 1), k + 1);
            parent == Ancestor(c, k) && OnChain(c, Shared(k, parent, s.cache[k := parent] - evicted))
  {
  }

  // ----- every interleaving of calls -----

  /** A call is waiting for a header it captured, or done.  `fetches` counts the
      header reads it has completed. */
  datatype Call = Waiting(n: nat, hash: Hash, number: nat, fetches: nat) | Done(n: nat, answer: Answer, fetches: nat)

  datatype System = System(shared: Shared, calls: map<nat, Call>)

  datatype Event =
    | Begin(id: nat, n: nat)
    | Deliver(id: nat, got: Fetched, evicted: set<nat>)
    | Forget(keys: set<nat>)

  function Initial(c: Chain): System {
    System(Shared(c.refNumber, c.refHash, map[c.refNumber := c.refHash]), map[])
  }

  ghost predicate Enabled(c: Chain, sys: System, e: Event) {
    match e
    case Begin(id, n) => id !in sys.calls
    case Deliver(id, got, _) =>
      id in sys.calls && sys.calls[id].Waiting? && sys.calls[id].n < sys.calls[id].number
      && Honest(c, got, sys.calls[id].hash, sys.calls[id].number)
    case Forget(_) => true
  }

  function Record(n: nat, p: Progress, fetches: nat): Call {
    match p
    case Return(a) => Done(n, a, fetches)
    case Fetch(h, k) => Waiting(n, h, k, fetches)
  }

  ghost function Next(c: Chain, sys: System, e: Event): System
    requires Enabled(c, sys, e)
  {
    match e
    case Begin(id, n) =>
      var (s, p) := Enter(c, sys.shared, n);
      System(s, sys.calls[id := Record(n, p, 0)])
    case Deliver(id, got, evicted) =>
      var call := sys.calls[id];
      var (s, p) := Resume(sys.shared, call.n, got, evicted);
      System(s, sys.calls[id := Record(call.n, p, call.fetches + 1)])
    case Forget(keys) => sys.(shared := sys.shared.(cache := sys.shared.cache - keys))
  }

  ghost predicate CallGood(c: Chain, call: Call) {
    match call
    case Waiting(n, h, k, fetches) => n < k && k + fetches <= c.refNumber && h == Ancestor(c, k)
    case Done(n, a, fetches) => Right(c, n, a) && (fetches == 0 || n + fetches <= c.refNumber)
  }

  ghost predicate Good(c: Chain, sys: System) {
    OnChain(c, sys.shared) && forall id :: id in sys.calls ==> CallGood(c, sys.calls[id])
  }

  lemma NextGood(c: Chain, sys: System, e: Event)
    requires Good(c, sys) && Enabled(c, sys, e)
    ensures Good(c, Next(c, sys, e))
    ensures e.Deliver? && Next(c, sys, e).calls[e.id].Waiting? ==>
              Next(c, sys, e).calls[e.id].number < sys.calls[e.id].number
    ensures e.Deliver? && Next(c, sys, e).calls[e.id].Done? && !Next(c, sys, e).calls[e.id].answer.Found? ==>
              e.got == NoHeader || e.got == Failure
  {
    match e
    case Begin(id, n) => EnterSound(c, sys.shared, n);
    case Deliver(id, got, evicted) =>
      var call := sys.calls[id];
      ResumeSound(c, sys.shared, call.n, call.hash, call.number, got, evicted);
    case Forget(_) =>
  }

  ghost predicate IsRun(c: Chain, run: seq<System>, events: seq<Event>) {
    && |run| == |events| + 1 && run[0] == Initial(c)
    && forall i :: 0 <= i < |events| ==> Enabled(c, run[i], events[i]) && run[i + 1] == Next(c, run[i], events[i])
  }

  /** Cache refinement: in every state of every interleaving the cache and the
      cursor lie on the walk, every answer given is right, and no call has read
      more than `refNumber - n` headers. */
  lemma {:induction false} CacheRefinesWalk(c: Chain, run: seq<System>, events: seq<Event>, i: nat)
    requires IsRun(c, run, events) && i < |run|
    ensures Good(c, run[i])
  {
    if i != 0 {
      CacheRefinesWalk(c, run, events, i - 1);
      NextGood(c, run[i - 1], events[i - 1]);
    }
  }

  // ----- every call can be answered -----

  lemma Extended(c: Chain, run: seq<System>, events: seq<Event>, e: Event) returns (run': seq<System>, events': seq<Event>)
    requires IsRun(c, run, events) && Enabled(c, run[|events|], e)
    ensures IsRun(c, run', events') && run <= run' && events <= events' && |events'| == |events| + 1
    ensures run'[|events'|] == Next(c, run[|events|], e)
  {
    hide Enabled, Next, Initial;
    run', events' := run + [Next(c, run[|events|], e)], events + [e];
    forall i | 0 <= i < |events'| ensures Enabled(c, run'[i], events'[i]) && run'[i + 1] == Next(c, run'[i], events'[i]) {
      if i < |events| { assert run'[i] == run[i] && run'[i + 1] == run[i + 1] && events'[i] == events[i]; }
    }
  }

  /** The header that is stored under a hash and number. */
  function Stored(c: Chain, hash: Hash, number: nat): Fetched { Header(c.parentOf(hash, number), number) }

  /** A call that waits is answered with the ancestor once its headers are there, one after
      the other, whatever the cache drops with each. */
  lemma {:induction false} WaitingIsAnswered(c: Chain, run: seq<System>, events: seq<Event>, id: nat, evicted: set<nat>)
    returns (run': seq<System>, events': seq<Event>)
    requires IsRun(c, run, events) && id in run[|events|].calls && run[|events|].calls[id].Waiting?
    ensures IsRun(c, run', events') && run <= run' && events <= events' && id in run'[|events'|].calls
    ensures var n, call := run[|events|].calls[id].n, run'[|events'|].calls[id];
            n <= c.refNumber && call.Done? && call.n == n && call.answer == Found(Ancestor(c, n))
    decreases run[|events|].calls[id].number
  {
    CacheRefinesWalk(c, run, events, |events|);
    var sys := run[|events|];
    var call := sys.calls[id];
    assert CallGood(c, call);
    var e := Deliver(id, Stored(c, call.hash, call.number), evicted);
    NextGood(c, sys, e);
    run', events' := Extended(c, run, events, e);
    DeliverRecords(c, sys, e);
    CacheRefinesWalk(c, run', events', |events'|);
    assert CallGood(c, run'[|events'|].calls[id]);
    hide IsRun, Next, Enabled, Good;
    if run'[|events'|].calls[id].Waiting? {
      run', events' := WaitingIsAnswered(c, run', events', id, evicted);
    }
  }

  lemma DeliverRecords(c: Chain, sys: System, e: Event)
    requires Enabled(c, sys, e) && e.Deliver? && e.got.Header?
    ensures var call := Next(c, sys, e).calls[e.id];
            call.n == sys.calls[e.id].n && (call.Done? && sys.calls[e.id].n <= c.refNumber && Good(c, sys) ==> call.answer.Found?)
  {
    if Good(c, sys) { NextGood(c, sys, e); }
  }

  lemma BeginRecords(c: Chain, sys: System, id: nat, n: nat)
    requires id !in sys.calls && Good(c, sys)
    ensures Enabled(c, sys, Begin(id, n))
    ensures var call := Next(c, sys, Begin(id, n)).calls[id];
            call.n == n && (call.Waiting? ==> n < c.refNumber) && (call.Done? && n <= c.refNumber ==> call.answer.Found?)
  {
    EnterSound(c, sys.shared, n);
  }

  /** From every state of every run a new call can be made, and with all headers stored it is
      answered: with the ancestor, or out of range exactly above the parent. */
  lemma CallIsAnswered(c: Chain, run: seq<System>, events: seq<Event>, id: nat, n: nat, evicted: set<nat>)
    returns (run': seq<System>, events': seq<Event>)
    requires IsRun(c, run, events) && id !in run[|events|].calls
    ensures IsRun(c, run', events') && run <= run' && events < events' && events'[|events|] == Begin(id, n)
    ensures id in run'[|events'|].calls && run'[|events'|].calls[id].Done?
    ensures run'[|events'|].calls[id].answer == if n <= c.refNumber then Found(Ancestor(c, n)) else OutOfRange
  {
    CacheRefinesWalk(c, run, events, |events|);
    BeginRecords(c, run[|events|], id, n);
    run', events' := Extended(c, run, events, Begin(id, n));
    assert events'[|events|] == Begin(id, n);
    CacheRefinesWalk(c, run', events', |events'|);
    assert CallGood(c, run'[|events'|].calls[id]);
    hide IsRun, Next, Enabled, Good;
    if run'[|events'|].calls[id].Waiting? {
      run', events' := WaitingIsAnswered(c, run', events', id, evicted);
    }
  }

  /** From every state of every run the cache may drop any entries, and nothing else. */
  lemma AnyEviction(c: Chain, run: seq<System>, events: seq<Event>, keys: set<nat>) returns (run': seq<System>, events': seq<Event>)
    requires IsRun(c, run, events)
    ensures IsRun(c, run', events') && run <= run' && |events'| == |events| + 1
    ensures var (sys, sys') := (run[|events|], run'[|events'|]);
            && sys'.calls == sys.calls && sys'.shared.number == sys.shared.number && sys'.shared.hash == sys.shared.hash
            && forall k :: k in sys'.shared.cache <==> k in sys.shared.cache && k !in keys
  {
    run', events' := Extended(c, run, events, Forget(keys));
  }

  // ----- the closure itself -----

  class HashLookup {
    ghost const chain: Chain
    const refNumber: nat
    const refHash: Hash
    var lastKnownNumber: nat
    var lastKnownHash: Hash
    var cache: map<nat, Hash>

    ghost predicate Built()
    {
      chain.refNumber == refNumber && chain.refHash == refHash
    }

    ghost function View(): Shared
      reads this
    {
      Shared(lastKnownNumber, lastKnownHash, cache)
    }

    constructor (number: nat, parentHash: Hash, ghost parentOf: (Hash, nat) -> Hash)
      requires number >= 1
      ensures Built() && chain == Chain(number - 1, parentHash, parentOf) && View() == Initial(chain).shared
    {
      chain := Chain(number - 1, parentHash, parentOf);
      refNumber, refHash := number - 1, parentHash;
      lastKnownNumber, lastKnownHash := number - 1, parentHash;
      cache := map[number - 1 := parentHash];
    }

    method ScanCache(n: nat) returns (p: Progress)
      requires n < lastKnownNumber
      modifies this`lastKnownNumber, this`lastKnownHash
      ensures (View(), p) == Scan(old(View()), n)
    {
      while lastKnownNumber - 1 in cache
        invariant n < lastKnownNumber
        invariant Scan(View(), n) == Scan(old(View()), n)
        decreases lastKnownNumber
      {
        lastKnownHash := cache[lastKnownNumber - 1];
        lastKnownNumber := lastKnownNumber - 1;
        if n == lastKnownNumber { return Return(Found(lastKnownHash)); }
      }
      return Fetch(lastKnownHash, lastKnownNumber);
    }

    method EnterLocked(n: nat) returns (p: Progress)
      requires Built()
      modifies this`lastKnownNumber, this`lastKnownHash
      ensures (View(), p) == Enter(chain, old(View()), n)
    {
      if n == lastKnownNumber { return Return(Found(lastKnownHash)); }
      if n == refNumber { return Return(Found(refHash)); }
      if n in cache { return Return(Found(cache[n])); }
      if n > lastKnownNumber {
        if n > refNumber { return Return(OutOfRange); }
        lastKnownNumber, lastKnownHash := refNumber, refHash;
      }
      p := ScanCache(n);
    }

    method ResumeLocked(n: nat, got: Fetched, evicted: set<nat>) returns (p: Progress)
      requires got.Header? ==> n < got.number
      modifies this`lastKnownNumber, this`lastKnownHash, this`cache
      ensures (View(), p) == Resume(old(View()), n, got, evicted)
    {
      if got.Failure? { return Return(StoreFailed); }
      if got.NoHeader? { return Return(Missing); }
      lastKnownHash := got.parentHash;
      lastKnownNumber := got.number - 1;
      cache := cache[lastKnownNumber := lastKnownHash] - evicted;
      if n == lastKnownNumber { return Return(Found(lastKnownHash)); }
      p := ScanCache(n);
    }

    /** One call from start to answer.  `others` is how the shared state looks when
        the lock is taken again after each read: anything on the chain.  The call
        ends because its own captured height falls towards `n`. */
    method GetHash(n: nat, fetch: (nat, Hash, nat) -> Fetched, others: nat -> Shared, evicted: nat -> set<nat>)
      returns (answer: Answer)
      requires Built() && OnChain(chain, View())
      requires forall i, h, k :: Honest(chain, fetch(i, h, k), h, k)
      requires forall i :: OnChain(chain, others(i))
      modifies this`lastKnownNumber, this`lastKnownHash, this`cache
      ensures OnChain(chain, View()) && Right(chain, n, answer)
      ensures n <= refNumber && (forall i, h, k :: fetch(i, h, k).Header?) ==> answer == Found(Ancestor(chain, n))
    {
      EnterSound(chain, View(), n);
      var p := EnterLocked(n);
      var i := 0;
      while p.Fetch?
        invariant OnChain(chain, View()) && Sound(chain, n, refNumber, p)
        invariant p.Return? && n <= refNumber ==>
                    p.answer.Found? || exists i, h, k :: !fetch(i, h, k).Header?
        decreases if p.Fetch? then p.number - n else 0
      {
        var got := fetch(i, p.hash, p.number);
        var seen := others(i);
        lastKnownNumber, lastKnownHash, cache := seen.number, seen.hash, seen.cache;
        ResumeSound(chain, View(), n, p.hash, p.number, got, evicted(i));
        p := ResumeLocked(n, got, evicted(i));
        i := i + 1;
      }
      return p.answer;
    }
  }
}
