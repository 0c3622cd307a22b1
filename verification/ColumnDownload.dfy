/** PeerDAS column download: the table of missing columns with its cached request,
    the download loop that shrinks it, and the guard of the recovery workers. */
module ColumnDownload {
  import opened Common

  type Root = nat
  type Column = nat

  datatype Entry = Entry(root: Root, slot: nat)

  type Table = map<Entry, set<Column>>

  /** One item of a request: a block and the columns asked of it. */
  datatype Wanted = Wanted(root: Root, columns: seq<Column>)

  ghost predicate NoEmptyEntry(t: Table) {
    forall e :: e in t ==> t[e] != {}
  }

  ghost predicate Distinct<T(!new)>(s: seq<T>) {
    forall i, j :: 0 <= i < j < |s| ==> s[i] != s[j]
  }

  /** The request lists exactly the columns `cols`, each once. */
  ghost predicate ListsSet(s: seq<Column>, cols: set<Column>) {
    Distinct(s) && forall c :: c in s <==> c in cols
  }

  /** The request lists exactly the table: one item per entry, in the order `order`. */
  ghost predicate ListsTable(payload: seq<Wanted>, order: seq<Entry>, t: Table) {
    && |payload| == |order| && Distinct(order)
    && (forall e :: e in order <==> e in t)
    && forall i :: 0 <= i < |order| ==>
         order[i] in t && payload[i].root == order[i].root && ListsSet(payload[i].columns, t[order[i]])
  }

  // ----- the table -----

  function WithoutColumn(t: Table, e: Entry, c: Column): Table {
    if e !in t then t
    else if t[e] - {c} == {} then t - {e}
    else t[e := t[e] - {c}]
  }

  /** A block of the request, with what reading its root and its saved columns gave. */
  datatype Block = Block(fulu: bool, commitments: nat, slot: nat, root: Option<Root>, saved: Option<set<Column>>)

  predicate Relevant(b: Block) {
    b.fulu && b.commitments > 0
  }

  function Missing(b: Block, expected: set<Column>): set<Column>
    requires b.saved.Some?
  {
    expected - b.saved.value
  }

  /** The table after the first `k` blocks; `None` once a read has failed. */
  function TableAfter(blocks: seq<Block>, expected: set<Column>, k: nat): Option<Table>
    requires k <= |blocks|
  {
    if k == 0 then Some(map[])
    else
      var before := TableAfter(blocks, expected, k - 1);
      var b := blocks[k - 1];
      if before.None? || !Relevant(b) then before
      else if b.root.None? || b.saved.None? then None
      else
        var e := Entry(b.root.value, b.slot);
        if e in before.value || Missing(b, expected) == {} then before
        else Some(before.value[e := Missing(b, expected)])
  }

  ghost predicate Asks(b: Block, expected: set<Column>, e: Entry) {
    Relevant(b) && b.root.Some? && b.saved.Some? && Entry(b.root.value, b.slot) == e && Missing(b, expected) != {}
  }

  ghost predicate FirstAsks(blocks: seq<Block>, expected: set<Column>, e: Entry, i: nat)
    requires i < |blocks|
  {
    Asks(blocks[i], expected, e) && forall j :: 0 <= j < i ==> !Asks(blocks[j], expected, e)
  }

  /** An entry stands in the table exactly if some relevant block lacks a column, and
      then for what the first such block lacks. */
  lemma {:induction false} TableIsMissing(blocks: seq<Block>, expected: set<Column>, k: nat, e: Entry)
    requires k <= |blocks| && TableAfter(blocks, expected, k).Some?
    ensures NoEmptyEntry(TableAfter(blocks, expected, k).value)
    ensures var t := TableAfter(blocks, expected, k).value;
            && (e in t <==> exists i :: 0 <= i < k && Asks(blocks[i], expected, e))
            && (e in t ==> exists i :: 0 <= i < k && FirstAsks(blocks, expected, e, i) && t[e] == Missing(blocks[i], expected))
  {
    if k != 0 {
      TableIsMissing(blocks, expected, k - 1, e);
      var before := TableAfter(blocks, expected, k - 1).value;
      var after := TableAfter(blocks, expected, k).value;
      if e in after && e !in before {
        assert FirstAsks(blocks, expected, e, k - 1);
      }
    }
  }

  /** The block `e` has commitments after Fulu and lacks the expected column `c`. */
  predicate Lacks(b: Block, expected: set<Column>, e: Entry, c: Column) {
    && b.fulu && b.commitments > 0 && b.root == Some(e.root) && b.slot == e.slot
    && b.saved.Some? && c in expected && c !in b.saved.value
  }

  /** `i` is the first block under `e` that lacks any column. */
  ghost predicate FirstLacking(blocks: seq<Block>, expected: set<Column>, e: Entry, i: nat)
    requires i < |blocks|
  {
    forall j, c: Column :: 0 <= j < i ==> !Lacks(blocks[j], expected, e, c)
  }

  lemma AskingIsLacking(b: Block, expected: set<Column>, e: Entry)
    ensures Asks(b, expected, e) <==> exists c: Column :: Lacks(b, expected, e, c)
    ensures Asks(b, expected, e) ==> forall c: Column :: c in Missing(b, expected) <==> Lacks(b, expected, e, c)
  {
    if Asks(b, expected, e) {
      var c :| c in Missing(b, expected);
      assert Lacks(b, expected, e, c);
    }
    if c: Column :| Lacks(b, expected, e, c) { assert c in Missing(b, expected); }
  }

  /** Column by column: a column of a block is asked for exactly if it is expected, and not
      saved for the first block of that root and slot that lacks any. */
  lemma ColumnIsMissing(blocks: seq<Block>, expected: set<Column>, k: nat, e: Entry, c: Column)
    requires k <= |blocks| && TableAfter(blocks, expected, k).Some?
    ensures Asked(TableAfter(blocks, expected, k).value, e, c) <==>
              exists i :: 0 <= i < k && Lacks(blocks[i], expected, e, c) && FirstLacking(blocks, expected, e, i)
  {
    hide Lacks, Missing, TableAfter;
    TableIsMissing(blocks, expected, k, e);
    forall i | 0 <= i < k ensures Asks(blocks[i], expected, e) <==> exists x: Column :: Lacks(blocks[i], expected, e, x) {
      AskingIsLacking(blocks[i], expected, e);
    }
    var t := TableAfter(blocks, expected, k).value;
    if e in t {
      var i :| 0 <= i < k && FirstAsks(blocks, expected, e, i) && t[e] == Missing(blocks[i], expected);
      AskingIsLacking(blocks[i], expected, e);
      assert FirstLacking(blocks, expected, e, i);
      var x: Column :| Lacks(blocks[i], expected, e, x);
      assert forall j :: i < j < k ==> !FirstLacking(blocks, expected, e, j);
    }
  }

  /** The request fails exactly if a block it looks at cannot be read. */
  lemma {:induction false} FailsIff(blocks: seq<Block>, expected: set<Column>, k: nat)
    requires k <= |blocks|
    ensures TableAfter(blocks, expected, k).None? <==>
              exists i :: 0 <= i < k && blocks[i].fulu && blocks[i].commitments > 0 && (blocks[i].root.None? || blocks[i].saved.None?)
  {
    if k != 0 { FailsIff(blocks, expected, k - 1); }
  }

  class DownloadRequest {
    var table: Table
    var cacheRequest: Option<seq<Wanted>>
    ghost var order: seq<Entry>

    /** The cached request is absent or lists exactly the table; no entry is empty. */
    ghost predicate Valid()
      reads this
    {
      NoEmptyEntry(table) && (cacheRequest.Some? ==> ListsTable(cacheRequest.value, order, table))
    }

    /** The request as the state machine of the download sees it: the cached listing is
        the table it lists. */
    ghost predicate Shows(d: Download)
      reads this
    {
      d.table == table && d.cache == if cacheRequest.Some? then Some(table) else None
    }

    constructor (t: Table)
      requires NoEmptyEntry(t)
      ensures Valid() && table == t && cacheRequest == None && Shows(Start(t))
    {
      table, cacheRequest, order := t, None, [];
    }

    method RemainingEntries() returns (remaining: seq<Entry>)
      ensures Distinct(remaining) && forall e :: e in remaining <==> e in table
    {
      remaining := ListElements(table.Keys);
    }

    method RemoveColumn(slot: nat, root: Root, c: Column)
      requires Valid()
      modifies this
      ensures Valid() && table == WithoutColumn(old(table), Entry(root, slot), c) && cacheRequest == None
      ensures forall d, i, recover ::
                old(Shows(d)) && At(d, i) == Removing(Entry(root, slot), c) && Free(d) ==> Shows(Next(d, Remove(i), recover))
    {
      var e := Entry(root, slot);
      if e in table { table := table[e := table[e] - {c}]; }
      if e in table && table[e] == {} { table := table - {e}; }
      cacheRequest := None;
    }

    method RemoveBlock(slot: nat, root: Root)
      requires Valid()
      modifies this
      ensures Valid() && table == old(table) - {Entry(root, slot)} && cacheRequest == None
      ensures forall d :: old(Shows(d)) ==> Shows(DropBlock(d, Entry(root, slot)))
    {
      table := table - {Entry(root, slot)};
      cacheRequest := None;
    }

    /** The request, rebuilt only after a change; empty exactly when nothing is missing. */
    method RequestData() returns (payload: seq<Wanted>)
      requires Valid()
      modifies this`cacheRequest, this`order
      ensures Valid() && cacheRequest == Some(payload) && ListsTable(payload, order, table)
      ensures payload == [] <==> table == map[]
      ensures forall d, r, recover :: old(Shows(d)) && r in d.readers && d.readers[r] == None ==>
                Shows(Next(Next(d, Build(r), recover), Answer(r), recover))
    {
      if cacheRequest.Some? {
        payload := cacheRequest.value;
      } else {
        var entries := ListElements(table.Keys);
        payload := [];
        for i := 0 to |entries|
          invariant |payload| == i
          invariant forall j :: 0 <= j < i ==>
                      payload[j].root == entries[j].root && ListsSet(payload[j].columns, table[entries[j]])
        {
          assert entries[i] in entries;
          var columns := ListElements(table[entries[i]]);
          if |columns| > 0 { payload := payload + [Wanted(entries[i].root, columns)]; }
          SomeColumn(columns, table[entries[i]]);
        }
        cacheRequest, order := Some(payload), entries;
      }
      EmptyListing(payload, order, table);
    }
  }

  lemma SomeColumn(columns: seq<Column>, cols: set<Column>)
    requires ListsSet(columns, cols) && cols != {}
    ensures columns != []
  {
    var c :| c in cols;
    assert c in columns;
  }

  /** A request is empty exactly if nothing is missing. */
  lemma EmptyListing(payload: seq<Wanted>, order: seq<Entry>, t: Table)
    requires ListsTable(payload, order, t)
    ensures payload == [] <==> t == map[]
  {
    assert payload != [] ==> order[0] in t;
    if t != map[] {
      assert t.Keys != {};
      var e :| e in t;
      assert e in order;
    }
  }

  /** The keys of a map, in whatever order it gives them. */
  method ListElements<T(==,!new)>(s: set<T>) returns (r: seq<T>)
    ensures Distinct(r) && forall x :: x in r <==> x in s
  {
    r := [];
    var rest := s;
    while rest != {}
      invariant rest <= s && Distinct(r) && forall x :: x in r <==> x in s - rest
      decreases rest
    {
      var x :| x in rest;
      DistinctAppend(r, x);
      r, rest := r + [x], rest - {x};
    }
  }

  lemma DistinctAppend<T(!new)>(r: seq<T>, x: T)
    requires Distinct(r) && x !in r
    ensures Distinct(r + [x])
  {
    forall i, j | 0 <= i < j < |r| + 1 ensures (r + [x])[i] != (r + [x])[j] {
      if j == |r| { assert r[i] in r; }
    }
  }

  /** Builds the request for the blocks; a failed read aborts it. */
  method InitializeDownloadRequest(blocks: seq<Block>, expected: set<Column>) returns (req: Option<DownloadRequest>)
    ensures req.None? <==> TableAfter(blocks, expected, |blocks|).None?
    ensures req.Some? ==> fresh(req.value) && req.value.Valid()
                          && Some(req.value.table) == TableAfter(blocks, expected, |blocks|)
  {
    var table: Table := map[];
    for k := 0 to |blocks|
      invariant TableAfter(blocks, expected, k) == Some(table)
    {
      var b := blocks[k];
      if !b.fulu || b.commitments == 0 { continue; }
      if b.root.None? || b.saved.None? {
        StaysFailed(blocks, expected, k + 1, |blocks|);
        return None;
      }
      var e := Entry(b.root.value, b.slot);
      if e !in table {
        var missing := expected - b.saved.value;
        if |missing| > 0 { table := table[e := missing]; }
      }
    }
    TableNoEmpty(blocks, expected, |blocks|);
    var r := new DownloadRequest(table);
    return Some(r);
  }

  lemma {:induction false} StaysFailed(blocks: seq<Block>, expected: set<Column>, i: nat, k: nat)
    requires i <= k <= |blocks| && TableAfter(blocks, expected, i).None?
    ensures TableAfter(blocks, expected, k).None?
    decreases k
  {
    if i < k { StaysFailed(blocks, expected, i, k - 1); }
  }

  lemma TableNoEmpty(blocks: seq<Block>, expected: set<Column>, k: nat)
    requires k <= |blocks| && TableAfter(blocks, expected, k).Some?
    ensures NoEmptyEntry(TableAfter(blocks, expected, k).value)
  {
    TableIsMissing(blocks, expected, k, Entry(0, 0));
  }

  // ----- the download loop -----

  /** Where the download loop stands. */
  datatype Main =
    | Entering
    | Waiting
    | Sweeping(todo: set<Entry>)
    | Handling
    | Testing
    | Left(cancelled: bool)

  /** Where the goroutine of one received sidecar stands. */
  datatype Handler =
    | Checking(e: Entry, c: Column)
    | Verifying(e: Entry, c: Column)
    | Writing(e: Entry, c: Column)
    | Removing(e: Entry, c: Column)
    | Closing(e: Entry)
    | Gone

  /** A run of the download: the request with its cache and the goroutines that hold its
      read lock (with the listing each has built), the loop and its handlers. `confirmed` and `dropped`
      record the columns found in or written to storage and the blocks left to recovery. */
  datatype Download = Download(
    table: Table, cache: Option<Table>, readers: map<nat, Option<Table>>,
    main: Main, handlers: seq<Handler>,
    confirmed: set<(Entry, Column)>, dropped: set<Entry>)

  const MAIN: nat := 0

  datatype Event =
    | Enter
    | Cancel
    | Tick
    | Sweep(e: Entry, recoverable: bool)
    | SweepDone
    | Receive(sidecars: seq<Option<(Entry, Column)>>)
    | AllHandled
    | Lock(r: nat)
    | Build(r: nat)
    | Answer(r: nat)
    | Exists(i: nat, found: Option<bool>)
    | Verify(i: nat, valid: bool)
    | Write(i: nat, written: bool)
    | Remove(i: nat)
    | Close(i: nat, recoverable: bool)

  /** The start of a handler; a sidecar whose header does not hash gets none. */
  function Spawn(s: Option<(Entry, Column)>): Handler {
    if s.None? then Gone else Checking(s.value.0, s.value.1)
  }

  function At(d: Download, i: nat): Handler {
    if i < |d.handlers| then d.handlers[i] else Gone
  }

  function Put(d: Download, i: nat, h: Handler): Download
    requires i < |d.handlers|
  {
    d.(handlers := d.handlers[i := h])
  }

  /** A writer waits until no reader holds the lock. */
  predicate Free(d: Download) {
    d.readers == map[]
  }

  function DropBlock(d: Download, e: Entry): Download {
    d.(table := d.table - {e}, cache := None, dropped := d.dropped + {e})
  }

  /** A reader returns its listing; the loop leaves on an empty one. */
  function Returned(d: Download, r: nat, listing: Table): Download {
    d.(readers := d.readers - {r},
       main := if r != MAIN then d.main else if listing == map[] then Left(false) else Waiting)
  }

  /** One step of any goroutine; a step that cannot be taken changes nothing. */
  function Next(d: Download, ev: Event, recover: bool): Download {
    match ev
    case Enter => if d.main.Entering? then d.(main := if d.table == map[] then Left(false) else Waiting) else d
    case Cancel => if d.main.Waiting? then d.(main := Left(true)) else d
    case Tick => if d.main.Waiting? then d.(main := Sweeping(d.table.Keys)) else d
    case Sweep(e, recoverable) =>
      if !(d.main.Sweeping? && e in d.main.todo) then d
      else
        var d' := d.(main := Sweeping(d.main.todo - {e}));
        if !(recover && recoverable) then d' else if Free(d) then DropBlock(d', e) else d
    case SweepDone => if d.main == Sweeping({}) then d.(main := Testing) else d
    case Receive(sidecars) =>
      if !d.main.Waiting? || sidecars == [] then d
      else d.(main := Handling, handlers := seq(|sidecars|, k requires 0 <= k < |sidecars| => Spawn(sidecars[k])))
    case AllHandled =>
      if d.main.Handling? && forall h :: h in d.handlers ==> h.Gone? then d.(main := Testing) else d
    case Lock(r) => if r in d.readers || (r == MAIN && !d.main.Testing?) then d else d.(readers := d.readers[r := None])
    case Build(r) =>
      if r in d.readers && d.readers[r].None? && d.cache.None? then d.(readers := d.readers[r := Some(d.table)]) else d
    case Answer(r) =>
      if r !in d.readers then d
      else if d.readers[r].Some? then Returned(d.(cache := d.readers[r]), r, d.readers[r].value)
      else if d.cache.Some? then Returned(d, r, d.cache.value)
      else d
    case Exists(i, found) =>
      var h := At(d, i);
      if !h.Checking? then d
      else if found.None? then Put(d, i, Closing(h.e))
      else if found.value then Put(d, i, Removing(h.e, h.c)).(confirmed := d.confirmed + {(h.e, h.c)})
      else Put(d, i, Verifying(h.e, h.c))
    case Verify(i, valid) =>
      var h := At(d, i);
      if !h.Verifying? then d else Put(d, i, if valid then Writing(h.e, h.c) else Closing(h.e))
    case Write(i, written) =>
      var h := At(d, i);
      if !h.Writing? then d
      else if !written then Put(d, i, Closing(h.e))
      else Put(d, i, Removing(h.e, h.c)).(confirmed := d.confirmed + {(h.e, h.c)})
    case Remove(i) =>
      var h := At(d, i);
      if !h.Removing? || !Free(d) then d
      else Put(d, i, Closing(h.e)).(table := WithoutColumn(d.table, h.e, h.c), cache := None)
    case Close(i, recoverable) =>
      var h := At(d, i);
      if !h.Closing? then d
      else if !(recover && recoverable) then Put(d, i, Gone)
      else if Free(d) then DropBlock(Put(d, i, Gone), h.e)
      else d
  }

  function Start(t: Table): Download {
    Download(t, None, map[], Entering, [], {}, {})
  }

  function Run(t: Table, events: seq<Event>, recover: bool): Download {
    if events == [] then Start(t) else Next(Run(t, events[..|events| - 1], recover), events[|events| - 1], recover)
  }

  /** A column the request still asks for. */
  ghost predicate Asked(t: Table, e: Entry, c: Column) {
    e in t && c in t[e]
  }

  /** What is no longer asked was confirmed, or left to recovery with its block. */
  ghost predicate Accounted(t: Table, d: Download) {
    forall e: Entry, c: Column :: Asked(t, e, c) ==> Asked(d.table, e, c) || (e, c) in d.confirmed || e in d.dropped
  }

  /** The cached listing, and those still being built, are the table. */
  ghost predicate Coherent(d: Download) {
    && (d.cache.Some? ==> d.cache.value == d.table)
    && forall r :: r in d.readers && d.readers[r].Some? ==> d.readers[r].value == d.table
  }

  ghost predicate HandlersOk(d: Download) {
    forall i :: 0 <= i < |d.handlers| && d.handlers[i].Removing? ==> (d.handlers[i].e, d.handlers[i].c) in d.confirmed
  }

  ghost predicate Inv(t: Table, d: Download, recover: bool) {
    && NoEmptyEntry(d.table) && Coherent(d) && Accounted(t, d) && HandlersOk(d)
    && (forall e: Entry, c: Column :: Asked(d.table, e, c) ==> Asked(t, e, c))
    && (!recover ==> d.dropped == {})
    && (d.main == Left(false) ==> d.table == map[])
  }

  lemma WithoutColumnAsks(t: Table, e: Entry, c: Column)
    requires NoEmptyEntry(t)
    ensures NoEmptyEntry(WithoutColumn(t, e, c))
    ensures forall e': Entry, c': Column :: Asked(WithoutColumn(t, e, c), e', c') <==> Asked(t, e', c') && (e', c') != (e, c)
    ensures t == map[] ==> WithoutColumn(t, e, c) == map[]
  {
    forall c': Column ensures e in t && c' in t[e] && c' != c ==> t[e] - {c} != {} {
      if e in t && c' in t[e] && c' != c { assert c' in t[e] - {c}; }
    }
  }

  lemma RemoveKeeps(t: Table, d: Download, i: nat, recover: bool)
    requires Inv(t, d, recover)
    ensures Inv(t, Next(d, Remove(i), recover), recover)
  {
    hide WithoutColumn;
    var h := At(d, i);
    if h.Removing? { WithoutColumnAsks(d.table, h.e, h.c); }
  }

  lemma DropKeeps(t: Table, d: Download, e: Entry)
    requires Inv(t, d, true) && Free(d)
    ensures Inv(t, DropBlock(d, e), true)
  {
    var d' := DropBlock(d, e);
    assert forall e': Entry, c: Column :: Asked(d'.table, e', c) <==> Asked(d.table, e', c) && e' != e;
  }

  /** A handler moves on, its column confirmed if it is about to remove it. */
  lemma PutKeeps(t: Table, d: Download, i: nat, h: Handler, confirmed: set<(Entry, Column)>, recover: bool)
    requires Inv(t, d, recover) && i < |d.handlers|
    requires d.confirmed <= confirmed && (h.Removing? ==> (h.e, h.c) in confirmed)
    ensures Inv(t, Put(d, i, h).(confirmed := confirmed), recover)
  {
    hide NoEmptyEntry, Asked;
  }

  /** The steps of the handlers that leave the table alone. */
  lemma HandlerKeeps(t: Table, d: Download, ev: Event, recover: bool)
    requires Inv(t, d, recover) && (ev.Exists? || ev.Verify? || ev.Write?)
    ensures Inv(t, Next(d, ev, recover), recover)
  {
    hide Inv;
    var d' := Next(d, ev, recover);
    if d' != d { PutKeeps(t, d, ev.i, d'.handlers[ev.i], d'.confirmed, recover); }
  }

  lemma CloseKeeps(t: Table, d: Download, i: nat, recoverable: bool, recover: bool)
    requires Inv(t, d, recover)
    ensures Inv(t, Next(d, Close(i, recoverable), recover), recover)
  {
    hide NoEmptyEntry, WithoutColumn, DropBlock, Asked;
    if At(d, i).Closing? && Free(d) && recover && recoverable {
      DropKeeps(t, Put(d, i, Gone), At(d, i).e);
    }
  }

  /** The steps of the loop and of the readers. */
  lemma LoopKeeps(t: Table, d: Download, ev: Event, recover: bool)
    requires Inv(t, d, recover) && !(ev.Exists? || ev.Verify? || ev.Write? || ev.Close? || ev.Remove?)
    ensures Inv(t, Next(d, ev, recover), recover)
  {
    hide NoEmptyEntry, WithoutColumn, DropBlock, Asked;
    if ev.Sweep? && d.main.Sweeping? && Free(d) && recover && ev.recoverable {
      DropKeeps(t, d.(main := Sweeping(d.main.todo - {ev.e})), ev.e);
    }
  }

  /** Every step of every goroutine keeps the invariant. */
  lemma NextKeeps(t: Table, d: Download, ev: Event, recover: bool)
    requires Inv(t, d, recover)
    ensures Inv(t, Next(d, ev, recover), recover)
  {
    hide Next, Inv;
    if ev.Remove? {
      RemoveKeeps(t, d, ev.i, recover);
    } else if ev.Close? {
      CloseKeeps(t, d, ev.i, ev.recoverable, recover);
    } else if ev.Exists? || ev.Verify? || ev.Write? {
      HandlerKeeps(t, d, ev, recover);
    } else {
      LoopKeeps(t, d, ev, recover);
    }
  }

  /** In every run, the loop leaves uncancelled only after each column missing at the
      start was found in or written to storage, or its block was left to recovery; and
      without recovery that is every column. */
  lemma {:induction false} DownloadIsComplete(t: Table, events: seq<Event>, recover: bool)
    requires NoEmptyEntry(t)
    ensures Inv(t, Run(t, events, recover), recover)
    ensures var d := Run(t, events, recover);
            d.main == Left(false) ==> forall e: Entry, c: Column :: Asked(t, e, c) ==> (e, c) in d.confirmed || (recover && e in d.dropped)
  {
    if events != [] {
      DownloadIsComplete(t, events[..|events| - 1], recover);
      NextKeeps(t, Run(t, events[..|events| - 1], recover), events[|events| - 1], recover);
    }
  }

  // ----- the recovery workers -----

  datatype Worker = Idle | Recovering(root: Root)

  /** The workers and the roots marked as being recovered. */
  datatype Recovery = Recovery(workers: seq<Worker>, marked: set<Root>)

  datatype Move = Take(w: nat, root: Root) | Finish(w: nat)

  /** A worker takes a queued block unless its root is marked, and unmarks it once done,
      whether or not the blobs still had to be recovered. */
  function Moved(r: Recovery, m: Move): Recovery {
    match m
    case Take(w, root) =>
      if w < |r.workers| && r.workers[w].Idle? && root !in r.marked
      then Recovery(r.workers[w := Recovering(root)], r.marked + {root}) else r
    case Finish(w) =>
      if w < |r.workers| && r.workers[w].Recovering?
      then Recovery(r.workers[w := Idle], r.marked - {r.workers[w].root}) else r
  }

  function Recovered(n: nat, moves: seq<Move>): Recovery {
    if moves == [] then Recovery(seq(n, _ => Idle), {})
    else Moved(Recovered(n, moves[..|moves| - 1]), moves[|moves| - 1])
  }

  ghost predicate Exclusive(r: Recovery) {
    forall i, j :: 0 <= i < j < |r.workers| && r.workers[i].Recovering? && r.workers[j].Recovering? ==>
      r.workers[i].root != r.workers[j].root
  }

  /** In every run no two workers recover the same block, and a root is marked exactly
      while some worker recovers it. */
  lemma {:induction false} OneRecoveryPerBlock(n: nat, moves: seq<Move>)
    ensures var r := Recovered(n, moves);
            Exclusive(r) && forall root :: root in r.marked <==> Recovering(root) in r.workers
  {
    if moves != [] {
      OneRecoveryPerBlock(n, moves[..|moves| - 1]);
      MoveKeeps(Recovered(n, moves[..|moves| - 1]), moves[|moves| - 1]);
    }
  }

  lemma MoveKeeps(r: Recovery, m: Move)
    requires Exclusive(r) && forall root :: root in r.marked <==> Recovering(root) in r.workers
    ensures var r' := Moved(r, m);
            Exclusive(r') && forall root :: root in r'.marked <==> Recovering(root) in r'.workers
  {
    var r' := Moved(r, m);
    if r' != r {
      assert forall i :: 0 <= i < |r.workers| && i != m.w ==> r'.workers[i] == r.workers[i];
      assert forall i :: 0 <= i < |r.workers| && r.workers[i].Recovering? ==> Recovering(r.workers[i].root) in r.workers;
      forall root ensures root in r'.marked <==> Recovering(root) in r'.workers {
        if Recovering(root) in r.workers && (m.Finish? ==> root != r.workers[m.w].root) {
          var i :| 0 <= i < |r.workers| && r.workers[i] == Recovering(root);
          assert r'.workers[i] == Recovering(root);
        }
        if m.Take? && root == m.root { assert r'.workers[m.w] == Recovering(root); }
      }
    }
  }
}
