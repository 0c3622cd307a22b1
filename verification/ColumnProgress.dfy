/** The download goes on: what each position of the loop means, which columns count as
    confirmed, and that from every state of every run that was not cancelled the download
    can still be completed. */
module ColumnProgress {
  import opened Common
  import opened ColumnDownload

  lemma RunMore(t: Table, events: seq<Event>, ev: Event, recover: bool)
    ensures Run(t, events + [ev], recover) == Next(Run(t, events, recover), ev, recover)
  {
    assert (events + [ev])[..|events|] == events;
  }

  // ----- the positions of the loop -----

  /** The loop reads only when it tests, its handlers run only while it waits for them, it
      sweeps blocks of the table, and it waits for more only if something is missing. */
  ghost predicate Orderly(d: Download) {
    && (0 in d.readers ==> d.main == Testing)
    && (forall h :: h in d.handlers ==> h == Gone || d.main == Handling)
    && (d.main.Sweeping? ==> d.main.todo <= d.table.Keys)
    && (d.main == Waiting ==> d.table != map[])
  }

  lemma StepIsOrderly(t: Table, d: Download, ev: Event, recover: bool)
    requires Inv(t, d, recover) && Orderly(d)
    ensures Orderly(Next(d, ev, recover))
  {
    hide NoEmptyEntry, Accounted, HandlersOk, WithoutColumn, Asked;
    if ev.Exists? || ev.Verify? || ev.Write? || ev.Remove? || ev.Close? {
      assert At(d, ev.i) != Gone ==> At(d, ev.i) in d.handlers;
    }
  }

  lemma {:induction false} RunIsOrderly(t: Table, events: seq<Event>, recover: bool)
    requires NoEmptyEntry(t)
    ensures Inv(t, Run(t, events, recover), recover) && Orderly(Run(t, events, recover))
  {
    hide Next, Inv, Orderly;
    DownloadIsComplete(t, events, recover);
    if events == [] {
      StartIsOrderly(t);
    } else {
      var prefix := events[..|events| - 1];
      RunIsOrderly(t, prefix, recover);
      StepIsOrderly(t, Run(t, prefix, recover), events[|events| - 1], recover);
    }
  }

  lemma StartIsOrderly(t: Table)
    ensures Orderly(Start(t))
  {
  }

  /** Having left, the loop is done: it stays as it left. */
  lemma LeftIsFinal(t: Table, events: seq<Event>, ev: Event, recover: bool)
    requires NoEmptyEntry(t) && Run(t, events, recover).main.Left?
    ensures Run(t, events + [ev], recover).main == Run(t, events, recover).main
  {
    hide Inv, Run;
    RunMore(t, events, ev, recover);
    RunIsOrderly(t, events, recover);
    LeftStays(Run(t, events, recover), ev, recover);
  }

  lemma LeftStays(d: Download, ev: Event, recover: bool)
    requires Orderly(d) && d.main.Left?
    ensures Next(d, ev, recover).main == d.main
  {
  }

  /** The loop leaves cancelled exactly if it was cancelled while it waited. */
  lemma {:induction false} CancelledIff(t: Table, events: seq<Event>, recover: bool)
    requires NoEmptyEntry(t)
    ensures Run(t, events, recover).main == Left(true) <==>
              exists k :: 0 <= k < |events| && events[k] == Cancel && Run(t, events[..k], recover).main == Waiting
  {
    hide Next, Run;
    if events == [] {
      assert Run(t, [], recover) == Start(t) by { RunNone(t, recover); }
    } else {
      var n := |events| - 1;
      var prefix, ev := events[..n], events[n];
      CancelledIff(t, prefix, recover);
      RunMore(t, prefix, ev, recover);
      assert events == prefix + [ev];
      RunIsOrderly(t, prefix, recover);
      CancelStep(Run(t, prefix, recover), ev, recover);
      assert forall k :: 0 <= k < n ==> prefix[k] == events[k] && prefix[..k] == events[..k];
    }
  }

  lemma RunNone(t: Table, recover: bool)
    ensures Run(t, [], recover) == Start(t)
  {
  }

  lemma CancelStep(d: Download, ev: Event, recover: bool)
    requires Orderly(d)
    ensures Next(d, ev, recover).main == Left(true) <==> d.main == Left(true) || (ev == Cancel && d.main == Waiting)
  {
  }

  // ----- what is confirmed -----

  /** Event `k` of the run finds column `c` of `e` in storage, or writes it there. */
  ghost predicate Saves(t: Table, events: seq<Event>, k: nat, recover: bool, e: Entry, c: Column)
    requires k < |events|
  {
    var d, ev := Run(t, events[..k], recover), events[k];
    || (ev.Exists? && ev.found == Some(true) && At(d, ev.i) == Checking(e, c))
    || (ev.Write? && ev.written && At(d, ev.i) == Writing(e, c))
  }

  lemma ConfirmStep(d: Download, ev: Event, recover: bool, e: Entry, c: Column)
    ensures (e, c) in Next(d, ev, recover).confirmed <==>
              || (e, c) in d.confirmed
              || (ev.Exists? && ev.found == Some(true) && At(d, ev.i) == Checking(e, c))
              || (ev.Write? && ev.written && At(d, ev.i) == Writing(e, c))
  {
    hide WithoutColumn;
  }

  /** In every run the confirmed columns are exactly those that some step found in storage
      or wrote to it. */
  lemma {:induction false} ConfirmedIff(t: Table, events: seq<Event>, recover: bool, e: Entry, c: Column)
    ensures (e, c) in Run(t, events, recover).confirmed <==>
              exists k :: 0 <= k < |events| && Saves(t, events, k, recover, e, c)
  {
    hide Next, Run;
    if events == [] {
      RunNone(t, recover);
    } else {
      var n := |events| - 1;
      var prefix := events[..n];
      ConfirmedIff(t, prefix, recover, e, c);
      RunMore(t, prefix, events[n], recover);
      assert events == prefix + [events[n]];
      ConfirmStep(Run(t, prefix, recover), events[n], recover, e, c);
      assert forall k :: 0 <= k < n ==> prefix[k] == events[k] && prefix[..k] == events[..k];
      assert forall k :: 0 <= k < n ==> (Saves(t, prefix, k, recover, e, c) <==> Saves(t, events, k, recover, e, c));
      assert (e, c) in Run(t, events, recover).confirmed <==>
             (e, c) in Run(t, prefix, recover).confirmed || Saves(t, events, n, recover, e, c);
    }
  }

  /** Handler `i` writes only what it has verified. */
  lemma {:induction false} WritesOnlyVerified(t: Table, events: seq<Event>, recover: bool, i: nat)
    ensures At(Run(t, events, recover), i).Writing? ==> Verify(i, true) in events
    ensures At(Run(t, events, recover), i).Verifying? ==> Exists(i, Some(false)) in events
  {
    hide Next, Run;
    if events == [] {
      RunNone(t, recover);
    } else {
      var n := |events| - 1;
      var prefix := events[..n];
      WritesOnlyVerified(t, prefix, recover, i);
      RunMore(t, prefix, events[n], recover);
      assert events == prefix + [events[n]];
      WriteStep(Run(t, prefix, recover), events[n], recover, i);
    }
  }

  lemma WriteStep(d: Download, ev: Event, recover: bool, i: nat)
    ensures var d' := Next(d, ev, recover);
            && (At(d', i).Writing? ==> At(d, i) == At(d', i) || ev == Verify(i, true))
            && (At(d', i).Verifying? ==> At(d, i) == At(d', i) || ev == Exists(i, Some(false)))
  {
    hide WithoutColumn;
  }

  // ----- readers -----

  /** A reader that answers releases the lock; only the loop's own answer moves the loop,
      and it leaves exactly if nothing is missing. */
  lemma AnswerDecides(t: Table, d: Download, r: nat, recover: bool)
    requires Inv(t, d, recover)
    ensures var d' := Next(Next(d, Build(r), recover), Answer(r), recover);
            r in d.readers ==>
              && d'.readers == d.readers - {r} && d'.table == d.table && d'.cache == Some(d.table)
              && d'.handlers == d.handlers && d'.confirmed == d.confirmed
              && d'.main == if r != 0 then d.main else if d.table == map[] then Left(false) else Waiting
  {
    hide NoEmptyEntry, Accounted, HandlersOk;
  }

  /** Whoever reads can finish. */
  lemma {:induction false} ReadersFinish(t: Table, events: seq<Event>, recover: bool) returns (more: seq<Event>)
    requires NoEmptyEntry(t)
    ensures events <= more && Free(Run(t, more, recover))
    ensures Run(t, events, recover).main != Left(true) ==> Run(t, more, recover).main != Left(true)
    decreases |Run(t, events, recover).readers|
  {
    hide Next, Run, Inv;
    var d := Run(t, events, recover);
    more := events;
    if d.readers != map[] {
      assert d.readers.Keys != {};
      var r :| r in d.readers;
      DownloadIsComplete(t, events, recover);
      AnswerDecides(t, d, r, recover);
      RunMore(t, events, Build(r), recover);
      RunMore(t, events + [Build(r)], Answer(r), recover);
      assert (d.readers - {r}).Keys == d.readers.Keys - {r};
      more := ReadersFinish(t, events + [Build(r)] + [Answer(r)], recover);
    }
  }

  // ----- handlers -----

  /** How many steps a handler has left at most. */
  function StepsLeft(h: Handler): nat {
    match h
    case Checking(_, _) => 5
    case Verifying(_, _) => 4
    case Writing(_, _) => 3
    case Removing(_, _) => 2
    case Closing(_) => 1
    case Gone => 0
  }

  /** The next step of a handler, with what storage and verification answer. */
  function StepOf(h: Handler, i: nat, found: Option<bool>, ok: bool): Event {
    match h
    case Checking(_, _) => Exists(i, found)
    case Verifying(_, _) => Verify(i, ok)
    case Writing(_, _) => Write(i, ok)
    case Removing(_, _) => Remove(i)
    case _ => Close(i, ok)
  }

  /** Whatever it is answered, a handler moves on, and no other does. */
  lemma HandlerMoves(d: Download, i: nat, found: Option<bool>, ok: bool, recover: bool)
    requires i < |d.handlers| && d.handlers[i] != Gone && Free(d)
    ensures var d' := Next(d, StepOf(d.handlers[i], i, found, ok), recover);
            && |d'.handlers| == |d.handlers| && StepsLeft(d'.handlers[i]) < StepsLeft(d.handlers[i])
            && (forall j :: 0 <= j < |d.handlers| && j != i ==> d'.handlers[j] == d.handlers[j])
            && d'.main == d.main && Free(d')
  {
    hide WithoutColumn;
  }

  /** The handlers from `k` on can finish, whatever they are answered. */
  lemma {:induction false} HandlersFinish(t: Table, events: seq<Event>, k: nat, found: Option<bool>, ok: bool, recover: bool)
    returns (more: seq<Event>)
    requires var d := Run(t, events, recover);
             d.main == Handling && Free(d) && k <= |d.handlers| && forall j :: 0 <= j < k ==> d.handlers[j] == Gone
    ensures events <= more
    ensures var d' := Run(t, more, recover);
            d'.main == Handling && Free(d') && forall h :: h in d'.handlers ==> h == Gone
    decreases |Run(t, events, recover).handlers| - k,
              var hs := Run(t, events, recover).handlers; if k < |hs| then StepsLeft(hs[k]) else 0
  {
    hide Next, Run, StepOf, StepsLeft;
    var d := Run(t, events, recover);
    if k == |d.handlers| {
      more := events;
    } else if d.handlers[k] == Gone {
      more := HandlersFinish(t, events, k + 1, found, ok, recover);
    } else {
      var ev := StepOf(d.handlers[k], k, found, ok);
      HandlerMoves(d, k, found, ok, recover);
      RunMore(t, events, ev, recover);
      more := HandlersFinish(t, events + [ev], k, found, ok, recover);
    }
  }

  /** A column that is new, valid and written is confirmed and no longer asked for; nothing
      else changes. */
  lemma FreshColumn(d: Download, i: nat, e: Entry, c: Column, recover: bool)
    requires i < |d.handlers| && d.handlers[i] == Checking(e, c) && Free(d)
    ensures var d3 := Next(Next(Next(d, Exists(i, Some(false)), recover), Verify(i, true), recover), Write(i, true), recover);
            var d5 := Next(Next(d3, Remove(i), recover), Close(i, false), recover);
            d5 == d.(handlers := d.handlers[i := Gone], confirmed := d.confirmed + {(e, c)},
                     table := WithoutColumn(d.table, e, c), cache := None)
  {
    hide WithoutColumn;
    var d1 := Next(d, Exists(i, Some(false)), recover);
    assert d1.handlers[i] == Verifying(e, c);
    var d2 := Next(d1, Verify(i, true), recover);
    assert d2.handlers[i] == Writing(e, c);
    var d3 := Next(d2, Write(i, true), recover);
    assert d3.handlers[i] == Removing(e, c);
    var d4 := Next(d3, Remove(i), recover);
    assert d4.handlers[i] == Closing(e);
    assert Next(d4, Close(i, false), recover).handlers == d.handlers[i := Gone];
  }

  lemma RunFreshColumn(t: Table, events: seq<Event>, i: nat, e: Entry, c: Column, recover: bool) returns (more: seq<Event>)
    requires var d := Run(t, events, recover); i < |d.handlers| && d.handlers[i] == Checking(e, c) && Free(d)
    ensures events <= more
    ensures var d := Run(t, events, recover);
            Run(t, more, recover) == d.(handlers := d.handlers[i := Gone], confirmed := d.confirmed + {(e, c)},
                                        table := WithoutColumn(d.table, e, c), cache := None)
  {
    hide Next, Run, WithoutColumn;
    FreshColumn(Run(t, events, recover), i, e, c, recover);
    RunMore(t, events, Exists(i, Some(false)), recover);
    RunMore(t, events + [Exists(i, Some(false))], Verify(i, true), recover);
    RunMore(t, events + [Exists(i, Some(false))] + [Verify(i, true)], Write(i, true), recover);
    RunMore(t, events + [Exists(i, Some(false))] + [Verify(i, true)] + [Write(i, true)], Remove(i), recover);
    more := events + [Exists(i, Some(false))] + [Verify(i, true)] + [Write(i, true)] + [Remove(i)];
    RunMore(t, more, Close(i, false), recover);
    more := more + [Close(i, false)];
  }

  // ----- the test, and a sweep -----

  /** The test after a batch or a sweep, when no one reads. */
  lemma TestEnds(t: Table, d: Download, recover: bool)
    requires Inv(t, d, recover) && Free(d) && d.main == Testing
    ensures var d' := Next(Next(Next(d, Lock(0), recover), Build(0), recover), Answer(0), recover);
            && d'.table == d.table && d'.confirmed == d.confirmed && Free(d')
            && d'.main == if d.table == map[] then Left(false) else Waiting
  {
    hide NoEmptyEntry, Accounted, HandlersOk;
  }

  lemma RunTest(t: Table, events: seq<Event>, recover: bool) returns (more: seq<Event>)
    requires NoEmptyEntry(t)
    requires Free(Run(t, events, recover)) && Run(t, events, recover).main == Testing
    ensures events <= more
    ensures var (d, d') := (Run(t, events, recover), Run(t, more, recover));
            && d'.table == d.table && d'.confirmed == d.confirmed && Free(d')
            && d'.main == if d.table == map[] then Left(false) else Waiting
  {
    hide Next, Run, Inv;
    DownloadIsComplete(t, events, recover);
    TestEnds(t, Run(t, events, recover), recover);
    RunMore(t, events, Lock(0), recover);
    RunMore(t, events + [Lock(0)], Build(0), recover);
    RunMore(t, events + [Lock(0)] + [Build(0)], Answer(0), recover);
    more := events + [Lock(0)] + [Build(0)] + [Answer(0)];
  }

  /** The loop goes on once its handlers are gone. */
  lemma BatchDone(d: Download, recover: bool)
    requires d.main == Handling && forall h :: h in d.handlers ==> h == Gone
    ensures Next(d, AllHandled, recover) == d.(main := Testing)
  {
  }

  lemma SweepStep(d: Download, e: Entry, recoverable: bool, recover: bool)
    requires d.main.Sweeping? && e in d.main.todo && Free(d)
    ensures var d' := Next(d, Sweep(e, recoverable), recover);
            && d'.main == Sweeping(d.main.todo - {e}) && Free(d') && d'.confirmed == d.confirmed
            && d'.table == if recover && recoverable then d.table - {e} else d.table
  {
  }

  /** A sweep drops exactly the blocks that are recoverable, where recovery is on; here all
      of those still to be looked at, or none. */
  lemma {:induction false} SweepFinishes(t: Table, events: seq<Event>, recoverable: bool, recover: bool)
    returns (more: seq<Event>)
    requires var d := Run(t, events, recover); d.main.Sweeping? && Free(d)
    ensures events <= more
    ensures var (d, d') := (Run(t, events, recover), Run(t, more, recover));
            && d'.main == Testing && Free(d') && d'.confirmed == d.confirmed
            && d'.table == if recover && recoverable then d.table - d.main.todo else d.table
    decreases Run(t, events, recover).main.todo
  {
    hide Next, Run;
    var d := Run(t, events, recover);
    if d.main.todo == {} {
      RunMore(t, events, SweepDone, recover);
      SweepEnds(d, recover);
      more := events + [SweepDone];
      assert d.table - {} == d.table;
    } else {
      var e :| e in d.main.todo;
      SweepStep(d, e, recoverable, recover);
      RunMore(t, events, Sweep(e, recoverable), recover);
      more := SweepFinishes(t, events + [Sweep(e, recoverable)], recoverable, recover);
      assert d.table - {e} - (d.main.todo - {e}) == d.table - d.main.todo;
    }
  }

  lemma SweepEnds(d: Download, recover: bool)
    requires d.main == Sweeping({})
    ensures Next(d, SweepDone, recover) == d.(main := Testing)
  {
  }

  /** From every reachable state in which the loop waits and no one reads: after a tick it
      has swept the whole table; it waits again if nothing could be left to recovery, and
      leaves if everything was. */
  lemma TickFinishes(t: Table, events: seq<Event>, recoverable: bool, recover: bool) returns (more: seq<Event>)
    requires NoEmptyEntry(t) && Run(t, events, recover).main == Waiting && Free(Run(t, events, recover))
    ensures events < more && more[|events|] == Tick
    ensures var (d, d') := (Run(t, events, recover), Run(t, more, recover));
            && d'.confirmed == d.confirmed && Free(d')
            && (recover && recoverable ==> d'.table == map[] && d'.main == Left(false))
            && (!(recover && recoverable) ==> d'.table == d.table && d'.main == Waiting)
  {
    hide Next, Run, Inv;
    var d := Run(t, events, recover);
    RunIsOrderly(t, events, recover);
    RunMore(t, events, Tick, recover);
    TickStarts(d, recover);
    var swept := SweepFinishes(t, events + [Tick], recoverable, recover);
    assert d.table - d.table.Keys == map[];
    more := RunTest(t, swept, recover);
  }

  lemma TickStarts(d: Download, recover: bool)
    requires d.main == Waiting
    ensures Next(d, Tick, recover) == d.(main := Sweeping(d.table.Keys))
  {
  }

  // ----- completion -----

  ghost function AskedPairs(t: Table): set<(Entry, Column)> {
    set e, c | e in t && c in t[e] :: (e, c)
  }

  lemma {:induction false} SetAsSeq(s: set<(Entry, Column)>) returns (r: seq<(Entry, Column)>)
    ensures forall x :: x in s <==> x in r
    decreases s
  {
    if s == {} {
      r := [];
    } else {
      var x :| x in s;
      var rest := SetAsSeq(s - {x});
      r := [x] + rest;
    }
  }

  function Sidecars(pairs: seq<(Entry, Column)>): seq<Option<(Entry, Column)>> {
    seq(|pairs|, i requires 0 <= i < |pairs| => Some(pairs[i]))
  }

  lemma ReceiveStarts(d: Download, pairs: seq<(Entry, Column)>, recover: bool)
    requires d.main == Waiting && pairs != []
    ensures var d' := Next(d, Receive(Sidecars(pairs)), recover);
            && d' == d.(main := Handling, handlers := d'.handlers) && |d'.handlers| == |pairs|
            && forall i :: 0 <= i < |pairs| ==> d'.handlers[i] == Checking(pairs[i].0, pairs[i].1)
  {
  }

  /** The handlers before `k` are gone with their columns, those from `k` on are to begin. */
  ghost predicate Progressed(d0: Download, d: Download, pairs: seq<(Entry, Column)>, k: nat)
    requires k <= |pairs|
  {
    && d.main == Handling && Free(d) && |d.handlers| == |pairs| && NoEmptyEntry(d.table)
    && (forall i :: 0 <= i < k ==> d.handlers[i] == Gone && pairs[i] in d.confirmed)
    && (forall i :: k <= i < |pairs| ==> d.handlers[i] == Checking(pairs[i].0, pairs[i].1))
    && (forall e: Entry, c: Column :: Asked(d.table, e, c) <==> Asked(d0.table, e, c) && (e, c) !in pairs[..k])
  }

  lemma ProgressStep(d0: Download, d: Download, pairs: seq<(Entry, Column)>, k: nat, d': Download)
    requires k < |pairs| && Progressed(d0, d, pairs, k)
    requires d' == d.(handlers := d.handlers[k := Gone], confirmed := d.confirmed + {pairs[k]},
                      table := WithoutColumn(d.table, pairs[k].0, pairs[k].1), cache := None)
    ensures Progressed(d0, d', pairs, k + 1)
  {
    hide WithoutColumn, NoEmptyEntry, Asked;
    WithoutColumnAsks(d.table, pairs[k].0, pairs[k].1);
    assert pairs[..k + 1] == pairs[..k] + [pairs[k]];
  }

  lemma {:induction false} BatchSaved(t: Table, d0: Download, events: seq<Event>, pairs: seq<(Entry, Column)>, k: nat, recover: bool)
    returns (more: seq<Event>)
    requires k <= |pairs| && Progressed(d0, Run(t, events, recover), pairs, k)
    ensures events <= more && Progressed(d0, Run(t, more, recover), pairs, |pairs|)
    decreases |pairs| - k
  {
    hide Run, WithoutColumn, NoEmptyEntry, Asked;
    more := events;
    if k < |pairs| {
      var d := Run(t, events, recover);
      more := RunFreshColumn(t, events, k, pairs[k].0, pairs[k].1, recover);
      assert pairs[k] == (pairs[k].0, pairs[k].1);
      ProgressStep(d0, d, pairs, k, Run(t, more, recover));
      more := BatchSaved(t, d0, more, pairs, k + 1, recover);
    }
  }

  lemma NothingAsked(t: Table)
    requires NoEmptyEntry(t) && forall e: Entry, c: Column :: !Asked(t, e, c)
    ensures t == map[]
  {
    if t != map[] {
      assert t.Keys != {};
      var e :| e in t;
      var c :| c in t[e];
      assert Asked(t, e, c);
    }
  }

  lemma SomethingAsked(t: Table, pairs: seq<(Entry, Column)>)
    requires NoEmptyEntry(t) && t != map[] && forall x :: x in AskedPairs(t) <==> x in pairs
    ensures pairs != []
  {
    assert t.Keys != {};
    var e :| e in t;
    var c :| c in t[e];
    assert (e, c) in AskedPairs(t);
  }

  lemma ProgressBegins(d: Download, pairs: seq<(Entry, Column)>, recover: bool)
    requires d.main == Waiting && Free(d) && pairs != [] && NoEmptyEntry(d.table)
    ensures var d' := Next(d, Receive(Sidecars(pairs)), recover); Progressed(d, d', pairs, 0)
  {
    hide NoEmptyEntry, Asked;
    ReceiveStarts(d, pairs, recover);
  }

  lemma AllSaved(d0: Download, d: Download, pairs: seq<(Entry, Column)>)
    requires Progressed(d0, d, pairs, |pairs|) && forall x :: x in AskedPairs(d0.table) <==> x in pairs
    ensures d.table == map[] && (forall h :: h in d.handlers ==> h == Gone)
    ensures forall e: Entry, c: Column :: Asked(d0.table, e, c) ==> (e, c) in d.confirmed
  {
    hide NoEmptyEntry;
    assert pairs[..|pairs|] == pairs;
    forall e: Entry, c: Column ensures !Asked(d.table, e, c) {
      if Asked(d0.table, e, c) { assert (e, c) in AskedPairs(d0.table); }
    }
    NothingAsked(d.table);
    forall e: Entry, c: Column | Asked(d0.table, e, c) ensures (e, c) in d.confirmed {
      assert (e, c) in AskedPairs(d0.table);
      var i :| 0 <= i < |pairs| && pairs[i] == (e, c);
    }
  }

  /** From every reachable state in which the loop waits and no one reads, one batch with
      every missing column can end the download, with all of them saved. */
  lemma WaitingCanComplete(t: Table, events: seq<Event>, recover: bool) returns (more: seq<Event>)
    requires NoEmptyEntry(t) && Run(t, events, recover).main == Waiting && Free(Run(t, events, recover))
    ensures events <= more
    ensures var (d, d') := (Run(t, events, recover), Run(t, more, recover));
            && d'.main == Left(false)
            && forall e: Entry, c: Column :: Asked(d.table, e, c) ==> (e, c) in d'.confirmed
  {
    var d := Run(t, events, recover);
    RunIsOrderly(t, events, recover);
    assert NoEmptyEntry(d.table) && d.table != map[];
    hide Next, Run, Inv, Orderly, NoEmptyEntry, Asked, AskedPairs, Progressed;
    var pairs := SetAsSeq(AskedPairs(d.table));
    SomethingAsked(d.table, pairs);
    ProgressBegins(d, pairs, recover);
    RunMore(t, events, Receive(Sidecars(pairs)), recover);
    more := BatchSaved(t, d, events + [Receive(Sidecars(pairs))], pairs, 0, recover);
    var d1 := Run(t, more, recover);
    AllSaved(d, d1, pairs);
    ProgressedHandles(d, d1, pairs);
    BatchDone(d1, recover);
    RunMore(t, more, AllHandled, recover);
    more := RunTest(t, more + [AllHandled], recover);
  }

  lemma ProgressedHandles(d0: Download, d: Download, pairs: seq<(Entry, Column)>)
    requires Progressed(d0, d, pairs, |pairs|)
    ensures d.main == Handling && Free(d)
  {
  }

  lemma EnterStarts(d: Download, recover: bool)
    requires d.main == Entering
    ensures Next(d, Enter, recover) == d.(main := if d.table == map[] then Left(false) else Waiting)
  {
  }

  /** From every reachable state but a cancelled one, the loop can come to wait, or leave,
      with no one reading. */
  lemma CanWait(t: Table, events: seq<Event>, recover: bool) returns (more: seq<Event>)
    requires NoEmptyEntry(t) && Run(t, events, recover).main != Left(true)
    ensures events <= more && Free(Run(t, more, recover))
    ensures Run(t, more, recover).main == Waiting || Run(t, more, recover).main == Left(false)
  {
    hide Next, Run, Inv;
    more := ReadersFinish(t, events, recover);
    match Run(t, more, recover).main {
      case Entering =>
        EnterStarts(Run(t, more, recover), recover);
        RunMore(t, more, Enter, recover);
        more := more + [Enter];
      case Waiting =>
      case Sweeping(_) =>
        more := SweepFinishes(t, more, false, recover);
        more := RunTest(t, more, recover);
      case Handling =>
        more := HandlersFinish(t, more, 0, None, false, recover);
        BatchDone(Run(t, more, recover), recover);
        RunMore(t, more, AllHandled, recover);
        more := RunTest(t, more + [AllHandled], recover);
      case Testing => more := RunTest(t, more, recover);
      case Left(_) =>
    }
  }

  /** From every state of every run that was not cancelled, wherever its goroutines stand,
      the download can still be completed: the loop leaves uncancelled, with every column
      that was missing at the start saved or left to recovery. */
  lemma CanComplete(t: Table, events: seq<Event>, recover: bool) returns (more: seq<Event>)
    requires NoEmptyEntry(t) && Run(t, events, recover).main != Left(true)
    ensures events <= more
    ensures var d := Run(t, more, recover);
            && d.main == Left(false)
            && forall e: Entry, c: Column :: Asked(t, e, c) ==> (e, c) in d.confirmed || (recover && e in d.dropped)
  {
    hide Next, Run, Inv, Asked;
    more := CanWait(t, events, recover);
    if Run(t, more, recover).main == Waiting { more := WaitingCanComplete(t, more, recover); }
    DownloadIsComplete(t, more, recover);
  }
}
