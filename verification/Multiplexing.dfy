/** Message multiplexing over the matched protocols: both ends agree on every code
    range, and codes find their way back exactly when the ranges fit in 64 bits. */
module Multiplexing {
  import opened Common
  import opened Capabilities

  // ----- both ends choose alike -----

  /** Each end advertises exactly the capabilities it has. */
  ghost predicate Advertises(protocols: seq<Protocol>, caps: seq<Cap>) {
    forall c :: c in caps <==> Find(protocols, c).Some?
  }

  /** The two ends give the same length to every shared capability. */
  ghost predicate SameLengths(pa: seq<Protocol>, pb: seq<Protocol>) {
    forall c :: Find(pa, c).Some? && Find(pb, c).Some? ==> Find(pa, c).value.length == Find(pb, c).value.length
  }

  ghost predicate Listed(ps: seq<Protocol>, c: Cap) {
    exists i :: 0 <= i < |ps| && CapOf(ps[i]) == c
  }

  /** Lists in strict name order with the same entries are the same list. */
  lemma {:induction false} StrictListsEqual(ps: seq<Protocol>, qs: seq<Protocol>)
    requires StrictlyNamed(ps) && StrictlyNamed(qs) && forall c :: Listed(ps, c) <==> Listed(qs, c)
    ensures |ps| == |qs| && forall i :: 0 <= i < |ps| ==> CapOf(ps[i]) == CapOf(qs[i])
    decreases |ps|
  {
    if ps == [] {
      if qs != [] { assert Listed(qs, CapOf(qs[0])); }
    } else {
      var p := CapOf(ps[|ps| - 1]);
      assert Listed(ps, p);
      var q := CapOf(qs[|qs| - 1]);
      assert Listed(qs, q);
      LastIsLast(ps, qs);
      var ps', qs' := ps[..|ps| - 1], qs[..|qs| - 1];
      forall c ensures Listed(ps', c) <==> Listed(qs', c) {
        ListedInit(ps, c);
        ListedInit(qs, c);
      }
      StrictListsEqual(ps', qs');
      forall i | 0 <= i < |ps| ensures CapOf(ps[i]) == CapOf(qs[i]) {
        if i < |ps'| { assert CapOf(ps'[i]) == CapOf(qs'[i]); }
      }
    }
  }

  lemma LastIsLast(ps: seq<Protocol>, qs: seq<Protocol>)
    requires StrictlyNamed(ps) && StrictlyNamed(qs) && ps != [] && qs != []
    requires Listed(qs, CapOf(ps[|ps| - 1])) && Listed(ps, CapOf(qs[|qs| - 1]))
    ensures CapOf(ps[|ps| - 1]) == CapOf(qs[|qs| - 1])
  {
    var j :| 0 <= j < |qs| && CapOf(qs[j]) == CapOf(ps[|ps| - 1]);
    var i :| 0 <= i < |ps| && CapOf(ps[i]) == CapOf(qs[|qs| - 1]);
    BeforeIsStrict(ps[|ps| - 1].name, qs[|qs| - 1].name);
  }

  /** Without its last entry a strict list lists everything but that. */
  lemma ListedInit(ps: seq<Protocol>, c: Cap)
    requires StrictlyNamed(ps) && ps != []
    ensures Listed(ps[..|ps| - 1], c) <==> Listed(ps, c) && c != CapOf(ps[|ps| - 1])
  {
    var n := |ps| - 1;
    if Listed(ps, c) && c != CapOf(ps[n]) {
      var i :| 0 <= i < |ps| && CapOf(ps[i]) == c;
      assert CapOf(ps[..n][i]) == c;
    }
    if Listed(ps[..n], c) {
      var i :| 0 <= i < n && CapOf(ps[..n][i]) == c;
      assert CapOf(ps[i]) == c;
      BeforeIsStrict(ps[i].name, ps[n].name);
    }
  }

  /** A choice lists exactly the highest shared versions. */
  lemma ChoiceLists(protocols: seq<Protocol>, caps: seq<Cap>, ps: seq<Protocol>, c: Cap)
    requires IsChoice(protocols, caps, |caps|, ps)
    ensures Listed(ps, c) <==> Highest(protocols, caps, |caps|, c)
  {
    if Highest(protocols, caps, |caps|, c) {
      assert Names(ps, c.name);
      var i :| 0 <= i < |ps| && ps[i].name == c.name;
      assert Highest(protocols, caps, |caps|, CapOf(ps[i]));
      assert SharedIn(protocols, caps, |caps|, Cap(c.name, c.version));
      assert SharedIn(protocols, caps, |caps|, Cap(c.name, ps[i].version));
      assert CapOf(ps[i]) == c;
    }
  }

  lemma SharedBothWays(pa: seq<Protocol>, capsA: seq<Cap>, pb: seq<Protocol>, capsB: seq<Cap>, c: Cap)
    requires Advertises(pa, capsA) && Advertises(pb, capsB)
    ensures SharedIn(pa, capsB, |capsB|, c) <==> SharedIn(pb, capsA, |capsA|, c)
    ensures Highest(pa, capsB, |capsB|, c) <==> Highest(pb, capsA, |capsA|, c)
  {
    assert capsA[..|capsA|] == capsA && capsB[..|capsB|] == capsB;
  }

  lemma SortedAdvertises(sort: seq<Cap> -> seq<Cap>, protocols: seq<Protocol>, caps: seq<Cap>)
    requires Sorts(sort) && Advertises(protocols, caps)
    ensures Advertises(protocols, sort(caps)) && Sorted(sort(caps))
  {
    hide Sorted, Find;
    forall c ensures c in sort(caps) <==> c in caps {
      assert multiset(sort(caps)) == multiset(caps);
      assert c in sort(caps) <==> c in multiset(sort(caps));
      assert c in caps <==> c in multiset(caps);
    }
  }

  /** Two-ended agreement: both ends choose the same protocols in the same order,
      and with equal lengths give them the same offsets. */
  lemma TwoEndsAgree(pa: seq<Protocol>, capsA: seq<Cap>, pb: seq<Protocol>, capsB: seq<Cap>)
    requires Advertises(pa, capsA) && Advertises(pb, capsB) && SameLengths(pa, pb)
    requires Sorted(capsA) && Sorted(capsB)
    ensures var ps, qs := Chosen(pa, capsB, |capsB|), Chosen(pb, capsA, |capsA|);
            && |ps| == |qs|
            && (forall i :: 0 <= i < |ps| ==> CapOf(ps[i]) == CapOf(qs[i]) && ps[i].length == qs[i].length)
            && (forall i :: 0 <= i <= |ps| ==> Offset(ps, i) == Offset(qs, i))
  {
    var ps, qs := Chosen(pa, capsB, |capsB|), Chosen(pb, capsA, |capsA|);
    ChosenIsChoice(pa, capsB, |capsB|);
    ChosenIsChoice(pb, capsA, |capsA|);
    hide Chosen, Highest, Find, Sorted;
    forall c ensures Listed(ps, c) <==> Listed(qs, c) {
      ChoiceLists(pa, capsB, ps, c);
      ChoiceLists(pb, capsA, qs, c);
      SharedBothWays(pa, capsA, pb, capsB, c);
    }
    StrictListsEqual(ps, qs);
    forall i | 0 <= i <= |ps| ensures Offset(ps, i) == Offset(qs, i) { SameOffsets(ps, qs, i); }
  }

  lemma {:induction false} SameOffsets(ps: seq<Protocol>, qs: seq<Protocol>, i: nat)
    requires |ps| == |qs| && (forall j :: 0 <= j < |ps| ==> ps[j].length == qs[j].length) && i <= |ps|
    ensures Offset(ps, i) == Offset(qs, i)
  {
    if i != 0 { SameOffsets(ps, qs, i - 1); }
  }

  // ----- the running map -----

  /** A matched protocol with the offset the program computed for it. */
  datatype ProtoRW = ProtoRW(proto: Protocol, offset: uint64)

  /** What a 64-bit register holds of a number. */
  function Wrapped(x: nat): uint64 { x % TWO_64 }

  /** The running map and offset are those of `ps`, offsets taken in 64 bits. */
  ghost predicate Represents(result: map<Name, ProtoRW>, offset: uint64, ps: seq<Protocol>) {
    && offset == Wrapped(Offset(ps, |ps|))
    && (forall i :: 0 <= i < |ps| ==>
         ps[i].name in result && result[ps[i].name] == ProtoRW(ps[i], Wrapped(Offset(ps, i))))
    && (forall n :: n in result ==> Names(ps, n))
  }

  lemma {:induction false} OffsetPrefix(ps: seq<Protocol>, qs: seq<Protocol>, i: nat)
    requires i <= |ps| && i <= |qs| && forall j :: 0 <= j < i ==> ps[j] == qs[j]
    ensures Offset(ps, i) == Offset(qs, i)
  {
    if i != 0 { OffsetPrefix(ps, qs, i - 1); }
  }

  lemma OffsetStep(ps: seq<Protocol>, i: nat)
    requires i < |ps|
    ensures Offset(ps, i + 1) == Offset(ps, i) + ps[i].length
  {
  }

  lemma WrapAdd(x: nat, y: uint64)
    ensures Add64(Wrapped(x), y) == Wrapped(x + y)
  {
  }

  lemma WrapSub(x: nat, y: uint64)
    ensures Sub64(Wrapped(x + y), y) == Wrapped(x)
  {
  }

  /** Where a match starts: an older version of the same name is reverted first. */
  function StartAt(result: map<Name, ProtoRW>, offset: uint64, name: Name): uint64 {
    if name in result then Sub64(offset, result[name].proto.length) else offset
  }

  /** Only the last entry can carry the incoming name. */
  ghost predicate OnlyLast(ps: seq<Protocol>, name: Name) {
    forall i :: 0 <= i < |ps| && ps[i].name == name ==> i == |ps| - 1
  }

  lemma StartIsOffset(result: map<Name, ProtoRW>, offset: uint64, ps: seq<Protocol>, name: Name)
    requires Represents(result, offset, ps) && OnlyLast(ps, name)
    ensures StartAt(result, offset, name) == Wrapped(Offset(Kept(ps, name), |Kept(ps, name)|))
  {
    hide Wrapped, Sub64, Offset;
    var base := Kept(ps, name);
    OffsetPrefix(ps, base, |base|);
    if name in result {
      assert Names(ps, name);
      OffsetStep(ps, |base|);
      WrapSub(Offset(ps, |base|), ps[|base|].length);
    }
  }

  lemma AssignedEntry(result: map<Name, ProtoRW>, offset: uint64, ps: seq<Protocol>, p: Protocol, i: nat)
    requires Represents(result, offset, ps) && OnlyLast(ps, p.name) && i < |Kept(ps, p.name)|
    ensures ps[i].name != p.name && ps[i].name in result
    ensures result[ps[i].name] == ProtoRW(ps[i], Wrapped(Offset(Kept(ps, p.name) + [p], i)))
  {
    hide Wrapped, Offset, Names;
    OffsetPrefix(ps, Kept(ps, p.name) + [p], i);
  }

  lemma AssignedNames(ps: seq<Protocol>, p: Protocol, m: Name)
    requires Names(ps, m) || m == p.name
    ensures Names(Kept(ps, p.name) + [p], m)
  {
    var base := Kept(ps, p.name);
    var qs := base + [p];
    if m == p.name {
      assert qs[|base|].name == m;
    } else {
      var i :| 0 <= i < |ps| && ps[i].name == m;
      assert qs[i].name == m;
    }
  }

  lemma AssignedOffset(result: map<Name, ProtoRW>, offset: uint64, ps: seq<Protocol>, p: Protocol)
    requires Represents(result, offset, ps) && OnlyLast(ps, p.name)
    ensures var base := Kept(ps, p.name);
            && StartAt(result, offset, p.name) == Wrapped(Offset(base + [p], |base|))
            && Add64(StartAt(result, offset, p.name), p.length) == Wrapped(Offset(base + [p], |base| + 1))
  {
    hide Wrapped, Add64, StartAt, Offset, Represents, OnlyLast;
    StartIsOffset(result, offset, ps, p.name);
    var base := Kept(ps, p.name);
    OffsetPrefix(base, base + [p], |base|);
    OffsetStep(base + [p], |base|);
    WrapAdd(Offset(base + [p], |base|), p.length);
  }

  /** One match: reverting an older version and assigning the new one. */
  lemma AssignKeeps(result: map<Name, ProtoRW>, offset: uint64, ps: seq<Protocol>, p: Protocol)
    requires Represents(result, offset, ps) && OnlyLast(ps, p.name)
    ensures var start := StartAt(result, offset, p.name);
            Represents(result[p.name := ProtoRW(p, start)], Add64(start, p.length), Kept(ps, p.name) + [p])
  {
    hide Wrapped, Add64, StartAt, Offset, Names, OnlyLast;
    AssignedOffset(result, offset, ps, p);
    var start := StartAt(result, offset, p.name);
    var qs := Kept(ps, p.name) + [p];
    var result' := result[p.name := ProtoRW(p, start)];
    forall i | 0 <= i < |qs| ensures qs[i].name in result' && result'[qs[i].name] == ProtoRW(qs[i], Wrapped(Offset(qs, i))) {
      if i < |qs| - 1 { AssignedEntry(result, offset, ps, p, i); }
    }
    forall m | m in result' ensures Names(qs, m) { AssignedNames(ps, p, m); }
  }

  /** The entries `matchProtocols` settles on for these local protocols and remote
      capabilities. */
  function MatchedList(sort: seq<Cap> -> seq<Cap>, protocols: seq<Protocol>, remote: seq<Cap>): seq<Protocol> {
    Chosen(protocols, sort(remote), |sort(remote)|)
  }

  /** `matchProtocols`: sort the remote's capabilities, then assign ranges in order. */
  method MatchProtocols(sort: seq<Cap> -> seq<Cap>, protocols: seq<Protocol>, remote: seq<Cap>)
    returns (result: map<Name, ProtoRW>, offset: uint64)
    requires Sorts(sort)
    ensures Represents(result, offset, MatchedList(sort, protocols, remote))
  {
    hide Represents, Chosen, Sorted;
    var caps := sort(remote);
    assert Sorted(caps);
    offset, result := BASE_PROTOCOL_LENGTH, map[];
    ChosenNone(protocols, caps);
    for k := 0 to |caps|
      invariant Represents(result, offset, Chosen(protocols, caps, k))
    {
      ghost var ps := Chosen(protocols, caps, k);
      var cap := caps[k];
      var i := 0;
      while i < |protocols| && !(protocols[i].name == cap.name && protocols[i].version == cap.version)
        invariant 0 <= i <= |protocols|
        invariant Find(protocols[i..], cap) == Find(protocols, cap)
      {
        i := i + 1;
      }
      ChosenMore(protocols, caps, k + 1);
      if i < |protocols| {
        var proto := protocols[i];
        LastOfItsName(protocols, caps, k + 1);
        AssignKeeps(result, offset, ps, proto);
        if cap.name in result { offset := Sub64(offset, result[cap.name].proto.length); }
        result := result[cap.name := ProtoRW(proto, offset)];
        offset := Add64(offset, proto.length);
      }
    }
  }

  lemma ChosenNone(protocols: seq<Protocol>, caps: seq<Cap>)
    ensures Represents(map[], BASE_PROTOCOL_LENGTH, Chosen(protocols, caps, 0))
  {
  }

  lemma ChosenMore(protocols: seq<Protocol>, caps: seq<Cap>, k: nat)
    requires 0 < k <= |caps|
    ensures Chosen(protocols, caps, k)
         == match Find(protocols, caps[k - 1])
            case None => Chosen(protocols, caps, k - 1)
            case Some(p) => Kept(Chosen(protocols, caps, k - 1), p.name) + [p]
  {
  }

  lemma LastOfItsName(protocols: seq<Protocol>, caps: seq<Cap>, k: nat)
    requires Sorted(caps) && 0 < k <= |caps|
    ensures OnlyLast(Chosen(protocols, caps, k - 1), caps[k - 1].name)
  {
    hide IsChoice, Chosen, Sorted;
    ChosenIsChoice(protocols, caps, k - 1);
    var ps := Chosen(protocols, caps, k - 1);
    forall i | 0 <= i < |ps| && ps[i].name == caps[k - 1].name ensures i == |ps| - 1 {
      ChosenBefore(protocols, caps, k, ps, i);
    }
  }

  // ----- routing a code -----

  /** The test by which a received code is attributed to a protocol. */
  predicate Carries(e: ProtoRW, code: uint64) {
    e.offset <= code < Add64(e.offset, e.proto.length)
  }

  /** `getProto`, visiting the map in any order. */
  method GetProto(running: map<Name, ProtoRW>, order: seq<Name>, code: uint64) returns (r: Option<ProtoRW>)
    requires forall n :: n in order <==> n in running
    ensures r.Some? ==> Carries(r.value, code) && exists n :: n in running && running[n] == r.value
    ensures r.None? ==> forall n :: n in running ==> !Carries(running[n], code)
  {
    for i := 0 to |order|
      invariant forall j :: 0 <= j < i ==> !Carries(running[order[j]], code)
    {
      if Carries(running[order[i]], code) { return Some(running[order[i]]); }
    }
    return None;
  }

  /** A message code as written on the wire; codes past the protocol's length are
      refused. */
  function WriteCode(e: ProtoRW, code: uint64): Option<uint64> {
    if code >= e.proto.length then None else Some(Add64(code, e.offset))
  }

  function ReadCode(e: ProtoRW, code: uint64): uint64 {
    Sub64(code, e.offset)
  }

  function Entry(ps: seq<Protocol>, i: nat): ProtoRW
    requires i < |ps|
  {
    ProtoRW(ps[i], Wrapped(Offset(ps, i)))
  }

  /** Every code of every protocol comes back under that protocol, alone. */
  ghost predicate RoundTrips(ps: seq<Protocol>) {
    forall i, code: uint64 :: 0 <= i < |ps| && code < ps[i].length ==> Returns(ps, i, code)
  }

  ghost predicate Returns(ps: seq<Protocol>, i: nat, code: uint64)
    requires i < |ps| && code < ps[i].length
  {
    var wire := Add64(code, Wrapped(Offset(ps, i)));
    && (forall j :: 0 <= j < |ps| ==> (Carries(Entry(ps, j), wire) <==> j == i))
    && ReadCode(Entry(ps, i), wire) == code && wire >= BASE_PROTOCOL_LENGTH
  }

  lemma {:induction false} OffsetsGrow(ps: seq<Protocol>, i: nat, j: nat)
    requires i < j <= |ps|
    ensures Offset(ps, i) + ps[i].length <= Offset(ps, j) && Offset(ps, i) >= BASE_PROTOCOL_LENGTH
    decreases j
  {
    if i + 1 < j { OffsetsGrow(ps, i, j - 1); } else { OffsetsFromBase(ps, i); }
  }

  lemma {:induction false} OffsetsFromBase(ps: seq<Protocol>, i: nat)
    requires i <= |ps|
    ensures Offset(ps, i) >= BASE_PROTOCOL_LENGTH
  {
    if i != 0 { OffsetsFromBase(ps, i - 1); }
  }

  lemma CodeReturns(ps: seq<Protocol>, i: nat, code: uint64)
    requires Offset(ps, |ps|) < TWO_64 && i < |ps| && code < ps[i].length
    ensures Returns(ps, i, code)
  {
    OffsetsGrow(ps, i, |ps|);
    forall j | 0 <= j < |ps| ensures Carries(Entry(ps, j), Add64(code, Wrapped(Offset(ps, i)))) <==> j == i {
      OffsetsGrow(ps, j, |ps|);
      if i < j { OffsetsGrow(ps, i, j); } else if j < i { OffsetsGrow(ps, j, i); }
    }
  }

  /** The protocol whose range crosses 2^64 does not get its own first code back. */
  lemma {:induction false} SomeCodeIsLost(ps: seq<Protocol>, n: nat)
    requires n <= |ps| && Offset(ps, n) >= TWO_64
    ensures exists i :: 0 <= i < n && 0 < ps[i].length && !Returns(ps, i, 0)
  {
    if Offset(ps, n - 1) >= TWO_64 {
      SomeCodeIsLost(ps, n - 1);
    } else {
      assert !Carries(Entry(ps, n - 1), Add64(0, Wrapped(Offset(ps, n - 1))));
      assert !Returns(ps, n - 1, 0);
    }
  }

  /** Multiplexing is sound exactly when all ranges together stay below 2^64. */
  lemma RoundTripsIffRangesFit(ps: seq<Protocol>)
    ensures RoundTrips(ps) <==> Offset(ps, |ps|) < TWO_64
  {
    if Offset(ps, |ps|) < TWO_64 {
      forall i, code: uint64 | 0 <= i < |ps| && code < ps[i].length ensures Returns(ps, i, code) {
        CodeReturns(ps, i, code);
      }
    } else {
      SomeCodeIsLost(ps, |ps|);
    }
  }

  /** While the ranges fit, whatever code a protocol tries to write: it gets onto the wire
      exactly if it is one of its own, and then within its own range, past the sixteen codes
      of the base protocol. */
  lemma WritesOnlyItsOwn(ps: seq<Protocol>, i: nat, code: uint64)
    requires Offset(ps, |ps|) < TWO_64 && i < |ps|
    ensures var wire := WriteCode(Entry(ps, i), code);
            && (wire.Some? <==> code < ps[i].length)
            && (wire.Some? ==> wire.value >= 16 && forall j :: 0 <= j < |ps| ==> (Carries(Entry(ps, j), wire.value) <==> j == i))
  {
    hide Carries, Wrapped, Offset;
    if code < ps[i].length { CodeReturns(ps, i, code); }
  }

  /** End to end: a code written under a protocol by one peer is read by the other
      under the same name and version, as the same code, whatever the order in which
      the receiver visits its map. */
  lemma DeliveredUnderTheSameProtocol(
      sa: seq<Cap> -> seq<Cap>, pa: seq<Protocol>, capsA: seq<Cap>, ra: map<Name, ProtoRW>, oa: uint64,
      sb: seq<Cap> -> seq<Cap>, pb: seq<Protocol>, capsB: seq<Cap>, rb: map<Name, ProtoRW>, ob: uint64,
      name: Name, code: uint64)
    requires Sorts(sa) && Sorts(sb)
    requires Advertises(pa, capsA) && Advertises(pb, capsB) && SameLengths(pa, pb)
    requires Represents(ra, oa, MatchedList(sa, pa, capsB)) && Represents(rb, ob, MatchedList(sb, pb, capsA))
    requires Offset(MatchedList(sa, pa, capsB), |MatchedList(sa, pa, capsB)|) < TWO_64
    requires name in ra && code < ra[name].proto.length
    ensures name in rb && CapOf(rb[name].proto) == CapOf(ra[name].proto)
    ensures WriteCode(ra[name], code).Some?
    ensures var wire := WriteCode(ra[name], code).value;
            && (forall n :: n in rb ==> (Carries(rb[n], wire) <==> n == name))
            && ReadCode(rb[name], wire) == code
  {
    hide MatchedList, Offset, Wrapped, Carries, Find, Sorted, Sorts;
    var ps, qs := MatchedList(sa, pa, capsB), MatchedList(sb, pb, capsA);
    MatchedListsAgree(sa, pa, capsA, sb, pb, capsB);
    assert Names(ps, name);
    var i :| 0 <= i < |ps| && ps[i].name == name;
    assert rb[qs[i].name] == Entry(qs, i);
    CodeReturns(qs, i, code);
    forall n | n in rb ensures Carries(rb[n], WriteCode(ra[name], code).value) <==> n == name {
      assert Names(qs, n);
      var j :| 0 <= j < |qs| && qs[j].name == n;
      assert rb[n] == Entry(qs, j);
      if n == name { MatchedListStrict(sb, pb, capsA, i, j); }
    }
  }

  /** The two ends may even sort differently. */
  lemma MatchedListsAgree(sa: seq<Cap> -> seq<Cap>, pa: seq<Protocol>, capsA: seq<Cap>,
                          sb: seq<Cap> -> seq<Cap>, pb: seq<Protocol>, capsB: seq<Cap>)
    requires Sorts(sa) && Sorts(sb)
    requires Advertises(pa, capsA) && Advertises(pb, capsB) && SameLengths(pa, pb)
    ensures var ps, qs := MatchedList(sa, pa, capsB), MatchedList(sb, pb, capsA);
            && |ps| == |qs|
            && (forall i :: 0 <= i < |ps| ==> CapOf(ps[i]) == CapOf(qs[i]) && ps[i].length == qs[i].length)
            && (forall i :: 0 <= i <= |ps| ==> Offset(ps, i) == Offset(qs, i))
  {
    hide Sorted, Chosen, Advertises, Offset, Sorts;
    SortedAdvertises(sb, pa, capsA);
    SortedAdvertises(sa, pb, capsB);
    TwoEndsAgree(pa, sb(capsA), pb, sa(capsB));
  }

  lemma MatchedListStrict(sort: seq<Cap> -> seq<Cap>, protocols: seq<Protocol>, remote: seq<Cap>, i: nat, j: nat)
    requires Sorts(sort)
    requires i < |MatchedList(sort, protocols, remote)| && j < |MatchedList(sort, protocols, remote)|
    requires MatchedList(sort, protocols, remote)[i].name == MatchedList(sort, protocols, remote)[j].name
    ensures i == j
  {
    hide Chosen, Sorted, Highest, Find;
    ChosenIsChoice(protocols, sort(remote), |sort(remote)|);
    var ps := MatchedList(sort, protocols, remote);
    BeforeIsStrict(ps[i].name, ps[j].name);
  }
}
