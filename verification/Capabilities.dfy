/** devp2p capability matching: which subprotocols two peers share, and which
    message-code range each of them gets on the shared connection. */
module Capabilities {
  import opened Common

  const BASE_PROTOCOL_LENGTH: nat := 16

  type Name = string

  datatype Cap = Cap(name: Name, version: nat)

  datatype Protocol = Protocol(name: Name, version: nat, length: uint64)

  function CapOf(p: Protocol): Cap { Cap(p.name, p.version) }

  // ----- the order of capabilities -----

  predicate Before(a: Name, b: Name) {
    b != [] && (a == [] || a[0] < b[0] || (a[0] == b[0] && Before(a[1..], b[1..])))
  }

  lemma {:induction false} BeforeIsStrict(a: Name, b: Name)
    ensures !(Before(a, b) && Before(b, a)) && !Before(a, a)
    ensures a != b ==> Before(a, b) || Before(b, a)
  {
    if a != [] { BeforeIsStrict(a[1..], a[1..]); }
    if a != [] && b != [] {
      BeforeIsStrict(a[1..], b[1..]);
      if a[0] == b[0] && a[1..] == b[1..] { assert a == [a[0]] + a[1..] && b == [b[0]] + b[1..]; }
    }
  }

  /** By name, then by version. */
  predicate Less(a: Cap, b: Cap) {
    Before(a.name, b.name) || (a.name == b.name && a.version < b.version)
  }

  lemma {:induction false} BeforeChains(a: Name, b: Name, c: Name)
    requires Before(a, b) && Before(b, c)
    ensures Before(a, c)
  {
    if a != [] && a[0] == b[0] && b[0] == c[0] { BeforeChains(a[1..], b[1..], c[1..]); }
  }

  /** The order of capabilities is strict and total, so a list can be sorted by it; with one
      name it is the order of versions. */
  lemma LessIsOrder(a: Cap, b: Cap, c: Cap)
    ensures !Less(a, a) && !(Less(a, b) && Less(b, a))
    ensures a != b ==> Less(a, b) || Less(b, a)
    ensures Less(a, b) && Less(b, c) ==> Less(a, c)
    ensures a.name == b.name ==> (Less(a, b) <==> a.version < b.version)
  {
    hide Before;
    BeforeIsStrict(a.name, b.name);
    BeforeIsStrict(b.name, c.name);
    if Before(a.name, b.name) && Before(b.name, c.name) { BeforeChains(a.name, b.name, c.name); }
  }

  ghost predicate Sorted(caps: seq<Cap>) {
    forall i, j :: 0 <= i < j < |caps| ==> !Less(caps[j], caps[i])
  }

  /** What a sorting routine guarantees: the same capabilities, in order. */
  ghost predicate Sorts(sort: seq<Cap> -> seq<Cap>) {
    forall caps :: Sorted(sort(caps)) && multiset(sort(caps)) == multiset(caps)
  }

  // ----- matching as a running list -----

  /** The first local protocol with this name and version. */
  function Find(protocols: seq<Protocol>, cap: Cap): Option<Protocol> {
    if protocols == [] then None
    else if CapOf(protocols[0]) == cap then Some(protocols[0])
    else Find(protocols[1..], cap)
  }

  /** What is chosen after the first `k` capabilities: one protocol per name, a
      later version replacing an earlier one. */
  function Chosen(protocols: seq<Protocol>, caps: seq<Cap>, k: nat): seq<Protocol>
    requires k <= |caps|
  {
    if k == 0 then []
    else
      var ps := Chosen(protocols, caps, k - 1);
      match Find(protocols, caps[k - 1])
      case None => ps
      case Some(p) => Kept(ps, p.name) + [p]
  }

  /** What stays when a protocol called `name` comes in: a last entry of that name goes. */
  function Kept(ps: seq<Protocol>, name: Name): seq<Protocol> {
    if ps != [] && ps[|ps| - 1].name == name then ps[..|ps| - 1] else ps
  }

  /** The first code of the `i`th protocol, as an unbounded number. */
  function Offset(ps: seq<Protocol>, i: nat): nat
    requires i <= |ps|
  {
    if i == 0 then BASE_PROTOCOL_LENGTH else Offset(ps, i - 1) + ps[i - 1].length
  }

  ghost predicate StrictlyNamed(ps: seq<Protocol>) {
    forall i, j :: 0 <= i < j < |ps| ==> Before(ps[i].name, ps[j].name)
  }

  // ----- what is chosen -----

  /** The capability is local and among the remote's first `k`. */
  ghost predicate SharedIn(protocols: seq<Protocol>, caps: seq<Cap>, k: nat, c: Cap)
    requires k <= |caps|
  {
    c in caps[..k] && Find(protocols, c).Some?
  }

  /** The highest shared version of its name. */
  ghost predicate Highest(protocols: seq<Protocol>, caps: seq<Cap>, k: nat, c: Cap)
    requires k <= |caps|
  {
    && SharedIn(protocols, caps, k, c)
    && forall v: nat :: SharedIn(protocols, caps, k, Cap(c.name, v)) ==> v <= c.version
  }

  lemma {:induction false} FindFinds(protocols: seq<Protocol>, cap: Cap)
    ensures Find(protocols, cap).Some? ==> CapOf(Find(protocols, cap).value) == cap && Find(protocols, cap).value in protocols
    ensures Find(protocols, cap).Some? <==> exists i :: 0 <= i < |protocols| && CapOf(protocols[i]) == cap
  {
    if protocols != [] {
      FindFinds(protocols[1..], cap);
      if exists i :: 0 <= i < |protocols| && CapOf(protocols[i]) == cap {
        var i :| 0 <= i < |protocols| && CapOf(protocols[i]) == cap;
        if i > 0 { assert CapOf(protocols[1..][i - 1]) == cap; }
      }
    }
  }

  /** `ps` is the choice the specification asks for: names in order, each with its
      highest shared version, and every shared name present. */
  ghost predicate IsChoice(protocols: seq<Protocol>, caps: seq<Cap>, k: nat, ps: seq<Protocol>)
    requires k <= |caps|
  {
    && StrictlyNamed(ps)
    && (forall i :: 0 <= i < |ps| ==>
         Highest(protocols, caps, k, CapOf(ps[i])) && Find(protocols, CapOf(ps[i])) == Some(ps[i]))
    && (forall c :: SharedIn(protocols, caps, k, c) ==> Names(ps, c.name))
  }

  ghost predicate Names(ps: seq<Protocol>, name: Name) {
    exists i :: 0 <= i < |ps| && ps[i].name == name
  }

  lemma TakeMore(caps: seq<Cap>, k: nat, c: Cap)
    requires 0 < k <= |caps|
    ensures c in caps[..k] <==> c in caps[..k - 1] || c == caps[k - 1]
  {
    assert caps[..k] == caps[..k - 1] + [caps[k - 1]];
  }

  /** In sorted order a capability comes no later than any after it. */
  lemma EarlierCap(caps: seq<Cap>, k: nat, c: Cap)
    requires Sorted(caps) && 0 < k <= |caps| && c in caps[..k - 1]
    ensures c.name == caps[k - 1].name ==> c.version <= caps[k - 1].version
    ensures c.name != caps[k - 1].name ==> Before(c.name, caps[k - 1].name)
  {
    var i :| 0 <= i < k - 1 && caps[i] == c;
    BeforeIsStrict(c.name, caps[k - 1].name);
  }

  lemma HighestStays(protocols: seq<Protocol>, caps: seq<Cap>, k: nat, c: Cap)
    requires 0 < k <= |caps| && Highest(protocols, caps, k - 1, c)
    requires Find(protocols, caps[k - 1]).None? || caps[k - 1].name != c.name
    ensures Highest(protocols, caps, k, c)
  {
    TakeMore(caps, k, c);
    forall v: nat | SharedIn(protocols, caps, k, Cap(c.name, v)) ensures v <= c.version {
      TakeMore(caps, k, Cap(c.name, v));
    }
  }

  lemma HighestNow(protocols: seq<Protocol>, caps: seq<Cap>, k: nat)
    requires Sorted(caps) && 0 < k <= |caps| && Find(protocols, caps[k - 1]).Some?
    ensures Highest(protocols, caps, k, caps[k - 1])
  {
    var c := caps[k - 1];
    TakeMore(caps, k, c);
    forall v: nat | SharedIn(protocols, caps, k, Cap(c.name, v)) ensures v <= c.version {
      TakeMore(caps, k, Cap(c.name, v));
      if Cap(c.name, v) in caps[..k - 1] { EarlierCap(caps, k, Cap(c.name, v)); }
    }
  }

  /** The names chosen so far come before a capability with a new name. */
  lemma ChosenBefore(protocols: seq<Protocol>, caps: seq<Cap>, k: nat, ps: seq<Protocol>, i: nat)
    requires Sorted(caps) && 0 < k <= |caps| && IsChoice(protocols, caps, k - 1, ps) && i < |ps|
    ensures ps[i].name == caps[k - 1].name || Before(ps[i].name, caps[k - 1].name)
    ensures ps[i].name == caps[k - 1].name ==> i == |ps| - 1
  {
    EarlierCap(caps, k, CapOf(ps[i]));
    if i < |ps| - 1 {
      EarlierCap(caps, k, CapOf(ps[|ps| - 1]));
      assert Before(ps[i].name, ps[|ps| - 1].name);
      BeforeIsStrict(ps[i].name, ps[|ps| - 1].name);
    }
  }

  lemma {:induction false} ChosenIsChoice(protocols: seq<Protocol>, caps: seq<Cap>, k: nat)
    requires Sorted(caps) && k <= |caps|
    ensures IsChoice(protocols, caps, k, Chosen(protocols, caps, k))
  {
    hide IsChoice, Sorted, Find, Kept;
    if k == 0 {
      ChooseNothing(protocols, caps);
    } else {
      ChosenIsChoice(protocols, caps, k - 1);
      FindFinds(protocols, caps[k - 1]);
      match Find(protocols, caps[k - 1])
      case None => ChooseNone(protocols, caps, k, Chosen(protocols, caps, k - 1));
      case Some(p) => ChooseSome(protocols, caps, k, Chosen(protocols, caps, k - 1), p);
    }
  }

  lemma ChooseNothing(protocols: seq<Protocol>, caps: seq<Cap>)
    ensures IsChoice(protocols, caps, 0, [])
  {
    assert caps[..0] == [];
  }

  lemma ChooseNone(protocols: seq<Protocol>, caps: seq<Cap>, k: nat, ps: seq<Protocol>)
    requires 0 < k <= |caps| && IsChoice(protocols, caps, k - 1, ps) && Find(protocols, caps[k - 1]).None?
    ensures IsChoice(protocols, caps, k, ps)
  {
    hide Highest, Find;
    forall i | 0 <= i < |ps| ensures Highest(protocols, caps, k, CapOf(ps[i])) {
      HighestStays(protocols, caps, k, CapOf(ps[i]));
    }
    forall c | SharedIn(protocols, caps, k, c) ensures SharedIn(protocols, caps, k - 1, c) { TakeMore(caps, k, c); }
  }

  /** A capability that matches: what is kept comes before it, and it is the highest
      of its name so far. */
  lemma ChooseSome(protocols: seq<Protocol>, caps: seq<Cap>, k: nat, ps: seq<Protocol>, p: Protocol)
    requires Sorted(caps) && 0 < k <= |caps| && IsChoice(protocols, caps, k - 1, ps)
    requires Find(protocols, caps[k - 1]) == Some(p) && CapOf(p) == caps[k - 1]
    ensures IsChoice(protocols, caps, k, Kept(ps, p.name) + [p])
  {
    hide Highest, Find, Sorted;
    var base := Kept(ps, p.name);
    forall i | 0 <= i < |base| ensures Before(base[i].name, p.name) && Highest(protocols, caps, k, CapOf(base[i])) {
      ChosenBefore(protocols, caps, k, ps, i);
      BeforeIsStrict(base[i].name, p.name);
      HighestStays(protocols, caps, k, CapOf(base[i]));
    }
    HighestNow(protocols, caps, k);
    KeptNames(protocols, caps, k, ps, p);
  }

  lemma KeptNames(protocols: seq<Protocol>, caps: seq<Cap>, k: nat, ps: seq<Protocol>, p: Protocol)
    requires 0 < k <= |caps| && IsChoice(protocols, caps, k - 1, ps) && CapOf(p) == caps[k - 1]
    ensures forall c :: SharedIn(protocols, caps, k, c) ==> Names(Kept(ps, p.name) + [p], c.name)
  {
    hide Highest, Find;
    var qs := Kept(ps, p.name) + [p];
    assert qs[|qs| - 1].name == p.name;
    forall c | SharedIn(protocols, caps, k, c) ensures Names(qs, c.name) {
      TakeMore(caps, k, c);
      if c.name != p.name {
        var i :| 0 <= i < |ps| && ps[i].name == c.name;
        assert qs[i].name == c.name;
      }
    }
  }
}
