/** The expiry heap of the dial and inbound histories: a binary heap kept in a
    slice by sift-up and sift-down, ordered by expiry time. */
module ExpiryHeap {

  type Key = nat
  type Time = int

  datatype Item = Item(key: Key, exp: Time)

  function Parent(i: nat): nat
    requires i > 0
  {
    (i - 1) / 2
  }

  /** The item at `i` expires no earlier than its parent. */
  ghost predicate Ordered(s: seq<Item>, i: nat)
    requires 0 < i < |s|
  {
    s[Parent(i)].exp <= s[i].exp
  }

  ghost predicate IsHeap(s: seq<Item>) {
    forall i :: 0 < i < |s| ==> Ordered(s, i)
  }

  function Swapped(s: seq<Item>, i: nat, j: nat): (r: seq<Item>)
    requires i < |s| && j < |s|
    ensures |r| == |s| && multiset(r) == multiset(s)
  {
    s[i := s[j]][j := s[i]]
  }

  /** The root expires first. */
  lemma {:induction false} RootIsLeast(s: seq<Item>, i: nat)
    requires IsHeap(s) && i < |s|
    ensures s[0].exp <= s[i].exp
  {
    if i > 0 {
      RootIsLeast(s, Parent(i));
      assert Ordered(s, i);
    }
  }

  /** A heap but for the edge above `j`; the hole's grandparent edges hold. */
  ghost predicate HeapButAbove(s: seq<Item>, j: nat) {
    && j < |s|
    && (forall i :: 0 < i < |s| && i != j ==> Ordered(s, i))
    && (forall i :: 0 < i < |s| && Parent(i) == j && j > 0 ==> s[Parent(j)].exp <= s[i].exp)
  }

  /** The first `n` items form a heap but for the edges below `i`. */
  ghost predicate HeapButBelow(s: seq<Item>, n: nat, i: nat) {
    && n <= |s|
    && (forall k :: 0 < k < n && Parent(k) != i ==> Ordered(s, k))
    && (forall k :: 0 < k < n && Parent(k) == i && i > 0 ==> s[Parent(i)].exp <= s[k].exp)
  }

  /** Moving a too-early item one level up moves the hole with it. */
  lemma SiftUpStep(s: seq<Item>, j: nat)
    requires HeapButAbove(s, j) && j > 0 && s[j].exp < s[Parent(j)].exp
    ensures HeapButAbove(Swapped(s, j, Parent(j)), Parent(j))
  {
    var p := Parent(j);
    var r := Swapped(s, j, p);
    forall i | 0 < i < |r| && i != p ensures Ordered(r, i) {
      if i != j { assert Ordered(s, i); }
    }
    forall i | 0 < i < |r| && Parent(i) == p && p > 0 ensures r[Parent(p)].exp <= r[i].exp {
      assert Ordered(s, p);
      if i != j { assert Ordered(s, i); }
    }
  }

  /** Moving the earlier child up moves the hole down to its place. */
  lemma SiftDownStep(s: seq<Item>, n: nat, i: nat, j: nat)
    requires HeapButBelow(s, n, i) && 0 < j < n && Parent(j) == i && s[j].exp < s[i].exp
    requires ChildrenFrom(s, n, i, j)
    ensures HeapButBelow(Swapped(s, i, j), n, j)
  {
    var r := Swapped(s, i, j);
    forall k | 0 < k < n && Parent(k) != j ensures Ordered(r, k) {
      if Parent(k) != i { assert Ordered(s, k); }
    }
    forall k | 0 < k < n && Parent(k) == j && j > 0 ensures r[Parent(j)].exp <= r[k].exp {
      assert Ordered(s, k);
    }
  }

  /** No child of `i` expires before the item at `j`. */
  ghost predicate ChildrenFrom(s: seq<Item>, n: nat, i: nat, j: nat)
    requires n <= |s| && j < |s|
  {
    forall k :: 0 < k < n && Parent(k) == i ==> s[j].exp <= s[k].exp
  }

  lemma EarlierChild(s: seq<Item>, n: nat, i: nat, j: nat)
    requires n <= |s| && j < |s|
    requires 2 * i + 1 < n ==> s[j].exp <= s[2 * i + 1].exp
    requires 2 * i + 2 < n ==> s[j].exp <= s[2 * i + 2].exp
    ensures ChildrenFrom(s, n, i, j)
  {
  }

  lemma SiftDownDone(s: seq<Item>, n: nat, i: nat)
    requires HeapButBelow(s, n, i) && i < |s| && ChildrenFrom(s, n, i, i)
    ensures IsHeap(s[..n])
  {
    forall k | 0 < k < n ensures Ordered(s[..n], k) {
      if Parent(k) != i { assert Ordered(s, k); }
    }
  }

  /** Nothing in `m` expires before `t`. */
  ghost predicate AllFrom(m: multiset<Item>, t: Time) {
    forall it :: it in m ==> t <= it.exp
  }

  /** Items in the order they expire, all before `now`. */
  ghost predicate ExpiryOrder(s: seq<Item>, now: Time) {
    && (forall i :: 0 <= i < |s| ==> s[i].exp < now)
    && (forall i, j :: 0 <= i < j < |s| ==> s[i].exp <= s[j].exp)
  }

  lemma ExpiryOrderAppend(s: seq<Item>, x: Item, now: Time)
    requires ExpiryOrder(s, now) && x.exp < now && (s != [] ==> s[|s| - 1].exp <= x.exp)
    ensures ExpiryOrder(s + [x], now)
  {
  }

  lemma HeapAllFromRoot(s: seq<Item>)
    requires IsHeap(s) && |s| > 0
    ensures AllFrom(multiset(s), s[0].exp)
  {
    forall it | it in multiset(s) ensures s[0].exp <= it.exp {
      var i :| 0 <= i < |s| && s[i] == it;
      RootIsLeast(s, i);
    }
  }

  // ----- runs -----

  datatype Op = Add(item: Item) | Expire(now: Time)

  /** How many copies of `it` are left after the first `k` operations. */
  ghost function Survivors(ops: seq<Op>, k: nat, it: Item): nat
    requires k <= |ops|
  {
    if k == 0 then 0
    else match ops[k - 1]
      case Add(x) => Survivors(ops, k - 1, it) + if x == it then 1 else 0
      case Expire(now) => if it.exp < now then 0 else Survivors(ops, k - 1, it)
  }

  class ExpHeap {
    var items: seq<Item>

    ghost predicate Valid()
      reads this
    {
      IsHeap(items)
    }

    constructor ()
      ensures Valid() && items == []
    {
      items := [];
    }

    method NextExpiry() returns (t: Time)
      requires Valid() && |items| > 0
      ensures forall i :: 0 <= i < |items| ==> t <= items[i].exp
      ensures exists i :: 0 <= i < |items| && items[i].exp == t
    {
      t := items[0].exp;
      forall i | 0 <= i < |items| ensures t <= items[i].exp { RootIsLeast(items, i); }
    }

    method Up(start: nat)
      requires HeapButAbove(items, start)
      modifies this
      ensures Valid() && multiset(items) == multiset(old(items))
    {
      var j := start;
      while j > 0 && items[j].exp < items[Parent(j)].exp
        invariant HeapButAbove(items, j) && multiset(items) == multiset(old(items))
        decreases j
      {
        SiftUpStep(items, j);
        items := Swapped(items, j, Parent(j));
        j := Parent(j);
      }
      forall i | 0 < i < |items| ensures Ordered(items, i) { }
    }

    method Down(n: nat)
      requires HeapButBelow(items, n, 0) && n < |items|
      modifies this
      ensures |items| == |old(items)| && multiset(items) == multiset(old(items))
      ensures IsHeap(items[..n]) && items[n..] == old(items[n..])
    {
      hide HeapButBelow, ChildrenFrom, IsHeap;
      var i := 0;
      while 2 * i + 1 < n
        invariant i <= n && HeapButBelow(items, n, i) && |items| == |old(items)|
        invariant multiset(items) == multiset(old(items)) && items[n..] == old(items[n..])
        decreases n - i
      {
        var j := 2 * i + 1;
        if j + 1 < n && items[j + 1].exp < items[j].exp { j := j + 1; }
        EarlierChild(items, n, i, j);
        if items[j].exp >= items[i].exp { break; }
        SiftDownStep(items, n, i, j);
        items := Swapped(items, i, j);
        i := j;
      }
      EarlierChild(items, n, i, i);
      SiftDownDone(items, n, i);
    }

    method Push(key: Key, exp: Time)
      requires Valid()
      modifies this
      ensures Valid() && multiset(items) == multiset(old(items)) + multiset{Item(key, exp)}
    {
      ghost var was := items;
      items := items + [Item(key, exp)];
      forall i | 0 < i < |items| && i != |items| - 1 ensures Ordered(items, i) { assert Ordered(was, i); }
      Up(|items| - 1);
    }

    /** Removes and returns an item that expires first. */
    method Pop() returns (x: Item)
      requires Valid() && |items| > 0
      modifies this
      ensures Valid() && multiset(items) + multiset{x} == multiset(old(items))
      ensures |items| == |old(items)| - 1
      ensures x == old(items[0]) && AllFrom(multiset(old(items)), x.exp)
    {
      ghost var was := items;
      HeapAllFromRoot(was);
      hide AllFrom;
      var n := |items| - 1;
      items := Swapped(items, 0, n);
      forall k | 0 < k < n && Parent(k) != 0 ensures Ordered(items, k) { assert Ordered(was, k); }
      assert items[n..] == [was[0]];
      Down(n);
      x := items[n];
      assert items == items[..n] + [x] && items[n..] == [x];
      items := items[..n];
    }

    method Contains(key: Key) returns (found: bool)
      ensures found <==> exists it :: it in multiset(items) && it.key == key
    {
      found := false;
      for i := 0 to |items|
        invariant forall j :: 0 <= j < i ==> items[j].key != key
      {
        if items[i].key == key {
          assert items[i] in multiset(items);
          return true;
        }
      }
    }

    /** Removes exactly the items with expiry before `now`, earliest first. */
    method ExpireBefore(now: Time) returns (removed: seq<Item>)
      requires Valid()
      modifies this
      ensures Valid() && multiset(items) + multiset(removed) == multiset(old(items))
      ensures AllFrom(multiset(items), now) && ExpiryOrder(removed, now)
    {
      hide IsHeap;
      removed := [];
      while |items| > 0 && items[0].exp < now
        invariant Valid() && multiset(items) + multiset(removed) == multiset(old(items))
        invariant ExpiryOrder(removed, now)
        invariant removed != [] ==> AllFrom(multiset(items), removed[|removed| - 1].exp)
        decreases |items|
      {
        assert items[0] in multiset(items);
        var x := Pop();
        ExpiryOrderAppend(removed, x, now);
        removed := removed + [x];
      }
      if |items| > 0 { HeapAllFromRoot(items); }
    }

    /** Any sequence of operations leaves exactly the survivors. */
    method Replay(ops: seq<Op>)
      requires items == []
      modifies this
      ensures Valid()
      ensures forall it :: multiset(items)[it] == Survivors(ops, |ops|, it)
    {
      for k := 0 to |ops|
        invariant Valid()
        invariant forall it :: multiset(items)[it] == Survivors(ops, k, it)
      {
        ghost var was := items;
        match ops[k]
        case Add(x) => Push(x.key, x.exp);
        case Expire(now) =>
          var removed := ExpireBefore(now);
          forall it ensures multiset(items)[it] == if it.exp < now then 0 else multiset(was)[it] {
            if it in multiset(removed) { assert it.exp < now; }
          }
      }
    }
  }
}
