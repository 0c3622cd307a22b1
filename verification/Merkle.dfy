/** Merkleization: the reference tree, and the layer-by-layer loops that shrink a
    buffer in place.

    The pair hash is any function `h`; the reference is the tree over the chunks
    followed by endless zero leaves, whose node `i` at level `d` is `Node(d, i)`.
    The root at depth `d` is node 0 of level `d`. */
module Merkle {

  /** A pair hash and the zero leaf. */
  datatype Hasher<!T> = Hasher(h: (T, T) -> T, zero: T)

  function Pow2(n: nat): (p: nat)
    ensures p > 0
  {
    if n == 0 then 1 else 2 * Pow2(n - 1)
  }

  function ZeroHash<T>(k: Hasher<T>, d: nat): T {
    if d == 0 then k.zero else k.h(ZeroHash(k, d - 1), ZeroHash(k, d - 1))
  }

  /** Node `i` of level `d` in the tree over `xs` and zero leaves after it. */
  function Node<T>(k: Hasher<T>, xs: seq<T>, d: nat, i: nat): T
    decreases d
  {
    if d == 0 then if i < |xs| then xs[i] else k.zero
    else k.h(Node(k, xs, d - 1, 2 * i), Node(k, xs, d - 1, 2 * i + 1))
  }

  // ----- the reference of the SSZ specification -----

  function Padded<T>(xs: seq<T>, zero: T, n: nat): seq<T>
    requires |xs| <= n
  {
    xs + seq(n - |xs|, _ => zero)
  }

  /** The root of a full binary tree, by halving its leaves. */
  function TreeRoot<T>(h: (T, T) -> T, leaves: seq<T>, d: nat): T
    requires |leaves| == Pow2(d)
    decreases d
  {
    if d == 0 then leaves[0]
    else h(TreeRoot(h, leaves[..Pow2(d - 1)], d - 1), TreeRoot(h, leaves[Pow2(d - 1)..], d - 1))
  }

  lemma {:induction false} MulDistr(a: nat, b: nat, i: nat)
    requires b == 2 * a
    ensures 2 * i * a == i * b && (2 * i + 1) * a == i * b + a
  {
  }

  /** A node is the root of the full tree over its own leaves. */
  lemma {:induction false} NodeIsTreeRoot<T>(k: Hasher<T>, xs: seq<T>, leaves: seq<T>, d: nat, i: nat)
    requires |leaves| == Pow2(d)
    requires forall j :: 0 <= j < Pow2(d) ==>
               leaves[j] == if i * Pow2(d) + j < |xs| then xs[i * Pow2(d) + j] else k.zero
    ensures Node(k, xs, d, i) == TreeRoot(k.h, leaves, d)
    decreases d
  {
    if d == 0 {
      assert i * Pow2(0) + 0 == i;
    } else {
      var half := Pow2(d - 1);
      MulDistr(half, Pow2(d), i);
      forall j | 0 <= j < half
        ensures leaves[half..][j]
             == if (2 * i + 1) * half + j < |xs| then xs[(2 * i + 1) * half + j] else k.zero
      {
        assert leaves[half..][j] == leaves[half + j];
      }
      NodeIsTreeRoot(k, xs, leaves[..half], d - 1, 2 * i);
      NodeIsTreeRoot(k, xs, leaves[half..], d - 1, 2 * i + 1);
    }
  }

  /** Node 0 at depth `d` is the root of the chunks padded to 2^d leaves. */
  lemma RootIsPaddedTree<T>(k: Hasher<T>, xs: seq<T>, d: nat)
    requires |xs| <= Pow2(d)
    ensures Node(k, xs, d, 0) == TreeRoot(k.h, Padded(xs, k.zero, Pow2(d)), d)
  {
    NodeIsTreeRoot(k, xs, Padded(xs, k.zero, Pow2(d)), d, 0);
  }

  // ----- one layer -----

  /** The layer above `xs`, its odd end paired with `pad`. */
  function Layer<T>(h: (T, T) -> T, xs: seq<T>, pad: T): seq<T> {
    seq((|xs| + 1) / 2, i requires 0 <= i < (|xs| + 1) / 2 =>
      h(xs[2 * i], if 2 * i + 1 < |xs| then xs[2 * i + 1] else pad))
  }

  /** Past the chunks every node is a zero hash. */
  lemma {:induction false} NodeBeyond<T>(k: Hasher<T>, xs: seq<T>, d: nat, i: nat)
    requires |xs| <= i * Pow2(d)
    ensures Node(k, xs, d, i) == ZeroHash(k, d)
    decreases d
  {
    if d != 0 {
      MulDistr(Pow2(d - 1), Pow2(d), i);
      NodeBeyond(k, xs, d - 1, 2 * i);
      NodeBeyond(k, xs, d - 1, 2 * i + 1);
    }
  }

  /** `ys` are the level-`d` nodes of `xs`, and everything after them is zero. */
  ghost predicate IsLevel<T>(k: Hasher<T>, xs: seq<T>, d: nat, ys: seq<T>) {
    && (forall i :: 0 <= i < |ys| ==> ys[i] == Node(k, xs, d, i))
    && (forall i: nat :: |ys| <= i ==> Node(k, xs, d, i) == ZeroHash(k, d))
  }

  lemma LayerIsNextLevel<T>(k: Hasher<T>, xs: seq<T>, d: nat, ys: seq<T>)
    requires IsLevel(k, xs, d, ys)
    ensures IsLevel(k, xs, d + 1, Layer(k.h, ys, ZeroHash(k, d)))
  {
    var zs := Layer(k.h, ys, ZeroHash(k, d));
    var e := d + 1;
    forall i: nat | |zs| <= i ensures Node(k, xs, e, i) == ZeroHash(k, e) {
      assert Node(k, xs, d, 2 * i) == ZeroHash(k, d) && Node(k, xs, d, 2 * i + 1) == ZeroHash(k, d);
    }
    forall i | 0 <= i < |zs| ensures zs[i] == Node(k, xs, e, i) {
      if 2 * i + 1 >= |ys| { assert Node(k, xs, d, 2 * i + 1) == ZeroHash(k, d); }
    }
  }

  // ----- depth -----

  /** The whole number of times a count halves before it reaches one. */
  ghost predicate IsDepth(v: nat, d: nat) {
    if v <= 1 then d == 0 else Pow2(d) <= v < 2 * Pow2(d)
  }

  method GetDepth(v: nat) returns (depth: nat)
    ensures IsDepth(v, depth)
  {
    if v <= 1 { return 0; }
    depth := 0;
    var w := v;
    while w > 1
      invariant w >= 1 && w * Pow2(depth) <= v < (w + 1) * Pow2(depth)
      decreases w
    {
      ghost var p := Pow2(depth);
      HalveOnce(w, p, v);
      w := w / 2;
      depth := depth + 1;
    }
  }

  lemma HalveOnce(w: nat, p: nat, v: nat)
    requires w * p <= v < (w + 1) * p
    ensures (w / 2) * (2 * p) <= v < (w / 2 + 1) * (2 * p)
  {
    var q := w / 2;
    assert q * (2 * p) == (2 * q) * p && (q + 1) * (2 * p) == (2 * q + 2) * p;
    if w == 2 * q {
      assert (w + 2) * p == (w + 1) * p + p;
    } else {
      assert w == 2 * q + 1;
      assert (2 * q + 1) * p == (2 * q) * p + p;
    }
  }

  lemma {:induction false} Pow2Grows(a: nat, b: nat)
    requires a < b
    ensures 2 * Pow2(a) <= Pow2(b)
    decreases b
  {
    if a + 1 < b { Pow2Grows(a, b - 1); }
  }

  lemma DepthUnique(v: nat, d: nat, e: nat)
    requires IsDepth(v, d) && IsDepth(v, e)
    ensures d == e
  {
    if d < e { Pow2Grows(d, e); } else if e < d { Pow2Grows(e, d); }
  }

  // ----- the loops -----

  /** Hashes the first `n` entries pairwise in place, front to back. */
  method HashInPlace<T>(h: (T, T) -> T, a: array<T>, n: nat)
    requires n % 2 == 0 && n <= a.Length
    modifies a
    ensures forall j :: 0 <= j < n / 2 ==> a[j] == h(old(a[2 * j]), old(a[2 * j + 1]))
    ensures forall j :: n <= j < a.Length ==> a[j] == old(a[j])
  {
    for i := 0 to n / 2
      invariant forall j :: 0 <= j < i ==> a[j] == h(old(a[2 * j]), old(a[2 * j + 1]))
      invariant forall j :: i <= j < a.Length ==> a[j] == old(a[j])
    {
      a[i] := h(a[2 * i], a[2 * i + 1]);
    }
  }

  /** Padding an odd layer first does not change the layer above it. */
  lemma LayerOfPadded<T>(h: (T, T) -> T, xs: seq<T>, ys: seq<T>, pad: T, zs: seq<T>)
    requires ys == if |xs| % 2 == 1 then xs + [pad] else xs
    requires |zs| == |ys| / 2 && forall j :: 0 <= j < |zs| ==> zs[j] == h(ys[2 * j], ys[2 * j + 1])
    ensures zs == Layer(h, xs, pad)
  {
  }

  /** Appending to a slice of length `n`: in place while there is room, else to a
      copy in a larger buffer. */
  method Append<T>(a: array<T>, n: nat, x: T) returns (b: array<T>)
    requires n <= a.Length
    modifies a
    ensures n < b.Length && b[..n + 1] == old(a[..n]) + [x]
    ensures b == a || fresh(b)
  {
    if n < a.Length {
      a[n] := x;
      return a;
    }
    ghost var was := a[..n];
    b := new T[2 * n + 1](i requires 0 <= i reads a => if i < n then a[i] else x);
    assert b[..n] == was;
  }

  /** One layer in place: pad an odd end, hash pairs, halve the slice. */
  method HashLayer<T>(k: Hasher<T>, a: array<T>, n: nat, pad: T) returns (b: array<T>, m: nat)
    requires 0 < n <= a.Length
    modifies a
    ensures b == a || fresh(b)
    ensures 0 < m <= b.Length && b[..m] == Layer(k.h, old(a[..n]), pad)
  {
    hide Layer;
    ghost var xs := a[..n];
    b, m := a, n;
    if n % 2 == 1 {
      b := Append(a, n, pad);
      m := n + 1;
    }
    ghost var ys := b[..m];
    HashInPlace(k.h, b, m);
    m := m / 2;
    LayerOfPadded(k.h, xs, ys, pad, b[..m]);
  }

  /** `MerkleizeVector` on a slice of length `n`; its own buffer is overwritten.
      For every input the result is node 0 at the depth of `length`. */
  method MerkleizeVector<T>(k: Hasher<T>, elements: array<T>, n: nat, length: nat, zeros: nat -> T)
    returns (root: T, ghost depth: nat)
    requires n <= elements.Length
    requires forall d :: zeros(d) == ZeroHash(k, d)
    modifies elements
    ensures IsDepth(length, depth) && root == Node(k, old(elements[..n]), depth, 0)
  {
    hide IsLevel, Layer, Node, ZeroHash, IsDepth;
    var levels := GetDepth(length);
    depth := levels;
    ghost var xs := elements[..n];
    if n == 0 {
      NodeBeyond(k, xs, levels, 0);
      return zeros(levels), depth;
    }
    LevelZero(k, xs);
    var a, m := elements, n;
    for i := 0 to levels
      invariant (a == elements || fresh(a)) && 0 < m <= a.Length
      invariant IsLevel(k, xs, i, a[..m])
    {
      LayerIsNextLevel(k, xs, i, a[..m]);
      a, m := HashLayer(k, a, m, zeros(i));
    }
    LevelRoot(k, xs, levels, a[..m]);
    root := a[0];
  }

  lemma LevelRoot<T>(k: Hasher<T>, xs: seq<T>, d: nat, ys: seq<T>)
    requires IsLevel(k, xs, d, ys) && |ys| > 0
    ensures ys[0] == Node(k, xs, d, 0)
  {
  }

  lemma LevelZero<T>(k: Hasher<T>, xs: seq<T>)
    ensures IsLevel(k, xs, 0, xs)
  {
  }
}
