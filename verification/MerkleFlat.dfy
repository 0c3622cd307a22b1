/** Merkleization against the SSZ specification, and its flat and buffered forms. */
module MerkleFlat {
  import opened Merkle

  // ----- when the depth is the specification's depth -----

  /** The specification's depth: halvings rounded up. */
  function CeilDepth(n: nat): nat {
    if n <= 1 then 0 else 1 + CeilDepth((n + 1) / 2)
  }

  lemma {:induction false} CeilDepthHolds(n: nat)
    ensures n <= Pow2(CeilDepth(n)) && (n > 1 ==> Pow2(CeilDepth(n)) < 2 * n)
  {
    if n > 1 { CeilDepthHolds((n + 1) / 2); }
  }

  /** SSZ `merkleize(chunks, limit)`: pad to the next power of two, then the full tree. */
  ghost function SszRoot<T>(k: Hasher<T>, xs: seq<T>, limit: nat): T
    requires |xs| <= limit
  {
    CeilDepthHolds(limit);
    TreeRoot(k.h, Padded(xs, k.zero, Pow2(CeilDepth(limit))), CeilDepth(limit))
  }

  predicate PowerOfTwo(n: nat) {
    n <= 1 || (n % 2 == 0 && PowerOfTwo(n / 2))
  }

  lemma {:induction false} PowerOfTwoDepth(n: nat, d: nat)
    requires IsDepth(n, d)
    ensures PowerOfTwo(n) <==> d == CeilDepth(n)
    ensures d <= CeilDepth(n)
    decreases n
  {
    if n > 1 {
      assert d != 0;
      assert Pow2(d) == 2 * Pow2(d - 1);
      PowerOfTwoDepth(n / 2, d - 1);
      CeilDepthHolds(n);
      if n % 2 == 1 {
        assert Pow2(d) < n;
        if CeilDepth(n) < d { Pow2Grows(CeilDepth(n), d); }
      }
    }
  }

  /** For every power-of-two limit and every chunk list it holds, the loop's root is
      the specification's. */
  lemma MerkleizationRefines<T>(k: Hasher<T>, xs: seq<T>, limit: nat, d: nat)
    requires IsDepth(limit, d) && PowerOfTwo(limit) && |xs| <= limit
    ensures Node(k, xs, d, 0) == SszRoot(k, xs, limit)
  {
    PowerOfTwoDepth(limit, d);
    CeilDepthHolds(limit);
    RootIsPaddedTree(k, xs, d);
  }

  /** Hashing without collisions: the hash of two values is their pair. */
  datatype Term = Leaf(value: nat) | Pair(left: Term, right: Term)

  function PairUp(x: Term, y: Term): Term { Pair(x, y) }

  const FREE: Hasher<Term> := Hasher(PairUp, Leaf(0))

  ghost function Height(t: Term): nat {
    match t
    case Leaf(_) => 0
    case Pair(l, _) => 1 + Height(l)
  }

  lemma {:induction false} NodeHeight(xs: seq<Term>, d: nat, i: nat)
    requires forall j :: 0 <= j < |xs| ==> xs[j].Leaf?
    ensures Height(Node(FREE, xs, d, i)) == d
    decreases d
  {
    if d != 0 { NodeHeight(xs, d - 1, 2 * i); }
  }

  /** A limit that is no power of two is rounded down, not up: with a collision-free
      hash the loop's root is the specification's exactly when the limit is a power
      of two (or at most one). */
  lemma ExactlyPowerOfTwoLimits(xs: seq<Term>, limit: nat, d: nat)
    requires IsDepth(limit, d) && |xs| <= limit
    requires forall j :: 0 <= j < |xs| ==> xs[j].Leaf?
    ensures Node(FREE, xs, d, 0) == SszRoot(FREE, xs, limit) <==> PowerOfTwo(limit)
  {
    if PowerOfTwo(limit) {
      MerkleizationRefines(FREE, xs, limit, d);
    } else {
      PowerOfTwoDepth(limit, d);
      CeilDepthHolds(limit);
      RootIsPaddedTree(FREE, xs, CeilDepth(limit));
      NodeHeight(xs, d, 0);
      NodeHeight(xs, CeilDepth(limit), 0);
    }
  }

  /** The smallest failing case: limit 3 drops the third chunk altogether. */
  lemma LimitThreeDropsAChunk(x: nat, y: nat, z: nat)
    ensures Node(FREE, [Leaf(x), Leaf(y), Leaf(z)], 1, 0) == Pair(Leaf(x), Leaf(y))
    ensures IsDepth(3, 1) && !PowerOfTwo(3)
  {
    assert Pow2(1) == 2 * Pow2(0);
    var xs := [Leaf(x), Leaf(y), Leaf(z)];
    assert Node(FREE, xs, 1, 0) == PairUp(Node(FREE, xs, 0, 0), Node(FREE, xs, 0, 1));
  }

  // ----- starting from an intermediate level -----

  /** A tree over the nodes of level `s` is the upper part of the tree over the leaves. */
  lemma {:induction false} ResumeFromLevel<T>(k: Hasher<T>, xs: seq<T>, s: nat, ys: seq<T>, d: nat, i: nat)
    requires IsLevel(k, xs, s, ys)
    ensures Node(Hasher(k.h, ZeroHash(k, s)), ys, d, i) == Node(k, xs, s + d, i)
    decreases d
  {
    if d != 0 {
      ResumeFromLevel(k, xs, s, ys, d - 1, 2 * i);
      ResumeFromLevel(k, xs, s, ys, d - 1, 2 * i + 1);
    }
  }

  lemma {:induction false} ZeroHashFrom<T>(k: Hasher<T>, s: nat, d: nat)
    ensures ZeroHash(Hasher(k.h, ZeroHash(k, s)), d) == ZeroHash(k, s + d)
    decreases d
  {
    if d != 0 { ZeroHashFrom(k, s, d - 1); }
  }

  // ----- flat bytes -----

  type Byte = bv8

  type Chunk = s: seq<Byte> | |s| == 32 witness seq(32, _ => 0)

  const ZERO_CHUNK: Chunk := seq(32, _ => 0)

  function ChunkAt(b: seq<Byte>, i: nat): Chunk
    requires 32 * i + 32 <= |b|
  {
    b[32 * i..32 * i + 32]
  }

  /** The whole chunks of a byte string. */
  function Chunks(b: seq<Byte>): seq<Chunk> {
    seq(|b| / 32, i requires 0 <= i < |b| / 32 => ChunkAt(b, i))
  }

  /** Hashes 64-byte blocks to 32 bytes each. */
  function HashFlat(h: (Chunk, Chunk) -> Chunk, b: seq<Byte>): seq<Byte>
    requires |b| % 64 == 0
  {
    seq(|b| / 2, i requires 0 <= i < |b| / 2 => h(ChunkAt(b, 2 * (i / 32)), ChunkAt(b, 2 * (i / 32) + 1))[i % 32])
  }

  lemma BlockOf(j: nat, r: nat)
    requires r < 32
    ensures (32 * j + r) / 32 == j && (32 * j + r) % 32 == r
  {
  }

  lemma HashFlatChunk(h: (Chunk, Chunk) -> Chunk, p: seq<Byte>, j: nat)
    requires |p| % 64 == 0 && 64 * j + 64 <= |p|
    ensures ChunkAt(HashFlat(h, p), j) == h(ChunkAt(p, 2 * j), ChunkAt(p, 2 * j + 1))
  {
    var f, c := HashFlat(h, p), h(ChunkAt(p, 2 * j), ChunkAt(p, 2 * j + 1));
    forall r | 0 <= r < 32 ensures ChunkAt(f, j)[r] == c[r] {
      BlockOf(j, r);
      assert ChunkAt(f, j)[r] == f[32 * j + r];
    }
  }

  function PadFlat(b: seq<Byte>, pad: Chunk): seq<Byte> {
    if |b| % 64 == 32 then b + pad else b
  }

  lemma PadFlatChunk(b: seq<Byte>, pad: Chunk, i: nat)
    requires |b| % 32 == 0 && 32 * i + 32 <= |PadFlat(b, pad)|
    ensures ChunkAt(PadFlat(b, pad), i) == if 32 * i + 32 <= |b| then ChunkAt(b, i) else pad
  {
  }

  /** On bytes a layer is the same layer on chunks. */
  lemma HashFlatIsLayer(h: (Chunk, Chunk) -> Chunk, b: seq<Byte>, pad: Chunk)
    requires |b| % 32 == 0
    ensures |PadFlat(b, pad)| % 64 == 0
    ensures Chunks(HashFlat(h, PadFlat(b, pad))) == Layer(h, Chunks(b), pad)
    ensures |HashFlat(h, PadFlat(b, pad))| == 32 * |Layer(h, Chunks(b), pad)|
  {
    FlatLengths(|b| / 32, |b|);
    var f, zs := HashFlat(h, PadFlat(b, pad)), Layer(h, Chunks(b), pad);
    assert |f| == 32 * |zs|;
    hide HashFlat, PadFlat;
    forall j | 0 <= j < |zs| ensures ChunkAt(f, j) == zs[j] { FlatLayerAt(h, b, pad, j); }
    assert Chunks(f) == zs;
  }

  lemma FlatLayerAt(h: (Chunk, Chunk) -> Chunk, b: seq<Byte>, pad: Chunk, j: nat)
    requires |b| % 32 == 0 && |PadFlat(b, pad)| % 64 == 0 && 64 * j + 64 <= |PadFlat(b, pad)|
    ensures j < |Layer(h, Chunks(b), pad)| && ChunkAt(HashFlat(h, PadFlat(b, pad)), j) == Layer(h, Chunks(b), pad)[j]
  {
    hide HashFlat, ChunkAt;
    var n := |b| / 32;
    assert |b| == 32 * n;
    FlatLengths(n, |b|);
    HashFlatChunk(h, PadFlat(b, pad), j);
    PadFlatChunk(b, pad, 2 * j);
    PadFlatChunk(b, pad, 2 * j + 1);
  }

  lemma FlatLengths(n: nat, len: nat)
    requires len == 32 * n
    ensures var p := if len % 64 == 32 then len + 32 else len;
            p % 64 == 0 && p / 2 == 32 * ((n + 1) / 2) && (p / 2) / 32 == (n + 1) / 2
  {
  }

  datatype FlatResult = Root(value: Chunk) | BadLength

  /** A padded length is hashed exactly if the length is a positive number of chunks. */
  lemma FlatAccepted(len: nat)
    ensures var p := if len % 64 == 32 then len + 32 else len;
            p == 0 || p % 64 != 0 <==> !(len >= 32 && len % 32 == 0)
  {
    var q, r := len / 64, len % 64;
    HalfBlock(q, r);
    assert len == 64 * q + r;
    if r == 32 { assert len + 32 == 64 * (q + 1); }
  }

  lemma HalfBlock(q: nat, r: nat)
    requires r < 64
    ensures (64 * q + r) % 32 == 0 <==> r == 0 || r == 32
  {
    var n := 64 * q + r;
    assert n == 32 * (2 * q) + r;
    if r < 32 { assert n / 32 == 2 * q; } else { assert n / 32 == 2 * q + 1; }
  }

  /** One layer on bytes: pad, check the length, hash, halve. */
  method HashFlatLayer(h: (Chunk, Chunk) -> Chunk, b: seq<Byte>, pad: Chunk) returns (ok: bool, above: seq<Byte>)
    ensures ok <==> |b| >= 32 && |b| % 32 == 0
    ensures ok ==> |above| >= 32 && |above| % 32 == 0 && Chunks(above) == Layer(h, Chunks(b), pad)
  {
    hide HashFlat, Layer, Chunks;
    FlatAccepted(|b|);
    var p := b;
    if |b| % 64 == 32 { p := b + pad; }
    if |p| == 0 || |p| % 64 != 0 { return false, []; }
    HashFlatIsLayer(h, b, pad);
    FirstChunk(b);
    LayerNonEmpty(h, Chunks(b), pad);
    return true, HashFlat(h, p);
  }

  lemma FirstChunk(b: seq<Byte>)
    requires |b| >= 32
    ensures |Chunks(b)| > 0 && Chunks(b)[0] == b[..32]
  {
  }

  /** `MerkleizeVectorFlat`.  With no layer to hash, fewer than 32 bytes would be
      sliced out of range; lengths that are not whole chunks are reported. */
  method MerkleizeVectorFlat(k: Hasher<Chunk>, input: seq<Byte>, limit: nat, zeros: nat -> Chunk)
    returns (r: FlatResult, ghost depth: nat)
    requires forall d :: zeros(d) == ZeroHash(k, d)
    requires limit <= 1 ==> |input| >= 32
    ensures IsDepth(limit, depth)
    ensures |input| >= 32 && |input| % 32 == 0 ==> r == Root(Node(k, Chunks(input), depth, 0))
    ensures r == BadLength <==> limit > 1 && (|input| == 0 || |input| % 32 != 0)
  {
    hide IsLevel, Layer, Node, ZeroHash, Chunks, IsDepth;
    var levels := GetDepth(limit);
    depth := levels;
    DepthPositive(limit, levels);
    var elements := input;
    ghost var whole := |input| >= 32 && |input| % 32 == 0;
    LevelZero(k, Chunks(input));
    for i := 0 to levels
      invariant if whole then |elements| >= 32 && |elements| % 32 == 0 else i == 0 && elements == input
      invariant whole ==> IsLevel(k, Chunks(input), i, Chunks(elements))
    {
      var ok, above := HashFlatLayer(k.h, elements, zeros(i));
      if !ok { return BadLength, depth; }
      LayerIsNextLevel(k, Chunks(input), i, Chunks(elements));
      elements := above;
    }
    if whole {
      FirstChunk(elements);
      LevelRoot(k, Chunks(input), levels, Chunks(elements));
    }
    r := Root(elements[..32]);
  }

  lemma DepthPositive(v: nat, d: nat)
    requires IsDepth(v, d)
    ensures d == 0 <==> v <= 1
  {
  }

  lemma LayerNonEmpty<T>(h: (T, T) -> T, xs: seq<T>, pad: T)
    requires |xs| > 0
    ensures |Layer(h, xs, pad)| > 0
  {
  }

  // ----- the shared buffer -----

  /** The hasher's buffer, kept between calls and grown when too small. */
  class MerkleHasher {
    var internalBuffer: array<Chunk>

    constructor ()
      ensures fresh(internalBuffer)
    {
      internalBuffer := new Chunk[0](_ => ZERO_CHUNK);
    }

    method GetBuffer(size: nat)
      modifies this
      ensures size <= internalBuffer.Length
      ensures internalBuffer == old(internalBuffer) || fresh(internalBuffer)
    {
      if size > internalBuffer.Length {
        internalBuffer := new Chunk[size * 2](_ => ZERO_CHUNK);
      }
    }

    /** Loads the chunks of `xs` at the front of the buffer, whatever was there. */
    method GetBufferFromFlat(xs: seq<Byte>)
      modifies this, internalBuffer
      ensures internalBuffer == old(internalBuffer) || fresh(internalBuffer)
      ensures |xs| / 32 <= internalBuffer.Length && internalBuffer[..|xs| / 32] == Chunks(xs)
    {
      GetBuffer(|xs| / 32);
      for i := 0 to |xs| / 32
        modifies internalBuffer
        invariant forall j :: 0 <= j < i ==> internalBuffer[j] == ChunkAt(xs, j)
      {
        internalBuffer[i] := ChunkAt(xs, i);
      }
    }

    /** The leaves are taken as the nodes of level `start` (an 8-bit counter); the
        rest of the tree is hashed on top of them. */
    method MerkleizeTrieLeavesFlatWithStart(k: Hasher<Chunk>, leaves: seq<Byte>, limit: nat, start: nat, zeros: nat -> Chunk)
      returns (out: Chunk, ghost depth: nat)
      requires |leaves| >= 32
      requires forall d :: zeros(d) == ZeroHash(k, d)
      modifies this, internalBuffer
      ensures IsDepth(limit, depth)
      ensures var s := start % 256;
              out == Node(Hasher(k.h, ZeroHash(k, s)), Chunks(leaves), if s < depth then depth - s else 0, 0)
    {
      hide IsLevel, Layer, Node, ZeroHash, IsDepth;
      GetBufferFromFlat(leaves);
      var levels := GetDepth(limit);
      depth := levels;
      var i := start % 256;
      ghost var s := i;
      ghost var up := Hasher(k.h, ZeroHash(k, s));
      ghost var xs := Chunks(leaves);
      var layer, m := internalBuffer, |leaves| / 32;
      LevelZero(up, xs);
      while i < levels
        invariant s <= i && (i <= levels || i == s)
        invariant (layer == internalBuffer || fresh(layer)) && 0 < m <= layer.Length
        invariant internalBuffer == old(internalBuffer) || fresh(internalBuffer)
        invariant IsLevel(up, xs, i - s, layer[..m])
      {
        LayerIsNextLevel(up, xs, i - s, layer[..m]);
        ZeroHashFrom(k, s, i - s);
        layer, m := HashLayer(k, layer, m, zeros(i));
        i := i + 1;
      }
      LevelRoot(up, xs, i - s, layer[..m]);
      out := layer[0];
    }
  }
}
