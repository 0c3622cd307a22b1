/** The root of a delimited bitlist: clearing the delimiter and stripping trailing
    zero bytes never changes the merkleization of the bits themselves. */
module Bitlist {
  import opened Common
  import opened Merkle
  import opened MerkleFlat

  // ----- bits of a byte -----

  function Mask(r: nat): Byte
    requires r < 8
  {
    match r
    case 0 => 1
    case 1 => 2
    case 2 => 4
    case 3 => 8
    case 4 => 16
    case 5 => 32
    case 6 => 64
    case 7 => 128
  }

  predicate Bit(x: Byte, r: nat)
    requires r < 8
  {
    x & Mask(r) != 0
  }

  /** Position of the highest set bit. */
  function Msb(x: Byte): nat
    requires x != 0
  {
    if x & 128 != 0 then 7 else if x & 64 != 0 then 6 else if x & 32 != 0 then 5 else if x & 16 != 0 then 4
    else if x & 8 != 0 then 3 else if x & 4 != 0 then 2 else if x & 2 != 0 then 1 else 0
  }

  /** The byte with exactly these bits. */
  function FromBits(b0: bool, b1: bool, b2: bool, b3: bool, b4: bool, b5: bool, b6: bool, b7: bool): Byte {
    (if b0 then 1 else 0) | (if b1 then 2 else 0) | (if b2 then 4 else 0) | (if b3 then 8 else 0) |
    (if b4 then 16 else 0) | (if b5 then 32 else 0) | (if b6 then 64 else 0) | (if b7 then 128 else 0)
  }

  lemma ByteFromItsBits(x: Byte)
    ensures x == FromBits(Bit(x, 0), Bit(x, 1), Bit(x, 2), Bit(x, 3), Bit(x, 4), Bit(x, 5), Bit(x, 6), Bit(x, 7))
  {
  }

  /** Clearing the highest bit leaves the bits below it and nothing else. */
  lemma ClearedFromLowerBits(x: Byte, m: nat)
    requires x != 0 && m == Msb(x)
    ensures Bit(x, m)
    ensures x & !Mask(m) == FromBits(0 < m && Bit(x, 0), 1 < m && Bit(x, 1), 2 < m && Bit(x, 2), 3 < m && Bit(x, 3),
                                     4 < m && Bit(x, 4), 5 < m && Bit(x, 5), 6 < m && Bit(x, 6), false)
  {
  }

  // ----- the reference: packing bits -----

  predicate BitOr0(bits: seq<bool>, i: nat) {
    i < |bits| && bits[i]
  }

  function PackedByte(bits: seq<bool>, j: nat): Byte {
    FromBits(BitOr0(bits, 8 * j), BitOr0(bits, 8 * j + 1), BitOr0(bits, 8 * j + 2), BitOr0(bits, 8 * j + 3),
             BitOr0(bits, 8 * j + 4), BitOr0(bits, 8 * j + 5), BitOr0(bits, 8 * j + 6), BitOr0(bits, 8 * j + 7))
  }

  function PackBytes(bits: seq<bool>): seq<Byte> {
    seq((|bits| + 7) / 8, j requires 0 <= j < (|bits| + 7) / 8 => PackedByte(bits, j))
  }

  function ByteOr0(b: seq<Byte>, i: nat): Byte {
    if i < |b| then b[i] else 0
  }

  function PaddedChunk(b: seq<Byte>, i: nat): Chunk {
    seq(32, r requires 0 <= r < 32 => ByteOr0(b, 32 * i + r))
  }

  /** Bytes cut into chunks, the last one padded with zero bytes. */
  function Pack(b: seq<Byte>): seq<Chunk> {
    seq((|b| + 31) / 32, i requires 0 <= i < (|b| + 31) / 32 => PaddedChunk(b, i))
  }

  /** A bitlist's size: the bits below the delimiter. */
  function BitSize(buf: seq<Byte>): nat
    requires |buf| > 0 && buf[|buf| - 1] != 0
  {
    8 * (|buf| - 1) + Msb(buf[|buf| - 1])
  }

  /** The bits of a delimited bitlist. */
  function BitsOf(buf: seq<Byte>): seq<bool>
    requires |buf| > 0 && buf[|buf| - 1] != 0
  {
    seq(BitSize(buf), i requires 0 <= i < BitSize(buf) => Bit(buf[i / 8], i % 8))
  }

  // ----- clearing and stripping -----

  function Cleared(buf: seq<Byte>): seq<Byte>
    requires |buf| > 0 && buf[|buf| - 1] != 0
  {
    buf[|buf| - 1 := buf[|buf| - 1] & !Mask(Msb(buf[|buf| - 1]))]
  }

  lemma BitIndex(buf: seq<Byte>, j: nat, r: nat)
    requires |buf| > 0 && buf[|buf| - 1] != 0 && j < |buf| && r < 8
    ensures BitOr0(BitsOf(buf), 8 * j + r) == (8 * j + r < BitSize(buf) && Bit(buf[j], r))
  {
    hide Bit, Msb;
    assert (8 * j + r) / 8 == j && (8 * j + r) % 8 == r;
  }

  lemma PackedByteAt(buf: seq<Byte>, j: nat)
    requires |buf| > 0 && buf[|buf| - 1] != 0 && j < |buf|
    ensures PackedByte(BitsOf(buf), j) == Cleared(buf)[j]
  {
    hide Bit, Msb, BitsOf, BitOr0, FromBits, Mask;
    BitIndex(buf, j, 0);
    BitIndex(buf, j, 1);
    BitIndex(buf, j, 2);
    BitIndex(buf, j, 3);
    BitIndex(buf, j, 4);
    BitIndex(buf, j, 5);
    BitIndex(buf, j, 6);
    BitIndex(buf, j, 7);
    if j < |buf| - 1 {
      ByteFromItsBits(buf[j]);
    } else {
      ClearedLength(buf);
      ClearedFromLowerBits(buf[j], Msb(buf[j]));
    }
  }

  lemma ClearedBytes(buf: seq<Byte>, j: nat)
    requires |buf| > 0 && buf[|buf| - 1] != 0
    ensures ByteOr0(Cleared(buf), j) == ByteOr0(PackBytes(BitsOf(buf)), j)
  {
    if j < |buf| {
      PackedByteAt(buf, j);
      hide PackedByte, BitsOf, Cleared, Mask, Msb;
      BitsLength(buf);
      ClearedLength(buf);
      if j >= (BitSize(buf) + 7) / 8 { NothingBelow(buf); }
    }
  }

  lemma ClearedLength(buf: seq<Byte>)
    requires |buf| > 0 && buf[|buf| - 1] != 0
    ensures |Cleared(buf)| == |buf| && Msb(buf[|buf| - 1]) < 8
  {
  }

  /** With the delimiter at bit 0 the last byte holds nothing else. */
  lemma NothingBelow(buf: seq<Byte>)
    requires |buf| > 0 && buf[|buf| - 1] != 0 && Msb(buf[|buf| - 1]) == 0
    ensures Cleared(buf)[|buf| - 1] == 0
  {
  }

  /** Byte strings that agree up to trailing zeros have the same tree. */
  lemma {:induction false} SameTree(k: Hasher<Chunk>, x: seq<Byte>, y: seq<Byte>, d: nat, i: nat)
    requires k.zero == ZERO_CHUNK && forall j :: ByteOr0(x, j) == ByteOr0(y, j)
    ensures Node(k, Pack(x), d, i) == Node(k, Pack(y), d, i)
    decreases d
  {
    if d == 0 {
      LeafIsPadded(k, x, i);
      LeafIsPadded(k, y, i);
      assert PaddedChunk(x, i) == PaddedChunk(y, i);
    } else {
      SameTree(k, x, y, d - 1, 2 * i);
      SameTree(k, x, y, d - 1, 2 * i + 1);
    }
  }

  lemma LeafIsPadded(k: Hasher<Chunk>, x: seq<Byte>, i: nat)
    requires k.zero == ZERO_CHUNK
    ensures Node(k, Pack(x), 0, i) == PaddedChunk(x, i)
  {
    if i >= |Pack(x)| {
      assert 32 * i >= |x|;
      forall r | 0 <= r < 32 ensures PaddedChunk(x, i)[r] == ZERO_CHUNK[r] {
        assert PaddedChunk(x, i)[r] == ByteOr0(x, 32 * i + r);
      }
      assert PaddedChunk(x, i) == ZERO_CHUNK;
    }
  }

  // ----- the source's operations -----

  method PackBits(bytes: seq<Byte>) returns (chunks: seq<Chunk>)
    ensures chunks == Pack(bytes)
  {
    chunks := [];
    var i := 0;
    while i < |bytes|
      invariant i == 32 * |chunks| && |chunks| <= (|bytes| + 31) / 32
      invariant forall c :: 0 <= c < |chunks| ==> chunks[c] == PaddedChunk(bytes, c)
      decreases |bytes| - i
    {
      var part := if i + 32 <= |bytes| then bytes[i..i + 32] else bytes[i..];
      var chunk := part + seq(32 - |part|, _ => 0);
      forall r | 0 <= r < 32 ensures chunk[r] == PaddedChunk(bytes, |chunks|)[r] {
        assert PaddedChunk(bytes, |chunks|)[r] == ByteOr0(bytes, i + r);
      }
      assert chunk == PaddedChunk(bytes, |chunks|);
      chunks := chunks + [chunk];
      i := i + 32;
    }
  }

  /** Drops the delimiter and every trailing zero byte.  A last byte of zero, which no
      delimited list has, is kept as it is and counted as 255 extra bits. */
  method ParseBitlist(buf: seq<Byte>) returns (res: seq<Byte>, size: nat)
    requires |buf| > 0
    ensures res <= (if buf[|buf| - 1] != 0 then Cleared(buf) else buf)
    ensures forall j :: ByteOr0(res, j) == ByteOr0(if buf[|buf| - 1] != 0 then Cleared(buf) else buf, j)
    ensures res != [] ==> res[|res| - 1] != 0
    ensures size == if buf[|buf| - 1] != 0 then BitSize(buf) else 8 * (|buf| - 1) + 255
  {
    hide Msb, Mask, ByteOr0;
    if buf[|buf| - 1] != 0 { ClearedLength(buf); }
    var last := buf[|buf| - 1];
    var msb := if last == 0 then 255 else Msb(last);
    size := 8 * (|buf| - 1) + msb;
    var dst := buf;
    if msb < 8 { dst := dst[|dst| - 1 := dst[|dst| - 1] & !Mask(msb)]; }
    var newLen := |dst|;
    while newLen > 0 && dst[newLen - 1] == 0
      invariant 0 <= newLen <= |dst| && forall j :: newLen <= j < |dst| ==> dst[j] == 0
    {
      newLen := newLen - 1;
    }
    res := dst[..newLen];
    StrippedZeros(dst, newLen);
  }

  lemma StrippedZeros(b: seq<Byte>, n: nat)
    requires n <= |b| && forall j :: n <= j < |b| ==> b[j] == 0
    ensures forall j :: ByteOr0(b[..n], j) == ByteOr0(b, j)
  {
  }

  /** The byte that spells a number, by its binary digits. */
  function ByteOf(x: nat): Byte
    requires x < 256
  {
    FromBits(Odd(x), Odd(Halved(x, 1)), Odd(Halved(x, 2)), Odd(Halved(x, 3)),
             Odd(Halved(x, 4)), Odd(Halved(x, 5)), Odd(Halved(x, 6)), Odd(Halved(x, 7)))
  }

  predicate Odd(x: nat) { x % 2 == 1 }

  function Halved(x: nat, n: nat): nat { if n == 0 then x else Halved(x, n - 1) / 2 }

  /** Little-endian 64-bit length, padded to a chunk. */
  function LengthRoot(size: nat): Chunk {
    seq(32, i requires 0 <= i < 32 => if i < 8 then ByteOf((size / Pow2(8 * i)) % 256) else 0)
  }

  /** Bits per chunk is 256; the addition is 64-bit. */
  function LimitChunks(limit: nat): nat {
    ((limit + 255) % TWO_64) / 256
  }

  // ----- the length and the limit -----

  function Worth(bit: bool): nat { if bit then 1 else 0 }

  /** The number a byte spells from bit `r` on. */
  function ValueFrom(x: Byte, r: nat): nat
    requires r <= 8
    decreases 8 - r
  {
    if r == 8 then 0 else Worth(Bit(x, r)) + 2 * ValueFrom(x, r + 1)
  }

  function ValueOf(x: Byte): nat { ValueFrom(x, 0) }

  function Times(x: nat, y: nat): nat { x * y }

  /** The number that the first `n` bytes of a chunk spell, the lowest byte first. */
  function Spelled(c: Chunk, n: nat): nat
    requires n <= 32
  {
    if n == 0 then 0 else Spelled(c, n - 1) + Times(ValueOf(c[n - 1]), Pow2(8 * (n - 1)))
  }

  lemma Pow2Byte(n: nat)
    ensures Pow2(8 * (n + 1)) == 256 * Pow2(8 * n)
  {
    var p := Pow2(8 * n);
    assert Pow2(8 * n + 2) == 4 * p;
    assert Pow2(8 * n + 4) == 16 * p;
    assert Pow2(8 * n + 6) == 64 * p;
    assert Pow2(8 * n + 8) == 256 * p;
  }

  /** A remainder and the next byte make the longer remainder. */
  lemma NextByte(n: nat, p: nat)
    requires p > 0
    ensures n % (256 * p) == n % p + ((n / p) % 256) * p
  {
    var q, r := n / p, n % p;
    var e, b := q / 256, q % 256;
    assert n == q * p + r;
    assert q * p == e * (256 * p) + b * p by { assert q == 256 * e + b; assert (256 * e + b) * p == 256 * e * p + b * p; }
    assert b * p <= 255 * p by { MulAtMost(b, 255, p); }
    QuotientIs(n, 256 * p, e, b * p + r);
    assert n == (n / (256 * p)) * (256 * p) + n % (256 * p);
  }

  lemma MulAtMost(x: nat, y: nat, p: nat)
    requires x <= y
    ensures x * p <= y * p
  {
  }

  lemma BitsAreTheseBits(b0: bool, b1: bool, b2: bool, b3: bool, b4: bool, b5: bool, b6: bool, b7: bool)
    ensures var x := FromBits(b0, b1, b2, b3, b4, b5, b6, b7);
            && Bit(x, 0) == b0 && Bit(x, 1) == b1 && Bit(x, 2) == b2 && Bit(x, 3) == b3
            && Bit(x, 4) == b4 && Bit(x, 5) == b5 && Bit(x, 6) == b6 && Bit(x, 7) == b7
  {
  }

  lemma ByteDigit(x: nat, r: nat)
    requires x < 256 && r < 8
    ensures Bit(ByteOf(x), r) == Odd(Halved(x, r))
  {
    hide FromBits, Bit, Halved, Odd;
    BitsAreTheseBits(Odd(x), Odd(Halved(x, 1)), Odd(Halved(x, 2)), Odd(Halved(x, 3)),
                     Odd(Halved(x, 4)), Odd(Halved(x, 5)), Odd(Halved(x, 6)), Odd(Halved(x, 7)));
    NotHalved(x);
  }

  lemma NotHalved(x: nat)
    ensures Halved(x, 0) == x
  {
  }

  lemma HalveAgain(x: nat, n: nat)
    ensures Halved(x, n) == Worth(Odd(Halved(x, n))) + 2 * Halved(x, n + 1)
  {
  }

  lemma {:induction false} HalvedBelow(x: nat, n: nat)
    requires x < Pow2(8) && n <= 8
    ensures Halved(x, n) < Pow2(8 - n)
  {
    if n != 0 { HalvedBelow(x, n - 1); }
  }

  lemma {:induction false} ByteSpellsFrom(x: nat, r: nat)
    requires x < 256 && r <= 8
    ensures ValueFrom(ByteOf(x), r) == Halved(x, r)
    decreases 8 - r
  {
    hide Bit, ByteOf, Halved, Odd, Pow2;
    if r == 8 {
      assert Pow2(8) == 256 && Pow2(0) == 1 by { Pow2Zero(); Pow2Byte(0); }
      HalvedBelow(x, 8);
    } else {
      ByteSpellsFrom(x, r + 1);
      ByteDigit(x, r);
      HalveAgain(x, r);
    }
  }

  lemma ByteKeeps(x: nat)
    requires x < 256
    ensures ValueOf(ByteOf(x)) == x
  {
    hide Bit, ByteOf, Halved, ValueFrom;
    ByteSpellsFrom(x, 0);
    NotHalved(x);
  }

  lemma {:induction false} ZeroFrom(r: nat)
    requires r <= 8
    ensures ValueFrom(0, r) == 0
    decreases 8 - r
  {
    if r < 8 { ZeroFrom(r + 1); }
  }

  lemma ZeroIsWorthNothing()
    ensures ValueOf(0) == 0
  {
    hide ValueFrom;
    ZeroFrom(0);
  }

  lemma LengthByte(size: nat, i: nat)
    requires i < 8
    ensures ValueOf(LengthRoot(size)[i]) == (size / Pow2(8 * i)) % 256
  {
    hide Pow2, ByteOf, ValueOf;
    ByteKeeps((size / Pow2(8 * i)) % 256);
  }

  lemma {:induction false} LengthSpelled(size: nat, n: nat)
    requires n <= 8
    ensures Spelled(LengthRoot(size), n) == size % Pow2(8 * n)
  {
    hide Pow2, LengthRoot, ValueOf;
    if n == 0 {
      assert Pow2(0) == 1 by { Pow2Zero(); }
    } else {
      LengthSpelled(size, n - 1);
      LengthByte(size, n - 1);
      Pow2Byte(n - 1);
      NextByte(size, Pow2(8 * (n - 1)));
    }
  }

  lemma Pow2Zero()
    ensures Pow2(0) == 1
  {
  }

  lemma {:induction false} ZeroBytesAddNothing(c: Chunk, m: nat, n: nat)
    requires m <= n <= 32 && forall i :: m <= i < n ==> c[i] == 0
    ensures Spelled(c, n) == Spelled(c, m)
    decreases n
  {
    hide ValueOf;
    ZeroIsWorthNothing();
    if m < n { ZeroBytesAddNothing(c, m, n - 1); }
  }

  lemma Pow2Of64()
    ensures Pow2(64) == TWO_64
  {
    Pow2Zero();
    Pow2Byte(0);
    Pow2Byte(1);
    Pow2Byte(2);
    Pow2Byte(3);
    Pow2Byte(4);
    Pow2Byte(5);
    Pow2Byte(6);
    Pow2Byte(7);
  }

  /** The chunk mixed in spells the length as a 64-bit number; its upper bytes are zero. */
  lemma LengthDecodes(size: nat)
    ensures Spelled(LengthRoot(size), 32) == size % TWO_64
    ensures forall i :: 8 <= i < 32 ==> LengthRoot(size)[i] == 0
  {
    hide Pow2;
    LengthSpelled(size, 8);
    Pow2Of64();
    ZeroBytesAddNothing(LengthRoot(size), 8, 32);
  }

  /** The least number of chunks that hold so many bits. */
  ghost predicate LeastChunks(limit: nat, c: nat) {
    limit <= 256 * c && forall d: nat :: limit <= 256 * d ==> c <= d
  }

  /** The limit in chunks is the least that holds the limit in bits, exactly as long as
      the rounding up does not overflow; there it is none. */
  lemma LimitIsLeast(limit: uint64)
    ensures LeastChunks(limit, LimitChunks(limit)) <==> limit + 255 < TWO_64
    ensures limit + 255 >= TWO_64 ==> LimitChunks(limit) == 0
  {
    if limit + 255 >= TWO_64 { assert !(limit <= 256 * LimitChunks(limit)); }
  }

  // ----- the root -----

  /** The root is the length mixed into the merkleization of exactly the bits before
      the delimiter.  A list without one is taken whole, with its odd length. */
  method BitlistRootWithLimit(k: Hasher<Chunk>, buf: seq<Byte>, limit: nat, zeros: nat -> Chunk)
    returns (root: Chunk, ghost depth: nat)
    requires k.zero == ZERO_CHUNK && forall d :: zeros(d) == ZeroHash(k, d)
    requires |buf| > 0
    ensures IsDepth(LimitChunks(limit), depth)
    ensures buf[|buf| - 1] != 0 ==>
              root == k.h(Node(k, Pack(PackBytes(BitsOf(buf))), depth, 0), LengthRoot(BitSize(buf)))
    ensures buf[|buf| - 1] != 0 && PowerOfTwo(LimitChunks(limit)) && |Pack(PackBytes(BitsOf(buf)))| <= LimitChunks(limit) ==>
              root == k.h(SszRoot(k, Pack(PackBytes(BitsOf(buf))), LimitChunks(limit)), LengthRoot(|BitsOf(buf)|))
    ensures buf[|buf| - 1] == 0 ==> root == k.h(Node(k, Pack(buf), depth, 0), LengthRoot(8 * (|buf| - 1) + 255))
    ensures buf[|buf| - 1] != 0 ==> Spelled(LengthRoot(BitSize(buf)), 32) == |BitsOf(buf)| % TWO_64
  {
    if buf[|buf| - 1] != 0 { LengthDecodes(BitSize(buf)); }
    hide Node, IsDepth, Pack, PackBytes, BitsOf, Cleared, ByteOr0, Msb, LimitChunks, LengthRoot, PowerOfTwo, SszRoot;
    var res, size := ParseBitlist(buf);
    var roots := PackBits(res);
    var elements := new Chunk[|roots|](i requires 0 <= i < |roots| => roots[i]);
    assert elements[..|roots|] == roots;
    var base;
    base, depth := MerkleizeVector(k, elements, |roots|, LimitChunks(limit), zeros);
    root := k.h(base, LengthRoot(size));
    if buf[|buf| - 1] == 0 {
      SameTree(k, res, buf, depth, 0);
    } else {
      BitlistTree(k, buf, res, depth);
      BitsLength(buf);
      if PowerOfTwo(LimitChunks(limit)) && |Pack(PackBytes(BitsOf(buf)))| <= LimitChunks(limit) {
        MerkleizationRefines(k, Pack(PackBytes(BitsOf(buf))), LimitChunks(limit), depth);
      }
    }
  }

  lemma BitsLength(buf: seq<Byte>)
    requires |buf| > 0 && buf[|buf| - 1] != 0
    ensures |BitsOf(buf)| == BitSize(buf)
  {
  }

  /** Clearing the delimiter and stripping zero bytes keep the tree of the bits. */
  lemma BitlistTree(k: Hasher<Chunk>, buf: seq<Byte>, res: seq<Byte>, d: nat)
    requires k.zero == ZERO_CHUNK && |buf| > 0 && buf[|buf| - 1] != 0
    requires forall j :: ByteOr0(res, j) == ByteOr0(Cleared(buf), j)
    ensures Node(k, Pack(res), d, 0) == Node(k, Pack(PackBytes(BitsOf(buf))), d, 0)
  {
    hide Cleared, PackBytes, BitsOf;
    forall j ensures ByteOr0(res, j) == ByteOr0(PackBytes(BitsOf(buf)), j) { ClearedBytes(buf, j); }
    SameTree(k, res, PackBytes(BitsOf(buf)), d, 0);
  }
}
