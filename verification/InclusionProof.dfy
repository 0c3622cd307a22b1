/** The inclusion proof of a blob commitment in a block body: two loops fold a
    branch into a root.  The reference is one branch check at one position; the body is
    a tree over its field roots, one of which is the list of commitments: a tree over
    their leaves, hashed with its length. */
module InclusionProof {
  import opened Common
  import opened Merkle
  import opened MerkleFlat
  import opened Bitlist
  import opened Digits

  const BODY_DEPTH: nat := 4
  const COMMITMENTS_DEPTH: nat := 13
  const PROOF_DEPTH: nat := COMMITMENTS_DEPTH + BODY_DEPTH
  const BODY_INDEX: nat := 11

  // ----- the branch check -----

  function Join<T>(h: (T, T) -> T, digit: nat, value: T, sibling: T): T {
    if digit == 1 then h(sibling, value) else h(value, sibling)
  }

  /** The value after the first `n` levels of a branch at position `pos`. */
  function Climb<T>(h: (T, T) -> T, leaf: T, branch: seq<T>, pos: nat, n: nat): T
    requires n <= |branch|
  {
    if n == 0 then leaf else Join(h, Digit(pos, n - 1), Climb(h, leaf, branch, pos, n - 1), branch[n - 1])
  }

  function Sibling(i: nat): nat { if i % 2 == 1 then i - 1 else i + 1 }

  /** The branch of position `pos` in the tree over `xs`. */
  function BranchOf<T>(k: Hasher<T>, xs: seq<T>, d: nat, pos: nat): (b: seq<T>)
    ensures |b| == d && forall i :: 0 <= i < d ==> b[i] == Node(k, xs, i, Sibling(Shr(pos, i)))
  {
    seq(d, i requires 0 <= i < d => Node(k, xs, i, Sibling(Shr(pos, i))))
  }

  lemma NodeJoins<T>(k: Hasher<T>, xs: seq<T>, d: nat, pos: nat)
    ensures Node(k, xs, d + 1, Shr(pos, d + 1))
         == Join(k.h, Digit(pos, d), Node(k, xs, d, Shr(pos, d)), Node(k, xs, d, Sibling(Shr(pos, d))))
  {
    var q := Shr(pos, d);
    assert q == 2 * (q / 2) + q % 2;
  }

  /** Completeness: the branch taken from any tree climbs along its nodes. */
  lemma {:induction false} BranchClimbs<T>(k: Hasher<T>, xs: seq<T>, d: nat, pos: nat, n: nat)
    requires n <= d
    ensures Climb(k.h, Node(k, xs, 0, pos), BranchOf(k, xs, d, pos), pos, n) == Node(k, xs, n, Shr(pos, n))
  {
    hide BranchOf, Node, Sibling, Digit, Join;
    if n != 0 {
      BranchClimbs(k, xs, d, pos, n - 1);
      NodeJoins(k, xs, n - 1, pos);
    }
  }

  /** From level `i` up to `n` the two branches are the same. */
  ghost predicate SameFrom<T(!new)>(b: seq<T>, b': seq<T>, i: nat, n: nat)
    requires n <= |b| && n <= |b'|
  {
    forall j :: i <= j < n ==> b[j] == b'[j]
  }

  /** At level `i` two different pairs hash to the same value. */
  ghost predicate CollideAt<T(!new)>(h: (T, T) -> T, leaf: T, b: seq<T>, leaf': T, b': seq<T>, pos: nat, i: nat)
    requires i < |b| && i < |b'|
  {
    var value, value' := Climb(h, leaf, b, pos, i), Climb(h, leaf', b', pos, i);
    && (value, b[i]) != (value', b'[i])
    && Join(h, Digit(pos, i), value, b[i]) == Join(h, Digit(pos, i), value', b'[i])
  }

  /** Two branches collide at a level from `low` on above which they are the same. */
  ghost predicate Collide<T(!new)>(h: (T, T) -> T, leaf: T, b: seq<T>, leaf': T, b': seq<T>, pos: nat, low: nat, n: nat)
    requires n <= |b| && n <= |b'|
  {
    exists i :: low <= i < n && CollideAt(h, leaf, b, leaf', b', pos, i) && SameFrom(b, b', i + 1, n)
  }

  /** For every pair hash, and from any level they have both reached: two branches climb
      to the same value if and only if they stand at the same value there and are the same
      from there on, or collide at a level they name. */
  lemma {:induction false} ClimbAlikeIff<T(!new)>(
      h: (T, T) -> T, leaf: T, b: seq<T>, leaf': T, b': seq<T>, pos: nat, low: nat, n: nat)
    requires low <= n <= |b| && n <= |b'|
    ensures Climb(h, leaf, b, pos, n) == Climb(h, leaf', b', pos, n) <==>
              || (Climb(h, leaf, b, pos, low) == Climb(h, leaf', b', pos, low) && SameFrom(b, b', low, n))
              || Collide(h, leaf, b, leaf', b', pos, low, n)
    decreases n
  {
    hide Digit, Join;
    if low < n {
      ClimbAlikeIff(h, leaf, b, leaf', b', pos, low, n - 1);
      CollideBelow(h, leaf, b, leaf', b', pos, low, n);
      assert SameFrom(b, b', low, n) <==> SameFrom(b, b', low, n - 1) && b[n - 1] == b'[n - 1];
    }
  }

  lemma CollideBelow<T(!new)>(h: (T, T) -> T, leaf: T, b: seq<T>, leaf': T, b': seq<T>, pos: nat, low: nat, n: nat)
    requires low < n <= |b| && n <= |b'|
    ensures Collide(h, leaf, b, leaf', b', pos, low, n) <==>
              || CollideAt(h, leaf, b, leaf', b', pos, n - 1)
              || (Collide(h, leaf, b, leaf', b', pos, low, n - 1) && b[n - 1] == b'[n - 1])
  {
    hide CollideAt;
    if CollideAt(h, leaf, b, leaf', b', pos, n - 1) {
      assert SameFrom(b, b', n - 1 + 1, n);
    }
    if Collide(h, leaf, b, leaf', b', pos, low, n - 1) && b[n - 1] == b'[n - 1] {
      var i :| low <= i < n - 1 && CollideAt(h, leaf, b, leaf', b', pos, i) && SameFrom(b, b', i + 1, n - 1);
      assert SameFrom(b, b', i + 1, n);
    }
    if Collide(h, leaf, b, leaf', b', pos, low, n) {
      var i :| low <= i < n && CollideAt(h, leaf, b, leaf', b', pos, i) && SameFrom(b, b', i + 1, n);
      if i < n - 1 { assert SameFrom(b, b', i + 1, n - 1); }
    }
  }

  /** A branch climbs to a node of a full tree if and only if it is the leaf's own there or
      collides with that. */
  lemma ClimbsExactly<T(!new)>(k: Hasher<T>, xs: seq<T>, leaf: T, branch: seq<T>, pos: nat, n: nat)
    requires n <= |branch|
    ensures var own := BranchOf(k, xs, n, pos);
            Climb(k.h, leaf, branch, pos, n) == Node(k, xs, n, Shr(pos, n)) <==>
              || (leaf == Node(k, xs, 0, pos) && SameFrom(branch, own, 0, n))
              || Collide(k.h, leaf, branch, Node(k, xs, 0, pos), own, pos, 0, n)
  {
    hide Node, BranchOf, Collide;
    BranchClimbs(k, xs, n, pos, n);
    ClimbAlikeIff(k.h, leaf, branch, Node(k, xs, 0, pos), BranchOf(k, xs, n, pos), pos, 0, n);
  }

  // ----- the verifier -----

  /** Where the verifier looks: only the low 13 digits of the index are used. */
  function Position(commitmentIndex: nat): nat {
    BODY_INDEX * Pow2(COMMITMENTS_DEPTH) + commitmentIndex % Pow2(COMMITMENTS_DEPTH)
  }

  /** The leaf of a 48-byte commitment: its two chunks hashed together. */
  function CommitmentLeaf(k: Hasher<Chunk>, commitment: seq<Byte>): Chunk {
    k.h(PaddedChunk(commitment, 0), PaddedChunk(commitment, 1))
  }

  /** That is the SSZ root of the commitment as a vector of 48 bytes. */
  lemma LeafIsRoot(k: Hasher<Chunk>, commitment: seq<Byte>)
    requires |commitment| == 48
    ensures |Pack(commitment)| == 2 && CommitmentLeaf(k, commitment) == SszRoot(k, Pack(commitment), 2)
  {
    hide PaddedChunk;
    var chunks := Pack(commitment);
    assert chunks == [PaddedChunk(commitment, 0), PaddedChunk(commitment, 1)];
    assert IsDepth(2, 1) && PowerOfTwo(2) by { assert Pow2(1) == 2; assert PowerOfTwo(1); }
    MerkleizationRefines(k, chunks, 2, 1);
    assert Node(k, chunks, 0, 0) == chunks[0] && Node(k, chunks, 0, 1) == chunks[1];
  }

  /** One branch check over all levels at once. */
  predicate Accepts(k: Hasher<Chunk>, commitment: seq<Byte>, proof: seq<Chunk>, ci: nat, bodyRoot: Chunk) {
    && |proof| >= PROOF_DEPTH
    && Climb(k.h, CommitmentLeaf(k, commitment), proof, Position(ci), PROOF_DEPTH) == bodyRoot
  }

  lemma PositionDigits(ci: nat, i: nat)
    ensures i < COMMITMENTS_DEPTH ==> Digit(Position(ci), i) == Digit(ci, i)
    ensures Digit(Position(ci), COMMITMENTS_DEPTH + i) == Digit(BODY_INDEX, i)
  {
    var p := Pow2(COMMITMENTS_DEPTH);
    var low := ci % p;
    assert ci == (ci / p) * p + low;
    if i < COMMITMENTS_DEPTH {
      LowDigit(BODY_INDEX, low, COMMITMENTS_DEPTH, i);
      LowDigit(ci / p, low, COMMITMENTS_DEPTH, i);
    }
    ShrOfSum(BODY_INDEX, low, COMMITMENTS_DEPTH);
    ShrTwice(Position(ci), COMMITMENTS_DEPTH, i);
  }

  /** Two loops, thirteen levels of commitments and four of the body, are one
      seventeen-level check at `Position`. */
  method VerifyCommitmentInclusionProof(
      k: Hasher<Chunk>, commitment: seq<Byte>, proof: Option<seq<Chunk>>, commitmentIndex: nat, bodyRoot: Chunk)
    returns (ok: bool)
    ensures ok <==> proof.Some? && Accepts(k, commitment, proof.value, commitmentIndex, bodyRoot)
  {
    hide Pow2, Shr, Position, PaddedChunk;
    var value := CommitmentLeaf(k, commitment);
    ghost var leaf := value;
    if proof.None? || |proof.value| < PROOF_DEPTH { return false; }
    ghost var pos := Position(commitmentIndex);
    for i := 0 to COMMITMENTS_DEPTH
      invariant value == Climb(k.h, leaf, proof.value, pos, i)
    {
      PositionDigits(commitmentIndex, i);
      ShrIsDiv(commitmentIndex, i);
      var curr := proof.value[i];
      if commitmentIndex / Pow2(i) % 2 == 1 {
        value := k.h(curr, value);
      } else {
        value := k.h(value, curr);
      }
    }
    for i := 0 to BODY_DEPTH
      invariant value == Climb(k.h, leaf, proof.value, pos, COMMITMENTS_DEPTH + i)
    {
      PositionDigits(commitmentIndex, i);
      ShrIsDiv(BODY_INDEX, i);
      var curr := proof.value[i + COMMITMENTS_DEPTH];
      if BODY_INDEX / Pow2(i) % 2 == 1 {
        value := k.h(curr, value);
      } else {
        value := k.h(value, curr);
      }
    }
    return value == bodyRoot;
  }

  lemma PositionInRange(ci: nat)
    ensures Position(ci) < Pow2(PROOF_DEPTH)
    ensures Position(ci) == BODY_INDEX * Pow2(COMMITMENTS_DEPTH) + ci <==> ci < Pow2(COMMITMENTS_DEPTH)
  {
    assert Pow2(17) == 16 * Pow2(13) by {
      assert Pow2(17) == 2 * Pow2(16) == 4 * Pow2(15) == 8 * Pow2(14) == 16 * Pow2(13);
    }
  }

  /** In numbers: the branch has 17 levels, and the leaf of index 0 is node 221184 of the
      body's tree, counting from the root as 1; the 8192 leaves below the field follow. */
  lemma NodeOfLeaf(ci: nat)
    ensures PROOF_DEPTH == 17 && Pow2(PROOF_DEPTH) + Position(ci) == 221184 + ci % 8192
  {
    hide Pow2;
    assert Pow2(13) == 8192 && Pow2(17) == 131072 by { PowersOfTwo(); }
  }

  lemma PowersOfTwo()
    ensures Pow2(13) == 8192 && Pow2(17) == 131072
  {
    assert Pow2(4) == 16;
    assert Pow2(8) == 256;
    assert Pow2(12) == 4096;
    assert Pow2(16) == 65536;
  }

  // ----- block bodies -----

  /** A block body as its root is computed: the roots of its fields, where the field of
      the commitments is that of a list: the leaves of the list and the chunk of its
      length. */
  datatype Body = Body(roots: seq<Chunk>, leaves: seq<Chunk>, length: Chunk)

  const LIST_DEPTH: nat := 12

  predicate HasCommitments(body: Body) { |body.roots| > BODY_INDEX }

  function Fields(k: Hasher<Chunk>, body: Body): seq<Chunk>
    requires HasCommitments(body)
  {
    body.roots[BODY_INDEX := k.h(Node(k, body.leaves, LIST_DEPTH, 0), body.length)]
  }

  function BodyRoot(k: Hasher<Chunk>, body: Body): Chunk
    requires HasCommitments(body)
  {
    Node(k, Fields(k, body), BODY_DEPTH, 0)
  }

  /** The branch of the list's commitment `ci`: within the list, the length beside it, and
      the fields of the body. */
  function BodyBranch(k: Hasher<Chunk>, body: Body, ci: nat): (b: seq<Chunk>)
    requires HasCommitments(body)
    ensures |b| == PROOF_DEPTH
  {
    BranchOf(k, body.leaves, LIST_DEPTH, ci) + [body.length] + BranchOf(k, Fields(k, body), BODY_DEPTH, BODY_INDEX)
  }

  /** The branch of the list's length: the list beside it, and the fields of the body. */
  function LengthBranch(k: Hasher<Chunk>, body: Body): (b: seq<Chunk>)
    requires HasCommitments(body)
    ensures |b| == 1 + BODY_DEPTH
  {
    [Node(k, body.leaves, LIST_DEPTH, 0)] + BranchOf(k, Fields(k, body), BODY_DEPTH, BODY_INDEX)
  }

  lemma FieldOfList(k: Hasher<Chunk>, body: Body)
    requires HasCommitments(body)
    ensures Node(k, Fields(k, body), 0, BODY_INDEX) == k.h(Node(k, body.leaves, LIST_DEPTH, 0), body.length)
  {
    hide Node;
    LeafNode(k, Fields(k, body), BODY_INDEX);
  }

  lemma LeafNode<T>(k: Hasher<T>, xs: seq<T>, i: nat)
    requires i < |xs|
    ensures Node(k, xs, 0, i) == xs[i]
  {
  }

  lemma {:induction false} ClimbPrefix<T>(h: (T, T) -> T, leaf: T, b: seq<T>, b': seq<T>, pos: nat, n: nat)
    requires n <= |b| && n <= |b'| && b[..n] == b'[..n]
    ensures Climb(h, leaf, b, pos, n) == Climb(h, leaf, b', pos, n)
  {
    if n != 0 {
      assert b[..n][n - 1] == b'[..n][n - 1];
      assert b[..n - 1] == b[..n][..n - 1] && b'[..n - 1] == b'[..n][..n - 1];
      ClimbPrefix(h, leaf, b, b', pos, n - 1);
    }
  }

  /** Positions with the same digits climb alike. */
  lemma {:induction false} ClimbDigits<T>(h: (T, T) -> T, leaf: T, b: seq<T>, pos: nat, pos': nat, n: nat)
    requires n <= |b| && forall i :: 0 <= i < n ==> Digit(pos, i) == Digit(pos', i)
    ensures Climb(h, leaf, b, pos, n) == Climb(h, leaf, b, pos', n)
  {
    hide Digit, Join;
    if n != 0 { ClimbDigits(h, leaf, b, pos, pos', n - 1); }
  }

  /** The upper levels of a climb are a climb of their own. */
  lemma {:induction false} ClimbSplits<T>(h: (T, T) -> T, leaf: T, b: seq<T>, pos: nat, m: nat, n: nat)
    requires m + n <= |b|
    ensures Climb(h, leaf, b, pos, m + n) == Climb(h, Climb(h, leaf, b, pos, m), b[m..], Shr(pos, m), n)
    decreases n
  {
    hide Join;
    if n != 0 {
      ClimbSplits(h, leaf, b, pos, m, n - 1);
      ShrTwice(pos, m, n - 1);
    }
  }

  /** Which side the position takes at the length, and where it stands above it. */
  lemma PositionAbove(ci: nat)
    ensures Digit(Position(ci), LIST_DEPTH) == Digit(ci, LIST_DEPTH)
    ensures forall i: nat :: i < LIST_DEPTH ==> Digit(Position(ci), i) == Digit(ci, i)
    ensures Shr(Position(ci), COMMITMENTS_DEPTH) == BODY_INDEX
  {
    hide Position, Digit, Shr;
    forall i: nat | i < COMMITMENTS_DEPTH ensures Digit(Position(ci), i) == Digit(ci, i) { PositionDigits(ci, i); }
    PositionTop(ci);
  }

  lemma PositionTop(ci: nat)
    ensures Shr(Position(ci), COMMITMENTS_DEPTH) == BODY_INDEX
  {
    hide Shr;
    ShrOfSum(BODY_INDEX, ci % Pow2(COMMITMENTS_DEPTH), COMMITMENTS_DEPTH);
  }

  /** From the field of the commitments up to the body's root. */
  lemma FieldsClimb(k: Hasher<Chunk>, body: Body, leaf: Chunk, b: seq<Chunk>, ci: nat)
    requires HasCommitments(body) && |b| == PROOF_DEPTH
    requires Climb(k.h, leaf, b, Position(ci), COMMITMENTS_DEPTH) == Node(k, Fields(k, body), 0, BODY_INDEX)
    requires b[COMMITMENTS_DEPTH..] == BranchOf(k, Fields(k, body), BODY_DEPTH, BODY_INDEX)
    ensures Climb(k.h, leaf, b, Position(ci), PROOF_DEPTH) == BodyRoot(k, body)
  {
    hide Climb, Node, Position, BranchOf, Shr, Fields;
    PositionAbove(ci);
    ClimbSplits(k.h, leaf, b, Position(ci), COMMITMENTS_DEPTH, BODY_DEPTH);
    BranchClimbs(k, Fields(k, body), BODY_DEPTH, BODY_INDEX, BODY_DEPTH);
    ElevenIsBelowSixteen();
  }

  lemma ElevenIsBelowSixteen()
    ensures Shr(BODY_INDEX, BODY_DEPTH) == 0
  {
  }

  /** The branch of a body climbs to its root. */
  lemma BodyBranchClimbs(k: Hasher<Chunk>, body: Body, ci: nat)
    requires HasCommitments(body) && ci < Pow2(LIST_DEPTH)
    ensures Climb(k.h, Node(k, body.leaves, 0, ci), BodyBranch(k, body, ci), Position(ci), PROOF_DEPTH) == BodyRoot(k, body)
  {
    hide Climb, Node, Position, BranchOf, Shr, Digit, Pow2, Fields;
    var leaf, b, own := Node(k, body.leaves, 0, ci), BodyBranch(k, body, ci), BranchOf(k, body.leaves, LIST_DEPTH, ci);
    PositionAbove(ci);
    SmallQuotient(ci, LIST_DEPTH);
    assert b[..LIST_DEPTH] == own[..LIST_DEPTH];
    ClimbPrefix(k.h, leaf, b, own, Position(ci), LIST_DEPTH);
    ClimbDigits(k.h, leaf, own, Position(ci), ci, LIST_DEPTH);
    BranchClimbs(k, body.leaves, LIST_DEPTH, ci, LIST_DEPTH);
    ListStep(k, body, leaf, b, ci);
    assert b[COMMITMENTS_DEPTH..] == BranchOf(k, Fields(k, body), BODY_DEPTH, BODY_INDEX);
    FieldsClimb(k, body, leaf, b, ci);
  }

  lemma ListStep(k: Hasher<Chunk>, body: Body, leaf: Chunk, b: seq<Chunk>, ci: nat)
    requires HasCommitments(body) && ci < Pow2(LIST_DEPTH) && |b| == PROOF_DEPTH && b[LIST_DEPTH] == body.length
    requires Climb(k.h, leaf, b, Position(ci), LIST_DEPTH) == Node(k, body.leaves, LIST_DEPTH, 0)
    ensures Climb(k.h, leaf, b, Position(ci), COMMITMENTS_DEPTH) == Node(k, Fields(k, body), 0, BODY_INDEX)
  {
    hide Node, Position, Shr, Pow2, Fields;
    FieldOfList(k, body);
    PositionAbove(ci);
    SmallQuotient(ci, LIST_DEPTH);
  }

  // ----- what the verifier accepts -----

  /** The verifier accepts a commitment of the body with its branch. */
  lemma AcceptsRealBranches(k: Hasher<Chunk>, body: Body, commitment: seq<Byte>, ci: nat)
    requires HasCommitments(body) && ci < Pow2(LIST_DEPTH)
    requires Node(k, body.leaves, 0, ci) == CommitmentLeaf(k, commitment)
    ensures Accepts(k, commitment, BodyBranch(k, body, ci), ci, BodyRoot(k, body))
  {
    hide Climb, Node, Position, BodyBranch, BodyRoot, CommitmentLeaf, Pow2;
    BodyBranchClimbs(k, body, ci);
  }

  /** Against the root of any body, for every pair hash and every index of the list, the
      verifier accepts exactly the leaf that is there with its own branch, and proofs that
      collide with it at a named one of the seventeen levels. */
  lemma AcceptsExactly(k: Hasher<Chunk>, body: Body, commitment: seq<Byte>, proof: seq<Chunk>, ci: nat)
    requires HasCommitments(body) && ci < Pow2(LIST_DEPTH) && |proof| >= PROOF_DEPTH
    ensures var leaf, leaf', own := CommitmentLeaf(k, commitment), Node(k, body.leaves, 0, ci), BodyBranch(k, body, ci);
            Accepts(k, commitment, proof, ci, BodyRoot(k, body)) <==>
              || (leaf == leaf' && SameFrom(proof, own, 0, PROOF_DEPTH))
              || Collide(k.h, leaf, proof, leaf', own, Position(ci), 0, PROOF_DEPTH)
  {
    hide Climb, Node, Position, BodyBranch, BodyRoot, CommitmentLeaf, Collide, SameFrom, Pow2;
    BodyBranchClimbs(k, body, ci);
    var leaf, leaf' := CommitmentLeaf(k, commitment), Node(k, body.leaves, 0, ci);
    ClimbAlikeIff(k.h, leaf, proof, leaf', BodyBranch(k, body, ci), Position(ci), 0, PROOF_DEPTH);
    ClimbZero(k.h, leaf, proof, Position(ci));
    ClimbZero(k.h, leaf', BodyBranch(k, body, ci), Position(ci));
  }

  lemma ClimbZero<T>(h: (T, T) -> T, leaf: T, b: seq<T>, pos: nat)
    ensures Climb(h, leaf, b, pos, 0) == leaf
  {
  }

  /** An index whose digit 12 is set leads to the list's length, below which there is no
      tree: the verifier accepts exactly proofs that climb to the length in twelve levels
      and go on with its branch, and proofs that collide with that. */
  lemma AcceptsAtLength(k: Hasher<Chunk>, body: Body, commitment: seq<Byte>, proof: seq<Chunk>, ci: nat)
    requires HasCommitments(body) && Digit(ci, LIST_DEPTH) == 1 && |proof| >= PROOF_DEPTH
    ensures var pos := Position(ci);
            var value := Climb(k.h, CommitmentLeaf(k, commitment), proof, pos, LIST_DEPTH);
            var upper, own := proof[LIST_DEPTH..], LengthBranch(k, body);
            Accepts(k, commitment, proof, ci, BodyRoot(k, body)) <==>
              || (value == body.length && SameFrom(upper, own, 0, 1 + BODY_DEPTH))
              || Collide(k.h, value, upper, body.length, own, Shr(pos, LIST_DEPTH), 0, 1 + BODY_DEPTH)
  {
    hide Climb, Node, Position, LengthBranch, BodyRoot, CommitmentLeaf, Collide, SameFrom, Digit, Shr;
    var leaf, pos, own := CommitmentLeaf(k, commitment), Position(ci), LengthBranch(k, body);
    var value := Climb(k.h, leaf, proof, pos, LIST_DEPTH);
    ClimbSplits(k.h, leaf, proof, pos, LIST_DEPTH, 1 + BODY_DEPTH);
    LengthClimbs(k, body, ci);
    ClimbAlikeIff(k.h, value, proof[LIST_DEPTH..], body.length, own, Shr(pos, LIST_DEPTH), 0, 1 + BODY_DEPTH);
    ClimbZero(k.h, value, proof[LIST_DEPTH..], Shr(pos, LIST_DEPTH));
    ClimbZero(k.h, body.length, own, Shr(pos, LIST_DEPTH));
  }

  lemma LengthClimbs(k: Hasher<Chunk>, body: Body, ci: nat)
    requires HasCommitments(body) && Digit(ci, LIST_DEPTH) == 1
    ensures Climb(k.h, body.length, LengthBranch(k, body), Shr(Position(ci), LIST_DEPTH), 1 + BODY_DEPTH) == BodyRoot(k, body)
  {
    hide Node, Position, BranchOf, Shr, Climb, Fields;
    FieldOfList(k, body);
    var b, pos := LengthBranch(k, body), Shr(Position(ci), LIST_DEPTH);
    PositionAbove(ci);
    ShrTwice(Position(ci), LIST_DEPTH, 0);
    ShrTwice(Position(ci), LIST_DEPTH, 1);
    ClimbSplits(k.h, body.length, b, pos, 1, BODY_DEPTH);
    OneStep(k.h, body.length, b, pos);
    assert b[1..] == BranchOf(k, Fields(k, body), BODY_DEPTH, BODY_INDEX);
    BranchClimbs(k, Fields(k, body), BODY_DEPTH, BODY_INDEX, BODY_DEPTH);
    ElevenIsBelowSixteen();
  }

  lemma OneStep<T>(h: (T, T) -> T, leaf: T, b: seq<T>, pos: nat)
    requires |b| >= 1
    ensures Climb(h, leaf, b, pos, 1) == Join(h, Digit(pos, 0), leaf, b[0])
  {
  }

  /** Only the low 13 digits of the index matter. */
  lemma SameIndex(k: Hasher<Chunk>, commitment: seq<Byte>, proof: seq<Chunk>, ci: nat, bodyRoot: Chunk)
    ensures Accepts(k, commitment, proof, ci, bodyRoot)
       <==> Accepts(k, commitment, proof, ci % Pow2(COMMITMENTS_DEPTH), bodyRoot)
  {
    hide Climb, Pow2;
    var p := Pow2(COMMITMENTS_DEPTH);
    assert ci % p % p == ci % p;
  }

  /** Two commitments whose chunks differ and yet have one leaf. */
  ghost predicate LeavesCollide(k: Hasher<Chunk>, c: seq<Byte>, c': seq<Byte>) {
    && (PaddedChunk(c, 0), PaddedChunk(c, 1)) != (PaddedChunk(c', 0), PaddedChunk(c', 1))
    && CommitmentLeaf(k, c) == CommitmentLeaf(k, c')
  }

  lemma SameChunks(c: seq<Byte>, c': seq<Byte>)
    requires |c| == |c'| == 48
    requires PaddedChunk(c, 0) == PaddedChunk(c', 0) && PaddedChunk(c, 1) == PaddedChunk(c', 1)
    ensures c == c'
  {
    forall j | 0 <= j < 48 ensures c[j] == c'[j] {
      var i := if j < 32 then 0 else 1;
      var r := j - 32 * i;
      assert PaddedChunk(c, i)[r] == ByteOr0(c, 32 * i + r) && PaddedChunk(c', i)[r] == ByteOr0(c', 32 * i + r);
    }
  }

  /** An accepted commitment is the one in the body, unless the pair hash collides at its
      leaf or at a level of its branch. */
  lemma AcceptedIsCommitted(
      k: Hasher<Chunk>, body: Body, committed: seq<Byte>, commitment: seq<Byte>, proof: seq<Chunk>, ci: nat)
    requires HasCommitments(body) && ci < Pow2(LIST_DEPTH) && |committed| == |commitment| == 48
    requires Node(k, body.leaves, 0, ci) == CommitmentLeaf(k, committed)
    ensures Accepts(k, commitment, proof, ci, BodyRoot(k, body)) ==>
            var own := BodyBranch(k, body, ci);
            || (commitment == committed && SameFrom(proof, own, 0, PROOF_DEPTH))
            || LeavesCollide(k, commitment, committed)
            || Collide(k.h, CommitmentLeaf(k, commitment), proof, CommitmentLeaf(k, committed), own, Position(ci), 0, PROOF_DEPTH)
  {
    hide Node, Position, Collide, PaddedChunk, SameFrom, CommitmentLeaf, BodyBranch, BodyRoot, Climb, Pow2;
    if |proof| >= PROOF_DEPTH { AcceptsExactly(k, body, commitment, proof, ci); }
    if !LeavesCollide(k, commitment, committed) && CommitmentLeaf(k, commitment) == CommitmentLeaf(k, committed) {
      SameChunks(commitment, committed);
    }
  }
}
