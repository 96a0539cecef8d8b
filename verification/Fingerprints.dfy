/** The two-level fingerprint of node.go: every written block is hashed, and Release hashes the
    concatenation of the 64-byte block digests. */
module Fingerprints {
  import opened Basics

  /** What the bytes.Buffer of a writeStore holds after the given writes. */
  function Digests(H: Hasher, blocks: seq<Bytes>): Bytes {
    if blocks == [] then [] else Digests(H, blocks[..|blocks| - 1]) + H(blocks[|blocks| - 1])
  }

  /** What the file holds after the given sequential writes. */
  function Flatten(blocks: seq<Bytes>): Bytes {
    if blocks == [] then [] else Flatten(blocks[..|blocks| - 1]) + blocks[|blocks| - 1]
  }

  function Fingerprint(H: Hasher, blocks: seq<Bytes>): Hash {
    if blocks == [] then ZERO else H(Digests(H, blocks))
  }

  /** Everything that is fed to the hash function on behalf of one file. */
  ghost function Inputs(H: Hasher, blocks: seq<Bytes>): set<Bytes> {
    (set b | b in blocks) + (if blocks == [] then {} else {Digests(H, blocks)})
  }

  /** The hashing hypothesis, for the finitely many inputs of one run only. */
  ghost predicate CollisionFree(H: Hasher, inputs: set<Bytes>) {
    && (forall x, y | x in inputs && y in inputs && H(x) == H(y) :: x == y)
    && (forall x | x in inputs :: H(x) != ZERO)
  }

  lemma AppendBlock(H: Hasher, blocks: seq<Bytes>, data: Bytes)
    ensures Digests(H, blocks + [data]) == Digests(H, blocks) + H(data)
    ensures Flatten(blocks + [data]) == Flatten(blocks) + data
  {
    assert (blocks + [data])[..|blocks|] == blocks;
  }

  lemma {:induction false} DigestsLength(H: Hasher, blocks: seq<Bytes>)
    ensures |Digests(H, blocks)| == 64 * |blocks|
  {
    if blocks != [] {
      DigestsLength(H, blocks[..|blocks| - 1]);
    }
  }

  /** Fixed-width chunks decode uniquely: the buffer determines the block sequence. */
  lemma {:induction false} DigestsDetermineBlocks(H: Hasher, a: seq<Bytes>, b: seq<Bytes>, inputs: set<Bytes>)
    requires CollisionFree(H, inputs)
    requires (set x | x in a) <= inputs && (set x | x in b) <= inputs
    requires Digests(H, a) == Digests(H, b)
    ensures a == b
  {
    DigestsLength(H, a);
    DigestsLength(H, b);
    if a != [] {
      var a', b' := a[..|a| - 1], b[..|b| - 1];
      var x, y := a[|a| - 1], b[|b| - 1];
      DigestsLength(H, a');
      DigestsLength(H, b');
      assert Digests(H, a)[|Digests(H, a')|..] == H(x);
      assert Digests(H, b)[|Digests(H, b')|..] == H(y);
      assert x in inputs && y in inputs;
      assert Digests(H, a)[..|Digests(H, a')|] == Digests(H, a');
      assert Digests(H, b)[..|Digests(H, b')|] == Digests(H, b');
      assert (set z | z in a') <= (set z | z in a) && (set z | z in b') <= (set z | z in b);
      DigestsDetermineBlocks(H, a', b', inputs);
      assert a == a' + [x] && b == b' + [y];
    }
  }

  /** Fingerprint soundness, both ways: without collisions among the inputs hashed, two files get the
      same fingerprint exactly when they were written by the same sequence of blocks. */
  lemma FingerprintIdentifiesBlocks(H: Hasher, a: seq<Bytes>, b: seq<Bytes>, inputs: set<Bytes>)
    requires CollisionFree(H, inputs)
    requires Inputs(H, a) <= inputs && Inputs(H, b) <= inputs
    ensures Fingerprint(H, a) == Fingerprint(H, b) <==> a == b
    ensures Fingerprint(H, a) == Fingerprint(H, b) ==> Flatten(a) == Flatten(b)
    ensures Fingerprint(H, a) == ZERO <==> a == []
  {
    assert a != [] ==> Digests(H, a) in inputs;
    assert b != [] ==> Digests(H, b) in inputs;
    if Fingerprint(H, a) == Fingerprint(H, b) && a != [] && b != [] {
      DigestsDetermineBlocks(H, a, b, inputs);
    }
  }

  /** The converse of soundness fails: equal bytes split into different blocks are never recognised as
      duplicates, whatever the hash function. */
  lemma SameBytesDifferentBlocks(H: Hasher, x: byte, y: byte)
    requires CollisionFree(H, Inputs(H, [[x, y]]) + Inputs(H, [[x], [y]]))
    ensures Flatten([[x, y]]) == Flatten([[x], [y]])
    ensures Fingerprint(H, [[x, y]]) != Fingerprint(H, [[x], [y]])
  {
    AppendBlock(H, [], [x, y]);
    AppendBlock(H, [], [x]);
    AppendBlock(H, [[x]], [y]);
    assert [] + [[x, y]] == [[x, y]] && [] + [[x]] == [[x]] && [[x]] + [[y]] == [[x], [y]];
    FingerprintIdentifiesBlocks(H, [[x, y]], [[x], [y]], Inputs(H, [[x, y]]) + Inputs(H, [[x], [y]]));
  }
}
