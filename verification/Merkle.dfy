/** The Merkle tree of a block and the branch that folds any coinbase hash up to its root. */
module Merkle {
  import opened Bytes

  function Pair(hash: Hash, left: seq<byte>, right: seq<byte>): Digest {
    hash(left + right)
  }

  /** One layer up: neighbours are hashed together and an odd last node is paired with itself. */
  function NextLayer(hash: Hash, layer: seq<Digest>): (next: seq<Digest>)
    ensures |next| == (|layer| + 1) / 2
  {
    if |layer| == 0 then []
    else if |layer| == 1 then [Pair(hash, layer[0], layer[0])]
    else [Pair(hash, layer[0], layer[1])] + NextLayer(hash, layer[2..])
  }

  function Root(hash: Hash, leaves: seq<Digest>): Digest
    requires |leaves| >= 1
    decreases |leaves|
  {
    if |leaves| == 1 then leaves[0] else Root(hash, NextLayer(hash, leaves))
  }

  /** The right-hand neighbours of the leftmost path, from the leaves upward. */
  function Branch(hash: Hash, leaves: seq<Digest>): seq<Digest>
    requires |leaves| >= 1
    decreases |leaves|
  {
    if |leaves| == 1 then [] else [leaves[1]] + Branch(hash, NextLayer(hash, leaves))
  }

  /** Each node one layer up hashes its two children, and an odd last child is hashed with itself. */
  lemma {:induction false} NextLayerAt(hash: Hash, layer: seq<Digest>, i: nat)
    requires 2 * i < |layer|
    ensures var left: seq<byte> := layer[2 * i];
      var right: seq<byte> := layer[if 2 * i + 1 < |layer| then 2 * i + 1 else 2 * i];
      NextLayer(hash, layer)[i] == hash(left + right)
    decreases i
  {
    if i > 0 {
      NextLayerAt(hash, layer[2..], i - 1);
    }
  }

  /** So an odd layer has the root it has with its last node written twice. */
  lemma OddLastNodeCountsTwice(hash: Hash, layer: seq<Digest>)
    requires |layer| > 1 && |layer| % 2 == 1
    ensures Root(hash, layer) == Root(hash, layer + [layer[|layer| - 1]])
  {
    var even := layer + [layer[|layer| - 1]];
    forall i | 0 <= i < |NextLayer(hash, layer)| ensures NextLayer(hash, layer)[i] == NextLayer(hash, even)[i] {
      NextLayerAt(hash, layer, i);
      NextLayerAt(hash, even, i);
    }
    assert NextLayer(hash, layer) == NextLayer(hash, even);
  }

  /** The roots of the smallest blocks. */
  lemma SmallRoots(hash: Hash, a: Digest, b: Digest, c: Digest)
    ensures Root(hash, [a]) == a
    ensures Root(hash, [a, b]) == hash(a + b)
    ensures Root(hash, [a, b, c]) == hash(hash(a + b) + hash(c + c))
  {
    NextLayerAt(hash, [a, b], 0);
    NextLayerAt(hash, [a, b, c], 0);
    NextLayerAt(hash, [a, b, c], 1);
    var pair: seq<Digest> := [hash(a + b)];
    assert NextLayer(hash, [a, b]) == pair;
    assert Root(hash, [a, b]) == Root(hash, pair);
    var above: seq<Digest> := [hash(a + b), hash(c + c)];
    assert NextLayer(hash, [a, b, c]) == above;
    NextLayerAt(hash, above, 0);
    var root: seq<Digest> := [hash(hash(a + b) + hash(c + c))];
    assert NextLayer(hash, above) == root;
    assert Root(hash, [a, b, c]) == Root(hash, above) == Root(hash, root);
  }

  /** A proof for leaf 0 with the absent entries removed: the leaf, its branch and the root. */
  function Proof(hash: Hash, leaves: seq<Digest>): seq<Digest>
    requires |leaves| >= 1
  {
    [leaves[0]] + Branch(hash, leaves) + [Root(hash, leaves)]
  }

  /** Drops the popped root and the leading leaf of a proof. */
  function ExtractBranch(proof: seq<Digest>): seq<Digest>
    requires |proof| >= 2
  {
    proof[..|proof| - 1][1..]
  }

  lemma ExtractBranchOfProof(hash: Hash, leaves: seq<Digest>)
    requires |leaves| >= 1
    ensures ExtractBranch(Proof(hash, leaves)) == Branch(hash, leaves)
  {
    assert Proof(hash, leaves)[..|Proof(hash, leaves)| - 1] == [leaves[0]] + Branch(hash, leaves);
  }

  function Fold(hash: Hash, leaf: Digest, branch: seq<Digest>): Digest
    decreases |branch|
  {
    if branch == [] then leaf else Fold(hash, Pair(hash, leaf, branch[0]), branch[1..])
  }

  lemma {:induction false} FoldSnoc(hash: Hash, leaf: Digest, branch: seq<Digest>, last: Digest)
    ensures Fold(hash, leaf, branch + [last]) == Pair(hash, Fold(hash, leaf, branch), last)
    decreases |branch|
  {
    if branch == [] {
      assert Fold(hash, leaf, [last]) == Fold(hash, Pair(hash, leaf, last), []);
      assert branch + [last] == [last];
    } else {
      FoldSnoc(hash, Pair(hash, leaf, branch[0]), branch[1..], last);
      assert (branch + [last])[1..] == branch[1..] + [last];
    }
  }

  /** A branch taken beside a placeholder folds every other leaf 0 to the full root with that leaf. */
  lemma {:induction false} BranchServesEveryLeaf(hash: Hash, leaves: seq<Digest>, leaf: Digest)
    requires |leaves| >= 1
    ensures Fold(hash, leaf, Branch(hash, leaves)) == Root(hash, leaves[0 := leaf])
    decreases |leaves|
  {
    if |leaves| > 1 {
      var above := NextLayer(hash, leaves);
      var combined := Pair(hash, leaf, leaves[1]);
      BranchServesEveryLeaf(hash, above, combined);
      assert leaves[0 := leaf][2..] == leaves[2..];
      assert NextLayer(hash, leaves[0 := leaf]) == above[0 := combined];
      var branch := Branch(hash, leaves);
      assert branch[1..] == Branch(hash, above);
      assert Fold(hash, leaf, branch) == Fold(hash, combined, branch[1..]);
    }
  }

  /** The branch has exactly as many entries as halvings are needed to reach one node. */
  lemma {:induction false} BranchLength(hash: Hash, leaves: seq<Digest>)
    requires |leaves| >= 1
    ensures var n := |Branch(hash, leaves)|;
      |leaves| <= Pow2(n) && (n > 0 ==> Pow2(n - 1) < |leaves|)
    decreases |leaves|
  {
    if |leaves| > 1 {
      BranchLength(hash, NextLayer(hash, leaves));
    }
  }

  ghost predicate BranchDecodes(branch: seq<string>) {
    forall i :: 0 <= i < |branch| ==> |FromHex(branch[i])| == 32
  }

  /** A branch as the notification carries it, decoded. */
  function Nodes(branch: seq<string>): (nodes: seq<Digest>)
    requires BranchDecodes(branch)
    ensures |nodes| == |branch|
    ensures forall i :: 0 <= i < |nodes| ==> nodes[i] == FromHex(branch[i])
  {
    if branch == [] then [] else Nodes(branch[..|branch| - 1]) + [FromHex(branch[|branch| - 1])]
  }

  /** The rolling fold over a 64-byte buffer whose halves are overwritten in place. */
  method CalculateMerkleRootHash(hash: Hash, leaf: Digest, branch: seq<string>) returns (root: Digest)
    requires BranchDecodes(branch)
    ensures root == Fold(hash, leaf, Nodes(branch))
  {
    var both := new byte[64](_ => 0);
    Set(both, leaf, 0);
    ghost var nodes := Nodes(branch);
    assert Fold(hash, leaf, nodes[..0]) == leaf;
    for i := 0 to |branch|
      invariant both[..32] == Fold(hash, leaf, nodes[..i])
    {
      Set(both, FromHex(branch[i]), 32);
      assert both[..] == Fold(hash, leaf, nodes[..i]) + nodes[i];
      var digest := hash(both[..]);
      Set(both, digest, 0);
      FoldSnoc(hash, leaf, nodes[..i], nodes[i]);
      assert nodes[..i + 1] == nodes[..i] + [nodes[i]];
    }
    assert nodes[..|branch|] == nodes;
    root := both[..32];
  }

  /** `buffer.set(data, offset)` */
  method Set(buffer: array<byte>, data: seq<byte>, offset: nat)
    requires offset + |data| <= buffer.Length
    modifies buffer
    ensures buffer[..] == old(buffer[..offset]) + data + old(buffer[offset + |data|..])
  {
    for i := 0 to |data|
      invariant buffer[..] == old(buffer[..offset]) + data[..i] + old(buffer[offset + i..])
    {
      buffer[offset + i] := data[i];
    }
  }
}
