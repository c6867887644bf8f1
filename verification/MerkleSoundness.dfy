/** What an accepted path proves, up to a collision among the strings that building the
    tree, climbing the path and hashing the identities really fed to SHA-256. */
module MerkleSoundness {
  import opened Basics
  import opened ByteOrder
  import opened Canonical
  import opened MerkleTree
  import opened MerkleRfc

  ghost function LeafInputs(ids: set<Identity>): set<Bytes> {
    set id | id in ids :: LeafInput(id)
  }

  /** Every leaf is the hash of one of these identities. */
  ghost predicate LeavesOf(h: Hash, s: seq<Digest>, ids: set<Identity>) {
    forall x :: x in s ==> exists id :: id in ids && x == h(LeafInput(id))
  }

  /** The strings a verifier hashes while climbing. */
  ghost function ClimbInputs(h: Hash, current: Digest, path: ProofPath): set<Bytes> {
    if path == [] then {}
    else
      var below := path[..|path| - 1];
      ClimbInputs(h, current, below) +
      match Climb(h, current, below)
      case None => {}
      case Some(c) => StepInputs(c, path[|path| - 1])
  }

  ghost function StepInputs(current: Digest, step: ProofStep): set<Bytes> {
    match step
    case ProofStep(Some(sibling), Left) => if |sibling| == 32 then {NodeInput(sibling, current)} else {}
    case ProofStep(Some(sibling), Right) => if |sibling| == 32 then {NodeInput(current, sibling)} else {}
    case _ => {}
  }

  /** `c` is the hash of some node of the tree, leaf or not, and `path` leads from it to the root. */
  predicate IsNode(h: Hash, s: seq<Digest>, c: Digest, path: ProofPath)
    requires |s| > 0
    decreases |s|
  {
    if path == [] then c == TreeHash(h, s)
    else
      && |s| >= 2
      && var k, below, last := Split(|s|), path[..|path| - 1], path[|path| - 1];
         || (last == ProofStep(Some(TreeHash(h, s[k..])), Right) && IsNode(h, s[..k], c, below))
         || (last == ProofStep(Some(TreeHash(h, s[..k])), Left) && IsNode(h, s[k..], c, below))
  }

  lemma {:induction false} NodeClimbs(h: Hash, s: seq<Digest>, c: Digest, path: ProofPath)
    requires |s| > 0 && IsNode(h, s, c, path)
    ensures Climb(h, c, path) == Some(TreeHash(h, s))
    decreases |s|
  {
    if path != [] {
      var k, below := Split(|s|), path[..|path| - 1];
      if IsNode(h, s[..k], c, below) { NodeClimbs(h, s[..k], c, below); }
      if IsNode(h, s[k..], c, below) { NodeClimbs(h, s[k..], c, below); }
    }
  }

  lemma LeavesOfHalves(h: Hash, s: seq<Digest>, k: nat, ids: set<Identity>)
    requires k <= |s| && LeavesOf(h, s, ids)
    ensures LeavesOf(h, s[..k], ids) && LeavesOf(h, s[k..], ids)
  {
    assert forall x :: x in s[..k] || x in s[k..] ==> x in s;
  }

  /** A leaf hash and a node hash never meet without a collision. */
  lemma LeafMeetsNode(h: Hash, leaf: seq<Digest>, ids: set<Identity>, l: Digest, r: Digest, inputs: set<Bytes>)
    requires |leaf| == 1 && LeavesOf(h, leaf, ids) && leaf[0] == NodeHash(h, l, r)
    requires LeafInputs(ids) <= inputs && NodeInput(l, r) in inputs
    ensures HasCollision(h, inputs)
  {
    assert leaf[0] in leaf;
    var id :| id in ids && leaf[0] == h(LeafInput(id));
    assert LeafInput(id) in LeafInputs(ids);
    LeafIsNotNode(id, l, r);
    SameHashSameInput(h, inputs, LeafInput(id), NodeInput(l, r));
  }

  /** A tree of two or more leaves whose hash is that of a node splits as that node does. */
  lemma NodeMeetsNode(h: Hash, s: seq<Digest>, l: Digest, r: Digest, inputs: set<Bytes>)
    requires |s| >= 2 && TreeHash(h, s) == NodeHash(h, l, r)
    requires TreeInputs(h, s) <= inputs && NodeInput(l, r) in inputs && !HasCollision(h, inputs)
    ensures TreeHash(h, s[..Split(|s|)]) == l && TreeHash(h, s[Split(|s|)..]) == r
    ensures TreeInputs(h, s[..Split(|s|)]) <= inputs && TreeInputs(h, s[Split(|s|)..]) <= inputs
  {
    TreeInputsCoverSubtrees(h, s);
    var a, b := TreeHash(h, s[..Split(|s|)]), TreeHash(h, s[Split(|s|)..]);
    SameHashSameInput(h, inputs, NodeInput(a, b), NodeInput(l, r));
    NodeInputInjective(a, b, l, r);
  }

  lemma {:induction false} ClimbEndsAtNode(
      h: Hash, s: seq<Digest>, ids: set<Identity>, c: Digest, path: ProofPath, inputs: set<Bytes>)
    requires |s| > 0 && LeavesOf(h, s, ids)
    requires Climb(h, c, path) == Some(TreeHash(h, s))
    requires TreeInputs(h, s) <= inputs && LeafInputs(ids) <= inputs && ClimbInputs(h, c, path) <= inputs
    requires !HasCollision(h, inputs)
    ensures IsNode(h, s, c, path)
    decreases |path|
  {
    if path != [] {
      var below, last := path[..|path| - 1], path[|path| - 1];
      var current := Climb(h, c, below).value;
      var l, r := if last.side == Left then last.sibling.value else current,
                  if last.side == Left then current else last.sibling.value;
      assert NodeInput(l, r) in StepInputs(current, last);
      if |s| == 1 {
        LeafMeetsNode(h, s, ids, l, r, inputs);
      } else {
        var k := Split(|s|);
        NodeMeetsNode(h, s, l, r, inputs);
        LeavesOfHalves(h, s, k, ids);
        ClimbEndsAtNode(h, if last.side == Left then s[k..] else s[..k], ids, c, below, inputs);
      }
    }
  }

  /** `verify_proof` on its own accepts exactly the nodes of the tree with their paths, inner
      nodes included, or a collision is at hand. */
  lemma ProofAcceptsExactlyNodes(h: Hash, s: seq<Digest>, ids: set<Identity>, c: Digest, path: ProofPath)
    requires |s| > 0 && LeavesOf(h, s, ids)
    ensures (Reconstruct(h, c, path) == Some(Root(h, s)) <==> IsNode(h, s, c, path))
         || HasCollision(h, TreeInputs(h, s) + LeafInputs(ids) + ClimbInputs(h, c, path))
  {
    RootIsTreeHash(h, s);
    if IsNode(h, s, c, path) { NodeClimbs(h, s, c, path); }
    var inputs := TreeInputs(h, s) + LeafInputs(ids) + ClimbInputs(h, c, path);
    if Climb(h, c, path) == Some(TreeHash(h, s)) && !HasCollision(h, inputs) {
      ClimbEndsAtNode(h, s, ids, c, path, inputs);
    }
  }

  lemma {:induction false} RootOfUpperLevel(h: Hash, s: seq<Digest>, k: nat)
    requires |s| > 0 && k < |Levels(h, s)|
    ensures |Levels(h, s)[k]| > 0 && Root(h, Levels(h, s)[k]) == Root(h, s)
    ensures Levels(h, Levels(h, s)[k]) == Levels(h, s)[k..]
    decreases k
  {
    if k > 0 {
      LevelsAbove(h, s);
      var above := Levels(h, NextLevel(h, s));
      assert Levels(h, s)[k] == Levels(h, s)[1..][k - 1] == above[k - 1];
      RootOfUpperLevel(h, NextLevel(h, s), k - 1);
      assert Levels(h, s)[k..] == Levels(h, s)[1..][k - 1..];
    }
  }

  /** Every node of every level above the leaves passes `verify_proof` as if it were a leaf, with a path that is
      shorter by the levels below it; where a pair was hashed it is the hash of two nodes, not of an identity. */
  lemma InnerNodePassesVerifyProof(h: Hash, s: seq<Digest>, k: nat, i: nat)
    requires |s| > 0 && k + 1 < |Levels(h, s)| && i < |Levels(h, s)[k + 1]|
    ensures IsPairOrPromoted(h, Levels(h, s)[k], i, Levels(h, s)[k + 1][i])
    ensures PassesAsLeaf(h, s, Levels(h, s)[k + 1], i, |Levels(h, s)| - 1 - (k + 1))
  {
    NextOfLevel(h, s, k);
    NodePassesAsLeaf(h, s, k + 1, i);
  }

  /** The node climbs to the root by a path of at most `steps` steps. */
  predicate PassesAsLeaf(h: Hash, s: seq<Digest>, level: seq<Digest>, i: nat, steps: int)
    requires |s| > 0 && i < |level|
  {
    var path := ProofFor(h, level, i);
    Reconstruct(h, level[i], path) == Some(Root(h, s)) && |path| <= steps
  }

  lemma NodePassesAsLeaf(h: Hash, s: seq<Digest>, k: nat, i: nat)
    requires |s| > 0 && k < |Levels(h, s)| && i < |Levels(h, s)[k]|
    ensures PassesAsLeaf(h, s, Levels(h, s)[k], i, |Levels(h, s)| - 1 - k)
  {
    RootOfUpperLevel(h, s, k);
    ProofCompleteness(h, Levels(h, s)[k], i);
    ProofLength(h, Levels(h, s)[k], i);
  }

  predicate IsPairOrPromoted(h: Hash, below: seq<Digest>, i: nat, node: Digest) {
    2 * i < |below| && node == if 2 * i + 1 < |below| then NodeHash(h, below[2 * i], below[2 * i + 1]) else below[2 * i]
  }

  lemma NextOfLevel(h: Hash, s: seq<Digest>, k: nat)
    requires |s| > 0 && k + 1 < |Levels(h, s)|
    ensures Levels(h, s)[k + 1] == NextLevel(h, Levels(h, s)[k])
  {
    var level := Levels(h, s)[k];
    RootOfUpperLevel(h, s, k);
    assert |level| > 1;
    LevelsAbove(h, level);
    assert Levels(h, s)[k..][1..][0] == Levels(h, s)[k + 1];
  }

  lemma PathFromLeft(h: Hash, s: seq<Digest>, k: nat, i: nat, below: ProofPath)
    requires |s| >= 2 && k == Split(|s|) && i < k && below == AuditPath(h, s[..k], i)
    ensures AuditPath(h, s, i) == below + [ProofStep(Some(TreeHash(h, s[k..])), Right)]
  {
  }

  lemma InnerNodeIsNoLeaf(h: Hash, s: seq<Digest>, id: Identity, inputs: set<Bytes>)
    requires |s| >= 2 && TreeHash(h, s) == h(LeafInput(id))
    requires TreeInputs(h, s) <= inputs && LeafInput(id) in inputs
    ensures HasCollision(h, inputs)
  {
    TreeInputsCoverSubtrees(h, s);
    var l, r := TreeHash(h, s[..Split(|s|)]), TreeHash(h, s[Split(|s|)..]);
    LeafIsNotNode(id, l, r);
    SameHashSameInput(h, inputs, LeafInput(id), NodeInput(l, r));
  }

  /** The half of the tree that a last step to this side comes from. */
  function HalfOf(s: seq<Digest>, right: bool): (r: seq<Digest>)
    requires |s| >= 2
    ensures 0 < |r| < |s|
  {
    if right then s[..Split(|s|)] else s[Split(|s|)..]
  }

  lemma NodeInHalf(h: Hash, s: seq<Digest>, c: Digest, path: ProofPath)
    requires |s| >= 2 && path != [] && IsNode(h, s, c, path)
    ensures var right := path[|path| - 1].side == Right;
            && IsNode(h, HalfOf(s, right), c, path[..|path| - 1])
            && path[|path| - 1] == ProofStep(Some(TreeHash(h, HalfOf(s, !right))), if right then Right else Left)
  {
  }

  lemma LeafOfHalf(h: Hash, s: seq<Digest>, right: bool, j: nat, path: ProofPath) returns (i: nat)
    requires |s| >= 2 && path != [] && j < |HalfOf(s, right)| && path[..|path| - 1] == AuditPath(h, HalfOf(s, right), j)
    requires path[|path| - 1] == ProofStep(Some(TreeHash(h, HalfOf(s, !right))), if right then Right else Left)
    ensures i < |s| && s[i] == HalfOf(s, right)[j] && path == AuditPath(h, s, i)
  {
    var k, below := Split(|s|), path[..|path| - 1];
    i := if right then j else k + j;
    LastApart(path);
    if right {
      PathFromLeft(h, s, k, i, below);
    } else {
      AuditPathFromRight(h, s, k, i, s[k..], j, TreeHash(h, s[..k]));
    }
  }

  lemma LastApart(path: ProofPath)
    requires path != []
    ensures path == path[..|path| - 1] + [path[|path| - 1]]
  {
  }

  lemma HalfInputs(h: Hash, s: seq<Digest>, right: bool)
    requires |s| >= 2
    ensures TreeInputs(h, HalfOf(s, right)) <= TreeInputs(h, s)
  {
    TreeInputsCoverSubtrees(h, s);
  }

  /** A node whose hash is the hash of an identity is a leaf, and its path is the proof of that leaf. */
  lemma {:induction false} LeafNode(h: Hash, s: seq<Digest>, id: Identity, path: ProofPath, inputs: set<Bytes>)
    returns (i: nat)
    requires |s| > 0 && IsNode(h, s, h(LeafInput(id)), path)
    requires TreeInputs(h, s) <= inputs && LeafInput(id) in inputs && !HasCollision(h, inputs)
    ensures i < |s| && s[i] == h(LeafInput(id)) && path == AuditPath(h, s, i)
    decreases |s|
  {
    i := 0;
    if |s| >= 2 {
      if path == [] {
        InnerNodeIsNoLeaf(h, s, id, inputs);
      } else {
        var right := path[|path| - 1].side == Right;
        NodeInHalf(h, s, h(LeafInput(id)), path);
        HalfInputs(h, s, right);
        var j := LeafNode(h, HalfOf(s, right), id, path[..|path| - 1], inputs);
        i := LeafOfHalf(h, s, right, j, path);
      }
    }
  }

  /** Everything hashed when identity `id` is checked along `path` against the tree over `ids`. */
  ghost function CheckInputs(h: Hash, s: seq<Digest>, ids: set<Identity>, id: Identity, path: ProofPath): set<Bytes> {
    TreeInputs(h, s) + LeafInputs(ids) + {LeafInput(id)} + ClimbInputs(h, h(LeafInput(id)), path)
  }

  /** Path uniqueness: an accepted path, of whatever length, is the proof of that leaf step for step. */
  lemma PathUniqueness(h: Hash, s: seq<Digest>, ids: set<Identity>, id: Identity, path: ProofPath)
    requires |s| > 0 && LeavesOf(h, s, ids)
    requires Reconstruct(h, h(LeafInput(id)), path) == Some(Root(h, s))
    ensures (exists i :: 0 <= i < |s| && s[i] == h(LeafInput(id)) && path == ProofFor(h, s, i))
         || HasCollision(h, CheckInputs(h, s, ids, id, path))
  {
    var inputs := CheckInputs(h, s, ids, id, path);
    if !HasCollision(h, inputs) {
      RootIsTreeHash(h, s);
      ClimbEndsAtNode(h, s, ids, h(LeafInput(id)), path, inputs);
      var i := LeafNode(h, s, id, path, inputs);
      ProofIsAuditPath(h, s, i);
    }
  }

  /** Membership soundness: only identities in the tree have an accepted path. */
  lemma MembershipSoundness(h: Hash, s: seq<Digest>, ids: set<Identity>, id: Identity, path: ProofPath)
    requires |s| > 0 && LeavesOf(h, s, ids)
    requires ValidIdentity(id) && forall x :: x in ids ==> ValidIdentity(x)
    requires Reconstruct(h, h(LeafInput(id)), path) == Some(Root(h, s))
    ensures id in ids || HasCollision(h, CheckInputs(h, s, ids, id, path))
  {
    var inputs := CheckInputs(h, s, ids, id, path);
    PathUniqueness(h, s, ids, id, path);
    if !HasCollision(h, inputs) {
      var i :| 0 <= i < |s| && s[i] == h(LeafInput(id)) && path == ProofFor(h, s, i);
      assert s[i] in s;
      var owner :| owner in ids && s[i] == h(LeafInput(owner));
      assert LeafInput(owner) in LeafInputs(ids);
      SameHashSameInput(h, inputs, LeafInput(id), LeafInput(owner));
      LeafInputInjective(id, owner);
    }
  }

  // ---------- the root determines the set of leaves ----------

  ghost function CommitInputs(h: Hash, s: seq<Digest>, ids: set<Identity>): set<Bytes> {
    TreeInputs(h, s) + LeafInputs(ids)
  }

  lemma SameHalves(s: seq<Digest>, k: nat, t: seq<Digest>, m: nat)
    requires k <= |s| && m <= |t| && s[..k] == t[..m] && s[k..] == t[m..]
    ensures s == t
  {
    assert s == s[..k] + s[k..] && t == t[..m] + t[m..];
  }

  lemma {:induction false} SameTreeHashSameLeaves(
      h: Hash, s: seq<Digest>, t: seq<Digest>, a: set<Identity>, b: set<Identity>, inputs: set<Bytes>)
    requires |s| > 0 && |t| > 0 && LeavesOf(h, s, a) && LeavesOf(h, t, b)
    requires TreeHash(h, s) == TreeHash(h, t)
    requires TreeInputs(h, s) <= inputs && TreeInputs(h, t) <= inputs
    requires LeafInputs(a) <= inputs && LeafInputs(b) <= inputs && !HasCollision(h, inputs)
    ensures s == t
    decreases |s|
  {
    if |t| >= 2 {
      var m := Split(|t|);
      var l, r := TreeHash(h, t[..m]), TreeHash(h, t[m..]);
      TreeInputsCoverSubtrees(h, t);
      if |s| == 1 {
        LeafMeetsNode(h, s, a, l, r, inputs);
      } else {
        var k := Split(|s|);
        NodeMeetsNode(h, s, l, r, inputs);
        LeavesOfHalves(h, s, k, a);
        LeavesOfHalves(h, t, m, b);
        SameTreeHashSameLeaves(h, s[..k], t[..m], a, b, inputs);
        SameTreeHashSameLeaves(h, s[k..], t[m..], a, b, inputs);
        SameHalves(s, k, t, m);
      }
    } else if |s| >= 2 {
      TreeInputsCoverSubtrees(h, s);
      LeafMeetsNode(h, t, b, TreeHash(h, s[..Split(|s|)]), TreeHash(h, s[Split(|s|)..]), inputs);
    }
  }

  /** Two trees with the same root have the same leaves in the same places. */
  lemma RootBinding(h: Hash, s: seq<Digest>, t: seq<Digest>, a: set<Identity>, b: set<Identity>)
    requires |s| > 0 && |t| > 0 && LeavesOf(h, s, a) && LeavesOf(h, t, b)
    ensures (Root(h, s) == Root(h, t) <==> s == t) || HasCollision(h, CommitInputs(h, s, a) + CommitInputs(h, t, b))
  {
    RootIsTreeHash(h, s);
    RootIsTreeHash(h, t);
    var inputs := CommitInputs(h, s, a) + CommitInputs(h, t, b);
    if Root(h, s) == Root(h, t) && !HasCollision(h, inputs) { SameTreeHashSameLeaves(h, s, t, a, b, inputs); }
  }

  /** `compute_root` of two collections agrees exactly when they hold the same leaves, in whatever
      order these arrived and whatever the sizes. */
  lemma ComputeRootBinding(h: Hash, u: seq<Bytes>, v: seq<Bytes>, a: set<Identity>, b: set<Identity>)
    requires u != [] && AllHashes(u) && DuplicateFree(u) && v != [] && AllHashes(v) && DuplicateFree(v)
    requires LeavesOf(h, AsHashes(u), a) && LeavesOf(h, AsHashes(v), b)
    ensures |SortedHashes(u)| > 0 && |SortedHashes(v)| > 0
    ensures (Root(h, SortedHashes(u)) == Root(h, SortedHashes(v)) <==> Elements(u) == Elements(v))
         || HasCollision(h, CommitInputs(h, SortedHashes(u), a) + CommitInputs(h, SortedHashes(v), b))
  {
    SortIsAscending(u);
    SortIsAscending(v);
    SortAgreesExactlyOnSameElements(u, v);
    LeavesOfSorted(h, u, a);
    LeavesOfSorted(h, v, b);
    RootBinding(h, SortedHashes(u), SortedHashes(v), a, b);
  }

  lemma LeavesOfSorted(h: Hash, u: seq<Bytes>, ids: set<Identity>)
    requires AllHashes(u) && DuplicateFree(u) && LeavesOf(h, AsHashes(u), ids)
    ensures LeavesOf(h, SortedHashes(u), ids)
  {
    SortIsAscending(u);
  }

  /** When the set of leaves changes, so does the proof of every leaf that stays. */
  lemma ProofsChangeWithTheSet(h: Hash, s: seq<Digest>, t: seq<Digest>, a: set<Identity>, b: set<Identity>, i: nat,
                               j: nat)
    requires i < |s| && j < |t| && s[i] == t[j] && s != t
    requires LeavesOf(h, s, a) && LeavesOf(h, t, b)
    ensures ProofFor(h, s, i) != ProofFor(h, t, j) || HasCollision(h, CommitInputs(h, s, a) + CommitInputs(h, t, b))
  {
    ProofCompleteness(h, s, i);
    ProofCompleteness(h, t, j);
    RootBinding(h, s, t, a, b);
  }
}
