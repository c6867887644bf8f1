/** The Merkle tree over device leaves (fog/merkle/merkle_tree.py).

    The functions say what one level, one proof and one climb are; the methods
    are the loops of the code, proved against them. */
module MerkleTree {
  import opened Basics
  import opened Canonical
  import opened ByteOrder

  /** Which side the sibling is on; Other stands for any text that is neither "L" nor "R". */
  datatype Side = Left | Right | Other

  /** One step of an untrusted path. A sibling that is missing or not hex decodes to None. */
  datatype ProofStep = ProofStep(sibling: Option<Bytes>, side: Side)

  type ProofPath = seq<ProofStep>

  datatype Tree = Tree(leaves: seq<Digest>, index: map<Bytes, nat>, levels: seq<seq<Digest>>)

  datatype TreeError = NoLeaves | BadLeafLength | DuplicateLeaf

  // ---------- what the loops compute ----------

  /** Neighbours are hashed in pairs; an unpaired last node is promoted unchanged. */
  function NextLevel(h: Hash, s: seq<Digest>): (r: seq<Digest>)
    ensures |r| == (|s| + 1) / 2
  {
    seq((|s| + 1) / 2, i requires 0 <= i < (|s| + 1) / 2 =>
      if 2 * i + 1 < |s| then NodeHash(h, s[2 * i], s[2 * i + 1]) else s[2 * i])
  }

  function Levels(h: Hash, s: seq<Digest>): (r: seq<seq<Digest>>)
    requires |s| > 0
    ensures |r| > 0 && r[0] == s && |r[|r| - 1]| == 1
    decreases |s|
  {
    if |s| == 1 then [s] else [s] + Levels(h, NextLevel(h, s))
  }

  function Root(h: Hash, s: seq<Digest>): Digest
    requires |s| > 0
  {
    var levels := Levels(h, s);
    levels[|levels| - 1][0]
  }

  function LevelInputs(s: seq<Digest>): seq<Bytes> {
    seq(|s| / 2, i requires 0 <= i < |s| / 2 => NodeInput(s[2 * i], s[2 * i + 1]))
  }

  /** The strings hashed while building, in order. */
  function BuildInputs(h: Hash, s: seq<Digest>): seq<Bytes>
    decreases |s|
  {
    if |s| <= 1 then [] else LevelInputs(s) + BuildInputs(h, NextLevel(h, s))
  }

  /** `index ^ 1`. */
  function SiblingIndex(i: nat): nat {
    if i % 2 == 0 then i + 1 else i - 1
  }

  /** The step a proof takes at one level: none where the node is promoted. */
  function SiblingStep(level: seq<Digest>, i: nat): ProofPath {
    var j := SiblingIndex(i);
    if j < |level| then [ProofStep(Some(level[j]), if j < i then Left else Right)] else []
  }

  function ProofFor(h: Hash, s: seq<Digest>, i: nat): ProofPath
    decreases |s|
  {
    if |s| <= 1 then [] else SiblingStep(s, i) + ProofFor(h, NextLevel(h, s), i / 2)
  }

  function StepUp(h: Hash, current: Digest, step: ProofStep): Option<Digest> {
    match step
    case ProofStep(Some(sibling), Left) => if |sibling| == 32 then Some(NodeHash(h, sibling, current)) else None
    case ProofStep(Some(sibling), Right) => if |sibling| == 32 then Some(NodeHash(h, current, sibling)) else None
    case _ => None
  }

  function Climb(h: Hash, current: Digest, path: ProofPath): Option<Digest> {
    if path == [] then Some(current)
    else
      match Climb(h, current, path[..|path| - 1])
      case None => None
      case Some(below) => StepUp(h, below, path[|path| - 1])
  }

  /** The climb on untrusted input: None for a leaf of the wrong length or any malformed step. */
  function Reconstruct(h: Hash, leaf: Bytes, path: ProofPath): Option<Digest> {
    if |leaf| == 32 then Climb(h, leaf, path) else None
  }

  // ---------- what a step means ----------

  /** A sibling of 32 bytes on a named side. */
  predicate WellFormed(step: ProofStep) {
    step.sibling.Some? && |step.sibling.value| == 32 && (step.side == Left || step.side == Right)
  }

  /** A left sibling is hashed first, a right one second; any other step is malformed. */
  lemma StepReads(h: Hash, current: Digest, step: ProofStep)
    ensures StepUp(h, current, step).Some? <==> WellFormed(step)
    ensures WellFormed(step) ==> var s: Digest := step.sibling.value;
              StepUp(h, current, step).value == if step.side == Left then h([1] + s + current) else h([1] + current + s)
  {
  }

  /** The climb fails exactly on a leaf of the wrong length or a malformed step anywhere in the path. */
  lemma {:induction false} ReconstructsExactly(h: Hash, leaf: Bytes, path: ProofPath)
    ensures Reconstruct(h, leaf, path).Some? <==> |leaf| == 32 && forall step :: step in path ==> WellFormed(step)
    decreases |path|
  {
    if |leaf| == 32 && path != [] {
      var below, last := path[..|path| - 1], path[|path| - 1];
      assert path == below + [last];
      ReconstructsExactly(h, leaf, below);
      if Climb(h, leaf, below).Some? { StepReads(h, Climb(h, leaf, below).value, last); }
    }
  }

  ghost predicate ValidTree(h: Hash, t: Tree) {
    && |t.leaves| > 0 && DuplicateFree(t.leaves)
    && t.levels == Levels(h, t.leaves)
    && (forall leaf :: leaf in t.index <==> leaf in t.leaves)
    && (forall leaf :: leaf in t.index ==> t.index[leaf] < |t.leaves| && t.leaves[t.index[leaf]] == leaf)
  }

  // ---------- the code ----------

  method BuildLevel(h: Hash, current: seq<Digest>) returns (next: seq<Digest>, ghost fed: seq<Bytes>)
    ensures next == NextLevel(h, current)
    ensures fed == LevelInputs(current)
  {
    next := [];
    fed := [];
    var i := 0;
    while i < |current|
      invariant i == 2 * |next| && |next| <= (|current| + 1) / 2
      invariant next == NextLevel(h, current)[..|next|]
      invariant |fed| == if i <= |current| then i / 2 else |current| / 2
      invariant fed == LevelInputs(current)[..|fed|]
    {
      if i + 1 < |current| {
        next := next + [NodeHash(h, current[i], current[i + 1])];
        fed := fed + [NodeInput(current[i], current[i + 1])];
      } else {
        next := next + [current[i]];
      }
      i := i + 2;
    }
  }

  method Build(h: Hash, leaves: seq<Digest>) returns (levels: seq<seq<Digest>>, ghost hashed: seq<Bytes>)
    requires |leaves| > 0
    ensures levels == Levels(h, leaves)
    ensures hashed == BuildInputs(h, leaves)
  {
    levels := [leaves];
    hashed := [];
    var current := leaves;
    ghost var above, unhashed := Levels(h, leaves)[1..], BuildInputs(h, leaves);
    while |current| > 1
      invariant |current| > 0
      invariant above == Levels(h, current)[1..] && levels + above == Levels(h, leaves)
      invariant unhashed == BuildInputs(h, current) && hashed + unhashed == BuildInputs(h, leaves)
      decreases |current|
    {
      var next, fed := BuildLevel(h, current);
      LevelsAbove(h, current);
      FirstMoved(levels, above);
      Regrouped(hashed, fed, BuildInputs(h, next));
      levels, above := levels + [next], above[1..];
      hashed, unhashed := hashed + fed, BuildInputs(h, next);
      current := next;
    }
    assert levels + [] == levels && hashed + [] == hashed;
  }

  lemma LevelsAbove(h: Hash, s: seq<Digest>)
    requires |s| > 1
    ensures Levels(h, s)[1..] == Levels(h, NextLevel(h, s))
  {
  }

  predicate AllHashes(leaves: seq<Bytes>) {
    forall x :: x in leaves ==> |x| == 32
  }

  function AsHashes(leaves: seq<Bytes>): (r: seq<Digest>)
    requires AllHashes(leaves)
    ensures r == leaves
  {
    assert forall i :: 0 <= i < |leaves| ==> leaves[i] in leaves;
    leaves
  }

  /** Sorting hashes gives hashes. */
  function SortedHashes(leaves: seq<Bytes>): (r: seq<Digest>)
    requires AllHashes(leaves)
    ensures r == Sort(leaves)
  {
    assert forall x :: x in Sort(leaves) ==> x in multiset(Sort(leaves)) && x in leaves;
    AsHashes(Sort(leaves))
  }

  lemma SortedHashesAscend(leaves: seq<Bytes>)
    requires AllHashes(leaves) && DuplicateFree(leaves)
    ensures |SortedHashes(leaves)| == |leaves| && DuplicateFree(SortedHashes(leaves)) && Ascends(SortedHashes(leaves))
  {
    SortIsAscending(leaves);
    SortedAscends(SortedHashes(leaves));
  }

  /** `MerkleTree(leaves, sort)`: the checks in the order the code makes them. */
  method NewTree(h: Hash, leaves: seq<Bytes>, sort: bool) returns (r: Result<Tree, TreeError>)
    ensures match r
            case Err(NoLeaves) => leaves == []
            case Err(BadLeafLength) => leaves != [] && !AllHashes(leaves)
            case Err(DuplicateLeaf) => leaves != [] && AllHashes(leaves) && !DuplicateFree(leaves)
            case Ok(t) =>
              && leaves != [] && AllHashes(leaves) && DuplicateFree(leaves)
              && ValidTree(h, t) && t.leaves == (if sort then Sort(leaves) else leaves)
              && (sort ==> Ascends(t.leaves))
  {
    if |leaves| == 0 {
      return Err(NoLeaves);
    }
    var wellSized := CheckLengths(leaves);
    if !wellSized {
      return Err(BadLeafLength);
    }
    var duplicated := HasDuplicate(leaves);
    if duplicated {
      return Err(DuplicateLeaf);
    }
    SortedHashesAscend(leaves);
    var checked := if sort then SortedHashes(leaves) else AsHashes(leaves);
    var index := IndexLeaves(checked);
    var levels, _ := Build(h, checked);
    r := Ok(Tree(checked, index, levels));
  }

  method CheckLengths(leaves: seq<Bytes>) returns (ok: bool)
    ensures ok <==> AllHashes(leaves)
  {
    for k := 0 to |leaves|
      invariant AllHashes(leaves[..k])
    {
      assert leaves[k] in leaves;
      if |leaves[k]| != 32 {
        return false;
      }
    }
    assert leaves[..|leaves|] == leaves;
    ok := true;
  }

  method IndexLeaves(leaves: seq<Digest>) returns (index: map<Bytes, nat>)
    requires DuplicateFree(leaves)
    ensures forall leaf :: leaf in index <==> leaf in leaves
    ensures forall leaf :: leaf in index ==> index[leaf] < |leaves| && leaves[index[leaf]] == leaf
  {
    index := map[];
    for k := 0 to |leaves|
      invariant forall leaf :: leaf in index <==> leaf in leaves[..k]
      invariant forall leaf :: leaf in index ==> index[leaf] < |leaves| && leaves[index[leaf]] == leaf
    {
      index := index[leaves[k] := k];
      assert leaves[..k + 1] == leaves[..k] + [leaves[k]];
    }
    assert leaves[..|leaves|] == leaves;
  }

  /** `len(set(leaves)) != len(leaves)`. */
  method HasDuplicate(leaves: seq<Bytes>) returns (found: bool)
    ensures found <==> !DuplicateFree(leaves)
  {
    var seen: set<Bytes> := {};
    for k := 0 to |leaves|
      invariant seen == Elements(leaves[..k])
      invariant DuplicateFree(leaves[..k])
    {
      if leaves[k] in seen {
        var j :| 0 <= j < k && leaves[..k][j] == leaves[k];
        assert leaves[j] == leaves[k];
        return true;
      }
      assert leaves[..k + 1] == leaves[..k] + [leaves[k]];
      seen := seen + {leaves[k]};
    }
    assert leaves[..|leaves|] == leaves;
    found := false;
  }

  /** None when the code raises KeyError. */
  method GetProof(h: Hash, t: Tree, leaf: Bytes) returns (r: Option<ProofPath>)
    requires ValidTree(h, t)
    ensures r.Some? <==> leaf in t.leaves
    ensures forall i :: 0 <= i < |t.leaves| && t.leaves[i] == leaf ==> r == Some(ProofFor(h, t.leaves, i))
  {
    if leaf !in t.index {
      return None;
    }
    IndexIsUnique(h, t, leaf);
    var path := ProofAt(h, t, t.index[leaf]);
    r := Some(path);
  }

  lemma IndexIsUnique(h: Hash, t: Tree, leaf: Bytes)
    requires ValidTree(h, t) && leaf in t.index
    ensures forall i :: 0 <= i < |t.leaves| && t.leaves[i] == leaf ==> i == t.index[leaf]
  {
  }

  /** The loop: one level up at a time. */
  method ProofAt(h: Hash, t: Tree, start: nat) returns (path: ProofPath)
    requires |t.leaves| > 0 && t.levels == Levels(h, t.leaves)
    ensures path == ProofFor(h, t.leaves, start)
  {
    var index := start;
    path := [];
    ghost var level, rest := t.leaves, ProofFor(h, t.leaves, start);
    for k := 0 to |t.levels| - 1
      invariant |level| > 0 && Levels(h, level) == t.levels[k..]
      invariant rest == ProofFor(h, level, index) && path + rest == ProofFor(h, t.leaves, start)
    {
      LevelAbove(h, t.levels, k, level);
      ghost var above := ProofFor(h, NextLevel(h, level), index / 2);
      Regrouped(path, SiblingStep(level, index), above);
      path := AddSibling(t.levels[k], index, path);
      level, index, rest := NextLevel(h, level), index / 2, above;
    }
    assert |level| == 1;
    assert path + [] == path;
  }

  /** The sibling at one level, if the node has one there. */
  method AddSibling(level: seq<Digest>, index: nat, path: ProofPath) returns (longer: ProofPath)
    ensures longer == path + SiblingStep(level, index)
  {
    var sibling := SiblingIndex(index);
    if sibling < |level| {
      var side := if sibling < index then Left else Right;
      longer := path + [ProofStep(Some(level[sibling]), side)];
    } else {
      longer := path;
    }
  }

  lemma LevelAbove(h: Hash, levels: seq<seq<Digest>>, k: nat, level: seq<Digest>)
    requires k + 1 < |levels| && |level| > 0 && Levels(h, level) == levels[k..]
    ensures levels[k] == level && |level| > 1 && Levels(h, NextLevel(h, level)) == levels[k + 1..]
  {
    assert levels[k..][0] == level && levels[k..][1..] == levels[k + 1..];
  }

  method ReconstructRoot(h: Hash, leaf: Bytes, path: ProofPath) returns (r: Option<Digest>)
    ensures r == Reconstruct(h, leaf, path)
  {
    if |leaf| != 32 {
      return None;
    }
    var current: Digest := leaf;
    for k := 0 to |path|
      invariant Climb(h, leaf, path[..k]) == Some(current)
    {
      assert path[..k + 1][..k] == path[..k];
      var up := StepUp(h, current, path[k]);
      if up.None? {
        MalformedStaysMalformed(h, leaf, path, k + 1);
        return None;
      }
      current := up.value;
    }
    assert path[..|path|] == path;
    r := Some(current);
  }

  lemma {:induction false} MalformedStaysMalformed(h: Hash, current: Digest, path: ProofPath, k: nat)
    requires k <= |path| && Climb(h, current, path[..k]).None?
    ensures Climb(h, current, path).None?
    decreases |path| - k
  {
    if k < |path| {
      assert path[..k + 1][..k] == path[..k];
      MalformedStaysMalformed(h, current, path, k + 1);
    } else {
      assert path[..k] == path;
    }
  }

  method VerifyProof(h: Hash, leaf: Bytes, path: ProofPath, root: Bytes) returns (ok: bool)
    ensures ok <==> Reconstruct(h, leaf, path) == Some(root)
  {
    if |root| != 32 {
      return false;
    }
    var reconstructed := ReconstructRoot(h, leaf, path);
    ok := reconstructed == Some(root);
  }

  method ComputeRoot(h: Hash, leaves: seq<Bytes>) returns (r: Result<Digest, TreeError>)
    ensures r.Ok? <==> leaves != [] && AllHashes(leaves) && DuplicateFree(leaves)
    ensures r.Ok? ==> AllHashes(Ascending(Elements(leaves)))
    ensures r.Ok? ==> |Ascending(Elements(leaves))| > 0 && r.value == Root(h, Ascending(Elements(leaves)))
    ensures r.Ok? ==> Ascends(Ascending(Elements(leaves)))
  {
    var t := NewTree(h, leaves, true);
    match t
    case Err(e) =>
      r := Err(e);
    case Ok(tree) =>
      SortIsAscending(leaves);
      r := Ok(tree.levels[|tree.levels| - 1][0]);
  }
}
