/** The bottom-up tree refines the recursive Merkle Tree Hash and audit paths of
    section 2.1 and section 2.1.1 of RFC 6962, taken over already hashed leaves. */
module MerkleRfc {
  import opened Basics
  import opened Canonical
  import opened MerkleTree

  function Pow2(e: nat): (r: nat)
    ensures r >= 1
  {
    if e == 0 then 1 else 2 * Pow2(e - 1)
  }

  /** The largest power of two smaller than n. */
  function Split(n: nat): (k: nat)
    requires n >= 2
    ensures 1 <= k < n <= 2 * k
  {
    if n == 2 then 1 else 2 * Split((n + 1) / 2)
  }

  lemma {:induction false} SplitIsPowerOfTwo(n: nat) returns (e: nat)
    requires n >= 2
    ensures Split(n) == Pow2(e)
  {
    if n == 2 {
      e := 0;
    } else {
      var below := SplitIsPowerOfTwo((n + 1) / 2);
      e := below + 1;
    }
  }

  lemma {:induction false} Pow2Monotone(a: nat, b: nat)
    requires a <= b
    ensures Pow2(a) <= Pow2(b)
    decreases b
  {
    if a < b { Pow2Monotone(a, b - 1); }
  }

  /** No other power of two lies in [n/2, n). */
  lemma SplitUnique(n: nat, e: nat)
    requires n >= 2 && Pow2(e) < n <= 2 * Pow2(e)
    ensures Split(n) == Pow2(e)
  {
    var f := SplitIsPowerOfTwo(n);
    if f < e {
      Pow2Monotone(f + 1, e);
    } else if e < f {
      Pow2Monotone(e + 1, f);
    }
  }

  /** MTH of RFC 6962 section 2.1. */
  function TreeHash(h: Hash, s: seq<Digest>): Digest
    requires |s| > 0
    decreases |s|
  {
    if |s| == 1 then s[0]
    else
      var k := Split(|s|);
      NodeHash(h, TreeHash(h, s[..k]), TreeHash(h, s[k..]))
  }

  /** PATH of RFC 6962 section 2.1.1, with the side of every sibling. */
  function AuditPath(h: Hash, s: seq<Digest>, i: nat): ProofPath
    requires i < |s|
    decreases |s|
  {
    if |s| == 1 then []
    else
      var k := Split(|s|);
      if i < k then AuditPath(h, s[..k], i) + [ProofStep(Some(TreeHash(h, s[k..])), Right)]
      else AuditPath(h, s[k..], i - k) + [ProofStep(Some(TreeHash(h, s[..k])), Left)]
  }

  // ---------- hashing one level commutes with splitting ----------

  lemma NextLevelSplits(h: Hash, s: seq<Digest>, half: nat)
    requires 2 * half <= |s|
    ensures NextLevel(h, s)[..half] == NextLevel(h, s[..2 * half])
    ensures NextLevel(h, s)[half..] == NextLevel(h, s[2 * half..])
  {
  }

  lemma SplitOfNextLevel(h: Hash, s: seq<Digest>)
    requires |s| > 2
    ensures Split(|s|) % 2 == 0 && Split(|NextLevel(h, s)|) == Split(|s|) / 2
    ensures NextLevel(h, s)[..Split(|s|) / 2] == NextLevel(h, s[..Split(|s|)])
    ensures NextLevel(h, s)[Split(|s|) / 2..] == NextLevel(h, s[Split(|s|)..])
  {
    var half := Split((|s| + 1) / 2);
    assert Split(|s|) == 2 * half && Split(|s|) / 2 == half;
    NextLevelSplits(h, s, half);
  }

  lemma {:induction false} TreeHashOfNextLevel(h: Hash, s: seq<Digest>)
    requires |s| > 0
    ensures TreeHash(h, NextLevel(h, s)) == TreeHash(h, s)
    decreases |s|
  {
    if |s| == 1 {
      assert NextLevel(h, s) == s;
    } else if |s| > 2 {
      SplitOfNextLevel(h, s);
      TreeHashOfNextLevel(h, s[..Split(|s|)]);
      TreeHashOfNextLevel(h, s[Split(|s|)..]);
    }
  }

  /** i * 2^k, doubled step by step. */
  function Offset(i: nat, k: nat): nat {
    if k == 0 then i else 2 * Offset(i, k - 1)
  }

  lemma {:induction false} OffsetIsProduct(i: nat, k: nat)
    ensures Offset(i, k) == i * Pow2(k)
  {
    if k > 0 {
      OffsetIsProduct(i, k - 1);
      var p := Pow2(k - 1);
      assert 2 * (i * p) == i * (2 * p);
    }
  }

  lemma {:induction false} LevelsAtOffset(h: Hash, s: seq<Digest>, k: nat, i: nat)
    requires |s| > 0 && k < |Levels(h, s)| && i < |Levels(h, s)[k]|
    ensures Offset(i, k) < |s|
    ensures Levels(h, s)[k][i] == TreeHash(h, Block(s, Offset(i, k), Pow2(k)))
    decreases k
  {
    if k == 0 {
      assert Block(s, i, 1) == [s[i]];
    } else {
      var t, at, w := NextLevel(h, s), Offset(i, k - 1), Pow2(k - 1);
      LevelsAbove(h, s);
      assert Levels(h, s)[k] == Levels(h, s)[1..][k - 1];
      LevelsAtOffset(h, t, k - 1, i);
      BlockOfNextLevel(h, s, at, w);
      TreeHashOfNextLevel(h, Block(s, 2 * at, 2 * w));
    }
  }

  /** Row k, column i of the table that the code builds is the hash of leaves i*2^k up to (i+1)*2^k. */
  lemma LevelsAreSubtreeHashes(h: Hash, s: seq<Digest>, k: nat, i: nat)
    requires |s| > 0 && k < |Levels(h, s)| && i < |Levels(h, s)[k]|
    ensures i * Pow2(k) < |s|
    ensures Levels(h, s)[k][i] == TreeHash(h, Block(s, i * Pow2(k), Pow2(k)))
  {
    LevelsAtOffset(h, s, k, i);
    OffsetIsProduct(i, k);
  }

  /** At most `width` elements from position `at`. */
  function Block(s: seq<Digest>, at: nat, width: nat): (r: seq<Digest>)
    requires at < |s| && width > 0
    ensures |r| > 0
  {
    var rest := s[at..];
    if width < |rest| then rest[..width] else rest
  }

  lemma BlockOfNextLevel(h: Hash, s: seq<Digest>, at: nat, width: nat)
    requires at < |NextLevel(h, s)| && width > 0
    ensures NextLevel(h, Block(s, 2 * at, 2 * width)) == Block(NextLevel(h, s), at, width)
  {
    NextLevelSplits(h, s, at);
    BlockPrefix(h, s[2 * at..], width);
  }

  lemma BlockPrefix(h: Hash, s: seq<Digest>, width: nat)
    requires |s| > 0 && width > 0
    ensures NextLevel(h, Block(s, 0, 2 * width)) == Block(NextLevel(h, s), 0, width)
  {
    if 2 * width < |s| { NextLevelSplits(h, s, width); }
  }

  /** The loop with promotion computes the recursive tree hash. */
  lemma {:induction false} RootIsTreeHash(h: Hash, s: seq<Digest>)
    requires |s| > 0
    ensures Root(h, s) == TreeHash(h, s)
    decreases |s|
  {
    if |s| > 1 {
      RootIsTreeHash(h, NextLevel(h, s));
      TreeHashOfNextLevel(h, s);
    }
  }

  // ---------- index arithmetic refines the audit path ----------

  lemma SiblingStepSplits(s: seq<Digest>, k: nat, i: nat)
    requires k <= |s| && k % 2 == 0 && i < |s|
    ensures i < k ==> SiblingStep(s, i) == SiblingStep(s[..k], i)
    ensures i >= k ==> SiblingStep(s, i) == SiblingStep(s[k..], i - k)
  {
  }

  lemma AuditPathFromHalves(h: Hash, s: seq<Digest>, i: nat)
    requires |s| >= 2 && i < |s|
    ensures var k := Split(|s|);
            AuditPath(h, s, i) == if i < k then AuditPath(h, s[..k], i) + [ProofStep(Some(TreeHash(h, s[k..])), Right)]
                                  else AuditPath(h, s[k..], i - k) + [ProofStep(Some(TreeHash(h, s[..k])), Left)]
  {
  }

  lemma AuditPathFromRight(h: Hash, s: seq<Digest>, k: nat, i: nat, right: seq<Digest>, j: nat, left: Digest)
    requires |s| >= 2 && k == Split(|s|) && k <= i < |s|
    requires right == s[k..] && j == i - k && left == TreeHash(h, s[..k])
    ensures AuditPath(h, s, i) == AuditPath(h, right, j) + [ProofStep(Some(left), Left)]
  {
  }

  lemma {:induction false} AuditPathOfNextLevel(h: Hash, s: seq<Digest>, i: nat)
    requires i < |s|
    ensures AuditPath(h, s, i) == SiblingStep(s, i) + AuditPath(h, NextLevel(h, s), i / 2)
    decreases |s|, 1
  {
    if |s| == 1 {
      LoneLeaf(h, s);
    } else if |s| == 2 {
      assert s[..1] == [s[0]] && s[1..] == [s[1]];
    } else if i < Split(|s|) {
      AuditPathLeft(h, s, i);
    } else {
      AuditPathRight(h, s, i);
    }
  }

  lemma {:induction false} AuditPathLeft(h: Hash, s: seq<Digest>, i: nat)
    requires |s| > 2 && i < Split(|s|)
    ensures AuditPath(h, s, i) == SiblingStep(s, i) + AuditPath(h, NextLevel(h, s), i / 2)
    decreases |s|, 0
  {
    var k := Split(|s|);
    SplitOfNextLevel(h, s);
    SiblingStepSplits(s, k, i);
    AuditPathOfNextLevel(h, s[..k], i);
    TreeHashOfNextLevel(h, s[k..]);
    AuditPathFromHalves(h, s, i);
    AuditPathFromHalves(h, NextLevel(h, s), i / 2);
    Regroup(AuditPath(h, s, i), AuditPath(h, s[..k], i), SiblingStep(s, i), AuditPath(h, NextLevel(h, s[..k]), i / 2),
            [ProofStep(Some(TreeHash(h, s[k..])), Right)], AuditPath(h, NextLevel(h, s), i / 2));
  }

  lemma {:induction false} AuditPathRight(h: Hash, s: seq<Digest>, i: nat)
    requires |s| > 2 && Split(|s|) <= i < |s|
    ensures AuditPath(h, s, i) == SiblingStep(s, i) + AuditPath(h, NextLevel(h, s), i / 2)
    decreases |s|, 0
  {
    var k := Split(|s|);
    var r, j, up := s[k..], i - k, [ProofStep(Some(TreeHash(h, s[..k])), Left)];
    AuditPathFromRight(h, s, k, i, r, j, TreeHash(h, s[..k]));
    AuditPathAboveRight(h, s, k, i);
    AuditPathOfNextLevel(h, r, j);
    SplitOfNextLevel(h, s);
    SiblingStepSplits(s, k, i);
    Regroup(AuditPath(h, s, i), AuditPath(h, r, j), SiblingStep(s, i), AuditPath(h, NextLevel(h, r), j / 2), up,
            AuditPath(h, NextLevel(h, s), i / 2));
  }

  lemma AuditPathAboveRight(h: Hash, s: seq<Digest>, k: nat, i: nat)
    requires |s| > 2 && k == Split(|s|) && k <= i < |s|
    ensures AuditPath(h, NextLevel(h, s), i / 2)
         == AuditPath(h, NextLevel(h, s[k..]), (i - k) / 2) + [ProofStep(Some(TreeHash(h, s[..k])), Left)]
  {
    SplitOfNextLevel(h, s);
    TreeHashOfNextLevel(h, s[..k]);
    HalfOfDifference(i, k);
    AuditPathFromRight(h, NextLevel(h, s), k / 2, i / 2, NextLevel(h, s[k..]), (i - k) / 2, TreeHash(h, s[..k]));
  }

  lemma HalfOfDifference(i: nat, k: nat)
    requires k <= i && k % 2 == 0
    ensures k / 2 <= i / 2 && i / 2 - k / 2 == (i - k) / 2
  {
  }

  lemma Regroup(whole: ProofPath, inner: ProofPath, down: ProofPath, rest: ProofPath, up: ProofPath, above: ProofPath)
    requires whole == inner + up && inner == down + rest && above == rest + up
    ensures whole == down + above
  {
  }

  /** An unpaired node takes no step. */
  lemma LoneLeaf(h: Hash, s: seq<Digest>)
    requires |s| == 1
    ensures AuditPath(h, s, 0) == SiblingStep(s, 0) + AuditPath(h, NextLevel(h, s), 0)
  {
  }

  /** `get_proof` returns the RFC 6962 audit path. */
  lemma {:induction false} ProofIsAuditPath(h: Hash, s: seq<Digest>, i: nat)
    requires i < |s|
    ensures ProofFor(h, s, i) == AuditPath(h, s, i)
    decreases |s|
  {
    if |s| >= 2 {
      AuditPathOfNextLevel(h, s, i);
      ProofIsAuditPath(h, NextLevel(h, s), i / 2);
    }
  }

  lemma {:induction false} AuditPathClimbs(h: Hash, s: seq<Digest>, i: nat)
    requires i < |s|
    ensures Climb(h, s[i], AuditPath(h, s, i)) == Some(TreeHash(h, s))
    decreases |s|
  {
    if |s| >= 2 {
      var k := Split(|s|);
      var path := AuditPath(h, s, i);
      if i < k {
        AuditPathClimbs(h, s[..k], i);
        assert path[..|path| - 1] == AuditPath(h, s[..k], i);
      } else {
        AuditPathClimbs(h, s[k..], i - k);
        assert path[..|path| - 1] == AuditPath(h, s[k..], i - k);
      }
    }
  }

  /** Completeness: every leaf of every tree climbs to the root by its own proof. */
  lemma ProofCompleteness(h: Hash, s: seq<Digest>, i: nat)
    requires i < |s|
    ensures Reconstruct(h, s[i], ProofFor(h, s, i)) == Some(Root(h, s))
  {
    ProofIsAuditPath(h, s, i);
    AuditPathClimbs(h, s, i);
    RootIsTreeHash(h, s);
  }

  // ---------- size ----------

  function Height(n: nat): nat {
    if n <= 1 then 0 else 1 + Height((n + 1) / 2)
  }

  lemma {:induction false} LevelCount(h: Hash, s: seq<Digest>)
    requires |s| > 0
    ensures |Levels(h, s)| == Height(|s|) + 1
    decreases |s|
  {
    if |s| > 1 { LevelCount(h, NextLevel(h, s)); }
  }

  lemma {:induction false} HeightBounds(n: nat)
    requires n >= 2
    ensures Height(n) >= 1 && Pow2(Height(n) - 1) < n <= Pow2(Height(n))
  {
    if n > 2 { HeightBounds((n + 1) / 2); }
  }

  lemma {:induction false} ProofLength(h: Hash, s: seq<Digest>, i: nat)
    requires i < |s|
    ensures |ProofFor(h, s, i)| <= |Levels(h, s)| - 1
    decreases |s|
  {
    if |s| >= 2 { ProofLength(h, NextLevel(h, s), i / 2); }
  }

  /** Building n leaves hashes exactly n - 1 node strings. */
  lemma {:induction false} NodeHashCount(h: Hash, s: seq<Digest>)
    requires |s| > 0
    ensures |BuildInputs(h, s)| == |s| - 1
    decreases |s|
  {
    if |s| >= 2 { NodeHashCount(h, NextLevel(h, s)); }
  }

  // ---------- the strings hashed for a tree cover those of its subtrees ----------

  ghost function TreeInputs(h: Hash, s: seq<Digest>): set<Bytes> {
    Elements(BuildInputs(h, s))
  }

  lemma TreeInputsUnfold(h: Hash, s: seq<Digest>)
    requires |s| >= 2
    ensures TreeInputs(h, s) == Elements(LevelInputs(s)) + TreeInputs(h, NextLevel(h, s))
  {
  }

  lemma {:induction false} TreeInputsCoverSubtrees(h: Hash, s: seq<Digest>)
    requires |s| >= 2
    ensures NodeInput(TreeHash(h, s[..Split(|s|)]), TreeHash(h, s[Split(|s|)..])) in TreeInputs(h, s)
    ensures TreeInputs(h, s[..Split(|s|)]) <= TreeInputs(h, s)
    ensures TreeInputs(h, s[Split(|s|)..]) <= TreeInputs(h, s)
    decreases |s|
  {
    var k := Split(|s|);
    var a, b := s[..k], s[k..];
    TreeInputsUnfold(h, s);
    if |s| == 2 {
      assert LevelInputs(s)[0] in LevelInputs(s);
    } else {
      SplitOfNextLevel(h, s);
      TreeInputsCoverSubtrees(h, NextLevel(h, s));
      TreeHashOfNextLevel(h, a);
      TreeHashOfNextLevel(h, b);
      LevelInputsCover(s, k);
      TreeInputsUnfold(h, a);
      if |b| >= 2 { TreeInputsUnfold(h, b); }
    }
  }

  lemma LevelInputsCover(s: seq<Digest>, k: nat)
    requires k <= |s| && k % 2 == 0
    ensures Elements(LevelInputs(s[..k])) <= Elements(LevelInputs(s))
    ensures Elements(LevelInputs(s[k..])) <= Elements(LevelInputs(s))
  {
    forall x | x in LevelInputs(s[..k]) ensures x in LevelInputs(s) {
      var i :| 0 <= i < |LevelInputs(s[..k])| && LevelInputs(s[..k])[i] == x;
      assert LevelInputs(s)[i] == x;
    }
    forall x | x in LevelInputs(s[k..]) ensures x in LevelInputs(s) {
      var i :| 0 <= i < |LevelInputs(s[k..])| && LevelInputs(s[k..])[i] == x;
      assert LevelInputs(s)[k / 2 + i] == x;
    }
  }
}
