/** Reusable membership evidence (fog/proofs/proof_package.py). */
module ProofPackages {
  import opened Basics
  import opened Canonical
  import opened MerkleTree
  import opened MerkleRfc
  import opened MerkleSoundness
  import opened Signing

  /** An untrusted package. Fields that are not hex decode to None. */
  datatype ProofPackage = ProofPackage(did: Bytes, publicKey: Option<Bytes>, leaf: Bytes, epochId: int, root: Bytes,
                                       path: ProofPath, fogId: Bytes, fogSignature: Option<Bytes>)

  datatype Verdict = MalformedIdentity | LeafMismatch | NoAnchoredRoot | MalformedPath | RootMismatch
                   | BadFogSignature | Raised | Accepted

  function PackageMessage(pkg: ProofPackage): Record {
    PackageRecord(pkg.did, pkg.leaf, pkg.root, pkg.epochId, pkg.fogId)
  }

  function BuildPackage(c: Crypto, id: Identity, leaves: seq<Digest>, i: nat, epochId: int, fogId: Bytes): ProofPackage
    requires i < |leaves|
  {
    var root := Root(c.hash, leaves);
    var signature := SignRecord(c, PackageRecord(id.did, leaves[i], root, epochId, fogId));
    ProofPackage(id.did, Some(id.publicKey), leaves[i], epochId, root, ProofFor(c.hash, leaves, i), fogId,
                 Some(signature))
  }

  /** `build_proof_package`: the proof comes from the tree; a leaf that is not in it has no package. */
  method PackageFromTree(c: Crypto, id: Identity, leaf: Bytes, t: Tree, epochId: int, fogId: Bytes)
      returns (r: Option<ProofPackage>)
    requires ValidTree(c.hash, t)
    ensures r.Some? <==> leaf in t.leaves
    ensures forall i :: 0 <= i < |t.leaves| && t.leaves[i] == leaf ==>
            r == Some(BuildPackage(c, id, t.leaves, i, epochId, fogId))
  {
    var path := GetProof(c.hash, t, leaf);
    if path.None? {
      return None;
    }
    var root := t.levels[|t.levels| - 1][0];
    var signature := SignRecord(c, PackageRecord(id.did, leaf, root, epochId, fogId));
    r := Some(ProofPackage(id.did, Some(id.publicKey), leaf, epochId, root, path.value, fogId, Some(signature)));
  }

  /** The checks in the order of the code; the first failure decides. */
  function VerifyPackage(c: Crypto, pkg: ProofPackage, trustedRoot: Option<Bytes>): Verdict {
    if pkg.publicKey.None? then MalformedIdentity
    else
      var recomputed := LeafHash(c.hash, Identity(pkg.did, pkg.publicKey.value));
      if recomputed.None? then MalformedIdentity
      else if recomputed.value != pkg.leaf then LeafMismatch
      else if trustedRoot.None? then NoAnchoredRoot
      else
        var candidate := Reconstruct(c.hash, recomputed.value, pkg.path);
        if candidate.None? then MalformedPath
        else if candidate.value != trustedRoot.value then RootMismatch
        else if pkg.root != trustedRoot.value then BadFogSignature
        else if pkg.fogSignature.None? then Raised
        else if !c.verify(c.fogKey, c.json(PackageMessage(pkg)), pkg.fogSignature.value) then BadFogSignature
        else Accepted
  }

  // ---------- what each verdict means ----------

  /** The first n of the eight checks, in the documented order. */
  predicate Passes(c: Crypto, pkg: ProofPackage, trusted: Option<Bytes>, n: nat) {
    && (n >= 1 ==> pkg.publicKey.Some? && |pkg.publicKey.value| == 33 && Ascii("did:iiot:") <= pkg.did)
    && (n >= 2 ==> pkg.leaf == c.hash(LeafInput(Identity(pkg.did, pkg.publicKey.GetOr([])))))
    && (n >= 3 ==> trusted.Some?)
    && (n >= 4 ==> forall step :: step in pkg.path ==> WellFormed(step))
    && (n >= 5 ==> Reconstruct(c.hash, pkg.leaf, pkg.path) == trusted)
    && (n >= 6 ==> Some(pkg.root) == trusted)
    && (n >= 7 ==> pkg.fogSignature.Some?)
    && (n >= 8 ==> c.verify(c.fogKey, c.json(PackageRecord(pkg.did, pkg.leaf, pkg.root, pkg.epochId, pkg.fogId)),
                            pkg.fogSignature.GetOr([])))
  }

  /** Each verdict names the first check that fails. */
  lemma VerdictsExactly(c: Crypto, pkg: ProofPackage, trusted: Option<Bytes>)
    ensures var verdict := VerifyPackage(c, pkg, trusted);
            && (verdict == MalformedIdentity <==> !Passes(c, pkg, trusted, 1))
            && (verdict == LeafMismatch <==> Passes(c, pkg, trusted, 1) && !Passes(c, pkg, trusted, 2))
            && (verdict == NoAnchoredRoot <==> Passes(c, pkg, trusted, 2) && !Passes(c, pkg, trusted, 3))
            && (verdict == MalformedPath <==> Passes(c, pkg, trusted, 3) && !Passes(c, pkg, trusted, 4))
            && (verdict == RootMismatch <==> Passes(c, pkg, trusted, 4) && !Passes(c, pkg, trusted, 5))
            && (verdict == Raised <==> Passes(c, pkg, trusted, 6) && !Passes(c, pkg, trusted, 7))
            && (verdict == BadFogSignature <==>
                  || (Passes(c, pkg, trusted, 5) && !Passes(c, pkg, trusted, 6))
                  || (Passes(c, pkg, trusted, 7) && !Passes(c, pkg, trusted, 8)))
            && (verdict == Accepted <==> Passes(c, pkg, trusted, 8))
  {
    var id := Identity(pkg.did, pkg.publicKey.GetOr([]));
    LeafLayout(c.hash, id);
    if pkg.publicKey.Some? && LeafHash(c.hash, id).Some? {
      ReconstructsExactly(c.hash, LeafHash(c.hash, id).value, pkg.path);
    }
  }

  /** The signature of the fog binds DID, leaf, root, epoch and fog id. */
  lemma SignatureBindsPackage(c: Crypto, a: ProofPackage, b: ProofPackage)
    requires JsonInjective(c) && c.json(PackageMessage(a)) == c.json(PackageMessage(b))
    ensures a.did == b.did && a.leaf == b.leaf && a.root == b.root && a.epochId == b.epochId && a.fogId == b.fogId
  {
  }

  /** A package built for a leaf is accepted against the root of its tree and against no other root. */
  lemma BuiltPackageAccepted(c: Crypto, id: Identity, leaves: seq<Digest>, i: nat, epochId: int, fogId: Bytes,
                             trusted: Option<Bytes>)
    requires SignatureCorrect(c) && i < |leaves|
    requires LeafHash(c.hash, id) == Some(leaves[i])
    ensures VerifyPackage(c, BuildPackage(c, id, leaves, i, epochId, fogId), trusted)
         == if trusted.None? then NoAnchoredRoot
            else if trusted.value == Root(c.hash, leaves) then Accepted else RootMismatch
  {
    ProofCompleteness(c.hash, leaves, i);
  }

  /** Everything hashed when a package is checked against the tree over `ids`. */
  ghost function PackageInputs(c: Crypto, pkg: ProofPackage, leaves: seq<Digest>, ids: set<Identity>): set<Bytes> {
    CheckInputs(c.hash, leaves, ids, Identity(pkg.did, pkg.publicKey.GetOr([])), pkg.path)
  }

  /** Soundness of the whole check: an accepted package names a member of the tree and carries
      exactly the path that the tree gives that member; otherwise two hashed strings collide. */
  lemma PackageSoundness(c: Crypto, pkg: ProofPackage, leaves: seq<Digest>, ids: set<Identity>)
    requires |leaves| > 0 && LeavesOf(c.hash, leaves, ids)
    requires forall x :: x in ids ==> ValidIdentity(x)
    requires VerifyPackage(c, pkg, Some(Root(c.hash, leaves))) == Accepted
    ensures pkg.publicKey.Some? && pkg.root == Root(c.hash, leaves)
    ensures || (&& Identity(pkg.did, pkg.publicKey.value) in ids
                && exists i :: 0 <= i < |leaves| && leaves[i] == pkg.leaf && pkg.path == ProofFor(c.hash, leaves, i))
            || HasCollision(c.hash, PackageInputs(c, pkg, leaves, ids))
  {
    var id := Identity(pkg.did, pkg.publicKey.value);
    MembershipSoundness(c.hash, leaves, ids, id, pkg.path);
    PathUniqueness(c.hash, leaves, ids, id, pkg.path);
  }
}
