/** What holds of every run of the fog. Each call of a run is one atomic handler. */
module FogTheorems {
  import opened Basics
  import opened Canonical
  import opened MerkleTree
  import opened MerkleSoundness
  import opened Signing
  import opened ProofPackages
  import opened Ledgers
  import opened Epochs
  import opened FogState
  import opened FogInvariant

  // ---------- records and history over time ----------

  lemma DevicesGrowTransitive(a: Devices, b: Devices, c: Devices)
    requires DevicesGrow(a, b) && DevicesGrow(b, c)
    ensures DevicesGrow(a, c)
  {
  }

  /** Between any two moments of a run, no record is lost, no key changes and no status moves down
      the order PENDING, TOKENIZED, REGISTERED, REVOKED. */
  lemma {:induction false} StatusNeverMovesDown(cfg: Config, inputs: seq<Input>, n: nat)
    requires n <= |inputs|
    ensures DevicesGrow(Run(cfg, inputs[..n]).devices, Run(cfg, inputs).devices)
    decreases |inputs|
  {
    if n == |inputs| {
      assert inputs[..n] == inputs;
    } else {
      var before := inputs[..|inputs| - 1];
      assert before[..n] == inputs[..n];
      StatusNeverMovesDown(cfg, before, n);
      RunKeeps(cfg, before);
      StepKeeps(cfg, Run(cfg, before), inputs[|inputs| - 1]);
      DevicesGrowTransitive(Run(cfg, inputs[..n]).devices, Run(cfg, before).devices, Run(cfg, inputs).devices);
    }
  }

  /** What is anchored stays anchored, with the same root and the same packages. */
  predicate HistoryGrows(a: FogState, b: FogState) {
    && (forall e :: e in a.epochs.packages ==> e in b.epochs.packages && b.epochs.packages[e] == a.epochs.packages[e])
    && (forall e :: e in a.ledger.rootCache ==>
          e in b.ledger.rootCache && b.ledger.rootCache[e] == a.ledger.rootCache[e])
    && a.ledger.blocks <= b.ledger.blocks
    && a.epochs.current <= b.epochs.current
  }

  lemma OneMoreEpoch(a: FogState, b: FogState, e: int, p: Packages, root: Bytes)
    requires a.ledger.rootCache.Keys == a.epochs.packages.Keys && e !in a.ledger.rootCache
    requires b.epochs.packages == a.epochs.packages[e := p] && b.ledger.rootCache == a.ledger.rootCache[e := root]
    requires a.ledger.blocks <= b.ledger.blocks && a.epochs.current <= b.epochs.current
    ensures HistoryGrows(a, b)
  {
  }

  lemma SealGrowsHistory(k: FogKeys, st: FogState, exclude: set<Bytes>, timestamp: Bytes, next: FogState,
                         r: EpochResult)
    requires st.ledger.rootCache.Keys == st.epochs.packages.Keys && Seals(k, st, exclude, timestamp, next, r)
    ensures HistoryGrows(st, next)
  {
    OneMoreEpoch(st, next, r.epochId, r.packages, r.root);
  }

  lemma StepGrowsHistory(cfg: Config, st: FogState, i: Input)
    requires st.ledger.rootCache.Keys == st.epochs.packages.Keys
    ensures HistoryGrows(st, Step(cfg, st, i).0)
  {
    var (next, answer) := Step(cfg, st, i);
    if !i.CloseInput? {
      OtherStepsKeepHistory(cfg, st, i);
    } else {
      CloseStep(cfg, st, i);
      if answer.EpochClosed? { SealGrowsHistory(cfg.keys, st, i.exclude, i.timestamp, next, answer.result); }
    }
  }

  lemma {:induction false} HistoryIsPermanent(cfg: Config, inputs: seq<Input>, n: nat)
    requires n <= |inputs|
    ensures HistoryGrows(Run(cfg, inputs[..n]), Run(cfg, inputs))
    decreases |inputs|
  {
    if n == |inputs| {
      assert inputs[..n] == inputs;
    } else {
      var before := inputs[..|inputs| - 1];
      assert before[..n] == inputs[..n];
      HistoryIsPermanent(cfg, before, n);
      RunKeeps(cfg, before);
      StepGrowsHistory(cfg, Run(cfg, before), inputs[|inputs| - 1]);
    }
  }

  /** A committed package is accepted against its root. */
  lemma CommittedPackageAccepted(k: FogKeys, e: int, p: Packages, root: Bytes, d: Bytes)
    requires SignatureCorrect(k.crypto) && Committed(k, e, p, root) && d in p
    ensures VerifyPackage(k.crypto, p[d], Some(root)) == Accepted
  {
    var members := MembersOf(p);
    var leaves := SortedLeaves(members);
    assert members[d].leaf in LeafSet(members);
    BuiltPackageAccepted(k.crypto, Identity(d, members[d].publicKey), leaves, IndexOf(leaves, members[d].leaf), e,
                         k.fogId, Some(root));
  }

  /** Every package ever issued is accepted, in every later state, against the root of its own epoch. */
  lemma IssuedPackagesStayValid(cfg: Config, inputs: seq<Input>, n: nat, e: int, d: Bytes)
    requires SignatureCorrect(cfg.keys.crypto) && n <= |inputs|
    requires e in Run(cfg, inputs[..n]).epochs.packages && d in Run(cfg, inputs[..n]).epochs.packages[e]
    ensures var pkg := Run(cfg, inputs[..n]).epochs.packages[e][d];
            pkg.epochId == e && VerifyPackage(cfg.keys.crypto, pkg, CachedRoot(Run(cfg, inputs).ledger, e)) == Accepted
  {
    RunKeeps(cfg, inputs[..n]);
    var st := Run(cfg, inputs[..n]);
    HistoryIsPermanent(cfg, inputs, n);
    CommittedPackageAccepted(cfg.keys, e, st.epochs.packages[e], st.ledger.rootCache[e], d);
  }

  /** In every state of a run the package on offer for a device exists exactly when some epoch packaged it; it is
      the newest one, and it is accepted against the root of its own epoch. */
  lemma NewestPackageAccepted(cfg: Config, inputs: seq<Input>, d: Bytes)
    requires SignatureCorrect(cfg.keys.crypto)
    ensures var st := Run(cfg, inputs);
            && LatestInv(st.epochs.packages, st.epochs.latest)
            && (d in st.epochs.latest <==> EverPackaged(st.epochs.packages, d))
            && (d in st.epochs.latest ==>
                  && IsNewest(st.epochs.packages, d, st.epochs.latest[d])
                  && VerifyPackage(cfg.keys.crypto, st.epochs.latest[d],
                                   CachedRoot(st.ledger, st.epochs.latest[d].epochId)) == Accepted)
  {
    RunKeeps(cfg, inputs);
    var st := Run(cfg, inputs);
    if d in st.epochs.latest {
      var e := st.epochs.latest[d].epochId;
      CommittedPackageAccepted(cfg.keys, e, st.epochs.packages[e], st.ledger.rootCache[e], d);
    }
  }

  // ---------- what a close can answer ----------

  ghost function MemberIds(members: Batch): set<Identity> {
    set d | d in members :: Identity(d, members[d].publicKey)
  }

  /** Two of the member identities of this close hash to the same leaf. */
  ghost predicate MembersCollide(cfg: Config, st: FogState, exclude: set<Bytes>) {
    HasCollision(cfg.keys.crypto.hash, LeafInputs(MemberIds(Members(cfg.keys, st.devices, st.epochs.pending, exclude))))
  }

  /** A close by the admin succeeds whenever there is a member, unless two member identities collide;
      in particular the ledger never refuses it. A close that fails changes nothing. */
  lemma CloseOutcome(cfg: Config, inputs: seq<Input>, i: Input)
    requires i.CloseInput?
    ensures var st := Run(cfg, inputs); var (next, answer) := Step(cfg, st, i);
            && (!answer.EpochClosed? ==> next == st)
            && (i.isAdmin && Members(cfg.keys, st.devices, st.epochs.pending, i.exclude) != map[] ==>
                  answer.EpochClosed? || MembersCollide(cfg, st, i.exclude))
  {
    RunKeeps(cfg, inputs);
    CloseStep(cfg, Run(cfg, inputs), i);
    if i.isAdmin && Members(cfg.keys, Run(cfg, inputs).devices, Run(cfg, inputs).epochs.pending, i.exclude) != map[] {
      CloseSucceeds(cfg, Run(cfg, inputs), i);
    }
  }

  lemma CloseSucceeds(cfg: Config, st: FogState, i: Input)
    requires Inv(cfg, st) && i.CloseInput? && i.isAdmin
    requires Members(cfg.keys, st.devices, st.epochs.pending, i.exclude) != map[]
    ensures Step(cfg, st, i).1.EpochClosed? || MembersCollide(cfg, st, i.exclude)
  {
    MembersGenuine(cfg.keys, st.devices, st.epochs.pending, i.exclude);
    GenuineMembersFit(cfg.keys.crypto.hash, Members(cfg.keys, st.devices, st.epochs.pending, i.exclude));
    CloseAccepts(cfg.keys, st.devices, st.epochs, st.ledger, i.exclude, i.timestamp);
    if !MembersCollide(cfg, st, i.exclude) { FinalizeCloses(cfg, st, i); }
  }

  lemma FinalizeCloses(cfg: Config, st: FogState, i: Input)
    requires i.CloseInput? && i.isAdmin
    requires Finalize(cfg.keys, st.devices, st.epochs, st.ledger, i.exclude, i.timestamp).Ok?
    ensures Step(cfg, st, i).1.EpochClosed?
  {
    var closed := Finalize(cfg.keys, st.devices, st.epochs, st.ledger, i.exclude, i.timestamp).value;
    assert CloseEpoch(cfg, st, i).1 == EpochClosed(closed.result);
    StepOfClose(cfg, st, i);
  }

  lemma GenuineMembersFit(h: Hash, members: Batch)
    requires GenuineMembers(h, members)
    ensures TreeAccepts(members) || HasCollision(h, LeafInputs(MemberIds(members)))
  {
    if d, e :| d in members && e in members && d != e && members[d].leaf == members[e].leaf {
      var a, b := Identity(d, members[d].publicKey), Identity(e, members[e].publicKey);
      assert a in MemberIds(members) && b in MemberIds(members);
      assert LeafInput(a) in LeafInputs(MemberIds(members)) && LeafInput(b) in LeafInputs(MemberIds(members));
      if LeafInput(a) == LeafInput(b) { LeafInputInjective(a, b); }
    }
  }

  lemma CloseAccepts(k: FogKeys, devices: Devices, epochs: EpochState, ledger: LedgerState, exclude: set<Bytes>,
                     timestamp: Bytes)
    requires EpochInv(k, epochs.current, epochs.packages, ledger.rootCache)
    requires Members(k, devices, epochs.pending, exclude) != map[]
    ensures TreeAccepts(Members(k, devices, epochs.pending, exclude)) ==>
              Finalize(k, devices, epochs, ledger, exclude, timestamp).Ok?
  {
    if TreeAccepts(Members(k, devices, epochs.pending, exclude)) {
      NonEmptyLeaves(Members(k, devices, epochs.pending, exclude));
      assert epochs.current !in ledger.rootCache;
    }
  }

  /** The close accounts for everyone queued or in the last root. */
  ghost predicate Conserves(st: FogState, i: Input, next: FogState, r: EpochResult)
    requires i.CloseInput?
  {
    && (forall d :: d in st.epochs.pending || d in st.epochs.active ==> (d in r.packages <==> d !in r.excluded))
    && (forall d :: d in r.excluded ==> d in st.epochs.pending || d in st.epochs.active)
    && |r.packages| == |r.sortedLeaves| == r.newDevices + r.carriedForward
    && next.epochs.pending == map[] && next.epochs.active == r.packages.Keys
    && (i.exclude == {} ==> next.epochs.active == WithStatus(next.devices, Registered))
  }

  /** Conservation in runs, at every successful close. */
  lemma EveryCloseConserves(cfg: Config, inputs: seq<Input>, i: Input)
    requires cfg.keys.carryForward
    requires i.CloseInput? && Step(cfg, Run(cfg, inputs), i).1.EpochClosed?
    ensures var (next, answer) := Step(cfg, Run(cfg, inputs), i); Conserves(Run(cfg, inputs), i, next, answer.result)
  {
    RunKeeps(cfg, inputs);
    ActiveAndQueued(cfg, Run(cfg, inputs));
    CloseConservesAt(cfg, Run(cfg, inputs), i);
  }

  lemma ActiveAndQueued(cfg: Config, st: FogState)
    requires RecordsInv(cfg, st)
    ensures forall d :: d in st.epochs.active ==> d in st.devices && st.devices[d].status in {Registered, Revoked}
    ensures st.epochs.pending.Keys <= st.devices.Keys
  {
  }

  lemma CloseConservesAt(cfg: Config, st: FogState, i: Input)
    requires cfg.keys.carryForward && i.CloseInput? && Step(cfg, st, i).1.EpochClosed?
    requires forall d :: d in st.epochs.active ==> d in st.devices && st.devices[d].status in {Registered, Revoked}
    requires st.epochs.pending.Keys <= st.devices.Keys
    ensures Conserves(st, i, Step(cfg, st, i).0, Step(cfg, st, i).1.result)
  {
    CloseConserves(cfg.keys, st.devices, st.epochs, st.ledger, i.exclude, i.timestamp);
    CloseStep(cfg, st, i);
    if i.exclude == {} {
      ActiveIsRegistered(cfg.keys, st.devices, st.epochs, st.ledger, i.timestamp);
    }
  }

  // ---------- what an accepted package proves ----------

  /** Everything hashed when `pkg` is checked against the tree that was closed with packages `p`. */
  ghost function EpochInputs(k: FogKeys, p: Packages, pkg: ProofPackage): set<Bytes> {
    var members := MembersOf(p);
    if TreeAccepts(members) then PackageInputs(k.crypto, pkg, SortedLeaves(members), MemberIds(members)) else {}
  }

  /** The package agrees with the issued one in everything but the fog id and the signature text. */
  predicate SameEvidence(pkg: ProofPackage, issued: ProofPackage) {
    && pkg.did == issued.did && pkg.publicKey == issued.publicKey && pkg.leaf == issued.leaf
    && pkg.root == issued.root && pkg.path == issued.path
  }

  lemma AcceptedIsIssued(k: FogKeys, e: int, p: Packages, root: Bytes, pkg: ProofPackage)
    requires Committed(k, e, p, root) && VerifyPackage(k.crypto, pkg, Some(root)) == Accepted
    ensures (pkg.did in p && SameEvidence(pkg, p[pkg.did])) || HasCollision(k.crypto.hash, EpochInputs(k, p, pkg))
  {
    var members := MembersOf(p);
    var leaves, ids := SortedLeaves(members), MemberIds(members);
    LeavesOfMembers(k.crypto.hash, members);
    PackageSoundness(k.crypto, pkg, leaves, ids);
    if !HasCollision(k.crypto.hash, EpochInputs(k, p, pkg)) {
      var i :| 0 <= i < |leaves| && leaves[i] == pkg.leaf && pkg.path == ProofFor(k.crypto.hash, leaves, i);
      PackageAtLeaf(k, members, e, pkg, i);
    }
  }

  /** The package that shows leaf i of the tree for its DID and key is the one issued to that member. */
  lemma PackageAtLeaf(k: FogKeys, members: Batch, e: int, pkg: ProofPackage, i: nat)
    requires TreeAccepts(members) && GenuineMembers(k.crypto.hash, members)
    requires pkg.publicKey.Some? && Identity(pkg.did, pkg.publicKey.value) in MemberIds(members)
    requires LeafHash(k.crypto.hash, Identity(pkg.did, pkg.publicKey.value)) == Some(pkg.leaf)
    requires i < |SortedLeaves(members)| && SortedLeaves(members)[i] == pkg.leaf
    requires pkg.path == ProofFor(k.crypto.hash, SortedLeaves(members), i)
    requires pkg.root == Root(k.crypto.hash, SortedLeaves(members))
    ensures pkg.did in members && SameEvidence(pkg, PackageOf(k, members, e, pkg.did))
  {
    assert members[pkg.did].leaf in LeafSet(members);
    IndexUnique(SortedLeaves(members), i);
  }

  lemma LeavesOfMembers(h: Hash, members: Batch)
    requires GenuineMembers(h, members) && TreeAccepts(members)
    ensures LeavesOf(h, SortedLeaves(members), MemberIds(members))
    ensures forall id :: id in MemberIds(members) ==> ValidIdentity(id)
  {
    forall x | x in SortedLeaves(members) ensures exists id :: id in MemberIds(members) && x == h(LeafInput(id)) {
      var d :| d in members && members[d].leaf == x;
      assert Identity(d, members[d].publicKey) in MemberIds(members);
    }
  }

  /** A revoked device stays out: no package with its DID, whatever key, path or signature it carries, is accepted
      against the root of an epoch closed after the revocation, or two hashed strings collide. */
  lemma RevokedStaysOut(cfg: Config, inputs: seq<Input>, n: nat, e: int, pkg: ProofPackage)
    requires n <= |inputs|
    requires IsDeviceRevoked(Run(cfg, inputs[..n]).devices, pkg.did)
    requires e in Run(cfg, inputs).epochs.packages && e !in Run(cfg, inputs[..n]).epochs.packages
    ensures CachedRoot(Run(cfg, inputs).ledger, e).Some?
    ensures VerifyPackage(cfg.keys.crypto, pkg, CachedRoot(Run(cfg, inputs).ledger, e)) != Accepted
         || HasCollision(cfg.keys.crypto.hash, EpochInputs(cfg.keys, Run(cfg, inputs).epochs.packages[e], pkg))
  {
    RunKeeps(cfg, inputs);
    RevokedNotPackaged(cfg, inputs, n, e, pkg.did);
    var st := Run(cfg, inputs);
    if VerifyPackage(cfg.keys.crypto, pkg, CachedRoot(st.ledger, e)) == Accepted {
      AcceptedIsIssued(cfg.keys, e, st.epochs.packages[e], st.ledger.rootCache[e], pkg);
    }
  }

  lemma {:induction false} RevokedNotPackaged(cfg: Config, inputs: seq<Input>, n: nat, e: int, d: Bytes)
    requires n <= |inputs|
    requires IsDeviceRevoked(Run(cfg, inputs[..n]).devices, d)
    requires e in Run(cfg, inputs).epochs.packages && e !in Run(cfg, inputs[..n]).epochs.packages
    ensures d !in Run(cfg, inputs).epochs.packages[e]
    decreases |inputs|
  {
    assert inputs[..|inputs|] == inputs;
    if n < |inputs| {
      var before, last := inputs[..|inputs| - 1], inputs[|inputs| - 1];
      assert before[..n] == inputs[..n];
      RunKeeps(cfg, before);
      if e in Run(cfg, before).epochs.packages {
        RevokedNotPackaged(cfg, before, n, e, d);
        StepGrowsHistory(cfg, Run(cfg, before), last);
      } else {
        StatusNeverMovesDown(cfg, before, n);
        NewPackagesSkipRevoked(cfg, Run(cfg, before), last, e, d);
      }
    }
  }

  lemma NewPackagesSkipRevoked(cfg: Config, st: FogState, i: Input, e: int, d: Bytes)
    requires IsDeviceRevoked(st.devices, d)
    requires e in Step(cfg, st, i).0.epochs.packages && e !in st.epochs.packages
    ensures d !in Step(cfg, st, i).0.epochs.packages[e]
  {
    NewPackagesFromClose(cfg, st, i, e);
    CloseStep(cfg, st, i);
    RevokedIsNoMember(cfg.keys, st, i.exclude, d);
  }

  lemma RevokedIsNoMember(k: FogKeys, st: FogState, exclude: set<Bytes>, d: Bytes)
    requires IsDeviceRevoked(st.devices, d)
    ensures d !in Members(k, st.devices, st.epochs.pending, exclude).Keys
  {
  }

  /** Whatever is packaged for an epoch was packaged by one close of the run. */
  lemma {:induction false} PackagesComeFromClose(cfg: Config, inputs: seq<Input>, e: int) returns (j: nat)
    requires e in Run(cfg, inputs).epochs.packages
    ensures j < |inputs| && Answer(cfg, inputs, j).EpochClosed? && Answer(cfg, inputs, j).result.epochId == e
    ensures Answer(cfg, inputs, j).result.packages == Run(cfg, inputs).epochs.packages[e]
  {
    j := 0;
    if inputs != [] {
      var n := |inputs| - 1;
      var before, last := inputs[..n], inputs[n];
      if e in Run(cfg, before).epochs.packages {
        j := PackagesComeFromClose(cfg, before, e);
        assert before[..j] == inputs[..j];
        HistoryIsPermanent(cfg, inputs, n);
      } else {
        j := n;
        NewPackagesFromClose(cfg, Run(cfg, before), last, e);
      }
    }
  }

  lemma NewPackagesFromClose(cfg: Config, st: FogState, i: Input, e: int)
    requires e in Step(cfg, st, i).0.epochs.packages && e !in st.epochs.packages
    ensures i.CloseInput?
    ensures var (next, answer) := Step(cfg, st, i);
            answer.EpochClosed? && answer.result.epochId == e && answer.result.packages == next.epochs.packages[e]
  {
    if i.CloseInput? {
      CloseStep(cfg, st, i);
    } else {
      OtherStepsKeepHistory(cfg, st, i);
    }
  }

  // ---------- epochs that share a root ----------

  /** Everything hashed for the tree of an epoch. */
  ghost function EpochTreeInputs(k: FogKeys, p: Packages): set<Bytes> {
    var members := MembersOf(p);
    if TreeAccepts(members) then BatchTreeInputs(k.crypto.hash, members) else {}
  }

  ghost function BatchTreeInputs(h: Hash, members: Batch): set<Bytes>
    requires TreeAccepts(members)
  {
    CommitInputs(h, SortedLeaves(members), MemberIds(members))
  }

  /** Two epochs of a run have the same root exactly when they have the same members, or two hashed strings collide:
      a close with nothing queued anchors the carried devices' root again. */
  lemma SameRootExactly(cfg: Config, inputs: seq<Input>, e: int, e': int)
    requires var p := Run(cfg, inputs).epochs.packages; e in p && e' in p
    ensures var st := Run(cfg, inputs); var p, p' := st.epochs.packages[e], st.epochs.packages[e'];
            && e in st.ledger.rootCache && e' in st.ledger.rootCache
            && ((st.ledger.rootCache[e] == st.ledger.rootCache[e'] <==> p.Keys == p'.Keys)
                || HasCollision(cfg.keys.crypto.hash, EpochTreeInputs(cfg.keys, p) + EpochTreeInputs(cfg.keys, p')))
  {
    RunKeeps(cfg, inputs);
    var st := Run(cfg, inputs);
    var p, p' := st.epochs.packages[e], st.epochs.packages[e'];
    assert KeysOnRecord(st.devices, p) && KeysOnRecord(st.devices, p');
    SameRootSameMembers(cfg.keys, e, p, st.ledger.rootCache[e], e', p', st.ledger.rootCache[e'], st.devices);
  }

  /** Two closes in a row, nothing queued in between and nobody excluded: the second always succeeds, and it anchors
      the root of the first again. */
  lemma IdleCloseRepeatsRoot(cfg: Config, inputs: seq<Input>, a: Input, b: Input)
    requires cfg.keys.carryForward && a.CloseInput? && b.CloseInput? && a.exclude == b.exclude == {} && b.isAdmin
    requires Step(cfg, Run(cfg, inputs), a).1.EpochClosed?
    ensures var (middle, first) := Step(cfg, Run(cfg, inputs), a); var second := Step(cfg, middle, b).1;
            && second.EpochClosed?
            && second.result.epochId == first.result.epochId + 1 && second.result.root == first.result.root
  {
    RunThen(cfg, inputs, a);
    RunThen(cfg, inputs + [a], b);
    RootsFollowKeysInRuns(cfg, inputs + [a] + [b]);
    FreshlyClosed(cfg, inputs, a);
    IdleCloseSucceeds(cfg, inputs + [a], b, Step(cfg, Run(cfg, inputs), a).1.result);
    IdleCloseAt(cfg, Step(cfg, Run(cfg, inputs), a).0, b, Step(cfg, Run(cfg, inputs), a).1.result);
  }

  lemma IdleCloseSucceeds(cfg: Config, inputs: seq<Input>, i: Input, last: EpochResult)
    requires cfg.keys.carryForward && i.CloseInput? && i.isAdmin && i.exclude == {} && Settled(Run(cfg, inputs), last)
    ensures Step(cfg, Run(cfg, inputs), i).1.EpochClosed?
  {
    RunKeeps(cfg, inputs);
    IdleBatchFits(cfg, Run(cfg, inputs), i.exclude, last);
    CloseAcceptsAt(cfg, Run(cfg, inputs), i);
  }

  lemma CloseAcceptsAt(cfg: Config, st: FogState, i: Input)
    requires Inv(cfg, st) && i.CloseInput? && i.isAdmin
    requires var members := Members(cfg.keys, st.devices, st.epochs.pending, i.exclude);
             members != map[] && TreeAccepts(members)
    ensures Step(cfg, st, i).1.EpochClosed?
  {
    CloseAccepts(cfg.keys, st.devices, st.epochs, st.ledger, i.exclude, i.timestamp);
    FinalizeCloses(cfg, st, i);
  }

  /** The batch of an idle close is the one that was just committed. */
  lemma IdleBatchFits(cfg: Config, st: FogState, exclude: set<Bytes>, last: EpochResult)
    requires Inv(cfg, st) && cfg.keys.carryForward && exclude == {} && Settled(st, last)
    ensures var members := Members(cfg.keys, st.devices, st.epochs.pending, exclude);
            members != map[] && TreeAccepts(members)
  {
    var h, members, p := cfg.keys.crypto.hash, Members(cfg.keys, st.devices, st.epochs.pending, exclude),
                         st.epochs.packages[last.epochId];
    IdleMembers(cfg.keys, st.devices, exclude);
    MembersGenuine(cfg.keys, st.devices, st.epochs.pending, exclude);
    assert Committed(cfg.keys, last.epochId, p, st.ledger.rootCache[last.epochId]) && KeysOnRecord(st.devices, p);
    SameGenuineBatch(h, members, MembersOf(p), st.devices);
    CommittedIsNotEmpty(cfg.keys, last.epochId, p, st.ledger.rootCache[last.epochId]);
  }

  lemma SameGenuineBatch(h: Hash, m: Batch, m': Batch, devices: Devices)
    requires GenuineMembers(h, m) && GenuineMembers(h, m') && m.Keys == m'.Keys
    requires forall d :: d in m ==> d in devices && m[d].publicKey == m'[d].publicKey == devices[d].publicKey
    ensures m == m'
  {
  }

  lemma CommittedIsNotEmpty(k: FogKeys, e: int, p: Packages, root: Bytes)
    requires Committed(k, e, p, root)
    ensures MembersOf(p) != map[] && TreeAccepts(MembersOf(p))
  {
    assert SortedLeaves(MembersOf(p))[0] in LeafSet(MembersOf(p));
  }

  /** The last epoch, which closed with result `r`, packaged exactly the registered devices; nothing is queued. */
  predicate Settled(st: FogState, r: EpochResult) {
    && st.epochs.pending == map[] && st.epochs.active == WithStatus(st.devices, Registered)
    && r.epochId + 1 == st.epochs.current && r.epochId in st.epochs.packages && r.epochId in st.ledger.rootCache
    && st.epochs.packages[r.epochId].Keys == st.epochs.active && st.ledger.rootCache[r.epochId] == r.root
  }

  lemma FreshlyClosed(cfg: Config, inputs: seq<Input>, i: Input)
    requires cfg.keys.carryForward && i.CloseInput? && i.exclude == {}
    requires Step(cfg, Run(cfg, inputs), i).1.EpochClosed?
    ensures Settled(Step(cfg, Run(cfg, inputs), i).0, Step(cfg, Run(cfg, inputs), i).1.result)
  {
    EveryCloseConserves(cfg, inputs, i);
    CloseAdds(cfg, Run(cfg, inputs), i);
  }

  /** The second close repeats the root of the first. */
  lemma IdleCloseAt(cfg: Config, st: FogState, i: Input, first: EpochResult)
    requires cfg.keys.carryForward && i.CloseInput? && i.exclude == {} && Step(cfg, st, i).1.EpochClosed?
    requires Settled(st, first) && RootsFollowKeys(Step(cfg, st, i).0)
    ensures var r := Step(cfg, st, i).1.result; r.epochId == first.epochId + 1 && r.root == first.root
  {
    CloseAdds(cfg, st, i);
    IdleMembers(cfg.keys, st.devices, i.exclude);
    SameKeysSameRoot(st, Step(cfg, st, i).0, Step(cfg, st, i).1.result, first.epochId);
  }

  lemma SameKeysSameRoot(st: FogState, next: FogState, r: EpochResult, e: int)
    requires RootsFollowKeys(next) && AddsEpoch(st, next, r) && e == r.epochId - 1
    requires e in st.epochs.packages && e in st.ledger.rootCache && r.packages.Keys == st.epochs.packages[e].Keys
    ensures r.root == st.ledger.rootCache[e]
  {
    assert next.epochs.packages[r.epochId] == r.packages && next.epochs.packages[e] == st.epochs.packages[e];
    assert SameKeys(next, e, r.epochId);
  }

  /** What a close adds: one epoch, with packages for the members and for nobody else. */
  lemma CloseAdds(cfg: Config, st: FogState, i: Input)
    requires i.CloseInput? && Step(cfg, st, i).1.EpochClosed?
    ensures var (next, answer) := Step(cfg, st, i);
            && AddsEpoch(st, next, answer.result)
            && answer.result.packages.Keys == Members(cfg.keys, st.devices, st.epochs.pending, i.exclude).Keys
  {
    CloseStep(cfg, st, i);
  }

  predicate AddsEpoch(st: FogState, next: FogState, r: EpochResult) {
    && r.epochId == st.epochs.current == next.epochs.current - 1
    && next.epochs.packages == st.epochs.packages[r.epochId := r.packages]
    && next.ledger.rootCache == st.ledger.rootCache[r.epochId := r.root]
  }

  lemma IdleMembers(k: FogKeys, devices: Devices, exclude: set<Bytes>)
    requires k.carryForward && exclude == {}
    ensures Members(k, devices, map[], exclude).Keys == WithStatus(devices, Registered)
  {
  }

  /** Epochs with the same members have the same root. */
  ghost predicate RootsFollowKeys(st: FogState) {
    forall e, e' :: SameKeys(st, e, e') ==> st.ledger.rootCache[e] == st.ledger.rootCache[e']
  }

  predicate SameKeys(st: FogState, e: int, e': int) {
    && e in st.epochs.packages && e' in st.epochs.packages && e in st.ledger.rootCache && e' in st.ledger.rootCache
    && st.epochs.packages[e].Keys == st.epochs.packages[e'].Keys
  }

  lemma RootsFollowKeysInRuns(cfg: Config, inputs: seq<Input>)
    ensures RootsFollowKeys(Run(cfg, inputs))
  {
    var st := Run(cfg, inputs);
    RunKeeps(cfg, inputs);
    forall e, e' | SameKeys(st, e, e') ensures st.ledger.rootCache[e] == st.ledger.rootCache[e'] {
      RepeatedRoot(cfg, st, e, e');
    }
  }

  lemma RepeatedRoot(cfg: Config, st: FogState, e: int, e': int)
    requires Inv(cfg, st) && e in st.epochs.packages && e' in st.epochs.packages
    requires st.epochs.packages[e].Keys == st.epochs.packages[e'].Keys
    ensures st.ledger.rootCache[e] == st.ledger.rootCache[e']
  {
    var p, p' := st.epochs.packages[e], st.epochs.packages[e'];
    assert KeysOnRecord(st.devices, p) && KeysOnRecord(st.devices, p');
    assert Committed(cfg.keys, e, p, st.ledger.rootCache[e]) && Committed(cfg.keys, e', p', st.ledger.rootCache[e']);
    SameKeysSameMembers(cfg.keys.crypto.hash, p, p', st.devices);
  }

  lemma SameRootSameMembers(k: FogKeys, e: int, p: Packages, root: Bytes, e': int, p': Packages, root': Bytes,
                            devices: Devices)
    requires Committed(k, e, p, root) && Committed(k, e', p', root') && KeysOnRecord(devices, p)
    requires KeysOnRecord(devices, p')
    ensures || (root == root' <==> p.Keys == p'.Keys)
            || HasCollision(k.crypto.hash, EpochTreeInputs(k, p) + EpochTreeInputs(k, p'))
  {
    if p.Keys == p'.Keys {
      SameKeysSameMembers(k.crypto.hash, p, p', devices);
    } else if root == root' {
      SameRootSameKeys(k.crypto.hash, MembersOf(p), MembersOf(p'));
    }
  }

  lemma SameRootSameKeys(h: Hash, m: Batch, m': Batch)
    requires GenuineMembers(h, m) && TreeAccepts(m) && |SortedLeaves(m)| > 0
    requires GenuineMembers(h, m') && TreeAccepts(m') && |SortedLeaves(m')| > 0
    requires Root(h, SortedLeaves(m)) == Root(h, SortedLeaves(m'))
    ensures m.Keys == m'.Keys || HasCollision(h, BatchTreeInputs(h, m) + BatchTreeInputs(h, m'))
  {
    var inputs := BatchTreeInputs(h, m) + BatchTreeInputs(h, m');
    if !HasCollision(h, inputs) {
      SameRootSameLeaves(h, m, m');
      SameLeavesSameKeys(h, m, m', inputs);
      SameLeavesSameKeys(h, m', m, inputs);
    }
  }

  lemma SameRootSameLeaves(h: Hash, m: Batch, m': Batch)
    requires GenuineMembers(h, m) && TreeAccepts(m) && |SortedLeaves(m)| > 0
    requires GenuineMembers(h, m') && TreeAccepts(m') && |SortedLeaves(m')| > 0
    requires Root(h, SortedLeaves(m)) == Root(h, SortedLeaves(m'))
    ensures SortedLeaves(m) == SortedLeaves(m') || HasCollision(h, BatchTreeInputs(h, m) + BatchTreeInputs(h, m'))
  {
    LeavesOfMembers(h, m);
    LeavesOfMembers(h, m');
    RootBinding(h, SortedLeaves(m), SortedLeaves(m'), MemberIds(m), MemberIds(m'));
  }

  lemma SameKeysSameMembers(h: Hash, p: Packages, p': Packages, devices: Devices)
    requires p.Keys == p'.Keys && KeysOnRecord(devices, p) && KeysOnRecord(devices, p')
    requires GenuineMembers(h, MembersOf(p)) && GenuineMembers(h, MembersOf(p'))
    ensures MembersOf(p) == MembersOf(p')
  {
    forall d | d in p ensures MembersOf(p)[d] == MembersOf(p')[d] {
      assert p[d].publicKey == p'[d].publicKey == Some(devices[d].publicKey);
    }
  }

  lemma SameLeavesSameKeys(h: Hash, m: Batch, m': Batch, inputs: set<Bytes>)
    requires GenuineMembers(h, m) && GenuineMembers(h, m') && TreeAccepts(m) && TreeAccepts(m')
    requires SortedLeaves(m) == SortedLeaves(m')
    requires LeafInputs(MemberIds(m)) <= inputs && LeafInputs(MemberIds(m')) <= inputs && !HasCollision(h, inputs)
    ensures m.Keys <= m'.Keys
  {
    forall d | d in m ensures d in m' {
      assert m[d].leaf in LeafSet(m) && m[d].leaf in SortedLeaves(m') && m[d].leaf in LeafSet(m');
      var e :| e in m' && m'[e].leaf == m[d].leaf;
      var x, y := Identity(d, m[d].publicKey), Identity(e, m'[e].publicKey);
      assert x in MemberIds(m) && y in MemberIds(m');
      assert LeafInput(x) in LeafInputs(MemberIds(m)) && LeafInput(y) in LeafInputs(MemberIds(m'));
      SameHashSameInput(h, inputs, LeafInput(x), LeafInput(y));
      LeafInputInjective(x, y);
    }
  }
}
