/** What every ALLOW of a run implies. */
module FogDecisions {
  import opened Basics
  import opened Canonical
  import opened Signing
  import opened Messages
  import opened Policy
  import opened ProofPackages
  import opened Ledgers
  import opened Nonces
  import opened Epochs
  import opened FogState
  import opened FogAnswers
  import opened FogInvariant
  import opened FogNonces
  import opened FogTheorems
  import opened FogOnboarding

  function RequestNonce(i: Input): Option<Bytes> {
    if i.AccessInput? || i.VerifyInput? then Some(i.nonce) else None
  }

  /** Before call i the fog sent this nonce for this DID, and it had not expired. */
  ghost predicate VerifyNonceSent(cfg: Config, inputs: seq<Input>, i: nat, did: Bytes, nonce: Bytes, now: Time)
    requires i <= |inputs|
  {
    exists j :: 0 <= j < i && inputs[j].VerifyNonceInput? && inputs[j].did == did && inputs[j].nonce == nonce
      && Answer(cfg, inputs, j) == NonceSent(nonce) && now <= inputs[j].now + cfg.nonceTtl
  }

  ghost predicate TokenNonceSent(cfg: Config, inputs: seq<Input>, i: nat, tokenId: Bytes, nonce: Bytes, now: Time)
    requires i <= |inputs|
  {
    exists j :: 0 <= j < i && inputs[j].TokenNonceInput? && inputs[j].tokenId == tokenId && inputs[j].nonce == nonce
      && Answer(cfg, inputs, j) == NonceSent(nonce) && now <= inputs[j].now + cfg.nonceTtl
  }

  /** The identity was a member of epoch e when that epoch closed, before call i. */
  ghost predicate MemberAtClose(cfg: Config, inputs: seq<Input>, i: nat, e: int, id: Identity)
    requires i <= |inputs|
  {
    exists j :: 0 <= j < i && ClosedWith(Answer(cfg, inputs, j), e, id)
  }

  predicate ClosedWith(answer: Response, e: int, id: Identity) {
    answer.EpochClosed? && answer.result.epochId == e
    && id.did in answer.result.packages && answer.result.packages[id.did].publicKey == Some(id.publicKey)
  }

  ghost predicate NoOtherAllow(cfg: Config, inputs: seq<Input>, i: nat)
    requires i < |inputs|
  {
    forall j :: 0 <= j < |inputs| && j != i && Answer(cfg, inputs, j) == Allow ==>
        RequestNonce(inputs[j]) != RequestNonce(inputs[i])
  }

  lemma AllowUsesNonceAlone(cfg: Config, inputs: seq<Input>, i: nat)
    requires FreshRun(inputs) && i < |inputs| && Answer(cfg, inputs, i) == Allow
    ensures NoOtherAllow(cfg, inputs, i)
  {
    forall j | 0 <= j < |inputs| && j != i && Answer(cfg, inputs, j) == Allow
      ensures RequestNonce(inputs[j]) != RequestNonce(inputs[i])
    {
      NonceAllowsOnce(cfg, inputs, if i < j then i else j, if i < j then j else i);
    }
  }

  // ---------- ALLOW from /verify ----------

  /** The facts that one look at the current state confirms. */
  predicate VerifyChecksPass(cfg: Config, st: FogState, i: Input)
    requires i.VerifyInput? && i.raw.Parsed?
  {
    var pkg := i.raw.pkg;
    && CachedRoot(st.ledger, pkg.epochId).Some?
    && VerifyPackage(cfg.keys.crypto, pkg, CachedRoot(st.ledger, pkg.epochId)) == Accepted
    && cfg.keys.crypto.verify(pkg.publicKey.GetOr([]),
                              VerifyMessage(pkg.did, pkg.epochId, i.nonce, i.resource, i.operation),
                              i.signature.GetOr([]))
    && pkg.did in st.devices && st.devices[pkg.did].status == Registered
    && DescribedFor(st.devices[pkg.did], i.resource, i.operation)
  }

  /** The device is described, with a role that its type may hold and that may do this. */
  predicate DescribedFor(r: Device, resource: Bytes, operation: Bytes) {
    && r.metadata.Some? && TypeHolds(r.metadata.value.deviceType, r.metadata.value.role)
    && RoleMay(r.metadata.value.role, resource, operation)
  }

  lemma DescribedExactly(r: Device, resource: Bytes, operation: Bytes)
    ensures DescribedFor(r, resource, operation) <==>
              RoleFits(r) && CheckPolicy(resource, operation, r.metadata.value.role)
  {
    if r.metadata.Some? {
      RolesByType(r.metadata.value.deviceType, r.metadata.value.role);
      PolicyByRole(r.metadata.value.role, resource, operation);
    }
  }

  lemma VerifyAllowChecks(cfg: Config, st: FogState, i: Input)
    requires i.VerifyInput? && Step(cfg, st, i).1 == Allow
    ensures i.raw.Parsed? && VerifyChecksPass(cfg, st, i)
  {
    if i.raw.Parsed? && i.raw.pkg.did in st.devices {
      DescribedExactly(st.devices[i.raw.pkg.did], i.resource, i.operation);
    }
  }

  /** The identity of a package that was accepted in state `Run(inputs)` was on record and a member at a close. */
  ghost predicate WasMember(cfg: Config, inputs: seq<Input>, pkg: ProofPackage) {
    && pkg.did in Run(cfg, inputs).devices && pkg.publicKey == Some(Run(cfg, inputs).devices[pkg.did].publicKey)
    && MemberAtClose(cfg, inputs, |inputs|, pkg.epochId, Identity(pkg.did, pkg.publicKey.value))
  }

  lemma AcceptedWasMember(cfg: Config, inputs: seq<Input>, pkg: ProofPackage)
    requires VerifyPackage(cfg.keys.crypto, pkg, CachedRoot(Run(cfg, inputs).ledger, pkg.epochId)) == Accepted
    ensures pkg.epochId in Run(cfg, inputs).epochs.packages
    ensures WasMember(cfg, inputs, pkg)
         || HasCollision(cfg.keys.crypto.hash,
                         EpochInputs(cfg.keys, Run(cfg, inputs).epochs.packages[pkg.epochId], pkg))
  {
    var st, e := Run(cfg, inputs), pkg.epochId;
    RunKeeps(cfg, inputs);
    AcceptedIsIssued(cfg.keys, e, st.epochs.packages[e], st.ledger.rootCache[e], pkg);
    if !HasCollision(cfg.keys.crypto.hash, EpochInputs(cfg.keys, st.epochs.packages[e], pkg)) {
      assert KeysOnRecord(st.devices, st.epochs.packages[e]);
      var j := PackagesComeFromClose(cfg, inputs, e);
      assert ClosedWith(Answer(cfg, inputs, j), e, Identity(pkg.did, pkg.publicKey.value));
    }
  }

  /** Before call n the fog accepted a possession proof for this DID under this key. */
  ghost predicate ProvenBefore(cfg: Config, inputs: seq<Input>, n: nat, d: Bytes, publicKey: Bytes)
    requires n <= |inputs|
  {
    exists k, j :: 0 <= j < k < n && Proves(cfg, inputs, k, j, d, publicKey)
  }

  lemma RecordProvenBefore(cfg: Config, inputs: seq<Input>, n: nat, d: Bytes)
    requires n <= |inputs| && d in Run(cfg, inputs[..n]).devices
    ensures ProvenBefore(cfg, inputs, n, d, Run(cfg, inputs[..n]).devices[d].publicKey)
  {
    var k, j := RecordWasProven(cfg, inputs[..n], d);
    ProvesInPrefix(cfg, inputs, n, k, j, d, Run(cfg, inputs[..n]).devices[d].publicKey);
  }

  /** Every ALLOW from /verify: the identity of the package was a member of the stated epoch when it closed and its
      key is the key on record, or two hashed strings collide; possession of the key on record was proven for this
      DID before; the key of the package signed exactly this request; the device is REGISTERED now with a fitting
      role; and the nonce was sent for this DID and leads to no other ALLOW. */
  lemma VerifyAllowJustified(cfg: Config, inputs: seq<Input>, i: nat)
    requires FreshRun(inputs)
    requires i < |inputs| && inputs[i].VerifyInput? && Answer(cfg, inputs, i) == Allow
    ensures inputs[i].raw.Parsed? && VerifyChecksPass(cfg, Run(cfg, inputs[..i]), inputs[i])
    ensures VerifyNonceSent(cfg, inputs, i, inputs[i].raw.pkg.did, inputs[i].nonce, inputs[i].now)
    ensures NoOtherAllow(cfg, inputs, i)
    ensures var d := inputs[i].raw.pkg.did; ProvenBefore(cfg, inputs, i, d, Run(cfg, inputs[..i]).devices[d].publicKey)
    ensures var p := Run(cfg, inputs[..i]).epochs.packages; var pkg := inputs[i].raw.pkg;
            pkg.epochId in p &&
            (|| WasMember(cfg, inputs[..i], pkg)
             || HasCollision(cfg.keys.crypto.hash, EpochInputs(cfg.keys, p[pkg.epochId], pkg)))
  {
    VerifyAllowChecks(cfg, Run(cfg, inputs[..i]), inputs[i]);
    AllowUsesNonceAlone(cfg, inputs, i);
    var sent := AllowedNonceWasIssued(cfg, inputs, i);
    AcceptedWasMember(cfg, inputs[..i], inputs[i].raw.pkg);
    RecordProvenBefore(cfg, inputs, i, inputs[i].raw.pkg.did);
  }

  // ---------- ALLOW from /tokens/access ----------

  /** The records that one call makes the fog sign. */
  ghost function SignedIn(cfg: Config, st: FogState, i: Input): set<Record> {
    match Step(cfg, st, i).1
    case EpochClosed(r) => {BlockRecord(r.block.body)} + (set d | d in r.packages :: PackageMessage(r.packages[d]))
    case TokenSent(t, _) => {TokenRecord(t)}
    case _ => {}
  }

  ghost function SignedByFog(cfg: Config, inputs: seq<Input>): set<Record> {
    if inputs == [] then {}
    else
      var before := inputs[..|inputs| - 1];
      SignedByFog(cfg, before) + SignedIn(cfg, Run(cfg, before), inputs[|inputs| - 1])
  }

  lemma {:induction false} TokenOrigin(cfg: Config, inputs: seq<Input>, t: TokenFields) returns (j: nat)
    requires TokenRecord(t) in SignedByFog(cfg, inputs)
    ensures j < |inputs| && Answer(cfg, inputs, j).TokenSent? && Answer(cfg, inputs, j).token == t
  {
    j := 0;
    if inputs != [] {
      var n := |inputs| - 1;
      if TokenRecord(t) in SignedByFog(cfg, inputs[..n]) {
        j := TokenOrigin(cfg, inputs[..n], t);
        assert inputs[..n][..j] == inputs[..j];
      } else {
        j := n;
      }
    }
  }

  // ---------- the ledger file ----------

  /** A call appends at most the block that it reports. */
  lemma StepAppends(cfg: Config, st: FogState, i: Input)
    ensures var (next, answer) := Step(cfg, st, i);
            next.ledger.blocks == st.ledger.blocks + if answer.EpochClosed? then [answer.result.block] else []
  {
    if !i.CloseInput? {
      OtherStepsKeepHistory(cfg, st, i);
    } else {
      CloseStep(cfg, st, i);
    }
  }

  lemma {:induction false} SignedBlockIsAnchored(cfg: Config, inputs: seq<Input>, r: Record)
    requires r.BlockRecord? && r in SignedByFog(cfg, inputs)
    ensures exists i :: 0 <= i < |Run(cfg, inputs).ledger.blocks| && Run(cfg, inputs).ledger.blocks[i].body == r.body
  {
    if inputs != [] {
      var before, last := inputs[..|inputs| - 1], inputs[|inputs| - 1];
      var old_, new_ := Run(cfg, before).ledger.blocks, Run(cfg, inputs).ledger.blocks;
      StepAppends(cfg, Run(cfg, before), last);
      if r in SignedByFog(cfg, before) {
        SignedBlockIsAnchored(cfg, before, r);
        var i :| 0 <= i < |old_| && old_[i].body == r.body;
        assert new_[i] == old_[i];
      } else {
        assert new_[|new_| - 1].body == r.body;
      }
    }
  }

  /** Whatever file the fog's checker accepts after a run, its block bodies are a prefix of the chain that this run
      anchored, or some block carries a forged signature. */
  lemma FogFileIsPrefix(cfg: Config, inputs: seq<Input>, file: seq<Block>)
    requires SignatureCorrect(cfg.keys.crypto) && JsonInjective(cfg.keys.crypto)
    requires CheckChain(cfg.keys.crypto, cfg.keys.crypto.fogKey, AsFile(file)).ChainValid?
    ensures var honest := Run(cfg, inputs).ledger.blocks;
            || (&& |file| <= |honest|
                && (forall i :: 0 <= i < |file| ==> file[i].body == honest[i].body)
                && (forall i :: 0 <= i < |file| - 1 ==> file[i].blockHash == honest[i].blockHash))
            || (exists i :: 0 <= i < |file|
                  && Forged(cfg.keys.crypto, SignedByFog(cfg, inputs), BlockRecord(file[i].body), file[i].signature))
  {
    RunKeepsLedger(cfg, inputs);
    var honest, signed := Run(cfg, inputs).ledger.blocks, SignedByFog(cfg, inputs);
    forall r | r in signed && r.BlockRecord? ensures exists i :: 0 <= i < |honest| && honest[i].body == r.body {
      SignedBlockIsAnchored(cfg, inputs, r);
    }
    AcceptedFileIsPrefix(cfg.keys.crypto, honest, signed, file);
  }

  /** The n-th block anchors epoch n + 1: its root, how many packages it issued, and which fog did. */
  ghost predicate BlockTells(cfg: Config, st: FogState, n: nat)
    requires n < |st.ledger.blocks|
  {
    var b := st.ledger.blocks[n].body;
    && b.blockIndex == n && b.epochId == n + 1 && b.fogId == cfg.keys.fogId
    && b.epochId in st.epochs.packages && b.leafCount == |st.epochs.packages[b.epochId]|
    && b.epochId in st.ledger.rootCache && b.root == st.ledger.rootCache[b.epochId]
  }

  ghost predicate LedgerTells(cfg: Config, st: FogState) {
    && st.epochs.current == |st.ledger.blocks| + 1
    && forall n :: 0 <= n < |st.ledger.blocks| ==> BlockTells(cfg, st, n)
  }

  /** The block of a close, by the packages that it issued. */
  lemma NewBlockTells(cfg: Config, st: FogState, i: Input)
    requires Step(cfg, st, i).1.EpochClosed?
    ensures i.CloseInput?
    ensures var r := Step(cfg, st, i).1.result;
            Describes(r.block.body, |st.ledger.blocks|, st.epochs.current, r.root, |r.packages|, i.timestamp,
                      cfg.keys.fogId)
  {
    KeysAreRequired(cfg, st, i);
    CloseResultExactly(cfg, st, i);
    CloseStep(cfg, st, i);
    var r, members := Step(cfg, st, i).1.result, Members(cfg.keys, st.devices, st.epochs.pending, i.exclude);
    assert |r.packages.Keys| == |r.packages| && |members.Keys| == |members|;
  }

  lemma ClosedTells(cfg: Config, st: FogState, i: Input)
    requires Step(cfg, st, i).1.EpochClosed? && st.epochs.current == |st.ledger.blocks| + 1
    ensures var next := Step(cfg, st, i).0;
            && next.epochs.current == st.epochs.current + 1 && |next.ledger.blocks| == |st.ledger.blocks| + 1
            && BlockTells(cfg, next, |st.ledger.blocks|)
  {
    NewBlockTells(cfg, st, i);
    CloseStep(cfg, st, i);
  }

  lemma TellsForGood(cfg: Config, st: FogState, next: FogState, n: nat)
    requires HistoryGrows(st, next) && n < |st.ledger.blocks| && BlockTells(cfg, st, n)
    ensures BlockTells(cfg, next, n)
  {
  }

  lemma StepKeepsTelling(cfg: Config, st: FogState, i: Input)
    requires Inv(cfg, st) && LedgerTells(cfg, st)
    ensures LedgerTells(cfg, Step(cfg, st, i).0)
  {
    var (next, answer) := Step(cfg, st, i);
    StepAppends(cfg, st, i);
    StepGrowsHistory(cfg, st, i);
    if answer.EpochClosed? {
      ClosedTells(cfg, st, i);
    } else if i.CloseInput? {
      CloseStep(cfg, st, i);
    } else {
      OtherStepsKeepHistory(cfg, st, i);
    }
    forall n | 0 <= n < |next.ledger.blocks| ensures BlockTells(cfg, next, n) {
      if n < |st.ledger.blocks| { TellsForGood(cfg, st, next, n); }
    }
  }

  /** In every run the ledger tells the story of the epochs, block by block. */
  lemma {:induction false} BlocksDescribeEpochs(cfg: Config, inputs: seq<Input>)
    ensures LedgerTells(cfg, Run(cfg, inputs))
  {
    if inputs != [] {
      var before := inputs[..|inputs| - 1];
      BlocksDescribeEpochs(cfg, before);
      RunKeeps(cfg, before);
      StepKeepsTelling(cfg, Run(cfg, before), inputs[|inputs| - 1]);
    }
  }

  // ---------- the signature on a package ----------

  lemma PackagesCarryFogId(cfg: Config, st: FogState, i: Input)
    requires Step(cfg, st, i).1.EpochClosed?
    ensures var p := Step(cfg, st, i).1.result.packages; forall d :: d in p ==> p[d].fogId == cfg.keys.fogId
  {
    if !i.CloseInput? {
      OtherStepsKeepHistory(cfg, st, i);
    } else {
      CloseStep(cfg, st, i);
    }
  }

  lemma {:induction false} SignedPackagesCarryFogId(cfg: Config, inputs: seq<Input>, r: Record)
    requires r.PackageRecord? && r in SignedByFog(cfg, inputs)
    ensures r.fogId == cfg.keys.fogId
  {
    if inputs != [] {
      var before, last := inputs[..|inputs| - 1], inputs[|inputs| - 1];
      if r in SignedByFog(cfg, before) {
        SignedPackagesCarryFogId(cfg, before, r);
      } else {
        PackagesCarryFogId(cfg, Run(cfg, before), last);
      }
    }
  }

  lemma AcceptedCarriesSignature(c: Crypto, pkg: ProofPackage, trusted: Option<Bytes>)
    requires VerifyPackage(c, pkg, trusted) == Accepted
    ensures pkg.fogSignature.Some? && c.verify(c.fogKey, c.json(PackageMessage(pkg)), pkg.fogSignature.value)
  {
  }

  lemma SameButSignature(k: FogKeys, e: int, p: Packages, root: Bytes, pkg: ProofPackage)
    requires Committed(k, e, p, root) && pkg.epochId == e
    ensures pkg.did in p && SameEvidence(pkg, p[pkg.did]) && pkg.fogId == k.fogId ==>
              pkg == p[pkg.did].(fogSignature := pkg.fogSignature)
  {
  }

  /** An accepted package is the issued one, field by field up to the text of its signature, or two hashed strings
      collide, or its signature is a forgery. */
  lemma AcceptedIsExactlyIssued(cfg: Config, inputs: seq<Input>, pkg: ProofPackage)
    requires VerifyPackage(cfg.keys.crypto, pkg, CachedRoot(Run(cfg, inputs).ledger, pkg.epochId)) == Accepted
    ensures pkg.fogSignature.Some? && pkg.epochId in Run(cfg, inputs).epochs.packages
    ensures var p := Run(cfg, inputs).epochs.packages[pkg.epochId];
            || (pkg.did in p && pkg == p[pkg.did].(fogSignature := pkg.fogSignature))
            || HasCollision(cfg.keys.crypto.hash, EpochInputs(cfg.keys, p, pkg))
            || Forged(cfg.keys.crypto, SignedByFog(cfg, inputs), PackageMessage(pkg), pkg.fogSignature.value)
  {
    var st, e := Run(cfg, inputs), pkg.epochId;
    RunKeeps(cfg, inputs);
    AcceptedCarriesSignature(cfg.keys.crypto, pkg, CachedRoot(st.ledger, e));
    AcceptedIsIssued(cfg.keys, e, st.epochs.packages[e], st.ledger.rootCache[e], pkg);
    SameButSignature(cfg.keys, e, st.epochs.packages[e], st.ledger.rootCache[e], pkg);
    if PackageMessage(pkg) in SignedByFog(cfg, inputs) {
      SignedPackagesCarryFogId(cfg, inputs, PackageMessage(pkg));
    }
  }

  /** The token repeats what the fog's record says. */
  predicate TokenOnRecord(st: FogState, t: TokenFields) {
    && t.tokenId in st.issued && st.issued[t.tokenId] == t.did
    && t.did in st.devices && st.devices[t.did].publicKey == t.publicKey && RoleFits(st.devices[t.did])
    && st.devices[t.did].metadata.value.deviceType == t.deviceType && st.devices[t.did].metadata.value.role == t.role
  }

  lemma SentTokenOnRecord(cfg: Config, st: FogState, i: Input)
    requires OnboardingInv(cfg, st) && Step(cfg, st, i).1.TokenSent?
    ensures i.TokenInput? && Step(cfg, st, i).1.token.tokenId == i.tokenId
    ensures TokenOnRecord(Step(cfg, st, i).0, Step(cfg, st, i).1.token)
  {
    TokenSentByIssue(cfg, st, i);
    TokenSentShape(cfg, st, i);
    SessionKeyOnRecord(cfg, st, i.sid);
  }

  lemma SessionKeyOnRecord(cfg: Config, st: FogState, sid: Bytes)
    requires OnboardingInv(cfg, st) && sid in st.sessions && st.sessions[sid].state == MetadataAccepted
    ensures st.sessions[sid].did.Some? && st.sessions[sid].did.value in st.devices
  {
    assert SessionOk(cfg.keys.crypto.hash, st.sessions[sid], st.devices, st.epochs.pending);
  }

  /** A token id keeps its owner unless the same id is drawn again. */
  lemma {:induction false} OwnerStays(cfg: Config, inputs: seq<Input>, n: nat, tokenId: Bytes)
    requires n <= |inputs| && tokenId in Run(cfg, inputs[..n]).issued
    requires forall j :: n <= j < |inputs| ==> DrawnToken(inputs[j]) != Some(tokenId)
    ensures tokenId in Run(cfg, inputs).issued
    ensures Run(cfg, inputs).issued[tokenId] == Run(cfg, inputs[..n]).issued[tokenId]
    decreases |inputs|
  {
    assert inputs[..|inputs|] == inputs;
    if n < |inputs| {
      var before, last := inputs[..|inputs| - 1], inputs[|inputs| - 1];
      assert before[..n] == inputs[..n];
      OwnerStays(cfg, before, n, tokenId);
      OwnerKept(cfg, Run(cfg, before), last, tokenId);
    }
  }

  lemma OwnerKept(cfg: Config, st: FogState, i: Input, tokenId: Bytes)
    requires tokenId in st.issued && DrawnToken(i) != Some(tokenId)
    ensures tokenId in Step(cfg, st, i).0.issued && Step(cfg, st, i).0.issued[tokenId] == st.issued[tokenId]
  {
  }

  lemma SignedTokenStaysOnRecord(cfg: Config, inputs: seq<Input>, t: TokenFields)
    requires FreshRun(inputs)
    requires TokenRecord(t) in SignedByFog(cfg, inputs)
    ensures TokenOnRecord(Run(cfg, inputs), t)
  {
    var j := TokenOrigin(cfg, inputs, t);
    RunKeeps(cfg, inputs[..j]);
    SentTokenOnRecord(cfg, Run(cfg, inputs[..j]), inputs[j]);
    RunStep(cfg, inputs, j);
    assert DrawnToken(inputs[j]) == Some(t.tokenId);
    OwnerStays(cfg, inputs, j + 1, t.tokenId);
    StatusNeverMovesDown(cfg, inputs, j + 1);
    RecordGrowsOnRecord(Run(cfg, inputs[..j + 1]).devices, Run(cfg, inputs).devices, t.did);
  }

  lemma RecordGrowsOnRecord(a: Devices, b: Devices, d: Bytes)
    requires DevicesGrow(a, b) && d in a && RoleFits(a[d])
    ensures d in b && b[d].publicKey == a[d].publicKey && b[d].metadata == a[d].metadata
  {
  }

  predicate AccessChecksPass(cfg: Config, st: FogState, i: Input)
    requires i.AccessInput? && i.token.TokenRecord?
  {
    var t := i.token.token;
    && i.now <= t.expiresAt && t.tokenId !in st.revokedTokens && !IsDeviceRevoked(st.devices, t.did)
    && i.signature.Some?
    && cfg.keys.crypto.verify(t.publicKey, AccessMessage(t.tokenId, t.did, i.nonce, i.resource, i.operation),
                              i.signature.value)
    && i.resource == t.deviceType && (i.operation == READ || i.operation == WRITE)
    && RoleMay(t.role, i.resource, i.operation)
  }

  lemma AccessAllowChecks(cfg: Config, st: FogState, i: Input)
    requires i.AccessInput? && Step(cfg, st, i).1 == Allow
    ensures i.token.TokenRecord? && AccessChecksPass(cfg, st, i)
    ensures TokenSignatureValid(cfg.keys.crypto, i.token, i.tokenSignature)
  {
    if i.token.TokenRecord? { PolicyByRole(i.token.token.role, i.resource, i.operation); }
  }

  /** Every ALLOW from /tokens/access: unless its fog signature is a forgery, the token is one this fog sent in this
      run, repeats the current record of its owner, and possession of its key was proven for its owner before;
      neither it nor its owner is revoked; its key signed exactly this request, which is a read or a write on the
      device's own type; and the nonce was sent for this token and leads to no other ALLOW. */
  lemma AccessAllowJustified(cfg: Config, inputs: seq<Input>, i: nat)
    requires FreshRun(inputs)
    requires i < |inputs| && inputs[i].AccessInput? && Answer(cfg, inputs, i) == Allow
    ensures inputs[i].token.TokenRecord? && AccessChecksPass(cfg, Run(cfg, inputs[..i]), inputs[i])
    ensures TokenNonceSent(cfg, inputs, i, inputs[i].token.token.tokenId, inputs[i].nonce, inputs[i].now)
    ensures NoOtherAllow(cfg, inputs, i)
    ensures inputs[i].tokenSignature.Some?
    ensures || (&& TokenOnRecord(Run(cfg, inputs[..i]), inputs[i].token.token)
                && ProvenBefore(cfg, inputs, i, inputs[i].token.token.did, inputs[i].token.token.publicKey))
            || Forged(cfg.keys.crypto, SignedByFog(cfg, inputs[..i]), inputs[i].token, inputs[i].tokenSignature.value)
  {
    var st := Run(cfg, inputs[..i]);
    AccessAllowChecks(cfg, st, inputs[i]);
    AllowUsesNonceAlone(cfg, inputs, i);
    var sent := AllowedNonceWasIssued(cfg, inputs, i);
    if inputs[i].token in SignedByFog(cfg, inputs[..i]) {
      FreshPrefix(inputs, i);
      SignedTokenStaysOnRecord(cfg, inputs[..i], inputs[i].token.token);
      RecordProvenBefore(cfg, inputs, i, inputs[i].token.token.did);
    }
  }

  lemma FreshPrefix(inputs: seq<Input>, n: nat)
    requires FreshRun(inputs) && n <= |inputs|
    ensures FreshRun(inputs[..n])
  {
  }

  // ---------- revoked devices, queued devices ----------

  /** In every reachable state the tokens of a revoked device are blacklisted, no device is both queued and
      registered, and each record answers to the DID derived from its key. */
  lemma StoresAgree(cfg: Config, inputs: seq<Input>)
    ensures var st := Run(cfg, inputs);
            && (forall t :: t in st.issued && IsDeviceRevoked(st.devices, st.issued[t]) ==> t in st.revokedTokens)
            && (forall d :: d in st.epochs.pending ==> d in st.devices && st.devices[d].status != Registered)
            && (forall d :: d in st.devices ==> d == DeriveDid(cfg.keys.crypto.hash, st.devices[d].publicKey))
            && OneSessionPerDid(st.sessions)
  {
    RunKeeps(cfg, inputs);
    var st := Run(cfg, inputs);
    assert forall d :: d in st.devices ==> DeviceOk(cfg.keys.crypto.hash, d, st.devices[d]);
  }

  /** Registration never overwrites a record: /pop inserts only what was absent. */
  lemma PopNeverOverwrites(cfg: Config, inputs: seq<Input>, i: Input)
    requires i.PopInput?
    ensures var answer := Step(cfg, Run(cfg, inputs), i).1; answer.KeyProven? ==>
            answer.did !in Run(cfg, inputs).devices
  {
    RunKeeps(cfg, inputs);
    ProvePossessionKeeps(cfg, Run(cfg, inputs), i);
  }

  /** A device that has proven its key and sends valid metadata in time is queued: `add_leaf` never raises. */
  lemma MetadataAlwaysQueues(cfg: Config, inputs: seq<Input>, i: Input)
    requires i.MetadataInput? && cfg.validMetadata(i.metadata)
    requires var found := Lookup(Run(cfg, inputs).sessions, cfg.sessionTtl, i.sid, i.now).1;
             found.Some? && found.value.state == PopVerified
    ensures Step(cfg, Run(cfg, inputs), i).1.QueuedForBatch?
  {
    RunKeeps(cfg, inputs);
    SubmitMetadataKeeps(cfg, Run(cfg, inputs), i);
  }

  /** Revocation is immediate and final: no later call with this DID, by package or by token, is allowed. */
  lemma RevokedNeverAllowed(cfg: Config, inputs: seq<Input>, n: nat, i: nat)
    requires n <= i < |inputs| && Readable(inputs[i])
    requires IsDeviceRevoked(Run(cfg, inputs[..n]).devices, RequestDid(inputs[i]))
    ensures Answer(cfg, inputs, i) != Allow
  {
    assert inputs[..i][..n] == inputs[..n];
    StatusNeverMovesDown(cfg, inputs[..i], n);
    RevokedIsDenied(cfg, Run(cfg, inputs[..i]), inputs[i]);
  }

  lemma RevokedIsDenied(cfg: Config, st: FogState, i: Input)
    requires Readable(i) && IsDeviceRevoked(st.devices, RequestDid(i))
    ensures Step(cfg, st, i).1 != Allow
  {
  }

  /** The blacklist of tokens only grows. */
  lemma BlacklistGrows(cfg: Config, st: FogState, i: Input)
    ensures st.revokedTokens <= Step(cfg, st, i).0.revokedTokens
  {
    if i.TokenNonceInput? || i.AccessInput? || i.VerifyNonceInput? || i.VerifyInput? {
      NonceStepsShape(cfg, st, i);
    } else if i.CloseInput? {
      CloseStep(cfg, st, i);
    }
  }

  lemma {:induction false} BlacklistedForGood(cfg: Config, inputs: seq<Input>, n: nat)
    requires n <= |inputs|
    ensures Run(cfg, inputs[..n]).revokedTokens <= Run(cfg, inputs).revokedTokens
    decreases |inputs|
  {
    if n == |inputs| {
      assert inputs[..n] == inputs;
    } else {
      var before := inputs[..|inputs| - 1];
      assert before[..n] == inputs[..n];
      BlacklistedForGood(cfg, before, n);
      BlacklistGrows(cfg, Run(cfg, before), inputs[|inputs| - 1]);
    }
  }

  /** So is the revocation of a single token: no later access with this token id is allowed. */
  lemma RevokedTokenNeverAllowed(cfg: Config, inputs: seq<Input>, n: nat, i: nat)
    requires n <= i < |inputs| && inputs[i].AccessInput? && inputs[i].token.TokenRecord?
    requires inputs[i].token.token.tokenId in Run(cfg, inputs[..n]).revokedTokens
    ensures Answer(cfg, inputs, i) != Allow
  {
    assert inputs[..i][..n] == inputs[..n];
    BlacklistedForGood(cfg, inputs[..i], n);
    BlacklistedIsDenied(cfg, Run(cfg, inputs[..i]), inputs[i]);
  }

  lemma BlacklistedIsDenied(cfg: Config, st: FogState, i: Input)
    requires i.AccessInput? && i.token.TokenRecord? && i.token.token.tokenId in st.revokedTokens
    ensures AccessToken(cfg, st, i).1 != Allow
  {
  }

  /** What the present says about a request: signed by the key on record, registered, and permitted. */
  predicate PresentPermits(cfg: Config, st: FogState, i: Input)
    requires i.VerifyInput? && i.raw.Parsed?
  {
    var pkg := i.raw.pkg;
    pkg.did in st.devices &&
    var record := st.devices[pkg.did];
    && cfg.keys.crypto.verify(record.publicKey, VerifyMessage(pkg.did, pkg.epochId, i.nonce, i.resource, i.operation),
                              i.signature.GetOr([]))
    && record.status == Registered && DescribedFor(record, i.resource, i.operation)
  }

  ghost predicate WasIssued(st: FogState, pkg: ProofPackage) {
    pkg.epochId in st.epochs.packages && pkg.did in st.epochs.packages[pkg.epochId]
    && pkg == st.epochs.packages[pkg.epochId][pkg.did]
  }

  /** With a clock that never goes back, a package that the fog ever issued, whatever its epoch, gets exactly the
      decision that the history of its nonce and the present call for. */
  lemma IssuedPackageDecides(cfg: Config, inputs: seq<Input>, i: nat)
    requires SignatureCorrect(cfg.keys.crypto) && FreshRun(inputs) && ClockNeverGoesBack(Ops(cfg, inputs))
    requires i < |inputs| && inputs[i].VerifyInput? && inputs[i].raw.Parsed?
    requires WasIssued(Run(cfg, inputs[..i]), inputs[i].raw.pkg)
    ensures OpIndex(cfg, inputs, i) < |Ops(cfg, inputs)|
    ensures Answer(cfg, inputs, i) == Allow <==>
              LogAccepts(cfg.nonceTtl, Ops(cfg, inputs), OpIndex(cfg, inputs, i))
                && PresentPermits(cfg, Run(cfg, inputs[..i]), inputs[i])
  {
    IssuedIsAccepted(cfg, inputs[..i], inputs[i].raw.pkg);
    NonceCheckIsExact(cfg, inputs, i);
    AcceptedPackageDecides(cfg, Run(cfg, inputs[..i]), inputs[i]);
  }

  lemma IssuedIsAccepted(cfg: Config, inputs: seq<Input>, pkg: ProofPackage)
    requires SignatureCorrect(cfg.keys.crypto) && WasIssued(Run(cfg, inputs), pkg)
    ensures pkg.did in Run(cfg, inputs).devices && pkg.publicKey == Some(Run(cfg, inputs).devices[pkg.did].publicKey)
    ensures VerifyPackage(cfg.keys.crypto, pkg, CachedRoot(Run(cfg, inputs).ledger, pkg.epochId)) == Accepted
  {
    var st, e := Run(cfg, inputs), pkg.epochId;
    RunKeeps(cfg, inputs);
    assert KeysOnRecord(st.devices, st.epochs.packages[e]);
    CommittedPackageAccepted(cfg.keys, e, st.epochs.packages[e], st.ledger.rootCache[e], pkg.did);
  }

  lemma AcceptedPackageDecides(cfg: Config, st: FogState, i: Input)
    requires i.VerifyInput? && i.raw.Parsed? && i.raw.pkg.did in st.devices
    requires i.raw.pkg.publicKey == Some(st.devices[i.raw.pkg.did].publicKey)
    requires VerifyPackage(cfg.keys.crypto, i.raw.pkg, CachedRoot(st.ledger, i.raw.pkg.epochId)) == Accepted
    ensures Step(cfg, st, i).1 == Allow <==>
              Consumed(st.nonces, VERIFY_NONCE_PURPOSE, i.raw.pkg.did, i.nonce, i.now).1 == NonceOk
                && PresentPermits(cfg, st, i)
  {
    DescribedExactly(st.devices[i.raw.pkg.did], i.resource, i.operation);
  }

  // ---------- one signature, one decision ----------

  /** A request that carries a readable package or a token. */
  predicate Readable(i: Input) {
    (i.VerifyInput? && i.raw.Parsed?) || (i.AccessInput? && i.token.TokenRecord?)
  }

  function RequestDid(i: Input): Bytes
    requires Readable(i)
  {
    if i.VerifyInput? then i.raw.pkg.did else i.token.token.did
  }

  /** The exact bytes whose signature a request presents. */
  function SignedMessage(i: Input): Bytes
    requires Readable(i)
  {
    if i.VerifyInput? then VerifyMessage(i.raw.pkg.did, i.raw.pkg.epochId, i.nonce, i.resource, i.operation)
    else AccessMessage(i.token.token.tokenId, i.token.token.did, i.nonce, i.resource, i.operation)
  }

  predicate FieldsSeparate(i: Input)
    requires Readable(i)
  {
    SeparatorFree(if i.VerifyInput? then [i.raw.pkg.did, i.nonce, i.resource, i.operation]
                  else [i.token.token.tokenId, i.token.token.did, i.nonce, i.resource, i.operation])
  }

  ghost predicate ForgedToken(cfg: Config, inputs: seq<Input>, i: nat)
    requires i < |inputs|
  {
    inputs[i].AccessInput? && inputs[i].tokenSignature.Some?
    && Forged(cfg.keys.crypto, SignedByFog(cfg, inputs[..i]), inputs[i].token, inputs[i].tokenSignature.value)
  }

  lemma {:induction false} IssuedWasDrawn(cfg: Config, inputs: seq<Input>, t: Bytes)
    requires FreshRun(inputs) && t in Run(cfg, inputs).issued
    ensures SEPARATOR !in t
  {
    if inputs != [] {
      var n := |inputs| - 1;
      if t in Run(cfg, inputs[..n]).issued {
        FreshPrefix(inputs, n);
        IssuedWasDrawn(cfg, inputs[..n], t);
      } else {
        NewlyIssuedIsDrawn(cfg, Run(cfg, inputs[..n]), inputs[n], t);
      }
    }
  }

  lemma NewlyIssuedIsDrawn(cfg: Config, st: FogState, i: Input, t: Bytes)
    requires t in Step(cfg, st, i).0.issued && t !in st.issued
    ensures DrawnToken(i) == Some(t)
  {
  }

  lemma VerifyFieldsSeparate(cfg: Config, st: FogState, i: Input)
    requires OnboardingInv(cfg, st) && i.VerifyInput? && Step(cfg, st, i).1 == Allow && SEPARATOR !in i.nonce
    ensures Readable(i) && FieldsSeparate(i)
  {
    VerifyAllowChecks(cfg, st, i);
    DidSeparates(cfg, st, i.raw.pkg.did);
    DescribedExactly(st.devices[i.raw.pkg.did], i.resource, i.operation);
    AllowedNamesHaveNoSeparator(i.resource, i.operation, st.devices[i.raw.pkg.did].metadata.value.role);
  }

  lemma AccessFieldsSeparate(cfg: Config, st: FogState, i: Input)
    requires OnboardingInv(cfg, st) && i.AccessInput? && i.token.TokenRecord? && AccessChecksPass(cfg, st, i)
    requires SEPARATOR !in i.nonce && SEPARATOR !in i.token.token.tokenId && i.token.token.did in st.devices
    ensures FieldsSeparate(i)
  {
    DidSeparates(cfg, st, i.token.token.did);
    PolicyByRole(i.token.token.role, i.resource, i.operation);
    AllowedNamesHaveNoSeparator(i.resource, i.operation, i.token.token.role);
  }

  /** The fields of an allowed request contain no separator. */
  lemma AllowedFieldsSeparate(cfg: Config, inputs: seq<Input>, i: nat)
    requires FreshRun(inputs)
    requires i < |inputs| && Answer(cfg, inputs, i) == Allow && !ForgedToken(cfg, inputs, i)
    ensures Readable(inputs[i]) && FieldsSeparate(inputs[i])
  {
    AllowAcceptsNonce(cfg, inputs, i);
    var sent := AllowedNonceWasIssued(cfg, inputs, i);
    RunKeeps(cfg, inputs[..i]);
    if inputs[i].VerifyInput? {
      VerifyFieldsSeparate(cfg, Run(cfg, inputs[..i]), inputs[i]);
    } else {
      AccessAllowJustified(cfg, inputs, i);
      FreshPrefix(inputs, i);
      IssuedWasDrawn(cfg, inputs[..i], inputs[i].token.token.tokenId);
      AccessFieldsSeparate(cfg, Run(cfg, inputs[..i]), inputs[i]);
    }
  }

  lemma DidSeparates(cfg: Config, st: FogState, d: Bytes)
    requires OnboardingInv(cfg, st) && d in st.devices
    ensures SEPARATOR !in d
  {
    assert DeviceOk(cfg.keys.crypto.hash, d, st.devices[d]);
  }

  /** No signature is good for two decisions: two different ALLOWs of a run are never for the same signed bytes,
      within one endpoint or across the two, unless one of them rests on a forged token. */
  lemma OneSignatureOneAllow(cfg: Config, inputs: seq<Input>, i: nat, j: nat)
    requires FreshRun(inputs) && i < j < |inputs|
    requires Answer(cfg, inputs, i) == Allow && Answer(cfg, inputs, j) == Allow
    requires !ForgedToken(cfg, inputs, i) && !ForgedToken(cfg, inputs, j)
    ensures Readable(inputs[i]) && Readable(inputs[j])
    ensures SignedMessage(inputs[i]) != SignedMessage(inputs[j])
  {
    AllowedFieldsSeparate(cfg, inputs, i);
    AllowedFieldsSeparate(cfg, inputs, j);
    NonceAllowsOnce(cfg, inputs, i, j);
    MessagesBindNonce(inputs[i], inputs[j]);
  }

  lemma MessagesBindNonce(a: Input, b: Input)
    requires Readable(a) && Readable(b) && FieldsSeparate(a) && FieldsSeparate(b)
    ensures SignedMessage(a) == SignedMessage(b) ==> a.nonce == b.nonce
  {
    if SignedMessage(a) != SignedMessage(b) {
    } else if a.VerifyInput? && b.VerifyInput? {
      NoNumberInside(a.raw.pkg.did);
      VerifyMessageInjective(a.raw.pkg.did, a.raw.pkg.epochId, a.nonce, a.resource, a.operation,
                             b.raw.pkg.did, b.raw.pkg.epochId, b.nonce, b.resource, b.operation);
    } else if a.AccessInput? && b.AccessInput? {
      AccessMessageInjective(a.token.token.tokenId, a.token.token.did, a.nonce, a.resource, a.operation,
                             b.token.token.tokenId, b.token.token.did, b.nonce, b.resource, b.operation);
    } else {
      var v, t := if a.VerifyInput? then a else b, if a.VerifyInput? then b else a;
      MessagesDisjoint([], [], t.token.token.tokenId, t.token.token.did, t.nonce, t.resource, t.operation,
                       v.raw.pkg.did, v.raw.pkg.epochId, v.nonce, v.resource, v.operation);
    }
  }
}
