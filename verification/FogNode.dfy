/** The fog node as objects: each endpoint is a method that works on the stores in place, proved
    against the step functions of FogState.dfy. */
module FogNodes {
  import opened Basics
  import opened Canonical
  import opened Signing
  import opened Messages
  import opened Policy
  import opened ProofPackages
  import opened Ledgers
  import opened Nonces
  import opened Epochs
  import opened FogState
  import opened Stores
  import opened EpochManagers
  import Spec = FogState

  lemma WrittenTwice(devices: Devices, did: Bytes, first: Device, second: Device)
    ensures devices[did := first][did := second] == devices[did := second]
  {
  }

  class FogNode {
    const cfg: Config
    const sessions: SessionStore
    const devices: DeviceStore
    const ledger: Ledger
    const epochs: EpochManager
    const tokens: TokenState

    /** Empty stores and an empty ledger. */
    constructor (cfg: Config)
      ensures this.cfg == cfg && Valid() && State() == Spec.INITIAL
      ensures fresh(sessions) && fresh(devices) && fresh(ledger) && fresh(epochs) && fresh(tokens)
      ensures fresh(tokens.nonces)
      ensures sessions.sessions == map[] && devices.devices == map[]
    {
      this.cfg := cfg;
      sessions := new SessionStore(cfg.sessionTtl);
      var devs := new DeviceStore();
      var chain := new Ledger(cfg.keys.crypto, cfg.keys.fogId, []);
      devices := devs;
      ledger := chain;
      epochs := new EpochManager(cfg.keys, chain, devs);
      tokens := new TokenState(cfg.nonceTtl);
    }

    ghost predicate Valid()
      reads sessions, devices
    {
      && sessions.Valid() && sessions.ttl == cfg.sessionTtl
      && devices.Valid()
      && epochs.keys == cfg.keys && epochs.ledger == ledger && epochs.devices == devices
      && ledger.crypto == cfg.keys.crypto && ledger.fogId == cfg.keys.fogId
      && tokens.nonces.ttl == cfg.nonceTtl
    }

    ghost function State(): Spec.FogState
      reads sessions, sessions.sessions.Values, devices, devices.devices.Values, epochs, ledger, tokens, tokens.nonces
    {
      Spec.FogState(sessions.View(), devices.View(), epochs.State(), ledger.State(),
                    tokens.issued, tokens.revokedTokenIds, tokens.nonces.entries)
    }

    // ---------- what a handler leaves alone ----------

    /** Everything but the sessions. */
    twostate predicate OthersUnchanged()
      reads devices, devices.devices.Values, epochs, ledger, tokens, tokens.nonces
    {
      && unchanged(devices) && (forall d :: d in devices.devices ==> unchanged(devices.devices[d]))
      && unchanged(epochs) && unchanged(ledger) && unchanged(tokens) && unchanged(tokens.nonces)
    }

    twostate lemma OnlySessionsChanged()
      requires OthersUnchanged()
      ensures State() == old(State()).(sessions := sessions.View())
    {
      devices.SameView();
    }

    twostate lemma OnlyEpochsChanged()
      requires unchanged(sessions) && (forall a :: a in sessions.sessions ==> unchanged(sessions.sessions[a]))
      requires unchanged(devices) && (forall d :: d in devices.devices ==> unchanged(devices.devices[d]))
      requires unchanged(ledger) && unchanged(tokens) && unchanged(tokens.nonces)
      ensures State() == old(State()).(epochs := epochs.State())
    {
      sessions.SameView();
      devices.SameView();
    }

    twostate lemma OnlyTokensChanged()
      requires unchanged(sessions) && (forall a :: a in sessions.sessions ==> unchanged(sessions.sessions[a]))
      requires unchanged(devices) && (forall d :: d in devices.devices ==> unchanged(devices.devices[d]))
      requires unchanged(epochs) && unchanged(ledger)
      ensures State() == old(State()).(issued := tokens.issued, revokedTokens := tokens.revokedTokenIds,
                                       nonces := tokens.nonces.entries)
    {
      sessions.SameView();
      devices.SameView();
    }

    twostate lemma SameState()
      requires OthersUnchanged()
      requires unchanged(sessions) && (forall a :: a in sessions.sessions ==> unchanged(sessions.sessions[a]))
      ensures State() == old(State())
    {
      sessions.SameView();
      devices.SameView();
    }

    twostate lemma OnlyDevicesChanged()
      requires unchanged(sessions) && (forall a :: a in sessions.sessions ==> unchanged(sessions.sessions[a]))
      requires unchanged(epochs) && unchanged(ledger) && unchanged(tokens) && unchanged(tokens.nonces)
      ensures State() == old(State()).(devices := devices.View())
    {
      sessions.SameView();
    }

    // ---------- registration (fog/registration/routes.py) ----------

    method RegisterStart(i: Input) returns (answer: Response)
      requires Valid() && i.StartInput?
      modifies sessions
      ensures Valid() && (State(), answer) == Start(cfg, old(State()), i)
      ensures fresh(sessions.sessions.Values - old(sessions.sessions.Values))
    {
      if !i.pskAccepted {
        return Refused(401);
      }
      var s := sessions.Create(i.sid, i.now);
      OnlySessionsChanged();
      answer := SessionOpened(i.sid);
    }

    method FindSession(sid: Bytes, now: Time) returns (s: SessionObject?)
      requires Valid()
      modifies sessions
      ensures Valid() && State() == old(State()).(sessions := Lookup(old(sessions.View()), cfg.sessionTtl, sid, now).0)
      ensures s == null ==> Lookup(old(sessions.View()), cfg.sessionTtl, sid, now).1.None?
      ensures s != null ==> Holds(sid, s) && sessions.sessions == old(sessions.sessions)
      ensures s != null ==> Lookup(old(sessions.View()), cfg.sessionTtl, sid, now).1 == Some(s.Value())
      ensures sessions.sessions.Values <= old(sessions.sessions.Values)
    {
      s := sessions.Get(sid, now);
      OnlySessionsChanged();
    }

    predicate Holds(sid: Bytes, s: SessionObject)
      reads sessions
    {
      sid in sessions.sessions && sessions.sessions[sid] == s
    }

    method RegisterPubkey(i: Input) returns (answer: Response)
      requires Valid() && i.KeyInput?
      modifies sessions, sessions.sessions.Values
      ensures Valid() && (State(), answer) == SubmitKey(cfg, old(State()), i)
      ensures fresh(sessions.sessions.Values - old(sessions.sessions.Values))
    {
      var s := FindSession(i.sid, i.now);
      if s == null {
        return Refused(404);
      }
      var refusal := CheckKey(i, s, State());
      if refusal.Some? {
        return Refused(refusal.value);
      }
      ChallengeKey(i, s);
      answer := ChallengeSent(i.challenge);
    }

    /** The checks that come before the session is touched; `w` is the state of the node. */
    method CheckKey(i: Input, s: SessionObject, ghost w: Spec.FogState) returns (refusal: Option<int>)
      requires i.KeyInput? && w == State()
      requires Lookup(w.sessions, cfg.sessionTtl, i.sid, i.now) == (w.sessions, Some(s.Value()))
      ensures State() == w
      ensures refusal.Some? ==> SubmitKey(cfg, w, i) == (w, Refused(refusal.value))
      ensures var next := w.sessions[i.sid := KeyChallenged(cfg, s.Value(), i)];
              refusal.None? ==> SubmitKey(cfg, w, i) == (w.(sessions := next), ChallengeSent(i.challenge))
    {
      if s.state != Authenticated {
        return Some(409);
      }
      if i.publicKey.None? || |i.publicKey.value| != COMPRESSED_PK_LEN || !cfg.validPoint(i.publicKey.value) {
        return Some(400);
      }
      if i.did != DeriveDid(cfg.keys.crypto.hash, i.publicKey.value) {
        return Some(400);
      }
      var existing := devices.Get(i.did);
      var inUse := sessions.DidInUse(i.did, i.sid);
      SameState();
      refusal := if existing != null || inUse then Some(409) else None;
    }

    method ChallengeKey(i: Input, s: SessionObject)
      requires Valid() && i.KeyInput? && Holds(i.sid, s)
      modifies s
      ensures Valid()
      ensures State() == old(State()).(sessions := old(sessions.View())[i.sid := KeyChallenged(cfg, old(s.Value()), i)])
    {
      s.did := Some(i.did);
      s.publicKey := i.publicKey;
      s.IssueChallenge(i.challenge, cfg.challengeTtl, i.now);
      s.state := KeySubmitted;
      sessions.OneChanged(i.sid);
      OnlySessionsChanged();
    }

    method RegisterPop(i: Input) returns (answer: Response)
      requires Valid() && i.PopInput?
      modifies sessions, sessions.sessions.Values, devices
      ensures Valid() && (State(), answer) == ProvePossession(cfg, old(State()), i)
      ensures fresh(sessions.sessions.Values - old(sessions.sessions.Values))
      ensures fresh(devices.devices.Values - old(devices.devices.Values))
    {
      var s := FindSession(i.sid, i.now);
      if s == null {
        return Refused(404);
      }
      if s.state != KeySubmitted {
        return Refused(409);
      }
      answer := TryProof(i, s);
    }

    method TryProof(i: Input, s: SessionObject) returns (answer: Response)
      requires Valid() && i.PopInput? && Holds(i.sid, s)
      modifies s, devices
      ensures Valid() && (State(), answer) == AttemptProof(cfg, old(State()), i, old(s.Value()))
      ensures fresh(devices.devices.Values - old(devices.devices.Values))
    {
      var passed := ProveKey(i, s);
      if !passed {
        return Refused(403);
      }
      AddRecord(s.did.GetOr([]), s.publicKey.GetOr([]));
      answer := KeyProven(s.did.GetOr([]));
    }

    /** The attempt and the state it leaves the session in. */
    method ProveKey(i: Input, s: SessionObject) returns (passed: bool)
      requires Valid() && i.PopInput? && Holds(i.sid, s)
      modifies s
      ensures Valid()
      ensures var (session, ok) := Spec.VerifyPop(cfg.keys.crypto, old(s.Value()), i.signature, i.now);
              && passed == ok && s.Value() == session.(state := if ok then PopVerified else Authenticated)
              && State() == old(State()).(sessions := old(sessions.View())[i.sid := s.Value()])
    {
      passed := s.VerifyPop(cfg.keys.crypto, i.signature, i.now);
      s.state := if passed then PopVerified else Authenticated;
      sessions.OneChanged(i.sid);
      OnlySessionsChanged();
    }

    method AddRecord(did: Bytes, publicKey: Bytes)
      requires Valid()
      modifies devices
      ensures Valid()
      ensures State() == old(State()).(devices := old(devices.View())[did := Device(publicKey, Pending, None, None,
                                                                                    None)])
      ensures fresh(devices.devices.Values - old(devices.devices.Values))
    {
      var record := new DeviceObject(did, publicKey);
      devices.Upsert(record);
      OnlyDevicesChanged();
    }

    method RegisterMetadata(i: Input) returns (answer: Response)
      requires Valid() && i.MetadataInput?
      modifies sessions, sessions.sessions.Values, devices.devices.Values, epochs
      ensures Valid() && (State(), answer) == SubmitMetadata(cfg, old(State()), i)
      ensures fresh(sessions.sessions.Values - old(sessions.sessions.Values))
    {
      var s := FindSession(i.sid, i.now);
      if s == null {
        return Refused(404);
      }
      if s.state != PopVerified {
        return Refused(409);
      }
      if !cfg.validMetadata(i.metadata) {
        return Refused(422);
      }
      var record := devices.Get(s.did.GetOr([]));
      if record == null {
        return Crashed;
      }
      answer := QueueDevice(i, s, s.did.GetOr([]), State());
    }

    /** The metadata is on record before the leaf is queued. */
    method QueueDevice(i: Input, s: SessionObject, did: Bytes, ghost w: Spec.FogState) returns (answer: Response)
      requires Valid() && i.MetadataInput? && w == State() && Holds(i.sid, s) && did in devices.devices
      modifies s, devices.devices[did], epochs
      ensures Valid() && (State(), answer) == Annotated(cfg, w, i, old(s.Value()), did)
    {
      ghost var session, record := s.Value(), w.devices[did].(metadata := Some(i.metadata));
      WriteMetadata(did, i.metadata);
      var queued := QueueLeaf(did, s.publicKey.GetOr([]));
      if queued.Err? {
        return if queued.error == AlreadyQueued then Refused(409) else Crashed;
      }
      WriteLeaf(did, queued.value);
      assert s.Value() == session;
      AcceptSession(i.sid, s);
      WrittenTwice(w.devices, did, record, record.(leaf := Some(queued.value)));
      answer := QueuedForBatch(queued.value, epochs.current);
    }

    method WriteMetadata(did: Bytes, metadata: Metadata)
      requires Valid() && did in devices.devices
      modifies devices.devices[did]
      ensures Valid()
      ensures State() == old(State()).(
                devices := old(devices.View())[did := old(devices.View())[did].(metadata := Some(metadata))])
    {
      devices.devices[did].metadata := Some(metadata);
      devices.OneChanged(did);
      OnlyDevicesChanged();
    }

    method QueueLeaf(did: Bytes, publicKey: Bytes) returns (r: Result<Bytes, EpochError>)
      requires Valid()
      modifies epochs
      ensures Valid()
      ensures match Queue(cfg.keys.crypto.hash, old(epochs.pending), Identity(did, publicKey))
              case Ok(queued) => r == Ok(queued[did].leaf)
                                 && State() == old(State()).(epochs := old(State().epochs).(pending := queued))
              case Err(e) => r == Err(e) && State() == old(State())
    {
      r := epochs.AddLeaf(did, publicKey);
      OnlyEpochsChanged();
    }

    method WriteLeaf(did: Bytes, leaf: Bytes)
      requires Valid() && did in devices.devices
      modifies devices.devices[did]
      ensures Valid()
      ensures State() == old(State()).(
                devices := old(devices.View())[did := old(devices.View())[did].(leaf := Some(leaf))])
    {
      devices.devices[did].leaf := Some(leaf);
      devices.OneChanged(did);
      OnlyDevicesChanged();
    }

    method AcceptSession(sid: Bytes, s: SessionObject)
      requires Valid() && Holds(sid, s)
      modifies s
      ensures Valid()
      ensures State() == old(State()).(
                sessions := old(sessions.View())[sid := old(s.Value()).(state := MetadataAccepted)])
    {
      s.state := MetadataAccepted;
      sessions.OneChanged(sid);
      OnlySessionsChanged();
    }

    // ---------- closing an epoch (fog/batch/routes.py) ----------

    method EpochClose(i: Input) returns (answer: Response)
      requires Valid() && i.CloseInput?
      modifies epochs, ledger, devices.devices.Values
      ensures Valid() && (State(), answer) == CloseEpoch(cfg, old(State()), i)
    {
      if !i.isAdmin {
        return Refused(401);
      }
      var r := epochs.FinalizeEpoch(i.exclude, i.timestamp);
      sessions.SameView();
      match r
      case Err(EmptyBatch) => answer := Refused(409);
      case Err(_) => answer := Crashed;
      case Ok(result) => answer := EpochClosed(result);
    }

    // ---------- provisional tokens (fog/tokens/routes.py) ----------

    method TokensIssue(i: Input) returns (answer: Response)
      requires Valid() && i.TokenInput?
      modifies sessions, devices.devices.Values, tokens
      ensures Valid() && (State(), answer) == IssueToken(cfg, old(State()), i)
      ensures fresh(sessions.sessions.Values - old(sessions.sessions.Values))
    {
      var s := FindSession(i.sid, i.now);
      if s == null {
        return Refused(404);
      }
      if s.state != MetadataAccepted {
        return Refused(409);
      }
      var record := devices.Get(s.did.GetOr([]));
      if record == null {
        return Refused(404);
      }
      answer := IssueTo(i, s.did.GetOr([]));
    }

    method IssueTo(i: Input, did: Bytes) returns (answer: Response)
      requires Valid() && i.TokenInput? && did in devices.devices
      modifies devices.devices.Values, tokens
      ensures Valid() && (State(), answer) == GrantToken(cfg, old(State()), i, did)
    {
      var record := devices.devices[did];
      assert State().devices[did] == record.Value();
      if record.status == Revoked {
        return Refused(403);
      }
      if record.status == Registered {
        return Refused(409);
      }
      if !RoleFits(record.Value()) {
        return Refused(403);
      }
      var token := TokenFields(i.tokenId, did, record.publicKey, record.metadata.value.deviceType,
                               record.metadata.value.role,
                               epochs.current, i.now, i.now + cfg.tokenTtl);
      RecordToken(i.tokenId, did);
      answer := TokenSent(token, SignRecord(cfg.keys.crypto, TokenRecord(token)));
    }

    method RecordToken(tokenId: Bytes, did: Bytes)
      requires Valid() && did in devices.devices
      modifies devices.devices.Values, tokens
      ensures Valid()
      ensures State() == old(State()).(
                issued := old(tokens.issued)[tokenId := did],
                devices := old(devices.View())[did := old(devices.View())[did].(status := Tokenized)])
    {
      tokens.RecordIssued(tokenId, did);
      OnlyTokensChanged();
      label recorded:
      devices.SetStatus(did, Tokenized);
      OnlyDevicesChanged@recorded();
    }

    method TokensNonce(i: Input) returns (answer: Response)
      requires Valid() && i.TokenNonceInput?
      modifies tokens.nonces
      ensures Valid() && (State(), answer) == TokenNonce(cfg, old(State()), i)
    {
      if i.tokenId !in tokens.issued {
        return Refused(404);
      }
      var nonce := tokens.nonces.Issue(TOKEN_NONCE_PURPOSE, i.tokenId, i.nonce, i.now);
      OnlyTokensChanged();
      answer := NonceSent(nonce);
    }

    method TokensAccess(i: Input) returns (answer: Response)
      requires Valid() && i.AccessInput?
      modifies tokens.nonces
      ensures Valid() && (State(), answer) == AccessToken(cfg, old(State()), i)
    {
      var c := cfg.keys.crypto;
      if !TokenSignatureValid(c, i.token, i.tokenSignature) {
        return Deny(BadTokenSignature);
      }
      if !i.token.TokenRecord? {
        return Crashed;
      }
      var t := i.token.token;
      if i.now > t.expiresAt {
        return Deny(TokenExpired);
      }
      var status := tokens.nonces.Consume(TOKEN_NONCE_PURPOSE, t.tokenId, i.nonce, i.now);
      OnlyTokensChanged();
      if status != NonceOk {
        return Deny(NonceRejected(status));
      }
      var record := devices.Get(t.did);
      assert record != null ==> State().devices[t.did] == record.Value();
      if t.tokenId in tokens.revokedTokenIds || (record != null && record.status == Revoked) {
        return Deny(RevokedNow);
      }
      if i.signature.None?
         || !c.verify(t.publicKey, AccessMessage(t.tokenId, t.did, i.nonce, i.resource, i.operation),
                      i.signature.value) {
        return Deny(PossessionFailed);
      }
      if !ProvisionalAllowed(t.deviceType, i.resource, i.operation) {
        return Deny(ProvisionalScope);
      }
      if !CheckPolicy(i.resource, i.operation, t.role) {
        return Deny(PolicyDenied);
      }
      answer := Allow;
    }

    // ---------- verification (fog/verification/routes.py) ----------

    method IssueVerifyNonce(i: Input) returns (answer: Response)
      requires Valid() && i.VerifyNonceInput?
      modifies tokens.nonces
      ensures Valid() && (State(), answer) == VerifyNonce(cfg, old(State()), i)
    {
      var known := devices.Get(i.did);
      if known == null {
        return Refused(404);
      }
      var nonce := tokens.nonces.Issue(VERIFY_NONCE_PURPOSE, i.did, i.nonce, i.now);
      OnlyTokensChanged();
      answer := NonceSent(nonce);
    }

    method VerifyAndAuthorize(i: Input) returns (answer: Response)
      requires Valid() && i.VerifyInput?
      modifies tokens.nonces
      ensures Valid() && (State(), answer) == Verify(cfg, old(State()), i)
    {
      var status := tokens.nonces.Consume(VERIFY_NONCE_PURPOSE, ClaimedDid(i.raw), i.nonce, i.now);
      OnlyTokensChanged();
      if status != NonceOk {
        return Deny(NonceRejected(status));
      }
      if i.raw.Unparsable? {
        return Deny(MalformedPackage);
      }
      ghost var w := State();
      label consumed:
      answer := Decide(i, i.raw.pkg, w);
      SameState@consumed();
    }

    /** The checks after the nonce; they change nothing. */
    method Decide(i: Input, pkg: ProofPackage, ghost w: Spec.FogState) returns (answer: Response)
      requires Valid() && i.VerifyInput? && w == State()
      ensures answer == Authorize(cfg, w, pkg, i.nonce, i.resource, i.operation, i.signature)
    {
      var c := cfg.keys.crypto;
      var trusted := ledger.GetRoot(pkg.epochId);
      var verdict := VerifyPackage(c, pkg, trusted);
      if verdict == Raised {
        return Deny(MalformedPackage);
      }
      if verdict != Accepted {
        return Deny(ProofRejected(verdict));
      }
      var message := VerifyMessage(pkg.did, pkg.epochId, i.nonce, i.resource, i.operation);
      if !c.verify(pkg.publicKey.GetOr([]), message, i.signature.GetOr([])) {
        return Deny(PossessionFailed);
      }
      answer := Standing(i, pkg.did, w.devices);
    }

    method Standing(i: Input, did: Bytes, ghost view: Devices) returns (answer: Response)
      requires Valid() && i.VerifyInput? && view == devices.View()
      ensures answer == CurrentStanding(view, did, i.resource, i.operation)
    {
      var record := devices.Get(did);
      if record == null {
        return Deny(UnknownDevice);
      }
      assert view[did] == record.Value();
      if record.status == Revoked {
        return Deny(DeviceRevoked);
      }
      if record.status != Registered {
        return Deny(NotRegistered);
      }
      if !RoleFits(record.Value()) {
        return Deny(RoleTypeMismatch);
      }
      answer := if CheckPolicy(i.resource, i.operation, record.metadata.value.role) then Allow else Deny(PolicyDenied);
    }

    // ---------- revocation (fog/revocation/routes.py, fog/revocation/registry.py) ----------

    method RevokeRequest(i: Input) returns (answer: Response)
      requires Valid() && i.RevokeInput?
      modifies devices.devices.Values, tokens
      ensures Valid() && (State(), answer) == Revoke(cfg, old(State()), i)
    {
      if !i.isAdmin {
        return Refused(401);
      }
      if i.tokenOnly {
        answer := RevokeOneToken(i);
        return;
      }
      var known := RevokeDevice(i.did);
      if !known {
        return Refused(404);
      }
      assert tokens.revokedTokenIds + {} == tokens.revokedTokenIds;
      if i.revokedId.GetOr([]) != [] {
        BlacklistToken(i.revokedId.value);
      }
      assert tokens.issued == old(State()).issued;
      var revoked := tokens.TokensOf(i.did);
      answer := RevocationDone(revoked);
    }

    method RevokeOneToken(i: Input) returns (answer: Response)
      requires Valid() && i.RevokeInput? && i.isAdmin && i.tokenOnly
      modifies tokens
      ensures Valid() && (State(), answer) == Revoke(cfg, old(State()), i)
    {
      if i.revokedId.GetOr([]) == [] {
        return Refused(422);
      }
      var tokenId := i.revokedId.value;
      if tokenId !in tokens.issued || tokens.issued[tokenId] != i.did {
        return Refused(404);
      }
      BlacklistToken(tokenId);
      answer := if i.did in devices.devices then RevocationDone({tokenId}) else Crashed;
    }

    method BlacklistToken(tokenId: Bytes)
      requires Valid()
      modifies tokens
      ensures Valid() && State() == old(State()).(revokedTokens := old(tokens.revokedTokenIds) + {tokenId})
      ensures tokens.issued == old(tokens.issued)
    {
      tokens.RevokeToken(tokenId);
      OnlyTokensChanged();
    }

    /** Every token of the device is blacklisted with it; an unknown device changes nothing. */
    method RevokeDevice(did: Bytes) returns (known: bool)
      requires Valid()
      modifies devices.devices.Values, tokens
      ensures Valid() && known == (did in old(devices.View()))
      ensures State() == if known then DeviceRevokedIn(old(State()), did) else old(State())
    {
      known := did in devices.devices;
      if known {
        devices.SetStatus(did, Revoked);
        OnlyDevicesChanged();
        label marked:
        RevokeTokensOf(did);
        OnlyTokensChanged@marked();
      }
    }

    method RevokeTokensOf(did: Bytes)
      modifies tokens`revokedTokenIds
      ensures tokens.revokedTokenIds == old(tokens.revokedTokenIds) + Spec.TokensOf(tokens.issued, did)
    {
      var todo := tokens.TokensOf(did);
      while todo != {}
        invariant tokens.issued == old(tokens.issued) && todo <= Spec.TokensOf(tokens.issued, did)
        invariant tokens.revokedTokenIds + todo == old(tokens.revokedTokenIds) + Spec.TokensOf(tokens.issued, did)
        decreases todo
      {
        var t :| t in todo;
        tokens.RevokeToken(t);
        todo := todo - {t};
      }
    }

    // ---------- one entry point ----------

    /** Every endpoint call takes the objects exactly where the state machine goes. */
    method Handle(i: Input) returns (answer: Response)
      requires Valid()
      modifies sessions, sessions.sessions.Values, devices, devices.devices.Values, epochs, ledger, tokens,
        tokens.nonces
      ensures Valid() && (State(), answer) == Step(cfg, old(State()), i)
      ensures fresh(sessions.sessions.Values - old(sessions.sessions.Values))
      ensures fresh(devices.devices.Values - old(devices.devices.Values))
    {
      if i.StartInput? || i.KeyInput? || i.PopInput? || i.MetadataInput? {
        answer := RouteRegistration(i);
      } else if i.VerifyNonceInput? || i.VerifyInput? {
        answer := RouteVerification(i);
      } else if i.TokenInput? || i.TokenNonceInput? || i.AccessInput? {
        answer := RouteTokens(i);
      } else if i.CloseInput? {
        answer := EpochClose(i);
      } else {
        answer := RevokeRequest(i);
      }
    }

    method RouteRegistration(i: Input) returns (answer: Response)
      requires Valid() && (i.StartInput? || i.KeyInput? || i.PopInput? || i.MetadataInput?)
      modifies sessions, sessions.sessions.Values, devices, devices.devices.Values, epochs
      ensures Valid() && (State(), answer) == Step(cfg, old(State()), i)
      ensures fresh(sessions.sessions.Values - old(sessions.sessions.Values))
      ensures fresh(devices.devices.Values - old(devices.devices.Values))
    {
      match i
      case StartInput(_, _, _) => answer := RegisterStart(i);
      case KeyInput(_, _, _, _, _) => answer := RegisterPubkey(i);
      case PopInput(_, _, _) => answer := RegisterPop(i);
      case MetadataInput(_, _, _) => answer := RegisterMetadata(i);
    }

    method RouteTokens(i: Input) returns (answer: Response)
      requires Valid() && (i.TokenInput? || i.TokenNonceInput? || i.AccessInput?)
      modifies sessions, devices.devices.Values, tokens, tokens.nonces
      ensures Valid() && (State(), answer) == Step(cfg, old(State()), i)
      ensures fresh(sessions.sessions.Values - old(sessions.sessions.Values))
    {
      match i
      case TokenInput(_, _, _) => answer := TokensIssue(i);
      case TokenNonceInput(_, _, _) => answer := TokensNonce(i);
      case AccessInput(_, _, _, _, _, _, _) => answer := TokensAccess(i);
    }

    method RouteVerification(i: Input) returns (answer: Response)
      requires Valid() && (i.VerifyNonceInput? || i.VerifyInput?)
      modifies tokens.nonces
      ensures Valid() && (State(), answer) == Step(cfg, old(State()), i)
    {
      match i
      case VerifyNonceInput(_, _, _) => answer := IssueVerifyNonce(i);
      case VerifyInput(_, _, _, _, _, _) => answer := VerifyAndAuthorize(i);
    }
  }

  /** A node serves one call after another: it goes through the states of the run and gives its answers. */
  method ServeAll(cfg: Config, inputs: seq<Input>) returns (node: FogNode, answers: seq<Response>)
    ensures fresh(node) && node.cfg == cfg && node.Valid() && node.State() == Run(cfg, inputs)
    ensures |answers| == |inputs| && forall i :: 0 <= i < |inputs| ==> answers[i] == Answer(cfg, inputs, i)
  {
    node := new FogNode(cfg);
    answers := [];
    for i := 0 to |inputs|
      invariant fresh(node) && fresh(node.sessions) && fresh(node.devices) && fresh(node.ledger) && fresh(node.epochs)
      invariant fresh(node.tokens) && fresh(node.tokens.nonces)
      invariant fresh(node.sessions.sessions.Values) && fresh(node.devices.devices.Values)
      invariant node.cfg == cfg && node.Valid() && node.State() == Run(cfg, inputs[..i])
      invariant |answers| == i && forall k :: 0 <= k < i ==> answers[k] == Answer(cfg, inputs, k)
    {
      RunStep(cfg, inputs, i);
      var answer := node.Handle(inputs[i]);
      answers := answers + [answer];
    }
    assert inputs[..|inputs|] == inputs;
  }
}
