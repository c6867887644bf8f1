/** The fog node as a state machine: each endpoint call is one atomic step. The clock reading, the
    random values drawn by the call and the outcome of the key checks of the caller (PSK, admin key)
    come with the input. The stores are plain values here; FogNode.dfy holds the objects. */
module FogState {
  import opened Basics
  import opened Canonical
  import opened Signing
  import opened Messages
  import opened Policy
  import opened ProofPackages
  import opened Ledgers
  import opened Nonces
  import opened Epochs

  // ---------- registration sessions (fog/storage/device_store.py) ----------

  datatype SessionState = Authenticated | KeySubmitted | PopVerified | MetadataAccepted

  datatype Session = Session(createdAt: Time, state: SessionState, did: Option<Bytes>, publicKey: Option<Bytes>,
                             challenge: Option<Digest>, challengeExpires: Time, challengeUsed: bool)

  type Sessions = map<Bytes, Session>

  /** A session that has expired is deleted by the lookup that finds it. */
  function Lookup(sessions: Sessions, ttl: Time, sid: Bytes, now: Time): (Sessions, Option<Session>) {
    if sid !in sessions then (sessions, None)
    else if now > sessions[sid].createdAt + ttl then (sessions - {sid}, None)
    else (sessions, Some(sessions[sid]))
  }

  predicate DidInUse(sessions: Sessions, did: Bytes, exceptSid: Bytes) {
    exists sid :: sid in sessions && sid != exceptSid && sessions[sid].did == Some(did)
      && sessions[sid].state != Authenticated
  }

  // ---------- proof of possession (fog/registration/pop.py) ----------

  function WithChallenge(s: Session, challenge: Digest, ttl: Time, now: Time): Session {
    s.(challenge := Some(challenge), challengeExpires := now + ttl, challengeUsed := false)
  }

  /** The session afterwards and whether possession is proven; a challenge is consumed by any attempt. */
  function VerifyPop(c: Crypto, s: Session, signature: Option<Bytes>, now: Time): (Session, bool) {
    if s.challenge.None? || s.challengeUsed then (s, false)
    else
      var used := s.(challengeUsed := true);
      if now > s.challengeExpires || signature.None? then (used, false)
      else (used, c.verify(s.publicKey.GetOr([]), PopMessage(s.challenge.value, s.did.GetOr([])), signature.value))
  }

  // ---------- the whole state ----------

  datatype Config = Config(keys: FogKeys, sessionTtl: Time, challengeTtl: Time, nonceTtl: Time, tokenTtl: Time,
                           validPoint: Bytes -> bool, validMetadata: Metadata -> bool)

  datatype FogState = FogState(sessions: Sessions, devices: Devices, epochs: EpochState, ledger: LedgerState,
                               issued: map<Bytes, Bytes>, revokedTokens: set<Bytes>, nonces: Book)

  /** An empty ledger and empty stores: epoch numbering starts at 1. */
  const INITIAL := FogState(map[], map[], EpochState(1, map[], map[], map[], {}), LedgerState([], map[]), map[], {},
                            map[])

  /** "token_access" and "verify_access" */
  const TOKEN_NONCE_PURPOSE: Bytes := [116, 111, 107, 101, 110, 95, 97, 99, 99, 101, 115, 115]
  const VERIFY_NONCE_PURPOSE: Bytes := [118, 101, 114, 105, 102, 121, 95, 97, 99, 99, 101, 115, 115]

  /** The proof package of a /verify request: parsed, or with fields missing or of the wrong type. */
  datatype RawPackage = Parsed(pkg: ProofPackage) | Unparsable(claimedDid: Bytes)

  datatype Input =
    | StartInput(pskAccepted: bool, sid: Bytes, now: Time)
    | KeyInput(sid: Bytes, did: Bytes, publicKey: Option<Bytes>, challenge: Digest, now: Time)
    | PopInput(sid: Bytes, signature: Option<Bytes>, now: Time)
    | MetadataInput(sid: Bytes, metadata: Metadata, now: Time)
    | CloseInput(isAdmin: bool, exclude: set<Bytes>, timestamp: Bytes)
    | TokenInput(sid: Bytes, tokenId: Bytes, now: Time)
    | TokenNonceInput(tokenId: Bytes, nonce: Bytes, now: Time)
    | AccessInput(token: Record, tokenSignature: Option<Bytes>, nonce: Bytes, resource: Bytes, operation: Bytes,
                  signature: Option<Bytes>, now: Time)
    | VerifyNonceInput(did: Bytes, nonce: Bytes, now: Time)
    | VerifyInput(raw: RawPackage, nonce: Bytes, resource: Bytes, operation: Bytes, signature: Option<Bytes>, now: Time)
    | RevokeInput(isAdmin: bool, did: Bytes, revokedId: Option<Bytes>, tokenOnly: bool)

  datatype DenyReason =
    | BadTokenSignature | TokenExpired | NonceRejected(status: NonceStatus) | RevokedNow | PossessionFailed
    | ProvisionalScope | PolicyDenied | MalformedPackage | ProofRejected(verdict: Verdict)
    | UnknownDevice | DeviceRevoked | NotRegistered | RoleTypeMismatch

  datatype Response =
    | Refused(code: int)
    | Crashed
    | SessionOpened(sid: Bytes)
    | ChallengeSent(challenge: Digest)
    | KeyProven(did: Bytes)
    | QueuedForBatch(leaf: Bytes, epochId: int)
    | EpochClosed(result: EpochResult)
    | TokenSent(token: TokenFields, signature: Bytes)
    | NonceSent(nonce: Bytes)
    | Allow
    | Deny(reason: DenyReason)
    | RevocationDone(tokens: set<Bytes>)

  // ---------- registration (fog/registration/routes.py) ----------

  function Start(cfg: Config, st: FogState, i: Input): (FogState, Response)
    requires i.StartInput?
  {
    if !i.pskAccepted then (st, Refused(401))
    else (st.(sessions := st.sessions[i.sid := Session(i.now, Authenticated, None, None, None, 0, true)]),
          SessionOpened(i.sid))
  }

  function SubmitKey(cfg: Config, st: FogState, i: Input): (FogState, Response)
    requires i.KeyInput?
  {
    var (sessions, found) := Lookup(st.sessions, cfg.sessionTtl, i.sid, i.now);
    var st := st.(sessions := sessions);
    if found.None? then (st, Refused(404))
    else if found.value.state != Authenticated then (st, Refused(409))
    else if i.publicKey.None? || |i.publicKey.value| != COMPRESSED_PK_LEN
      || !cfg.validPoint(i.publicKey.value) then (st, Refused(400))
    else if i.did != DeriveDid(cfg.keys.crypto.hash, i.publicKey.value) then (st, Refused(400))
    else if i.did in st.devices || DidInUse(sessions, i.did, i.sid) then (st, Refused(409))
    else
      (st.(sessions := sessions[i.sid := KeyChallenged(cfg, found.value, i)]), ChallengeSent(i.challenge))
  }

  function KeyChallenged(cfg: Config, s: Session, i: Input): Session
    requires i.KeyInput?
  {
    WithChallenge(s.(did := Some(i.did), publicKey := i.publicKey), i.challenge, cfg.challengeTtl,
                  i.now).(state := KeySubmitted)
  }

  function ProvePossession(cfg: Config, st: FogState, i: Input): (FogState, Response)
    requires i.PopInput?
  {
    var (sessions, found) := Lookup(st.sessions, cfg.sessionTtl, i.sid, i.now);
    var st := st.(sessions := sessions);
    if found.None? then (st, Refused(404))
    else if found.value.state != KeySubmitted then (st, Refused(409))
    else AttemptProof(cfg, st, i, found.value)
  }

  function AttemptProof(cfg: Config, st: FogState, i: Input, session: Session): (FogState, Response)
    requires i.PopInput?
  {
    var (s, passed) := VerifyPop(cfg.keys.crypto, session, i.signature, i.now);
    if !passed then (st.(sessions := st.sessions[i.sid := s.(state := Authenticated)]), Refused(403))
    else
      var did := s.did.GetOr([]);
      var record := Device(s.publicKey.GetOr([]), Pending, None, None, None);
      (st.(sessions := st.sessions[i.sid := s.(state := PopVerified)], devices := st.devices[did := record]),
       KeyProven(did))
  }

  /** The metadata is written into the record before the leaf is queued. */
  function SubmitMetadata(cfg: Config, st: FogState, i: Input): (FogState, Response)
    requires i.MetadataInput?
  {
    var (sessions, found) := Lookup(st.sessions, cfg.sessionTtl, i.sid, i.now);
    var st := st.(sessions := sessions);
    if found.None? then (st, Refused(404))
    else if found.value.state != PopVerified then (st, Refused(409))
    else if !cfg.validMetadata(i.metadata) then (st, Refused(422))
    else
      var did := found.value.did.GetOr([]);
      if did !in st.devices then (st, Crashed) else Annotated(cfg, st, i, found.value, did)
  }

  function Annotated(cfg: Config, st: FogState, i: Input, s: Session, did: Bytes): (FogState, Response)
    requires i.MetadataInput? && did in st.devices
  {
    var record := st.devices[did].(metadata := Some(i.metadata));
    match Queue(cfg.keys.crypto.hash, st.epochs.pending, Identity(did, s.publicKey.GetOr([])))
    case Err(AlreadyQueued) => (st.(devices := st.devices[did := record]), Refused(409))
    case Err(_) => (st.(devices := st.devices[did := record]), Crashed)
    case Ok(pending) =>
      var leaf := pending[did].leaf;
      (st.(sessions := st.sessions[i.sid := s.(state := MetadataAccepted)],
           devices := st.devices[did := record.(leaf := Some(leaf))],
           epochs := st.epochs.(pending := pending)),
       QueuedForBatch(leaf, st.epochs.current))
  }

  // ---------- closing an epoch (fog/batch/routes.py) ----------

  ghost function CloseEpoch(cfg: Config, st: FogState, i: Input): (FogState, Response)
    requires i.CloseInput?
  {
    if !i.isAdmin then (st, Refused(401))
    else
      match Finalize(cfg.keys, st.devices, st.epochs, st.ledger, i.exclude, i.timestamp)
      case Err(EmptyBatch) => (st, Refused(409))
      case Err(_) => (st, Crashed)
      case Ok(closed) => (st.(devices := closed.devices, epochs := closed.epochs, ledger := closed.ledger),
                          EpochClosed(closed.result))
  }

  // ---------- provisional tokens (fog/tokens/routes.py, fog/tokens/tokens.py) ----------

  function IssueToken(cfg: Config, st: FogState, i: Input): (FogState, Response)
    requires i.TokenInput?
  {
    var (sessions, found) := Lookup(st.sessions, cfg.sessionTtl, i.sid, i.now);
    var st := st.(sessions := sessions);
    if found.None? then (st, Refused(404))
    else if found.value.state != MetadataAccepted then (st, Refused(409))
    else
      var did := found.value.did.GetOr([]);
      if did !in st.devices then (st, Refused(404)) else GrantToken(cfg, st, i, did)
  }

  function GrantToken(cfg: Config, st: FogState, i: Input, did: Bytes): (FogState, Response)
    requires i.TokenInput? && did in st.devices
  {
    var record := st.devices[did];
    if record.status == Revoked then (st, Refused(403))
    else if record.status == Registered then (st, Refused(409))
    else if !RoleFits(record) then (st, Refused(403))
    else
      var token := TokenFields(i.tokenId, did, record.publicKey, record.metadata.value.deviceType,
                               record.metadata.value.role,
                               st.epochs.current, i.now, i.now + cfg.tokenTtl);
      (st.(issued := st.issued[i.tokenId := did], devices := st.devices[did := record.(status := Tokenized)]),
       TokenSent(token, SignRecord(cfg.keys.crypto, TokenRecord(token))))
  }

  predicate RoleFits(record: Device) {
    record.metadata.Some? && RoleValidForType(Some(record.metadata.value.deviceType), Some(record.metadata.value.role))
  }

  function TokenNonce(cfg: Config, st: FogState, i: Input): (FogState, Response)
    requires i.TokenNonceInput?
  {
    if i.tokenId !in st.issued then (st, Refused(404))
    else (st.(nonces := Issued(st.nonces, cfg.nonceTtl, TOKEN_NONCE_PURPOSE, i.tokenId, i.nonce, i.now)),
          NonceSent(i.nonce))
  }

  predicate TokenSignatureValid(c: Crypto, token: Record, signature: Option<Bytes>) {
    signature.Some? && c.verify(c.fogKey, c.json(token), signature.value)
  }

  predicate IsDeviceRevoked(devices: Devices, did: Bytes) {
    did in devices && devices[did].status == Revoked
  }

  function AccessToken(cfg: Config, st: FogState, i: Input): (FogState, Response)
    requires i.AccessInput?
  {
    var c := cfg.keys.crypto;
    if !TokenSignatureValid(c, i.token, i.tokenSignature) then (st, Deny(BadTokenSignature))
    else if !i.token.TokenRecord? then (st, Crashed)
    else
      var t := i.token.token;
      if i.now > t.expiresAt then (st, Deny(TokenExpired))
      else
        var (nonces, status) := Consumed(st.nonces, TOKEN_NONCE_PURPOSE, t.tokenId, i.nonce, i.now);
        var st := st.(nonces := nonces);
        if status != NonceOk then (st, Deny(NonceRejected(status)))
        else if t.tokenId in st.revokedTokens || IsDeviceRevoked(st.devices, t.did) then (st, Deny(RevokedNow))
        else if i.signature.None?
             || !c.verify(t.publicKey, AccessMessage(t.tokenId, t.did, i.nonce, i.resource, i.operation),
                          i.signature.value) then
          (st, Deny(PossessionFailed))
        else if !ProvisionalAllowed(t.deviceType, i.resource, i.operation) then (st, Deny(ProvisionalScope))
        else if !CheckPolicy(i.resource, i.operation, t.role) then (st, Deny(PolicyDenied))
        else (st, Allow)
  }

  // ---------- verification (fog/verification/routes.py) ----------

  function VerifyNonce(cfg: Config, st: FogState, i: Input): (FogState, Response)
    requires i.VerifyNonceInput?
  {
    if i.did !in st.devices then (st, Refused(404))
    else (st.(nonces := Issued(st.nonces, cfg.nonceTtl, VERIFY_NONCE_PURPOSE, i.did, i.nonce, i.now)),
          NonceSent(i.nonce))
  }

  function ClaimedDid(raw: RawPackage): Bytes {
    if raw.Parsed? then raw.pkg.did else raw.claimedDid
  }

  function Verify(cfg: Config, st: FogState, i: Input): (FogState, Response)
    requires i.VerifyInput?
  {
    var (nonces, status) := Consumed(st.nonces, VERIFY_NONCE_PURPOSE, ClaimedDid(i.raw), i.nonce, i.now);
    var st := st.(nonces := nonces);
    if status != NonceOk then (st, Deny(NonceRejected(status)))
    else if i.raw.Unparsable? then (st, Deny(MalformedPackage))
    else (st, Authorize(cfg, st, i.raw.pkg, i.nonce, i.resource, i.operation, i.signature))
  }

  /** The checks after the nonce, in the order of the code. */
  function Authorize(cfg: Config, st: FogState, pkg: ProofPackage, nonce: Bytes, resource: Bytes, operation: Bytes,
                     signature: Option<Bytes>): Response
  {
    var c := cfg.keys.crypto;
    var verdict := VerifyPackage(c, pkg, CachedRoot(st.ledger, pkg.epochId));
    if verdict == Raised then Deny(MalformedPackage)
    else if verdict != Accepted then Deny(ProofRejected(verdict))
    else if !c.verify(pkg.publicKey.GetOr([]), VerifyMessage(pkg.did, pkg.epochId, nonce, resource, operation),
                      signature.GetOr([])) then
      Deny(PossessionFailed)
    else CurrentStanding(st.devices, pkg.did, resource, operation)
  }

  /** The device as the fog knows it now: whatever the package proves, this decides. */
  function CurrentStanding(devices: Devices, did: Bytes, resource: Bytes, operation: Bytes): Response {
    if did !in devices then Deny(UnknownDevice)
    else
      var record := devices[did];
      if record.status == Revoked then Deny(DeviceRevoked)
      else if record.status != Registered then Deny(NotRegistered)
      else if !RoleFits(record) then Deny(RoleTypeMismatch)
      else if !CheckPolicy(resource, operation, record.metadata.value.role) then Deny(PolicyDenied)
      else Allow
  }

  // ---------- revocation (fog/revocation/routes.py, fog/revocation/registry.py) ----------

  function TokensOf(issued: map<Bytes, Bytes>, did: Bytes): set<Bytes> {
    set t | t in issued && issued[t] == did
  }

  /** `revoke_device`: the record and all its tokens. */
  function DeviceRevokedIn(st: FogState, did: Bytes): FogState
    requires did in st.devices
  {
    st.(devices := st.devices[did := st.devices[did].(status := Revoked)],
        revokedTokens := st.revokedTokens + TokensOf(st.issued, did))
  }

  function Revoke(cfg: Config, st: FogState, i: Input): (FogState, Response)
    requires i.RevokeInput?
  {
    if !i.isAdmin then (st, Refused(401))
    else if i.tokenOnly then
      if i.revokedId.GetOr([]) == [] then (st, Refused(422))
      else if i.revokedId.value !in st.issued || st.issued[i.revokedId.value] != i.did then (st, Refused(404))
      else
        var st := st.(revokedTokens := st.revokedTokens + {i.revokedId.value});
        if i.did in st.devices then (st, RevocationDone({i.revokedId.value})) else (st, Crashed)
    else if i.did !in st.devices then (st, Refused(404))
    else
      var extra := if i.revokedId.GetOr([]) == [] then {} else {i.revokedId.value};
      var st := DeviceRevokedIn(st, i.did);
      (st.(revokedTokens := st.revokedTokens + extra), RevocationDone(TokensOf(st.issued, i.did)))
  }

  // ---------- steps and runs ----------

  ghost function Step(cfg: Config, st: FogState, i: Input): (FogState, Response) {
    match i
    case StartInput(_, _, _) => Start(cfg, st, i)
    case KeyInput(_, _, _, _, _) => SubmitKey(cfg, st, i)
    case PopInput(_, _, _) => ProvePossession(cfg, st, i)
    case MetadataInput(_, _, _) => SubmitMetadata(cfg, st, i)
    case CloseInput(_, _, _) => CloseEpoch(cfg, st, i)
    case TokenInput(_, _, _) => IssueToken(cfg, st, i)
    case TokenNonceInput(_, _, _) => TokenNonce(cfg, st, i)
    case AccessInput(_, _, _, _, _, _, _) => AccessToken(cfg, st, i)
    case VerifyNonceInput(_, _, _) => VerifyNonce(cfg, st, i)
    case VerifyInput(_, _, _, _, _, _) => Verify(cfg, st, i)
    case RevokeInput(_, _, _, _) => Revoke(cfg, st, i)
  }

  lemma StepOfClose(cfg: Config, st: FogState, i: Input)
    requires i.CloseInput?
    ensures Step(cfg, st, i) == CloseEpoch(cfg, st, i)
  {
  }

  /** The state after a run of endpoint calls. */
  ghost function Run(cfg: Config, inputs: seq<Input>): FogState {
    if inputs == [] then INITIAL else Step(cfg, Run(cfg, inputs[..|inputs| - 1]), inputs[|inputs| - 1]).0
  }

  /** The answer to the i-th call of a run. */
  ghost function Answer(cfg: Config, inputs: seq<Input>, i: nat): Response
    requires i < |inputs|
  {
    Step(cfg, Run(cfg, inputs[..i]), inputs[i]).1
  }

  lemma RunStep(cfg: Config, inputs: seq<Input>, i: nat)
    requires i < |inputs|
    ensures Run(cfg, inputs[..i + 1]) == Step(cfg, Run(cfg, inputs[..i]), inputs[i]).0
  {
    assert inputs[..i + 1][..i] == inputs[..i];
  }

  lemma RunThen(cfg: Config, inputs: seq<Input>, i: Input)
    ensures Run(cfg, inputs + [i]) == Step(cfg, Run(cfg, inputs), i).0
  {
    assert (inputs + [i])[..|inputs|] == inputs;
  }

  function DrawnNonce(i: Input): Option<Bytes> {
    if i.TokenNonceInput? || i.VerifyNonceInput? then Some(i.nonce) else None
  }

  function DrawnToken(i: Input): Option<Bytes> {
    if i.TokenInput? then Some(i.tokenId) else None
  }

  /** Nonces and token ids are random hex strings that never repeat in a run. */
  predicate FreshRun(inputs: seq<Input>) {
    && (forall i, j :: 0 <= i < j < |inputs| && DrawnNonce(inputs[i]).Some? ==>
        DrawnNonce(inputs[i]) != DrawnNonce(inputs[j]))
    && (forall i, j :: 0 <= i < j < |inputs| && DrawnToken(inputs[i]).Some? ==>
        DrawnToken(inputs[i]) != DrawnToken(inputs[j]))
    && (forall i :: 0 <= i < |inputs| ==> SEPARATOR !in DrawnNonce(inputs[i]).GetOr([]))
    && (forall i :: 0 <= i < |inputs| ==> SEPARATOR !in DrawnToken(inputs[i]).GetOr([]))
  }
}
