/** What every answer of every endpoint means: the first check that fails, in the order of the code, and exactly
    what the call changes. The checks are spelled out here once more, on the records and in ASCII. */
module FogAnswers {
  import opened Basics
  import opened ByteOrder
  import opened Canonical
  import opened MerkleTree
  import opened Signing
  import opened Messages
  import opened Policy
  import opened ProofPackages
  import opened Ledgers
  import opened Nonces
  import opened Epochs
  import opened FogState

  // ---------- sessions ----------

  /** Stored and not expired. */
  predicate Live(cfg: Config, st: FogState, sid: Bytes, now: Time) {
    sid in st.sessions && now <= st.sessions[sid].createdAt + cfg.sessionTtl
  }

  /** A call that finds the session expired removes it, whatever it answers. */
  function Swept(cfg: Config, st: FogState, sid: Bytes, now: Time): FogState {
    if Live(cfg, st, sid, now) then st else st.(sessions := map s | s in st.sessions && s != sid :: st.sessions[s])
  }

  lemma LookupIsLive(cfg: Config, st: FogState, sid: Bytes, now: Time)
    ensures var (after, found) := Lookup(st.sessions, cfg.sessionTtl, sid, now);
            && after == Swept(cfg, st, sid, now).sessions
            && found == if Live(cfg, st, sid, now) then Some(st.sessions[sid]) else None
  {
  }

  // ---------- /register/start ----------

  /** Without the pre-shared key nothing happens; with it a new session is stored. */
  lemma StartExactly(cfg: Config, st: FogState, i: Input)
    requires i.StartInput?
    ensures var (next, answer) := Step(cfg, st, i);
            && (!i.pskAccepted ==> next == st && answer == Refused(401))
            && (i.pskAccepted ==>
                  && answer == SessionOpened(i.sid) && next == st.(sessions := next.sessions)
                  && next.sessions.Keys == st.sessions.Keys + {i.sid}
                  && (forall s :: s in st.sessions && s != i.sid ==> next.sessions[s] == st.sessions[s])
                  && next.sessions[i.sid].createdAt == i.now && next.sessions[i.sid].state == Authenticated
                  && next.sessions[i.sid].did.None? && next.sessions[i.sid].publicKey.None?
                  && next.sessions[i.sid].challenge.None? && next.sessions[i.sid].challengeUsed)
  {
  }

  // ---------- /register/pubkey ----------

  predicate KeyPasses(cfg: Config, st: FogState, i: Input, n: nat)
    requires i.KeyInput?
  {
    && (n >= 1 ==> Live(cfg, st, i.sid, i.now))
    && (n >= 2 ==> i.sid in st.sessions && st.sessions[i.sid].state == Authenticated)
    && (n >= 3 ==> i.publicKey.Some? && |i.publicKey.value| == 33 && cfg.validPoint(i.publicKey.value))
    && (n >= 4 ==> i.did == Ascii("did:iiot:") + Hex(cfg.keys.crypto.hash(i.publicKey.GetOr([]))[..8]))
    && (n >= 5 ==> i.did !in st.devices)
    && (n >= 6 ==> forall s :: s in st.sessions && s != i.sid && st.sessions[s].did == Some(i.did) ==>
                     st.sessions[s].state == Authenticated)
  }

  lemma KeyAnswersExactly(cfg: Config, st: FogState, i: Input)
    requires i.KeyInput?
    ensures var (next, answer) := Step(cfg, st, i);
            && (answer == Refused(404) <==> !KeyPasses(cfg, st, i, 1))
            && (answer == Refused(409) <==>
                  || (KeyPasses(cfg, st, i, 1) && !KeyPasses(cfg, st, i, 2))
                  || (KeyPasses(cfg, st, i, 4) && !KeyPasses(cfg, st, i, 6)))
            && (answer == Refused(400) <==> KeyPasses(cfg, st, i, 2) && !KeyPasses(cfg, st, i, 4))
            && (answer == ChallengeSent(i.challenge) <==> KeyPasses(cfg, st, i, 6))
            && (!KeyPasses(cfg, st, i, 6) ==> next == Swept(cfg, st, i.sid, i.now))
            && (KeyPasses(cfg, st, i, 6) ==>
                  next == st.(sessions := st.sessions[i.sid :=
                    Session(st.sessions[i.sid].createdAt, KeySubmitted, Some(i.did), i.publicKey, Some(i.challenge),
                            i.now + cfg.challengeTtl, false)]))
  {
    LookupIsLive(cfg, st, i.sid, i.now);
    DidReads(cfg.keys.crypto.hash, i.publicKey.GetOr([]));
  }

  // ---------- /register/pop ----------

  predicate PopPasses(cfg: Config, st: FogState, i: Input, n: nat)
    requires i.PopInput?
  {
    && (n >= 1 ==> Live(cfg, st, i.sid, i.now))
    && (n >= 2 ==> i.sid in st.sessions && st.sessions[i.sid].state == KeySubmitted)
    && (n >= 3 ==> i.sid in st.sessions && st.sessions[i.sid].challenge.Some? && !st.sessions[i.sid].challengeUsed)
    && (n >= 4 ==> i.sid in st.sessions && i.now <= st.sessions[i.sid].challengeExpires)
    && (n >= 5 ==> i.sid in st.sessions && st.sessions[i.sid].challenge.Some? && i.signature.Some?
                   && cfg.keys.crypto.verify(st.sessions[i.sid].publicKey.GetOr([]),
                                             Ascii("IIOT_POP_V1") + Ascii("|") + st.sessions[i.sid].challenge.value
                                               + Ascii("|") + st.sessions[i.sid].did.GetOr([]),
                                             i.signature.value))
  }

  /** A failed attempt sends the session back and uses up its challenge; a good one creates the record. */
  lemma PopAnswersExactly(cfg: Config, st: FogState, i: Input)
    requires i.PopInput?
    ensures var (next, answer) := Step(cfg, st, i);
            && (answer == Refused(404) <==> !PopPasses(cfg, st, i, 1))
            && (answer == Refused(409) <==> PopPasses(cfg, st, i, 1) && !PopPasses(cfg, st, i, 2))
            && (answer == Refused(403) <==> PopPasses(cfg, st, i, 2) && !PopPasses(cfg, st, i, 5))
            && (answer.KeyProven? <==> PopPasses(cfg, st, i, 5))
            && (!PopPasses(cfg, st, i, 2) ==> next == Swept(cfg, st, i.sid, i.now))
            && (PopPasses(cfg, st, i, 2) ==>
                  var s := st.sessions[i.sid]; var did := s.did.GetOr([]);
                  var used := s.(challengeUsed := s.challengeUsed || s.challenge.Some?);
                  if PopPasses(cfg, st, i, 5) then
                    && answer == KeyProven(did)
                    && next == st.(sessions := st.sessions[i.sid := used.(state := PopVerified)],
                                   devices := st.devices[did := Device(s.publicKey.GetOr([]), Pending,
                                                                       None, None, None)])
                  else next == st.(sessions := st.sessions[i.sid := used.(state := Authenticated)]))
  {
    LookupIsLive(cfg, st, i.sid, i.now);
    if i.sid in st.sessions && st.sessions[i.sid].challenge.Some? {
      var s := st.sessions[i.sid];
      MessageLayouts(s.challenge.value, s.did.GetOr([]), [], 0, [], [], []);
    }
  }

  // ---------- /register/metadata ----------

  predicate MetadataPasses(cfg: Config, st: FogState, i: Input, n: nat)
    requires i.MetadataInput?
  {
    && (n >= 1 ==> Live(cfg, st, i.sid, i.now))
    && (n >= 2 ==> i.sid in st.sessions && st.sessions[i.sid].state == PopVerified)
    && (n >= 3 ==> cfg.validMetadata(i.metadata))
    && (n >= 4 ==> i.sid in st.sessions && st.sessions[i.sid].did.GetOr([]) in st.devices)
  }

  /** The record is annotated even when the leaf cannot be queued. */
  lemma MetadataAnswersExactly(cfg: Config, st: FogState, i: Input)
    requires i.MetadataInput?
    ensures var (next, answer) := Step(cfg, st, i);
            && (answer == Refused(404) <==> !MetadataPasses(cfg, st, i, 1))
            && (answer == Refused(422) <==> MetadataPasses(cfg, st, i, 2) && !MetadataPasses(cfg, st, i, 3))
            && (MetadataPasses(cfg, st, i, 1) && !MetadataPasses(cfg, st, i, 2) ==> answer == Refused(409))
            && (MetadataPasses(cfg, st, i, 3) && !MetadataPasses(cfg, st, i, 4) ==> answer == Crashed)
            && (!MetadataPasses(cfg, st, i, 4) ==> next == Swept(cfg, st, i.sid, i.now))
            && (MetadataPasses(cfg, st, i, 4) ==>
                  var s := st.sessions[i.sid]; var did := s.did.GetOr([]); var record := st.devices[did];
                  var queued := Queue(cfg.keys.crypto.hash, st.epochs.pending, Identity(did, s.publicKey.GetOr([])));
                  match queued
                  case Ok(pending) =>
                    && answer == QueuedForBatch(pending[did].leaf, st.epochs.current)
                    && next == st.(sessions := st.sessions[i.sid := s.(state := MetadataAccepted)],
                                   devices := st.devices[did := Device(record.publicKey, record.status,
                                                                       Some(i.metadata), Some(pending[did].leaf),
                                                                       record.epochId)],
                                   epochs := st.epochs.(pending := pending))
                  case Err(e) =>
                    && answer == (if e == AlreadyQueued then Refused(409) else Crashed)
                    && next == st.(devices := st.devices[did := record.(metadata := Some(i.metadata))]))
  {
    LookupIsLive(cfg, st, i.sid, i.now);
  }

  // ---------- /tokens/issue ----------

  predicate IssuePasses(cfg: Config, st: FogState, i: Input, n: nat)
    requires i.TokenInput?
  {
    && (n >= 1 ==> Live(cfg, st, i.sid, i.now))
    && (n >= 2 ==> i.sid in st.sessions && st.sessions[i.sid].state == MetadataAccepted)
    && (n >= 3 ==> i.sid in st.sessions && st.sessions[i.sid].did.GetOr([]) in st.devices)
    && (n >= 4 ==> HasStatusOf(st, i.sid) && StatusOf(st, i.sid) != Revoked)
    && (n >= 5 ==> HasStatusOf(st, i.sid) && StatusOf(st, i.sid) != Registered)
    && (n >= 6 ==> HasStatusOf(st, i.sid) && RoleIsValid(st.devices[st.sessions[i.sid].did.GetOr([])]))
  }

  predicate HasStatusOf(st: FogState, sid: Bytes) {
    sid in st.sessions && st.sessions[sid].did.GetOr([]) in st.devices
  }

  function StatusOf(st: FogState, sid: Bytes): Status
    requires HasStatusOf(st, sid)
  {
    st.devices[st.sessions[sid].did.GetOr([])].status
  }

  /** The record has a role that its device type may hold. */
  predicate RoleIsValid(r: Device) {
    r.metadata.Some? && TypeHolds(r.metadata.value.deviceType, r.metadata.value.role)
  }

  lemma RoleIsValidExactly(r: Device)
    ensures RoleIsValid(r) <==> RoleFits(r)
  {
    if r.metadata.Some? { RolesByType(r.metadata.value.deviceType, r.metadata.value.role); }
  }

  /** A token names the device, its key, type and role as recorded, the open epoch, and its lifetime from now. */
  lemma IssueAnswersExactly(cfg: Config, st: FogState, i: Input)
    requires i.TokenInput?
    ensures var (next, answer) := Step(cfg, st, i);
            && (answer == Refused(404) <==>
                  || !IssuePasses(cfg, st, i, 1)
                  || (IssuePasses(cfg, st, i, 2) && !IssuePasses(cfg, st, i, 3)))
            && (answer == Refused(409) <==>
                  || (IssuePasses(cfg, st, i, 1) && !IssuePasses(cfg, st, i, 2))
                  || (IssuePasses(cfg, st, i, 4) && !IssuePasses(cfg, st, i, 5)))
            && (answer == Refused(403) <==>
                  || (IssuePasses(cfg, st, i, 3) && !IssuePasses(cfg, st, i, 4))
                  || (IssuePasses(cfg, st, i, 5) && !IssuePasses(cfg, st, i, 6)))
            && (answer.TokenSent? <==> IssuePasses(cfg, st, i, 6))
            && (!IssuePasses(cfg, st, i, 6) ==> next == Swept(cfg, st, i.sid, i.now))
            && (IssuePasses(cfg, st, i, 6) ==>
                  var did := st.sessions[i.sid].did.GetOr([]); var t := answer.token;
                  && t.tokenId == i.tokenId && t.did == did && t.publicKey == st.devices[did].publicKey
                  && t.deviceType == st.devices[did].metadata.value.deviceType
                  && t.role == st.devices[did].metadata.value.role
                  && t.queuedForEpoch == st.epochs.current && t.issuedAt == i.now
                  && t.expiresAt == i.now + cfg.tokenTtl
                  && answer.signature == cfg.keys.crypto.sign(cfg.keys.crypto.json(TokenRecord(t)))
                  && next == st.(issued := st.issued[i.tokenId := did],
                                 devices := st.devices[did := st.devices[did].(status := Tokenized)]))
  {
    if HasStatusOf(st, i.sid) { RoleIsValidExactly(st.devices[st.sessions[i.sid].did.GetOr([])]); }
    LookupIsLive(cfg, st, i.sid, i.now);
  }

  // ---------- /tokens/nonce, /verify/nonce ----------

  /** A nonce is sent exactly for an issued token, or for a DID on record, and bound to it. */
  lemma NonceAnswersExactly(cfg: Config, st: FogState, i: Input)
    requires i.TokenNonceInput? || i.VerifyNonceInput?
    ensures var (next, answer) := Step(cfg, st, i);
            var known := if i.TokenNonceInput? then i.tokenId in st.issued else i.did in st.devices;
            var purpose := if i.TokenNonceInput? then Ascii("token_access") else Ascii("verify_access");
            var subject := if i.TokenNonceInput? then i.tokenId else i.did;
            && (!known ==> next == st && answer == Refused(404))
            && (known ==> answer == NonceSent(i.nonce)
                          && next == st.(nonces := Issued(st.nonces, cfg.nonceTtl, purpose, subject, i.nonce, i.now)))
  {
    PurposesRead();
  }

  lemma PurposesRead()
    ensures TOKEN_NONCE_PURPOSE == Ascii("token_access") && VERIFY_NONCE_PURPOSE == Ascii("verify_access")
  {
  }

  // ---------- /tokens/access ----------

  function AccessAttempt(st: FogState, i: Input): (Book, NonceStatus)
    requires i.AccessInput? && i.token.TokenRecord?
  {
    Consumed(st.nonces, Ascii("token_access"), i.token.token.tokenId, i.nonce, i.now)
  }

  predicate AccessPasses(cfg: Config, st: FogState, i: Input, n: nat)
    requires i.AccessInput?
  {
    var c := cfg.keys.crypto;
    && (n >= 1 ==> i.tokenSignature.Some? && c.verify(c.fogKey, c.json(i.token), i.tokenSignature.value))
    && (n >= 2 ==> i.token.TokenRecord?)
    && (n >= 3 ==> i.token.TokenRecord? && i.now <= i.token.token.expiresAt)
    && (n >= 4 ==> i.token.TokenRecord? && AccessAttempt(st, i).1 == NonceOk)
    && (n >= 5 ==> i.token.TokenRecord? && var t := i.token.token;
                   t.tokenId !in st.revokedTokens && !(t.did in st.devices && st.devices[t.did].status == Revoked))
    && (n >= 6 ==> i.token.TokenRecord? && i.signature.Some? && var t := i.token.token; var bar := Ascii("|");
                   c.verify(t.publicKey, Ascii("IIOT_TOKEN_ACCESS_V1") + bar + t.tokenId + bar + t.did + bar + i.nonce
                                           + bar + i.resource + bar + i.operation, i.signature.value))
    && (n >= 7 ==> i.token.TokenRecord? && i.resource == i.token.token.deviceType
                   && (i.operation == Ascii("read") || i.operation == Ascii("write")))
    && (n >= 8 ==> i.token.TokenRecord? && RoleMay(i.token.token.role, i.resource, i.operation))
  }

  /** ALLOW means that all eight checks pass; every reason names the first that fails; and only the nonce changes. */
  lemma AccessAnswersExactly(cfg: Config, st: FogState, i: Input)
    requires i.AccessInput?
    ensures var (next, answer) := AccessToken(cfg, st, i);
            && (answer == Deny(BadTokenSignature) <==> !AccessPasses(cfg, st, i, 1))
            && (answer == Crashed <==> AccessPasses(cfg, st, i, 1) && !AccessPasses(cfg, st, i, 2))
            && (answer == Deny(TokenExpired) <==> AccessPasses(cfg, st, i, 2) && !AccessPasses(cfg, st, i, 3))
            && (AccessPasses(cfg, st, i, 3) && !AccessPasses(cfg, st, i, 4) ==>
                  answer == Deny(NonceRejected(AccessAttempt(st, i).1)))
            && (answer == Deny(RevokedNow) <==> AccessPasses(cfg, st, i, 4) && !AccessPasses(cfg, st, i, 5))
            && (answer == Deny(PossessionFailed) <==> AccessPasses(cfg, st, i, 5) && !AccessPasses(cfg, st, i, 6))
            && (answer == Deny(ProvisionalScope) <==> AccessPasses(cfg, st, i, 6) && !AccessPasses(cfg, st, i, 7))
            && (answer == Deny(PolicyDenied) <==> AccessPasses(cfg, st, i, 7) && !AccessPasses(cfg, st, i, 8))
            && (answer == Allow <==> AccessPasses(cfg, st, i, 8))
            && next == if AccessPasses(cfg, st, i, 3) then st.(nonces := AccessAttempt(st, i).0) else st
  {
    PurposesRead();
    NamesRead();
    if i.token.TokenRecord? {
      PolicyByRole(i.token.token.role, i.resource, i.operation);
      MessageLayouts([], i.token.token.did, i.token.token.tokenId, 0, i.nonce, i.resource, i.operation);
    }
  }

  // ---------- /verify ----------

  function VerifyAttempt(st: FogState, i: Input): (Book, NonceStatus)
    requires i.VerifyInput?
  {
    Consumed(st.nonces, Ascii("verify_access"), if i.raw.Parsed? then i.raw.pkg.did else i.raw.claimedDid,
             i.nonce, i.now)
  }

  /** What the record says: known, not revoked, registered, with a fitting role, and permitted. */
  predicate StandingPasses(devices: Devices, d: Bytes, resource: Bytes, operation: Bytes, n: int) {
    && (n >= 1 ==> d in devices)
    && (n >= 2 ==> d in devices && devices[d].status != Revoked)
    && (n >= 3 ==> d in devices && devices[d].status == Registered)
    && (n >= 4 ==> d in devices && RoleIsValid(devices[d]))
    && (n >= 5 ==> d in devices && devices[d].metadata.Some?
                   && RoleMay(devices[d].metadata.value.role, resource, operation))
  }

  lemma StandingExactly(devices: Devices, d: Bytes, x: Bytes, o: Bytes)
    ensures var answer := CurrentStanding(devices, d, x, o);
            && (answer == Deny(UnknownDevice) <==> !StandingPasses(devices, d, x, o, 1))
            && (answer == Deny(DeviceRevoked) <==>
                  StandingPasses(devices, d, x, o, 1) && !StandingPasses(devices, d, x, o, 2))
            && (answer == Deny(NotRegistered) <==>
                  StandingPasses(devices, d, x, o, 2) && !StandingPasses(devices, d, x, o, 3))
            && (answer == Deny(RoleTypeMismatch) <==>
                  StandingPasses(devices, d, x, o, 3) && !StandingPasses(devices, d, x, o, 4))
            && (answer == Deny(PolicyDenied) <==>
                  StandingPasses(devices, d, x, o, 4) && !StandingPasses(devices, d, x, o, 5))
            && (answer == Allow <==> StandingPasses(devices, d, x, o, 5))
  {
    if d in devices {
      RoleIsValidExactly(devices[d]);
      if devices[d].metadata.Some? { PolicyByRole(devices[d].metadata.value.role, x, o); }
    }
  }

  function EvidenceOf(cfg: Config, st: FogState, i: Input): Verdict
    requires i.VerifyInput? && i.raw.Parsed?
  {
    var e := i.raw.pkg.epochId;
    VerifyPackage(cfg.keys.crypto, i.raw.pkg, if e in st.ledger.rootCache then Some(st.ledger.rootCache[e]) else None)
  }

  /** The key of the package signed exactly this request. */
  predicate SignsRequest(cfg: Config, i: Input)
    requires i.VerifyInput? && i.raw.Parsed?
  {
    var p, bar := i.raw.pkg, Ascii("|");
    cfg.keys.crypto.verify(p.publicKey.GetOr([]),
                           Ascii("IIOT_VERIFY_ACCESS_V1") + bar + p.did + bar + Decimal(p.epochId) + bar + i.nonce
                             + bar + i.resource + bar + i.operation,
                           i.signature.GetOr([]))
  }

  /** Evidence, possession, standing, in this order. */
  lemma AuthorizeExactly(cfg: Config, st: FogState, i: Input)
    requires i.VerifyInput? && i.raw.Parsed?
    ensures var answer := Authorize(cfg, st, i.raw.pkg, i.nonce, i.resource, i.operation, i.signature);
            var evidence := EvidenceOf(cfg, st, i);
            answer == if evidence == Raised then Deny(MalformedPackage)
                      else if evidence != Accepted then Deny(ProofRejected(evidence))
                      else if !SignsRequest(cfg, i) then Deny(PossessionFailed)
                      else CurrentStanding(st.devices, i.raw.pkg.did, i.resource, i.operation)
  {
    MessageLayouts([], i.raw.pkg.did, [], i.raw.pkg.epochId, i.nonce, i.resource, i.operation);
  }

  predicate VerifyPasses(cfg: Config, st: FogState, i: Input, n: nat)
    requires i.VerifyInput?
  {
    && (n >= 1 ==> VerifyAttempt(st, i).1 == NonceOk)
    && (n >= 2 ==> i.raw.Parsed? && EvidenceOf(cfg, st, i) != Raised)
    && (n >= 3 ==> i.raw.Parsed? && EvidenceOf(cfg, st, i) == Accepted)
    && (n >= 4 ==> i.raw.Parsed? && SignsRequest(cfg, i))
    && (n >= 5 ==> i.raw.Parsed? && StandingPasses(st.devices, i.raw.pkg.did, i.resource, i.operation, n - 4))
  }

  /** ALLOW means that all nine checks pass; every reason names the first that fails; and only the nonce changes. */
  lemma VerifyAnswersExactly(cfg: Config, st: FogState, i: Input)
    requires i.VerifyInput?
    ensures var (next, answer) := Verify(cfg, st, i);
            && (!VerifyPasses(cfg, st, i, 1) ==> answer == Deny(NonceRejected(VerifyAttempt(st, i).1)))
            && (answer == Deny(MalformedPackage) <==> VerifyPasses(cfg, st, i, 1) && !VerifyPasses(cfg, st, i, 2))
            && (VerifyPasses(cfg, st, i, 2) && !VerifyPasses(cfg, st, i, 3) ==>
                  answer == Deny(ProofRejected(EvidenceOf(cfg, st, i))))
            && (answer == Deny(PossessionFailed) <==> VerifyPasses(cfg, st, i, 3) && !VerifyPasses(cfg, st, i, 4))
            && (answer == Deny(UnknownDevice) <==> VerifyPasses(cfg, st, i, 4) && !VerifyPasses(cfg, st, i, 5))
            && (answer == Deny(DeviceRevoked) <==> VerifyPasses(cfg, st, i, 5) && !VerifyPasses(cfg, st, i, 6))
            && (answer == Deny(NotRegistered) <==> VerifyPasses(cfg, st, i, 6) && !VerifyPasses(cfg, st, i, 7))
            && (answer == Deny(RoleTypeMismatch) <==> VerifyPasses(cfg, st, i, 7) && !VerifyPasses(cfg, st, i, 8))
            && (answer == Deny(PolicyDenied) <==> VerifyPasses(cfg, st, i, 8) && !VerifyPasses(cfg, st, i, 9))
            && (answer == Allow <==> VerifyPasses(cfg, st, i, 9))
            && next == st.(nonces := VerifyAttempt(st, i).0)
  {
    assert VERIFY_NONCE_PURPOSE == Ascii("verify_access") by { PurposesRead(); }
    if i.raw.Parsed? {
      StandingExactly(st.devices, i.raw.pkg.did, i.resource, i.operation);
      AuthorizeExactly(cfg, st.(nonces := VerifyAttempt(st, i).0), i);
    }
  }

  // ---------- /revocation/revoke ----------

  /** The id of a token-only call, when it is an issued token of that very device. */
  predicate NamesToken(st: FogState, i: Input)
    requires i.RevokeInput?
  {
    && i.revokedId.Some? && i.revokedId.value != [] && i.revokedId.value in st.issued
    && st.issued[i.revokedId.value] == i.did
  }

  /** Revoking one token: only an admin can, only a token of that device, and nothing but the blacklist changes. */
  lemma RevokeTokenExactly(cfg: Config, st: FogState, i: Input)
    requires i.RevokeInput? && i.tokenOnly
    ensures var (next, answer) := Step(cfg, st, i);
            && (!i.isAdmin ==> next == st && answer == Refused(401))
            && (i.isAdmin && i.revokedId.GetOr([]) == [] ==> next == st && answer == Refused(422))
            && (i.isAdmin && i.revokedId.GetOr([]) != [] && !NamesToken(st, i) ==> next == st && answer == Refused(404))
            && (i.isAdmin && NamesToken(st, i) ==>
                  && next == st.(revokedTokens := st.revokedTokens + {i.revokedId.value})
                  && answer == if i.did in st.devices then RevocationDone({i.revokedId.value}) else Crashed)
  {
  }

  /** Revoking a device: only an admin can, only a device on record; it becomes REVOKED and its tokens, and the token
      named besides, are blacklisted. The answer lists exactly the tokens that the device was ever issued. */
  lemma RevokeDeviceExactly(cfg: Config, st: FogState, i: Input)
    requires i.RevokeInput? && !i.tokenOnly
    ensures var (next, answer) := Step(cfg, st, i);
            && (!i.isAdmin ==> next == st && answer == Refused(401))
            && (i.isAdmin && i.did !in st.devices ==> next == st && answer == Refused(404))
            && (i.isAdmin && i.did in st.devices ==>
                  && answer.RevocationDone?
                  && (forall t :: t in answer.tokens <==> t in st.issued && st.issued[t] == i.did)
                  && next == st.(devices := next.devices, revokedTokens := next.revokedTokens)
                  && next.devices.Keys == st.devices.Keys && next.devices[i.did].status == Revoked
                  && next.devices[i.did].(status := st.devices[i.did].status) == st.devices[i.did]
                  && (forall d :: d in st.devices && d != i.did ==> next.devices[d] == st.devices[d])
                  && (forall t :: t in next.revokedTokens <==>
                        || t in st.revokedTokens || t in answer.tokens
                        || (i.revokedId == Some(t) && t != [])))
  {
  }

  // ---------- /epoch/close ----------

  /** Without the admin key nothing happens; 409 means that nobody would be a member; and a close that does not succeed
      changes nothing. */
  lemma CloseAnswersExactly(cfg: Config, st: FogState, i: Input)
    requires i.CloseInput?
    ensures var (next, answer) := Step(cfg, st, i);
            var members := Members(cfg.keys, st.devices, st.epochs.pending, i.exclude);
            && (answer == Refused(401) <==> !i.isAdmin)
            && (answer == Refused(409) <==> i.isAdmin && members == map[])
            && (answer.EpochClosed? <==>
                  i.isAdmin && members != map[] && TreeAccepts(members) && st.epochs.current !in st.ledger.rootCache)
            && (answer == Crashed <==>
                  i.isAdmin && members != map[] && !(TreeAccepts(members) && st.epochs.current !in st.ledger.rootCache))
            && (!answer.EpochClosed? ==> next == st)
  {
    FinalizeExactly(cfg.keys, st, i.exclude, i.timestamp);
  }

  lemma FinalizeExactly(k: FogKeys, st: FogState, exclude: set<Bytes>, timestamp: Bytes)
    ensures var r := Finalize(k, st.devices, st.epochs, st.ledger, exclude, timestamp);
            var members := Members(k, st.devices, st.epochs.pending, exclude);
            && (r == Err(EmptyBatch) <==> members == map[])
            && (r.Ok? <==> members != map[] && TreeAccepts(members) && st.epochs.current !in st.ledger.rootCache)
  {
    var members := Members(k, st.devices, st.epochs.pending, exclude);
    if members != map[] && TreeAccepts(members) {
      NonEmptyLeaves(members);
      var leaves := SortedLeaves(members);
      AnchorExactly(k.crypto, k.fogId, st.ledger, st.epochs.current, Root(k.crypto.hash, leaves), |leaves|, timestamp);
    }
  }

  /** What the result of a close says: its leaves are those of the members in ascending order, the root is over them,
      there is one package per member, the counts count, and the new block describes all this. */
  ghost predicate ResultDescribes(k: FogKeys, st: FogState, exclude: set<Bytes>, timestamp: Bytes, r: EpochResult) {
    var members := Members(k, st.devices, st.epochs.pending, exclude);
    && r.epochId == st.epochs.current
    && Ascends(r.sortedLeaves) && Elements(r.sortedLeaves) == LeafSet(members)
    && |r.sortedLeaves| == |members| > 0 && r.root == Root(k.crypto.hash, r.sortedLeaves)
    && r.packages.Keys == members.Keys
    && r.newDevices == |set d | d in members && d in st.epochs.pending.Keys|
    && r.carriedForward == |set d | d in members && d !in st.epochs.pending.Keys|
    && (forall d :: d in r.excluded <==>
          && (d in exclude || (d in st.devices && st.devices[d].status == Revoked))
          && (d in st.epochs.pending || d in st.epochs.active))
    && Describes(r.block.body, |st.ledger.blocks|, r.epochId, r.root, |r.sortedLeaves|, timestamp, k.fogId)
  }

  lemma CloseResultExactly(cfg: Config, st: FogState, i: Input)
    requires i.CloseInput? && Step(cfg, st, i).1.EpochClosed?
    ensures ResultDescribes(cfg.keys, st, i.exclude, i.timestamp, Step(cfg, st, i).1.result)
  {
    StepOfClose(cfg, st, i);
    ClosedByFinalize(cfg, st, i);
    FinalizeResult(cfg.keys, st, i.exclude, i.timestamp);
  }

  lemma ClosedByFinalize(cfg: Config, st: FogState, i: Input)
    requires i.CloseInput? && CloseEpoch(cfg, st, i).1.EpochClosed?
    ensures Finalize(cfg.keys, st.devices, st.epochs, st.ledger, i.exclude, i.timestamp).Ok?
    ensures CloseEpoch(cfg, st, i).1.result
         == Finalize(cfg.keys, st.devices, st.epochs, st.ledger, i.exclude, i.timestamp).value.result
  {
    match Finalize(cfg.keys, st.devices, st.epochs, st.ledger, i.exclude, i.timestamp)
    case Ok(closed) =>
    case Err(e) =>
  }

  lemma FinalizeResult(k: FogKeys, st: FogState, exclude: set<Bytes>, timestamp: Bytes)
    requires Finalize(k, st.devices, st.epochs, st.ledger, exclude, timestamp).Ok?
    ensures ResultDescribes(k, st, exclude, timestamp,
                            Finalize(k, st.devices, st.epochs, st.ledger, exclude, timestamp).value.result)
  {
    var members := Members(k, st.devices, st.epochs.pending, exclude);
    FinalizeUnfold(k, st.devices, st.epochs, st.ledger, exclude, timestamp);
    SortedLeavesAscend(members);
    LeafSetSize(members);
    CountsExactly(k, st.devices, st.epochs, exclude);
    AnchorExactly(k.crypto, k.fogId, st.ledger, st.epochs.current, Root(k.crypto.hash, SortedLeaves(members)),
                  |SortedLeaves(members)|, timestamp);
  }

  /** Windows are closed, devices and tokens are revoked, and sessions are opened for key holders only. */
  lemma KeysAreRequired(cfg: Config, st: FogState, i: Input)
    ensures var answer := Step(cfg, st, i).1;
            && (answer.EpochClosed? || answer.RevocationDone? ==> (i.CloseInput? || i.RevokeInput?) && i.isAdmin)
            && (answer.SessionOpened? ==> i.StartInput? && i.pskAccepted)
    ensures (i.CloseInput? || i.RevokeInput?) && !i.isAdmin ==> Step(cfg, st, i) == (st, Refused(401))
  {
    if i.CloseInput? { CloseAnswersExactly(cfg, st, i); }
  }
}
