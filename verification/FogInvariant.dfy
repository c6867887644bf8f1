/** What every endpoint call keeps, whatever the order of calls. */
module FogInvariant {
  import opened Basics
  import opened Canonical
  import opened MerkleTree
  import opened Signing
  import opened Ledgers
  import opened Epochs
  import opened FogState

  // ---------- the invariant, store by store ----------

  predicate DeviceOk(h: Hash, d: Bytes, r: Device) {
    && |r.publicKey| == COMPRESSED_PK_LEN && d == DeriveDid(h, r.publicKey)
    && (r.status == Registered ==> r.leaf == Some(h(LeafInput(Identity(d, r.publicKey)))))
    && (r.status == Tokenized || r.status == Registered ==> r.metadata.Some?)
  }

  predicate DeviceInv(h: Hash, devices: Devices) {
    forall d :: d in devices ==> DeviceOk(h, d, devices[d])
  }

  /** A session beyond AUTHENTICATED names a derived DID; until possession is proven the DID has no record,
      afterwards its record carries the session's key. */
  predicate SessionOk(h: Hash, s: Session, devices: Devices, pending: Batch) {
    s.state == Authenticated ||
    (&& s.did.Some? && s.publicKey.Some? && s.challenge.Some?
     && |s.publicKey.value| == COMPRESSED_PK_LEN && s.did.value == DeriveDid(h, s.publicKey.value)
     && match s.state
        case KeySubmitted => s.did.value !in devices
        case PopVerified =>
          && s.did.value in devices && devices[s.did.value].publicKey == s.publicKey.value
          && (devices[s.did.value].status == Pending || devices[s.did.value].status == Revoked)
          && devices[s.did.value].metadata.None? && s.did.value !in pending
        case Authenticated => true
        case MetadataAccepted =>
          && s.did.value in devices && devices[s.did.value].publicKey == s.publicKey.value
          && devices[s.did.value].metadata.Some?)
  }

  predicate SessionInv(h: Hash, sessions: Sessions, devices: Devices, pending: Batch) {
    forall a :: a in sessions ==> SessionOk(h, sessions[a], devices, pending)
  }

  predicate Busy(s: Session) {
    s.state != Authenticated
  }

  /** At most one stored session per DID is beyond AUTHENTICATED. */
  predicate OneSessionPerDid(sessions: Sessions) {
    forall a, b :: a in sessions && b in sessions && a != b && Busy(sessions[a]) && Busy(sessions[b])
      ==> sessions[a].did != sessions[b].did
  }

  predicate BatchInv(h: Hash, devices: Devices, pending: Batch) {
    forall d :: d in pending ==>
      && d in devices && devices[d].status != Registered && devices[d].metadata.Some?
      && pending[d] == PendingEntry(devices[d].publicKey, h(LeafInput(Identity(d, devices[d].publicKey))))
  }

  predicate Committable(devices: Devices, d: Bytes) {
    d in devices && (devices[d].status == Registered || devices[d].status == Revoked)
  }

  predicate ActiveInv(devices: Devices, active: set<Bytes>) {
    forall d :: d in active ==> Committable(devices, d)
  }

  predicate TokenInv(devices: Devices, issued: map<Bytes, Bytes>, revokedTokens: set<Bytes>) {
    forall t :: t in issued ==> issued[t] in devices && (devices[issued[t]].status == Revoked ==> t in revokedTokens)
  }

  /** The members of an epoch, read back from its packages. */
  function MembersOf(p: Packages): (m: Batch)
    ensures m.Keys == p.Keys
  {
    map d | d in p :: PendingEntry(p[d].publicKey.GetOr([]), p[d].leaf)
  }

  predicate GenuineMembers(h: Hash, members: Batch) {
    forall d :: d in members ==>
      && ValidIdentity(Identity(d, members[d].publicKey))
      && members[d].leaf == h(LeafInput(Identity(d, members[d].publicKey)))
  }

  /** `root` commits to exactly the packages `p` of epoch e. */
  ghost predicate Committed(k: FogKeys, e: int, p: Packages, root: Bytes) {
    var members := MembersOf(p);
    && GenuineMembers(k.crypto.hash, members) && TreeAccepts(members)
    && |SortedLeaves(members)| > 0 && root == Root(k.crypto.hash, SortedLeaves(members))
    && p == PackagesOf(k, members, e)
  }

  predicate KeysOnRecord(devices: Devices, p: Packages) {
    forall d :: d in p ==> Committable(devices, d) && p[d].publicKey == Some(devices[d].publicKey)
  }

  /** Every anchored epoch lies before the open one, and its root commits to its packages. */
  ghost predicate EpochInv(k: FogKeys, current: int, packages: map<int, Packages>, rootCache: map<int, Bytes>) {
    && rootCache.Keys == packages.Keys
    && forall e :: e in packages ==> e < current && Committed(k, e, packages[e], rootCache[e])
  }

  predicate RecordInv(devices: Devices, packages: map<int, Packages>) {
    forall e :: e in packages ==> KeysOnRecord(devices, packages[e])
  }

  /** Sessions, records, batch and tokens. */
  predicate OnboardingInv(cfg: Config, st: FogState) {
    var h := cfg.keys.crypto.hash;
    && DeviceInv(h, st.devices)
    && SessionInv(h, st.sessions, st.devices, st.epochs.pending) && OneSessionPerDid(st.sessions)
    && BatchInv(h, st.devices, st.epochs.pending)
    && TokenInv(st.devices, st.issued, st.revokedTokens)
  }

  /** Records and the epochs that committed them. */
  predicate RecordsInv(cfg: Config, st: FogState) {
    OnboardingInv(cfg, st) && ActiveInv(st.devices, st.epochs.active) && RecordInv(st.devices, st.epochs.packages)
  }

  ghost predicate HistoryInv(cfg: Config, st: FogState) {
    && EpochInv(cfg.keys, st.epochs.current, st.epochs.packages, st.ledger.rootCache)
    && LatestInv(st.epochs.packages, st.epochs.latest)
  }

  ghost predicate Inv(cfg: Config, st: FogState) {
    RecordsInv(cfg, st) && HistoryInv(cfg, st)
  }

  // ---------- how device records may change ----------

  function Rank(s: Status): nat {
    match s case Pending => 0 case Tokenized => 1 case Registered => 2 case Revoked => 3
  }

  /** Records are never deleted, keys and accepted metadata never change, statuses never move down. */
  predicate DevicesGrow(a: Devices, b: Devices) {
    forall d :: d in a ==> d in b && RecordGrows(a[d], b[d])
  }

  predicate RecordGrows(r: Device, r': Device) {
    && r'.publicKey == r.publicKey && Rank(r.status) <= Rank(r'.status)
    && (r.metadata.Some? ==> r'.metadata == r.metadata)
  }

  lemma GrowKeepsRecords(a: Devices, b: Devices, packages: map<int, Packages>, active: set<Bytes>)
    requires DevicesGrow(a, b) && RecordInv(a, packages) && ActiveInv(a, active)
    ensures RecordInv(b, packages) && ActiveInv(b, active)
  {
  }

  // ---------- sessions ----------

  lemma LookupKeeps(h: Hash, sessions: Sessions, devices: Devices, pending: Batch, ttl: Time, sid: Bytes, now: Time)
    requires SessionInv(h, sessions, devices, pending) && OneSessionPerDid(sessions)
    ensures var (after, found) := Lookup(sessions, ttl, sid, now);
            && SessionInv(h, after, devices, pending) && OneSessionPerDid(after)
            && (found.Some? ==> after == sessions && sid in sessions && found.value == sessions[sid])
  {
  }

  /** Replacing one session: the new one must be in order and must not share its DID with another busy one. */
  lemma ReplaceSession(h: Hash, sessions: Sessions, devices: Devices, pending: Batch, sid: Bytes, s: Session)
    requires SessionInv(h, sessions, devices, pending) && OneSessionPerDid(sessions)
    requires SessionOk(h, s, devices, pending)
    requires Busy(s) ==> forall a :: a in sessions && a != sid && Busy(sessions[a]) ==> sessions[a].did != s.did
    ensures SessionInv(h, sessions[sid := s], devices, pending) && OneSessionPerDid(sessions[sid := s])
  {
  }

  /** The busy session of a DID moves on while the record of that DID changes: no other session notices. */
  lemma AdvanceSession(h: Hash, sessions: Sessions, devices: Devices, pending: Batch, pending': Batch,
                       sid: Bytes, s: Session, d: Bytes, r: Device)
    requires SessionInv(h, sessions, devices, pending) && OneSessionPerDid(sessions)
    requires sid in sessions && Busy(sessions[sid]) && sessions[sid].did == s.did == Some(d)
    requires forall e :: e in pending' ==> e in pending || e == d
    requires SessionOk(h, s, devices[d := r], pending')
    ensures SessionInv(h, sessions[sid := s], devices[d := r], pending') && OneSessionPerDid(sessions[sid := s])
  {
    var after := sessions[sid := s];
    forall a | a in after ensures SessionOk(h, after[a], devices[d := r], pending') {
      if a != sid && Busy(sessions[a]) {
        assert SessionOk(h, sessions[a], devices, pending) && sessions[a].did != Some(d);
      }
    }
  }

  lemma SessionsFollowRevocation(h: Hash, sessions: Sessions, devices: Devices, pending: Batch, d: Bytes)
    requires SessionInv(h, sessions, devices, pending) && d in devices
    ensures SessionInv(h, sessions, devices[d := devices[d].(status := Revoked)], pending)
  {
    forall a | a in sessions ensures SessionOk(h, sessions[a], devices[d := devices[d].(status := Revoked)], pending) {
      assert SessionOk(h, sessions[a], devices, pending);
    }
  }

  // ---------- one record is added or grows ----------

  lemma RecordsFollow(h: Hash, devices: Devices, d: Bytes, r: Device)
    requires DeviceInv(h, devices) && DeviceOk(h, d, r) && (d in devices ==> RecordGrows(devices[d], r))
    ensures DeviceInv(h, devices[d := r]) && DevicesGrow(devices, devices[d := r])
  {
  }

  predicate EntryFits(h: Hash, d: Bytes, r: Device, e: PendingEntry) {
    && r.status != Registered && r.metadata.Some?
    && e == PendingEntry(r.publicKey, h(LeafInput(Identity(d, r.publicKey))))
  }

  lemma BatchFollows(h: Hash, devices: Devices, pending: Batch, pending': Batch, d: Bytes, r: Device)
    requires BatchInv(h, devices, pending)
    requires forall e :: e in pending' && e != d ==> e in pending && pending'[e] == pending[e]
    requires d in pending' ==> EntryFits(h, d, r, pending'[d])
    ensures BatchInv(h, devices[d := r], pending')
  {
  }

  lemma TokensFollow(devices: Devices, issued: map<Bytes, Bytes>, revoked: set<Bytes>, revoked': set<Bytes>, d: Bytes,
                     r: Device)
    requires TokenInv(devices, issued, revoked) && revoked <= revoked'
    requires r.status == Revoked ==> forall t :: t in issued && issued[t] == d ==> t in revoked'
    ensures TokenInv(devices[d := r], issued, revoked')
  {
  }

  // ---------- registration steps ----------

  lemma StartKeeps(cfg: Config, st: FogState, i: Input)
    requires OnboardingInv(cfg, st) && i.StartInput?
    ensures OnboardingInv(cfg, Step(cfg, st, i).0) && DevicesGrow(st.devices, Step(cfg, st, i).0.devices)
  {
    if i.pskAccepted {
      ReplaceSession(cfg.keys.crypto.hash, st.sessions, st.devices, st.epochs.pending, i.sid,
        Session(i.now, Authenticated, None, None, None, 0, true));
    }
  }

  lemma SubmitKeyKeeps(cfg: Config, st: FogState, i: Input)
    requires OnboardingInv(cfg, st) && i.KeyInput?
    ensures OnboardingInv(cfg, Step(cfg, st, i).0) && DevicesGrow(st.devices, Step(cfg, st, i).0.devices)
  {
    var h := cfg.keys.crypto.hash;
    LookupKeeps(h, st.sessions, st.devices, st.epochs.pending, cfg.sessionTtl, i.sid, i.now);
    if SubmitKey(cfg, st, i).1.ChallengeSent? {
      KeyShape(cfg, st, i);
      ReplaceSession(h, st.sessions, st.devices, st.epochs.pending, i.sid, KeyChallenged(cfg, st.sessions[i.sid], i));
    }
  }

  /** What an accepted key leaves behind: no record and no other session has this DID. */
  lemma KeyShape(cfg: Config, st: FogState, i: Input)
    requires i.KeyInput? && SubmitKey(cfg, st, i).1.ChallengeSent?
    ensures i.sid in st.sessions
    ensures SubmitKey(cfg, st, i).0 == st.(sessions := st.sessions[i.sid := KeyChallenged(cfg, st.sessions[i.sid], i)])
    ensures i.publicKey.Some? && |i.publicKey.value| == COMPRESSED_PK_LEN
    ensures i.did == DeriveDid(cfg.keys.crypto.hash, i.publicKey.value) && i.did !in st.devices
    ensures forall a :: a in st.sessions && a != i.sid && Busy(st.sessions[a]) ==> st.sessions[a].did != Some(i.did)
  {
  }

  /** The attempt that /pop makes: on a live session that waits for a proof. */
  predicate PopReady(cfg: Config, st: FogState, i: Input)
    requires i.PopInput?
  {
    var found := Lookup(st.sessions, cfg.sessionTtl, i.sid, i.now).1;
    found.Some? && found.value.state == KeySubmitted
  }

  lemma PopShape(cfg: Config, st: FogState, i: Input)
    requires i.PopInput? && PopReady(cfg, st, i)
    ensures i.sid in st.sessions && st.sessions[i.sid].state == KeySubmitted
    ensures var (s, passed) := VerifyPop(cfg.keys.crypto, st.sessions[i.sid], i.signature, i.now);
            var did, record := s.did.GetOr([]), Device(s.publicKey.GetOr([]), Pending, None, None, None);
            ProvePossession(cfg, st, i) ==
              if passed then (st.(sessions := st.sessions[i.sid := s.(state := PopVerified)],
                                  devices := st.devices[did := record]), KeyProven(did))
              else (st.(sessions := st.sessions[i.sid := s.(state := Authenticated)]), Refused(403))
  {
  }

  lemma RefusePop(cfg: Config, st: FogState, i: Input)
    requires i.PopInput? && !PopReady(cfg, st, i)
    ensures ProvePossession(cfg, st, i).0 == st.(sessions := Lookup(st.sessions, cfg.sessionTtl, i.sid, i.now).0)
    ensures ProvePossession(cfg, st, i).1.Refused?
  {
  }

  /** `upsert` in /pop never overwrites a record. */
  lemma ProvePossessionKeeps(cfg: Config, st: FogState, i: Input)
    requires OnboardingInv(cfg, st) && i.PopInput?
    ensures OnboardingInv(cfg, Step(cfg, st, i).0)
    ensures Step(cfg, st, i).1.KeyProven? ==> Step(cfg, st, i).1.did !in st.devices
    ensures DevicesGrow(st.devices, Step(cfg, st, i).0.devices)
  {
    if PopReady(cfg, st, i) {
      PopShape(cfg, st, i);
      ProofKeeps(cfg, st, i.sid, i.signature, i.now);
    } else {
      RefusePop(cfg, st, i);
      LookupKeeps(cfg.keys.crypto.hash, st.sessions, st.devices, st.epochs.pending, cfg.sessionTtl, i.sid, i.now);
    }
  }

  lemma ProofKeeps(cfg: Config, st: FogState, sid: Bytes, signature: Option<Bytes>, now: Time)
    requires OnboardingInv(cfg, st) && sid in st.sessions && st.sessions[sid].state == KeySubmitted
    ensures var (s, passed) := VerifyPop(cfg.keys.crypto, st.sessions[sid], signature, now);
            var did, record := s.did.GetOr([]), Device(s.publicKey.GetOr([]), Pending, None, None, None);
            && did !in st.devices && DevicesGrow(st.devices, st.devices[did := record])
            && OnboardingInv(cfg, st.(sessions := st.sessions[sid := s.(state := Authenticated)]))
            && OnboardingInv(cfg, st.(sessions := st.sessions[sid := s.(state := PopVerified)],
                                      devices := st.devices[did := record]))
  {
    var h := cfg.keys.crypto.hash;
    var (s, passed) := VerifyPop(cfg.keys.crypto, st.sessions[sid], signature, now);
    assert SessionOk(h, st.sessions[sid], st.devices, st.epochs.pending);
    var d, r := s.did.value, Device(s.publicKey.value, Pending, None, None, None);
    RecordsFollow(h, st.devices, d, r);
    BatchFollows(h, st.devices, st.epochs.pending, st.epochs.pending, d, r);
    TokensFollow(st.devices, st.issued, st.revokedTokens, st.revokedTokens, d, r);
    AdvanceSession(h, st.sessions, st.devices, st.epochs.pending, st.epochs.pending, sid, s.(state := PopVerified), d,
                   r);
    ReplaceSession(h, st.sessions, st.devices, st.epochs.pending, sid, s.(state := Authenticated));
  }

  /** A session that has proven its key and sends valid metadata in time. */
  predicate MetadataReady(cfg: Config, st: FogState, i: Input)
    requires i.MetadataInput?
  {
    var found := Lookup(st.sessions, cfg.sessionTtl, i.sid, i.now).1;
    found.Some? && found.value.state == PopVerified && cfg.validMetadata(i.metadata)
  }

  /** `add_leaf` in /metadata never raises. */
  lemma SubmitMetadataKeeps(cfg: Config, st: FogState, i: Input)
    requires OnboardingInv(cfg, st) && i.MetadataInput?
    ensures OnboardingInv(cfg, Step(cfg, st, i).0)
    ensures DevicesGrow(st.devices, Step(cfg, st, i).0.devices)
    ensures MetadataReady(cfg, st, i) <==> Step(cfg, st, i).1.QueuedForBatch?
    ensures Step(cfg, st, i).1 != Crashed
  {
    if MetadataReady(cfg, st, i) {
      AcceptMetadataKeeps(cfg, st, i);
    } else {
      LookupKeeps(cfg.keys.crypto.hash, st.sessions, st.devices, st.epochs.pending, cfg.sessionTtl, i.sid, i.now);
      RefuseMetadata(cfg, st, i);
    }
  }

  lemma RefuseMetadata(cfg: Config, st: FogState, i: Input)
    requires i.MetadataInput? && !MetadataReady(cfg, st, i)
    ensures Step(cfg, st, i).0 == st.(sessions := Lookup(st.sessions, cfg.sessionTtl, i.sid, i.now).0)
    ensures Step(cfg, st, i).1.Refused?
  {
  }

  lemma AcceptMetadataKeeps(cfg: Config, st: FogState, i: Input)
    requires OnboardingInv(cfg, st) && i.MetadataInput? && MetadataReady(cfg, st, i)
    ensures OnboardingInv(cfg, SubmitMetadata(cfg, st, i).0)
    ensures DevicesGrow(st.devices, SubmitMetadata(cfg, st, i).0.devices)
    ensures SubmitMetadata(cfg, st, i).1.QueuedForBatch?
  {
    var h, s := cfg.keys.crypto.hash, st.sessions[i.sid];
    var leaf := MetadataShape(cfg, st, i);
    var d := s.did.value;
    var r := st.devices[d].(metadata := Some(i.metadata), leaf := Some(leaf));
    var pending := st.epochs.pending[d := PendingEntry(s.publicKey.value, leaf)];
    assert DeviceOk(h, d, st.devices[d]);
    RecordsFollow(h, st.devices, d, r);
    BatchFollows(h, st.devices, st.epochs.pending, pending, d, r);
    TokensFollow(st.devices, st.issued, st.revokedTokens, st.revokedTokens, d, r);
    AdvanceSession(h, st.sessions, st.devices, st.epochs.pending, pending, i.sid, s.(state := MetadataAccepted), d, r);
  }

  /** The record and the batch entry that a successful /metadata leaves behind. */
  lemma MetadataShape(cfg: Config, st: FogState, i: Input) returns (leaf: Bytes)
    requires OnboardingInv(cfg, st) && i.MetadataInput? && MetadataReady(cfg, st, i)
    ensures SessionOk(cfg.keys.crypto.hash, st.sessions[i.sid], st.devices, st.epochs.pending)
    ensures var (d, pk) := (st.sessions[i.sid].did.value, st.sessions[i.sid].publicKey.value);
            && leaf == cfg.keys.crypto.hash(LeafInput(Identity(d, pk)))
            && SubmitMetadata(cfg, st, i)
               == (st.(sessions := st.sessions[i.sid := st.sessions[i.sid].(state := MetadataAccepted)],
                       devices := st.devices[d := st.devices[d].(metadata := Some(i.metadata), leaf := Some(leaf))],
                       epochs := st.epochs.(pending := st.epochs.pending[d := PendingEntry(pk, leaf)])),
                   QueuedForBatch(leaf, st.epochs.current))
  {
    var h, s := cfg.keys.crypto.hash, st.sessions[i.sid];
    assert SessionOk(h, s, st.devices, st.epochs.pending);
    assert DeviceOk(h, s.did.value, st.devices[s.did.value]);
    leaf := h(LeafInput(Identity(s.did.value, s.publicKey.value)));
  }

  /** Only /tokens/issue answers with a token. */
  lemma TokenSentByIssue(cfg: Config, st: FogState, i: Input)
    requires Step(cfg, st, i).1.TokenSent?
    ensures i.TokenInput?
  {
    if i.TokenNonceInput? || i.AccessInput? || i.VerifyNonceInput? || i.VerifyInput? {
      NonceStepsShape(cfg, st, i);
    } else if i.StartInput? || i.KeyInput? || i.PopInput? || i.MetadataInput? {
      RegistrationKeepsHistory(cfg, st, i);
    }
  }

  /** The session, record and token that a successful /tokens/issue touches. */
  lemma TokenSentShape(cfg: Config, st: FogState, i: Input)
    requires i.TokenInput? && IssueToken(cfg, st, i).1.TokenSent?
    requires OnboardingInv(cfg, st)
    ensures i.sid in st.sessions && st.sessions[i.sid].state == MetadataAccepted && st.sessions[i.sid].did.Some?
    ensures var d := st.sessions[i.sid].did.value;
            && d in st.devices && (st.devices[d].status == Pending || st.devices[d].status == Tokenized)
            && RoleFits(st.devices[d])
            && IssueToken(cfg, st, i).0 == st.(issued := st.issued[i.tokenId := d],
                                               devices := st.devices[d := st.devices[d].(status := Tokenized)])
  {
    LookupKeeps(cfg.keys.crypto.hash, st.sessions, st.devices, st.epochs.pending, cfg.sessionTtl, i.sid, i.now);
    assert SessionOk(cfg.keys.crypto.hash, st.sessions[i.sid], st.devices, st.epochs.pending);
  }

  /** What any call of /tokens/issue does: the session may be found expired, one record may become TOKENIZED. */
  lemma IssueShape(cfg: Config, st: FogState, i: Input)
    requires i.TokenInput?
    ensures var next := IssueToken(cfg, st, i).0;
            && next.epochs == st.epochs && next.sessions == Lookup(st.sessions, cfg.sessionTtl, i.sid, i.now).0
            && next.devices.Keys == st.devices.Keys
            && forall d :: d in st.devices ==> next.devices[d] in {st.devices[d], st.devices[d].(status := Tokenized)}
  {
  }

  lemma TokenizeKeeps(cfg: Config, st: FogState, sid: Bytes, tokenId: Bytes, d: Bytes)
    requires OnboardingInv(cfg, st)
    requires sid in st.sessions && st.sessions[sid].state == MetadataAccepted && st.sessions[sid].did == Some(d)
    requires d in st.devices && (st.devices[d].status == Pending || st.devices[d].status == Tokenized)
    ensures OnboardingInv(cfg, st.(issued := st.issued[tokenId := d],
                                   devices := st.devices[d := st.devices[d].(status := Tokenized)]))
    ensures DevicesGrow(st.devices, st.devices[d := st.devices[d].(status := Tokenized)])
  {
    var h := cfg.keys.crypto.hash;
    var s := st.sessions[sid];
    var r := st.devices[d].(status := Tokenized);
    assert SessionOk(h, s, st.devices, st.epochs.pending) && DeviceOk(h, d, st.devices[d]);
    RecordsFollow(h, st.devices, d, r);
    BatchFollows(h, st.devices, st.epochs.pending, st.epochs.pending, d, r);
    TokensFollow(st.devices, st.issued, st.revokedTokens, st.revokedTokens, d, r);
    AdvanceSession(h, st.sessions, st.devices, st.epochs.pending, st.epochs.pending, sid, s, d, r);
    assert st.sessions[sid := s] == st.sessions;
  }

  lemma IssueTokenKeeps(cfg: Config, st: FogState, i: Input)
    requires OnboardingInv(cfg, st) && i.TokenInput?
    ensures OnboardingInv(cfg, Step(cfg, st, i).0)
    ensures DevicesGrow(st.devices, Step(cfg, st, i).0.devices)
  {
    if IssueToken(cfg, st, i).1.TokenSent? {
      TokenSentShape(cfg, st, i);
      TokenizeKeeps(cfg, st, i.sid, i.tokenId, st.sessions[i.sid].did.value);
    } else {
      LookupKeeps(cfg.keys.crypto.hash, st.sessions, st.devices, st.epochs.pending, cfg.sessionTtl, i.sid, i.now);
    }
  }

  /** Revoking a device blacklists every token it was ever issued. */
  lemma RevokeKeeps(cfg: Config, st: FogState, i: Input)
    requires OnboardingInv(cfg, st) && i.RevokeInput?
    ensures OnboardingInv(cfg, Step(cfg, st, i).0)
    ensures DevicesGrow(st.devices, Step(cfg, st, i).0.devices)
    ensures Step(cfg, st, i).1 != Crashed
  {
    if i.isAdmin && !i.tokenOnly && i.did in st.devices {
      RevokeShape(cfg, st, i);
      RevokeDeviceKeeps(cfg, st, i.did, Revoke(cfg, st, i).0.revokedTokens);
    } else {
      TokenRevokeShape(cfg, st, i);
    }
  }

  lemma RevokeShape(cfg: Config, st: FogState, i: Input)
    requires i.RevokeInput? && i.isAdmin && !i.tokenOnly && i.did in st.devices
    ensures var (next, answer) := Revoke(cfg, st, i);
            && next == st.(devices := st.devices[i.did := st.devices[i.did].(status := Revoked)],
                           revokedTokens := next.revokedTokens)
            && st.revokedTokens + TokensOf(st.issued, i.did) <= next.revokedTokens && answer.RevocationDone?
  {
  }

  lemma TokenRevokeShape(cfg: Config, st: FogState, i: Input)
    requires OnboardingInv(cfg, st) && i.RevokeInput? && !(i.isAdmin && !i.tokenOnly && i.did in st.devices)
    ensures var (next, answer) := Revoke(cfg, st, i);
            && next == st.(revokedTokens := next.revokedTokens) && st.revokedTokens <= next.revokedTokens
            && answer != Crashed
  {
  }

  lemma RevokeDeviceKeeps(cfg: Config, st: FogState, did: Bytes, revoked: set<Bytes>)
    requires OnboardingInv(cfg, st) && did in st.devices && st.revokedTokens + TokensOf(st.issued, did) <= revoked
    ensures var devices := st.devices[did := st.devices[did].(status := Revoked)];
            OnboardingInv(cfg, st.(devices := devices, revokedTokens := revoked)) && DevicesGrow(st.devices, devices)
  {
    var h, r := cfg.keys.crypto.hash, st.devices[did].(status := Revoked);
    assert DeviceOk(h, did, st.devices[did]);
    RecordsFollow(h, st.devices, did, r);
    BatchFollows(h, st.devices, st.epochs.pending, st.epochs.pending, did, r);
    assert forall t :: t in st.issued && st.issued[t] == did ==> t in TokensOf(st.issued, did);
    TokensFollow(st.devices, st.issued, st.revokedTokens, revoked, did, r);
    SessionsFollowRevocation(h, st.sessions, st.devices, st.epochs.pending, did);
  }

  // ---------- closing an epoch ----------

  lemma MembersGenuine(k: FogKeys, devices: Devices, pending: Batch, exclude: set<Bytes>)
    requires DeviceInv(k.crypto.hash, devices) && BatchInv(k.crypto.hash, devices, pending)
    ensures var members := Members(k, devices, pending, exclude);
            && GenuineMembers(k.crypto.hash, members)
            && forall d :: d in members ==>
                 && d in devices && devices[d].status != Revoked && devices[d].metadata.Some?
                 && members[d].publicKey == devices[d].publicKey
  {
    var members := Members(k, devices, pending, exclude);
    forall d | d in members
      ensures d in devices && devices[d].status != Revoked && devices[d].metadata.Some?
      ensures members[d].publicKey == devices[d].publicKey
      ensures ValidIdentity(Identity(d, members[d].publicKey))
      ensures members[d].leaf == k.crypto.hash(LeafInput(Identity(d, members[d].publicKey)))
    {
      assert d in devices && DeviceOk(k.crypto.hash, d, devices[d]);
    }
  }

  lemma MembersReadBack(k: FogKeys, members: Batch, e: int)
    requires TreeAccepts(members)
    ensures MembersOf(PackagesOf(k, members, e)) == members
  {
    forall d | d in members ensures PackageOf(k, members, e, d).leaf == members[d].leaf {
      assert members[d].leaf in LeafSet(members);
    }
  }

  predicate PromotesLive(devices: Devices, p: Packages) {
    forall d :: d in p ==>
      && d in devices && devices[d].status != Revoked && devices[d].metadata.Some?
      && p[d].publicKey == Some(devices[d].publicKey)
  }

  lemma PromoteGrows(h: Hash, devices: Devices, p: Packages, e: int)
    requires DeviceInv(h, devices) && GenuineMembers(h, MembersOf(p))
    requires PromotesLive(devices, p)
    ensures DeviceInv(h, Promote(devices, p, e)) && DevicesGrow(devices, Promote(devices, p, e))
    ensures KeysOnRecord(Promote(devices, p, e), p) && ActiveInv(Promote(devices, p, e), p.Keys)
  {
    var after := Promote(devices, p, e);
    forall d | d in after ensures DeviceOk(h, d, after[d]) {
      assert DeviceOk(h, d, devices[d]);
      if d in p { assert MembersOf(p)[d].leaf == p[d].leaf; }
    }
  }

  lemma SessionsFollowClose(h: Hash, sessions: Sessions, devices: Devices, pending: Batch, p: Packages, e: int)
    requires SessionInv(h, sessions, devices, pending)
    requires forall d :: d in p ==> d in devices && (d in pending || devices[d].status == Registered)
    ensures SessionInv(h, sessions, Promote(devices, p, e), map[])
  {
    forall a | a in sessions ensures SessionOk(h, sessions[a], Promote(devices, p, e), map[]) {
      assert SessionOk(h, sessions[a], devices, pending);
    }
  }

  lemma TokensFollowClose(devices: Devices, issued: map<Bytes, Bytes>, revoked: set<Bytes>, p: Packages, e: int)
    requires TokenInv(devices, issued, revoked)
    ensures TokenInv(Promote(devices, p, e), issued, revoked)
  {
  }

  lemma PackagesCommit(k: FogKeys, members: Batch, e: int)
    requires GenuineMembers(k.crypto.hash, members) && TreeAccepts(members) && |SortedLeaves(members)| > 0
    ensures Committed(k, e, PackagesOf(k, members, e), Root(k.crypto.hash, SortedLeaves(members)))
  {
    MembersReadBack(k, members, e);
  }

  lemma CommitExtends(k: FogKeys, current: int, packages: map<int, Packages>, rootCache: map<int, Bytes>, p: Packages,
                      root: Bytes)
    requires EpochInv(k, current, packages, rootCache) && Committed(k, current, p, root)
    ensures EpochInv(k, current + 1, packages[current := p], rootCache[current := root])
  {
  }

  lemma RecordsExtend(devices: Devices, packages: map<int, Packages>, p: Packages, e: int)
    requires RecordInv(devices, packages) && KeysOnRecord(devices, p)
    ensures RecordInv(devices, packages[e := p])
  {
  }

  /** `next` is `st` after a window closed, and `r` is the result: packages for the members, their root anchored. */
  ghost predicate Seals(k: FogKeys, st: FogState, exclude: set<Bytes>, timestamp: Bytes, next: FogState,
                        r: EpochResult) {
    var members := Members(k, st.devices, st.epochs.pending, exclude);
    && TreeAccepts(members) && |SortedLeaves(members)| > 0
    && r.epochId == st.epochs.current && r.packages == PackagesOf(k, members, r.epochId)
    && r.root == Root(k.crypto.hash, SortedLeaves(members))
    && Issues(st, r.packages, next)
    && Anchor(k.crypto, k.fogId, st.ledger, r.epochId, r.root, |SortedLeaves(members)|, timestamp) == Ok(next.ledger)
    && Extends(st.ledger, r, next.ledger)
  }

  /** `next` is `st` after a window closed with the packages `p`: everything but the ledger. */
  predicate Issues(st: FogState, p: Packages, next: FogState) {
    && next.devices == Promote(st.devices, p, st.epochs.current) && next.epochs == NextWindow(st.epochs, p)
    && next.sessions == st.sessions && next.issued == st.issued && next.revokedTokens == st.revokedTokens
    && next.nonces == st.nonces
  }

  predicate Extends(before: LedgerState, r: EpochResult, after: LedgerState) {
    && r.epochId !in before.rootCache && after.rootCache == before.rootCache[r.epochId := r.root]
    && after.blocks == before.blocks + [r.block]
  }

  /** A close does that or changes nothing. */
  lemma CloseStep(cfg: Config, st: FogState, i: Input)
    requires i.CloseInput?
    ensures var (next, answer) := Step(cfg, st, i);
            if answer.EpochClosed? then Seals(cfg.keys, st, i.exclude, i.timestamp, next, answer.result) else next == st
  {
    if CloseEpoch(cfg, st, i).1.EpochClosed? { FinalizeSeals(cfg.keys, st, i.exclude, i.timestamp); }
  }

  lemma FinalizeSeals(k: FogKeys, st: FogState, exclude: set<Bytes>, timestamp: Bytes)
    requires Finalize(k, st.devices, st.epochs, st.ledger, exclude, timestamp).Ok?
    ensures var closed := Finalize(k, st.devices, st.epochs, st.ledger, exclude, timestamp).value;
            var next := st.(devices := closed.devices, epochs := closed.epochs, ledger := closed.ledger);
            Seals(k, st, exclude, timestamp, next, closed.result)
  {
    FinalizeUnfold(k, st.devices, st.epochs, st.ledger, exclude, timestamp);
  }

  lemma SealKeepsHistory(cfg: Config, st: FogState, exclude: set<Bytes>, timestamp: Bytes, next: FogState,
                         r: EpochResult)
    requires Inv(cfg, st) && Seals(cfg.keys, st, exclude, timestamp, next, r)
    ensures HistoryInv(cfg, next)
  {
    var members := Members(cfg.keys, st.devices, st.epochs.pending, exclude);
    MembersGenuine(cfg.keys, st.devices, st.epochs.pending, exclude);
    MembersCommit(cfg.keys, st.epochs, st.ledger.rootCache, members);
    MembersLatest(cfg.keys, st.epochs, members);
  }

  lemma PackagesCarryEpoch(k: FogKeys, members: Batch, e: int)
    requires TreeAccepts(members)
    ensures forall d :: d in PackagesOf(k, members, e) ==> PackagesOf(k, members, e)[d].epochId == e
  {
  }

  lemma MembersCommit(k: FogKeys, epochs: EpochState, rootCache: map<int, Bytes>, members: Batch)
    requires GenuineMembers(k.crypto.hash, members) && TreeAccepts(members) && |SortedLeaves(members)| > 0
    requires EpochInv(k, epochs.current, epochs.packages, rootCache)
    ensures var p, root := PackagesOf(k, members, epochs.current), Root(k.crypto.hash, SortedLeaves(members));
            EpochInv(k, epochs.current + 1, epochs.packages[epochs.current := p], rootCache[epochs.current := root])
  {
    var p, root := PackagesOf(k, members, epochs.current), Root(k.crypto.hash, SortedLeaves(members));
    PackagesCommit(k, members, epochs.current);
    CommitExtends(k, epochs.current, epochs.packages, rootCache, p, root);
  }

  lemma MembersLatest(k: FogKeys, epochs: EpochState, members: Batch)
    requires TreeAccepts(members) && LatestInv(epochs.packages, epochs.latest)
    requires forall e :: e in epochs.packages ==> e < epochs.current
    ensures var p := PackagesOf(k, members, epochs.current);
            LatestInv(epochs.packages[epochs.current := p], epochs.latest + p)
  {
    PackagesCarryEpoch(k, members, epochs.current);
    LatestExtends(epochs.current, epochs.packages, epochs.latest, PackagesOf(k, members, epochs.current));
  }

  /** A close promotes live members only, the keys of their packages being those on record. */
  lemma ClosePromotesLive(k: FogKeys, devices: Devices, pending: Batch, exclude: set<Bytes>, e: int)
    requires DeviceInv(k.crypto.hash, devices) && BatchInv(k.crypto.hash, devices, pending)
    requires TreeAccepts(Members(k, devices, pending, exclude))
    ensures var p := PackagesOf(k, Members(k, devices, pending, exclude), e);
            && PromotesLive(devices, p) && GenuineMembers(k.crypto.hash, MembersOf(p))
            && forall d :: d in p ==> d in pending || devices[d].status == Registered
  {
    MembersGenuine(k, devices, pending, exclude);
    MembersReadBack(k, Members(k, devices, pending, exclude), e);
  }

  lemma PromoteKeeps(cfg: Config, st: FogState, p: Packages, next: FogState)
    requires RecordsInv(cfg, st)
    requires PromotesLive(st.devices, p) && GenuineMembers(cfg.keys.crypto.hash, MembersOf(p))
    requires forall d :: d in p ==> d in st.epochs.pending || st.devices[d].status == Registered
    requires Issues(st, p, next)
    ensures RecordsInv(cfg, next) && DevicesGrow(st.devices, next.devices)
  {
    var h, e := cfg.keys.crypto.hash, st.epochs.current;
    PromoteGrows(h, st.devices, p, e);
    SessionsFollowClose(h, st.sessions, st.devices, st.epochs.pending, p, e);
    TokensFollowClose(st.devices, st.issued, st.revokedTokens, p, e);
    GrowKeepsRecords(st.devices, next.devices, st.epochs.packages, st.epochs.active);
    RecordsExtend(next.devices, st.epochs.packages, p, e);
  }

  lemma SealKeepsRecords(cfg: Config, st: FogState, exclude: set<Bytes>, timestamp: Bytes, next: FogState,
                         r: EpochResult)
    requires RecordsInv(cfg, st) && Seals(cfg.keys, st, exclude, timestamp, next, r)
    ensures RecordsInv(cfg, next) && DevicesGrow(st.devices, next.devices)
  {
    ClosePromotesLive(cfg.keys, st.devices, st.epochs.pending, exclude, st.epochs.current);
    PromoteKeeps(cfg, st, r.packages, next);
  }

  // ---------- every step, every run ----------

  /** Only a close touches the ledger, the packages and the open epoch's number. */
  predicate SameHistory(a: FogState, b: FogState) {
    && b.ledger == a.ledger && b.epochs.current == a.epochs.current
    && b.epochs.packages == a.epochs.packages && b.epochs.latest == a.epochs.latest
    && b.epochs.active == a.epochs.active
  }

  lemma OtherStepsKeepHistory(cfg: Config, st: FogState, i: Input)
    requires !i.CloseInput?
    ensures SameHistory(st, Step(cfg, st, i).0) && !Step(cfg, st, i).1.EpochClosed?
  {
    if i.StartInput? || i.KeyInput? || i.PopInput? || i.MetadataInput? {
      RegistrationKeepsHistory(cfg, st, i);
    } else if i.TokenInput? || i.RevokeInput? {
      RecordStepsKeepHistory(cfg, st, i);
    } else {
      NonceStepsShape(cfg, st, i);
    }
  }

  lemma RegistrationKeepsHistory(cfg: Config, st: FogState, i: Input)
    requires i.StartInput? || i.KeyInput? || i.PopInput? || i.MetadataInput?
    ensures SameHistory(st, Step(cfg, st, i).0)
    ensures !Step(cfg, st, i).1.EpochClosed? && !Step(cfg, st, i).1.TokenSent?
  {
  }

  lemma RecordStepsKeepHistory(cfg: Config, st: FogState, i: Input)
    requires i.TokenInput? || i.RevokeInput?
    ensures SameHistory(st, Step(cfg, st, i).0) && !Step(cfg, st, i).1.EpochClosed?
  {
  }

  lemma NonceStepsShape(cfg: Config, st: FogState, i: Input)
    requires i.TokenNonceInput? || i.AccessInput? || i.VerifyNonceInput? || i.VerifyInput?
    ensures Step(cfg, st, i).0 == st.(nonces := Step(cfg, st, i).0.nonces)
    ensures !Step(cfg, st, i).1.EpochClosed? && !Step(cfg, st, i).1.TokenSent?
  {
  }

  lemma NonceStepsKeep(cfg: Config, st: FogState, i: Input)
    requires OnboardingInv(cfg, st)
    requires i.TokenNonceInput? || i.AccessInput? || i.VerifyNonceInput? || i.VerifyInput?
    ensures OnboardingInv(cfg, Step(cfg, st, i).0) && DevicesGrow(st.devices, Step(cfg, st, i).0.devices)
  {
    NonceStepsShape(cfg, st, i);
  }

  lemma OtherStepsKeepOnboarding(cfg: Config, st: FogState, i: Input)
    requires OnboardingInv(cfg, st) && !i.CloseInput?
    ensures OnboardingInv(cfg, Step(cfg, st, i).0) && DevicesGrow(st.devices, Step(cfg, st, i).0.devices)
  {
    match i
    case StartInput(_, _, _) => StartKeeps(cfg, st, i);
    case KeyInput(_, _, _, _, _) => SubmitKeyKeeps(cfg, st, i);
    case PopInput(_, _, _) => ProvePossessionKeeps(cfg, st, i);
    case MetadataInput(_, _, _) => SubmitMetadataKeeps(cfg, st, i);
    case TokenInput(_, _, _) => IssueTokenKeeps(cfg, st, i);
    case RevokeInput(_, _, _, _) => RevokeKeeps(cfg, st, i);
    case _ => NonceStepsKeep(cfg, st, i);
  }

  lemma StepKeepsRecords(cfg: Config, st: FogState, i: Input)
    requires RecordsInv(cfg, st)
    ensures RecordsInv(cfg, Step(cfg, st, i).0) && DevicesGrow(st.devices, Step(cfg, st, i).0.devices)
  {
    var (next, answer) := Step(cfg, st, i);
    if !i.CloseInput? {
      OtherStepsKeepOnboarding(cfg, st, i);
      OtherStepsKeepHistory(cfg, st, i);
      GrowKeepsRecords(st.devices, next.devices, st.epochs.packages, st.epochs.active);
    } else {
      CloseStep(cfg, st, i);
      if answer.EpochClosed? { SealKeepsRecords(cfg, st, i.exclude, i.timestamp, next, answer.result); }
    }
  }

  lemma StepKeepsHistory(cfg: Config, st: FogState, i: Input)
    requires Inv(cfg, st)
    ensures HistoryInv(cfg, Step(cfg, st, i).0)
  {
    var (next, answer) := Step(cfg, st, i);
    if !i.CloseInput? {
      OtherStepsKeepHistory(cfg, st, i);
    } else {
      CloseStep(cfg, st, i);
      if answer.EpochClosed? { SealKeepsHistory(cfg, st, i.exclude, i.timestamp, next, answer.result); }
    }
  }

  lemma StepKeeps(cfg: Config, st: FogState, i: Input)
    requires Inv(cfg, st)
    ensures Inv(cfg, Step(cfg, st, i).0) && DevicesGrow(st.devices, Step(cfg, st, i).0.devices)
  {
    StepKeepsRecords(cfg, st, i);
    StepKeepsHistory(cfg, st, i);
  }

  /** The invariant holds in every state that a run can reach. */
  lemma {:induction false} RunKeeps(cfg: Config, inputs: seq<Input>)
    ensures Inv(cfg, Run(cfg, inputs))
  {
    if inputs != [] {
      RunKeeps(cfg, inputs[..|inputs| - 1]);
      StepKeeps(cfg, Run(cfg, inputs[..|inputs| - 1]), inputs[|inputs| - 1]);
    }
  }

  // ---------- the ledger ----------

  lemma StepKeepsLedger(cfg: Config, st: FogState, i: Input)
    requires SignatureCorrect(cfg.keys.crypto) && LedgerInv(cfg.keys.crypto, st.ledger)
    ensures LedgerInv(cfg.keys.crypto, Step(cfg, st, i).0.ledger)
  {
    var (next, answer) := Step(cfg, st, i);
    if !i.CloseInput? {
      OtherStepsKeepHistory(cfg, st, i);
    } else {
      CloseStep(cfg, st, i);
      if answer.EpochClosed? { SealKeepsLedger(cfg.keys, st, i.exclude, i.timestamp, next, answer.result); }
    }
  }

  lemma SealKeepsLedger(k: FogKeys, st: FogState, exclude: set<Bytes>, timestamp: Bytes, next: FogState, r: EpochResult)
    requires SignatureCorrect(k.crypto) && LedgerInv(k.crypto, st.ledger) && Seals(k, st, exclude, timestamp, next, r)
    ensures LedgerInv(k.crypto, next.ledger)
  {
    var leaves := SortedLeaves(Members(k, st.devices, st.epochs.pending, exclude));
    AnchorKeepsInv(k.crypto, k.fogId, st.ledger, r.epochId, r.root, |leaves|, timestamp);
  }

  lemma {:induction false} RunKeepsLedger(cfg: Config, inputs: seq<Input>)
    requires SignatureCorrect(cfg.keys.crypto)
    ensures LedgerInv(cfg.keys.crypto, Run(cfg, inputs).ledger)
  {
    if inputs != [] {
      RunKeepsLedger(cfg, inputs[..|inputs| - 1]);
      StepKeepsLedger(cfg, Run(cfg, inputs[..|inputs| - 1]), inputs[|inputs| - 1]);
    }
  }
}
