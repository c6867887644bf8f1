/** Who can still become a member: registration that is open, registration that is closed for good, and the
    honest device that gets through. */
module FogReach {
  import opened Basics
  import opened Canonical
  import opened Signing
  import opened Messages
  import opened Policy
  import opened ProofPackages
  import opened Ledgers
  import opened Nonces
  import opened Epochs
  import opened FogState
  import opened FogInvariant
  import opened FogTheorems
  import opened FogDecisions

  // ---------- devices that can no longer register ----------

  predicate ProvenSession(st: FogState, sid: Bytes, d: Bytes) {
    sid in st.sessions && st.sessions[sid].state == PopVerified && st.sessions[sid].did == Some(d)
  }

  /** A proven session that can still send its metadata: from time t on, or, without t, at any time at all. */
  predicate OpenSession(cfg: Config, st: FogState, sid: Bytes, d: Bytes, t: Option<Time>) {
    ProvenSession(st, sid, d) && (t.Some? ==> t.value <= st.sessions[sid].createdAt + cfg.sessionTtl)
  }

  /** On record, but neither registered nor queued nor able to send its metadata from time t on. */
  ghost predicate ShutOut(cfg: Config, st: FogState, d: Bytes, t: Option<Time>) {
    && d in st.devices && st.devices[d].status != Registered && d !in st.epochs.pending
    && forall sid :: !OpenSession(cfg, st, sid, d, t)
  }

  /** Whatever the clock does. */
  ghost predicate LockedOut(st: FogState, d: Bytes) {
    && d in st.devices && st.devices[d].status != Registered && d !in st.epochs.pending
    && forall sid :: !ProvenSession(st, sid, d)
  }

  lemma LockedIsShut(cfg: Config, st: FogState, d: Bytes)
    ensures LockedOut(st, d) <==> ShutOut(cfg, st, d, None)
  {
    assert forall sid :: OpenSession(cfg, st, sid, d, None) <==> ProvenSession(st, sid, d);
  }

  /** The call is not dated before t; closing an epoch and revoking read no clock that decides anything. */
  predicate DatedFrom(i: Input, t: Option<Time>) {
    t.Some? && !i.CloseInput? && !i.RevokeInput? ==> i.now >= t.value
  }

  lemma SessionsStayShut(cfg: Config, st: FogState, next: FogState, d: Bytes, t: Option<Time>)
    requires ShutOut(cfg, st, d, t)
    requires d in next.devices && next.devices[d].status != Registered && d !in next.epochs.pending
    requires forall sid :: ProvenSession(next, sid, d) ==> sid in st.sessions && st.sessions[sid] == next.sessions[sid]
    ensures ShutOut(cfg, next, d, t)
  {
    forall sid ensures !OpenSession(cfg, next, sid, d, t) {
      assert !OpenSession(cfg, st, sid, d, t);
    }
  }

  lemma RegistrationKeepsShut(cfg: Config, st: FogState, i: Input, d: Bytes, t: Option<Time>)
    requires ShutOut(cfg, st, d, t) && (i.StartInput? || i.KeyInput?)
    ensures ShutOut(cfg, Step(cfg, st, i).0, d, t)
  {
    var next := Step(cfg, st, i).0;
    assert next == st.(sessions := next.sessions);
    SessionsStayShut(cfg, st, next, d, t);
  }

  lemma PopKeepsShut(cfg: Config, st: FogState, i: Input, d: Bytes, t: Option<Time>)
    requires OnboardingInv(cfg, st) && ShutOut(cfg, st, d, t) && i.PopInput?
    ensures ShutOut(cfg, Step(cfg, st, i).0, d, t)
  {
    if PopReady(cfg, st, i) {
      PopShape(cfg, st, i);
      assert SessionOk(cfg.keys.crypto.hash, st.sessions[i.sid], st.devices, st.epochs.pending);
    } else {
      RefusePop(cfg, st, i);
    }
    SessionsStayShut(cfg, st, Step(cfg, st, i).0, d, t);
  }

  lemma MetadataKeepsShut(cfg: Config, st: FogState, i: Input, d: Bytes, t: Option<Time>)
    requires OnboardingInv(cfg, st) && ShutOut(cfg, st, d, t) && i.MetadataInput? && DatedFrom(i, t)
    ensures ShutOut(cfg, Step(cfg, st, i).0, d, t)
  {
    if MetadataReady(cfg, st, i) {
      var leaf := MetadataShape(cfg, st, i);
      assert !OpenSession(cfg, st, i.sid, d, t);
    } else {
      RefuseMetadata(cfg, st, i);
    }
    SessionsStayShut(cfg, st, Step(cfg, st, i).0, d, t);
  }

  lemma TokenKeepsShut(cfg: Config, st: FogState, i: Input, d: Bytes, t: Option<Time>)
    requires ShutOut(cfg, st, d, t) && i.TokenInput?
    ensures ShutOut(cfg, Step(cfg, st, i).0, d, t)
  {
    IssueShape(cfg, st, i);
    SessionsStayShut(cfg, st, Step(cfg, st, i).0, d, t);
  }

  lemma RevokeKeepsShut(cfg: Config, st: FogState, i: Input, d: Bytes, t: Option<Time>)
    requires ShutOut(cfg, st, d, t) && i.RevokeInput?
    ensures ShutOut(cfg, Step(cfg, st, i).0, d, t)
  {
    var next := Step(cfg, st, i).0;
    assert next.epochs == st.epochs && next.sessions == st.sessions;
    SessionsStayShut(cfg, st, next, d, t);
  }

  lemma NonceStepKeepsShut(cfg: Config, st: FogState, i: Input, d: Bytes, t: Option<Time>)
    requires ShutOut(cfg, st, d, t)
    requires i.TokenNonceInput? || i.AccessInput? || i.VerifyNonceInput? || i.VerifyInput?
    ensures ShutOut(cfg, Step(cfg, st, i).0, d, t)
  {
    NonceStepsShape(cfg, st, i);
    SessionsStayShut(cfg, st, Step(cfg, st, i).0, d, t);
  }

  /** A window that closes without packaging `d`, by which the batch is emptied. */
  lemma IssueLeavesOut(cfg: Config, st: FogState, p: Packages, next: FogState, d: Bytes, t: Option<Time>)
    requires Issues(st, p, next) && d !in p && d in st.devices && st.devices[d].status != Registered
    requires forall sid :: !OpenSession(cfg, st, sid, d, t)
    ensures ShutOut(cfg, next, d, t)
  {
    forall sid ensures !OpenSession(cfg, next, sid, d, t) {
      assert !OpenSession(cfg, st, sid, d, t);
    }
  }

  lemma ShutIsNoMember(cfg: Config, st: FogState, exclude: set<Bytes>, d: Bytes, t: Option<Time>)
    requires ShutOut(cfg, st, d, t)
    ensures d !in Members(cfg.keys, st.devices, st.epochs.pending, exclude).Keys
  {
  }

  lemma CloseKeepsShut(cfg: Config, st: FogState, i: Input, d: Bytes, t: Option<Time>)
    requires ShutOut(cfg, st, d, t) && i.CloseInput?
    ensures ShutOut(cfg, Step(cfg, st, i).0, d, t)
    ensures Step(cfg, st, i).1.EpochClosed? ==> d !in Step(cfg, st, i).1.result.packages
  {
    var (next, answer) := Step(cfg, st, i);
    CloseStep(cfg, st, i);
    if answer.EpochClosed? {
      ShutIsNoMember(cfg, st, i.exclude, d, t);
      IssueLeavesOut(cfg, st, answer.result.packages, next, d, t);
    }
  }

  lemma StepKeepsShut(cfg: Config, st: FogState, i: Input, d: Bytes, t: Option<Time>)
    requires OnboardingInv(cfg, st) && ShutOut(cfg, st, d, t) && DatedFrom(i, t)
    ensures ShutOut(cfg, Step(cfg, st, i).0, d, t)
  {
    if i.StartInput? || i.KeyInput? {
      RegistrationKeepsShut(cfg, st, i, d, t);
    } else if i.PopInput? {
      PopKeepsShut(cfg, st, i, d, t);
    } else if i.MetadataInput? {
      MetadataKeepsShut(cfg, st, i, d, t);
    } else if i.CloseInput? {
      CloseKeepsShut(cfg, st, i, d, t);
    } else if i.TokenInput? {
      TokenKeepsShut(cfg, st, i, d, t);
    } else if i.RevokeInput? {
      RevokeKeepsShut(cfg, st, i, d, t);
    } else {
      NonceStepKeepsShut(cfg, st, i, d, t);
    }
  }

  /** Shut out once, shut out for all calls that are dated later; and no later epoch packages the device. */
  lemma {:induction false} ShutOutForGood(cfg: Config, inputs: seq<Input>, n: nat, d: Bytes, t: Option<Time>)
    requires n <= |inputs| && ShutOut(cfg, Run(cfg, inputs[..n]), d, t)
    requires forall k :: n <= k < |inputs| ==> DatedFrom(inputs[k], t)
    ensures ShutOut(cfg, Run(cfg, inputs), d, t)
    ensures forall e :: e in Run(cfg, inputs).epochs.packages && e !in Run(cfg, inputs[..n]).epochs.packages ==>
              d !in Run(cfg, inputs).epochs.packages[e]
    decreases |inputs|
  {
    if n == |inputs| {
      assert inputs[..n] == inputs;
    } else {
      var before, last := inputs[..|inputs| - 1], inputs[|inputs| - 1];
      assert before[..n] == inputs[..n];
      ShutOutForGood(cfg, before, n, d, t);
      RunKeeps(cfg, before);
      StepKeepsShut(cfg, Run(cfg, before), last, d, t);
      forall e | e in Run(cfg, inputs).epochs.packages && e !in Run(cfg, inputs[..n]).epochs.packages
        ensures d !in Run(cfg, inputs).epochs.packages[e]
      {
        ShutOutSkipped(cfg, Run(cfg, before), last, d, e, t);
      }
    }
  }

  /** Locked out once, locked out for good; and no later epoch packages the device. */
  lemma LockedOutForGood(cfg: Config, inputs: seq<Input>, n: nat, d: Bytes)
    requires n <= |inputs| && LockedOut(Run(cfg, inputs[..n]), d)
    ensures LockedOut(Run(cfg, inputs), d)
    ensures forall e :: e in Run(cfg, inputs).epochs.packages && e !in Run(cfg, inputs[..n]).epochs.packages ==>
              d !in Run(cfg, inputs).epochs.packages[e]
  {
    LockedIsShut(cfg, Run(cfg, inputs[..n]), d);
    ShutOutForGood(cfg, inputs, n, d, None);
    LockedIsShut(cfg, Run(cfg, inputs), d);
  }

  lemma ShutOutSkipped(cfg: Config, st: FogState, i: Input, d: Bytes, e: int, t: Option<Time>)
    requires Inv(cfg, st) && ShutOut(cfg, st, d, t) && e in Step(cfg, st, i).0.epochs.packages
    requires e in st.epochs.packages ==> d !in st.epochs.packages[e]
    ensures d !in Step(cfg, st, i).0.epochs.packages[e]
  {
    if e in st.epochs.packages {
      StepGrowsHistory(cfg, st, i);
    } else {
      NewPackagesFromClose(cfg, st, i, e);
      CloseKeepsShut(cfg, st, i, d, t);
    }
  }

  // ---------- a queued device that a close excludes ----------

  /** Call j closed an epoch and excluded `d` while it was queued. */
  ghost predicate ExcludedAt(cfg: Config, inputs: seq<Input>, j: nat, d: Bytes)
    requires j < |inputs|
  {
    && inputs[j].CloseInput? && Answer(cfg, inputs, j).EpochClosed?
    && d in Run(cfg, inputs[..j]).epochs.pending && d in inputs[j].exclude
  }

  lemma ExclusionLocksOut(cfg: Config, st: FogState, i: Input, d: Bytes)
    requires OnboardingInv(cfg, st) && i.CloseInput? && Step(cfg, st, i).1.EpochClosed?
    requires d in st.epochs.pending && d in i.exclude
    ensures LockedOut(Step(cfg, st, i).0, d)
    ensures d !in Step(cfg, st, i).1.result.packages
  {
    var (next, answer) := Step(cfg, st, i);
    CloseStep(cfg, st, i);
    QueuedIsDone(cfg, st, d);
    assert d !in Members(cfg.keys, st.devices, st.epochs.pending, i.exclude).Keys;
    assert forall sid :: OpenSession(cfg, st, sid, d, None) ==> ProvenSession(st, sid, d);
    IssueLeavesOut(cfg, st, answer.result.packages, next, d, None);
    LockedIsShut(cfg, next, d);
  }

  lemma QueuedIsDone(cfg: Config, st: FogState, d: Bytes)
    requires OnboardingInv(cfg, st) && d in st.epochs.pending
    ensures d in st.devices && st.devices[d].status != Registered
    ensures forall sid :: !ProvenSession(st, sid, d)
  {
    forall sid ensures !ProvenSession(st, sid, d) {
      assert sid in st.sessions ==> SessionOk(cfg.keys.crypto.hash, st.sessions[sid], st.devices, st.epochs.pending);
    }
  }

  /** A queued device that a close excludes is dropped for good: in every later state it is neither queued nor
      REGISTERED, and neither that close nor any later one packages it. */
  lemma DroppedForGood(cfg: Config, inputs: seq<Input>, j: nat, d: Bytes)
    requires j < |inputs| && ExcludedAt(cfg, inputs, j, d)
    ensures var st := Run(cfg, inputs);
            && d in st.devices && st.devices[d].status != Registered && d !in st.epochs.pending
            && forall e :: e in st.epochs.packages && e >= Answer(cfg, inputs, j).result.epochId ==>
              d !in st.epochs.packages[e]
  {
    var before, e0 := Run(cfg, inputs[..j]), Answer(cfg, inputs, j).result.epochId;
    RunKeeps(cfg, inputs[..j]);
    ExclusionLocksOut(cfg, before, inputs[j], d);
    RunStep(cfg, inputs, j);
    CloseStep(cfg, before, inputs[j]);
    ExcludedFromAll(cfg, inputs, j + 1, e0, d);
  }

  lemma ExcludedFromAll(cfg: Config, inputs: seq<Input>, n: nat, e0: int, d: Bytes)
    requires n <= |inputs| && LockedOut(Run(cfg, inputs[..n]), d)
    requires Run(cfg, inputs[..n]).epochs.current == e0 + 1
    requires e0 in Run(cfg, inputs[..n]).epochs.packages && d !in Run(cfg, inputs[..n]).epochs.packages[e0]
    ensures LockedOut(Run(cfg, inputs), d)
    ensures forall e :: e in Run(cfg, inputs).epochs.packages && e >= e0 ==> d !in Run(cfg, inputs).epochs.packages[e]
  {
    RunKeeps(cfg, inputs[..n]);
    LockedOutForGood(cfg, inputs, n, d);
    HistoryIsPermanent(cfg, inputs, n);
    forall e | e in Run(cfg, inputs).epochs.packages && e >= e0 ensures d !in Run(cfg, inputs).epochs.packages[e] {
      assert e in Run(cfg, inputs[..n]).epochs.packages ==> e == e0;
    }
  }

  // ---------- whose tokens are whose ----------

  /** Described, and neither registered nor revoked. */
  predicate Outstanding(st: FogState, d: Bytes) {
    && d in st.devices && st.devices[d].metadata.Some?
    && (st.devices[d].status == Pending || st.devices[d].status == Tokenized)
  }

  lemma OutstandingStep(cfg: Config, st: FogState, i: Input, d: Bytes)
    requires RecordsInv(cfg, st) && Outstanding(Step(cfg, st, i).0, d) && d !in Step(cfg, st, i).0.epochs.pending
    ensures || (Outstanding(st, d) && d !in st.epochs.pending)
            || (i.CloseInput? && Step(cfg, st, i).1.EpochClosed? && d in st.epochs.pending && d in i.exclude)
  {
    if i.CloseInput? {
      OutstandingClose(cfg, st, i, d);
    } else if i.MetadataInput? {
      OutstandingMetadata(cfg, st, i, d);
    } else {
      OtherStepsDescribeNobody(cfg, st, i);
      StepKeepsRecords(cfg, st, i);
    }
  }

  lemma OtherStepsDescribeNobody(cfg: Config, st: FogState, i: Input)
    requires !i.CloseInput? && !i.MetadataInput?
    ensures var next := Step(cfg, st, i).0;
            && next.epochs.pending == st.epochs.pending
            && forall d :: d in next.devices && next.devices[d].metadata.Some? ==>
                 d in st.devices && st.devices[d].metadata == next.devices[d].metadata
  {
    if i.TokenNonceInput? || i.AccessInput? || i.VerifyNonceInput? || i.VerifyInput? {
      NonceStepsShape(cfg, st, i);
    } else if i.TokenInput? {
      IssueShape(cfg, st, i);
    } else if i.PopInput? {
      ProofDescribesNobody(cfg, st, i);
    }
  }

  lemma ProofDescribesNobody(cfg: Config, st: FogState, i: Input)
    requires i.PopInput?
    ensures var next := ProvePossession(cfg, st, i).0;
            && next.epochs == st.epochs
            && forall d :: d in next.devices && next.devices[d].metadata.Some? ==>
                 d in st.devices && st.devices[d].metadata == next.devices[d].metadata
  {
    if PopReady(cfg, st, i) { PopShape(cfg, st, i); } else { RefusePop(cfg, st, i); }
  }

  lemma OutstandingMetadata(cfg: Config, st: FogState, i: Input, d: Bytes)
    requires OnboardingInv(cfg, st) && i.MetadataInput?
    requires Outstanding(Step(cfg, st, i).0, d) && d !in Step(cfg, st, i).0.epochs.pending
    ensures Outstanding(st, d) && d !in st.epochs.pending
  {
    if MetadataReady(cfg, st, i) {
      var leaf := MetadataShape(cfg, st, i);
    } else {
      RefuseMetadata(cfg, st, i);
    }
  }

  lemma OutstandingClose(cfg: Config, st: FogState, i: Input, d: Bytes)
    requires i.CloseInput?
    requires Outstanding(Step(cfg, st, i).0, d) && d !in Step(cfg, st, i).0.epochs.pending
    ensures || (Outstanding(st, d) && d !in st.epochs.pending)
            || (Step(cfg, st, i).1.EpochClosed? && d in st.epochs.pending && d in i.exclude)
  {
    CloseStep(cfg, st, i);
    if Step(cfg, st, i).1.EpochClosed? && d in st.epochs.pending && d !in i.exclude {
      OutstandingIssue(cfg.keys, st, i.exclude, Step(cfg, st, i).1.result.packages, Step(cfg, st, i).0, d);
    }
  }

  /** A queued device that is not excluded is registered or revoked after the close. */
  lemma OutstandingIssue(k: FogKeys, st: FogState, exclude: set<Bytes>, p: Packages, next: FogState, d: Bytes)
    requires Issues(st, p, next) && p.Keys == Members(k, st.devices, st.epochs.pending, exclude).Keys
    requires d in st.epochs.pending && d !in exclude
    ensures !Outstanding(next, d)
  {
  }

  lemma {:induction false} NotQueuedWasExcluded(cfg: Config, inputs: seq<Input>, d: Bytes) returns (j: nat)
    requires Outstanding(Run(cfg, inputs), d) && d !in Run(cfg, inputs).epochs.pending
    ensures j < |inputs| && ExcludedAt(cfg, inputs, j, d)
  {
    var n := |inputs| - 1;
    var before, last := inputs[..n], inputs[n];
    RunKeeps(cfg, before);
    OutstandingStep(cfg, Run(cfg, before), last, d);
    if Outstanding(Run(cfg, before), d) && d !in Run(cfg, before).epochs.pending {
      j := NotQueuedWasExcluded(cfg, before, d);
      assert before[..j] == inputs[..j] && before[j] == inputs[j];
    } else {
      j := n;
    }
  }

  /** A token goes to a device that is queued, except exactly when an earlier close excluded the device while it
      was queued. */
  lemma TokenGoesToQueuedExactly(cfg: Config, inputs: seq<Input>, i: nat)
    requires i < |inputs| && Answer(cfg, inputs, i).TokenSent?
    ensures var d := Answer(cfg, inputs, i).token.did;
            d in Run(cfg, inputs[..i]).epochs.pending <==> !exists j :: 0 <= j < i && ExcludedAt(cfg, inputs, j, d)
  {
    var d := Answer(cfg, inputs, i).token.did;
    RunKeeps(cfg, inputs[..i]);
    TokenSentIsOutstanding(cfg, Run(cfg, inputs[..i]), inputs[i]);
    if d in Run(cfg, inputs[..i]).epochs.pending {
      QueuedWasNotExcluded(cfg, inputs, i, d);
    } else {
      var j := NotQueuedWasExcluded(cfg, inputs[..i], d);
      ExcludedInPrefix(cfg, inputs, i, j, d);
    }
  }

  lemma QueuedWasNotExcluded(cfg: Config, inputs: seq<Input>, i: nat, d: Bytes)
    requires i <= |inputs| && d in Run(cfg, inputs[..i]).epochs.pending
    ensures forall j :: 0 <= j < i ==> !ExcludedAt(cfg, inputs, j, d)
  {
    forall j | 0 <= j < i ensures !ExcludedAt(cfg, inputs, j, d) {
      ExcludedInPrefix(cfg, inputs, i, j, d);
      if ExcludedAt(cfg, inputs, j, d) {
        DroppedForGood(cfg, inputs[..i], j, d);
      }
    }
  }

  lemma ExcludedInPrefix(cfg: Config, inputs: seq<Input>, i: nat, j: nat, d: Bytes)
    requires j < i <= |inputs|
    ensures ExcludedAt(cfg, inputs[..i], j, d) <==> ExcludedAt(cfg, inputs, j, d)
  {
    assert inputs[..i][..j] == inputs[..j] && inputs[..i][j] == inputs[j];
  }

  /** The exception happens: a live session of a device that a close excluded still gets its token. */
  lemma ExcludedStillGetsToken(cfg: Config, inputs: seq<Input>, a: Input, b: Input, d: Bytes)
    requires a.CloseInput? && Step(cfg, Run(cfg, inputs), a).1.EpochClosed?
    requires d in Run(cfg, inputs).epochs.pending && d in a.exclude
    requires b.TokenInput? && GetsToken(cfg, Run(cfg, inputs), b, d)
    ensures var middle := Step(cfg, Run(cfg, inputs), a).0; var answer := Step(cfg, middle, b).1;
            d !in middle.epochs.pending && answer.TokenSent? && answer.token.did == d
  {
    RunKeeps(cfg, inputs);
    var (middle, answer) := Step(cfg, Run(cfg, inputs), a);
    CloseStep(cfg, Run(cfg, inputs), a);
    ExclusionLocksOut(cfg, Run(cfg, inputs), a, d);
    assert GetsToken(cfg, middle, b, d);
    TokenIsSent(cfg, middle, b, d);
  }

  /** The checks of /tokens/issue, for a session of `d`. */
  predicate GetsToken(cfg: Config, st: FogState, i: Input, d: Bytes)
    requires i.TokenInput?
  {
    var found := Lookup(st.sessions, cfg.sessionTtl, i.sid, i.now).1;
    && found.Some? && found.value.state == MetadataAccepted && found.value.did == Some(d)
    && d in st.devices && (st.devices[d].status == Pending || st.devices[d].status == Tokenized)
    && RoleFits(st.devices[d])
  }

  lemma TokenIsSent(cfg: Config, st: FogState, i: Input, d: Bytes)
    requires i.TokenInput? && GetsToken(cfg, st, i, d)
    ensures Step(cfg, st, i).1.TokenSent? && Step(cfg, st, i).1.token.did == d
  {
  }

  lemma TokenSentIsOutstanding(cfg: Config, st: FogState, i: Input)
    requires OnboardingInv(cfg, st) && Step(cfg, st, i).1.TokenSent?
    ensures Outstanding(st, Step(cfg, st, i).1.token.did)
  {
    TokenSentByIssue(cfg, st, i);
    TokenSentShape(cfg, st, i);
  }

  // ---------- registration that is still open ----------

  /** The calls that look a session up. */
  predicate LooksUp(i: Input, sid: Bytes) {
    (i.KeyInput? || i.PopInput? || i.MetadataInput? || i.TokenInput?) && i.sid == sid
  }

  /** A proven key whose session is found expired is locked out. */
  lemma ExpiryLocksOut(cfg: Config, inputs: seq<Input>, i: Input, sid: Bytes, d: Bytes)
    requires ProvenSession(Run(cfg, inputs), sid, d) && LooksUp(i, sid)
    requires i.now > Run(cfg, inputs).sessions[sid].createdAt + cfg.sessionTtl
    ensures LockedOut(Step(cfg, Run(cfg, inputs), i).0, d)
  {
    RunKeeps(cfg, inputs);
    ExpiredIsDeleted(cfg, Run(cfg, inputs), i, sid);
    SessionGoneLocksOut(cfg, Run(cfg, inputs), sid, d);
  }

  lemma ExpiredIsDeleted(cfg: Config, st: FogState, i: Input, sid: Bytes)
    requires sid in st.sessions && LooksUp(i, sid) && i.now > st.sessions[sid].createdAt + cfg.sessionTtl
    ensures Step(cfg, st, i).0 == st.(sessions := st.sessions - {sid})
  {
  }

  lemma SessionGoneLocksOut(cfg: Config, st: FogState, sid: Bytes, d: Bytes)
    requires OnboardingInv(cfg, st) && ProvenSession(st, sid, d)
    ensures LockedOut(st.(sessions := st.sessions - {sid}), d)
  {
    var next := st.(sessions := st.sessions - {sid});
    assert SessionOk(cfg.keys.crypto.hash, st.sessions[sid], st.devices, st.epochs.pending);
    forall other ensures !ProvenSession(next, other, d) {
      assert other in next.sessions ==> other != sid && other in st.sessions;
    }
  }

  /** Valid metadata from a session that has proven its key is queued exactly when the session has not expired;
      otherwise, and only then, the device is locked out by this call. */
  lemma MetadataInTimeExactly(cfg: Config, inputs: seq<Input>, i: Input, d: Bytes)
    requires i.MetadataInput? && cfg.validMetadata(i.metadata) && ProvenSession(Run(cfg, inputs), i.sid, d)
    ensures var (next, answer) := Step(cfg, Run(cfg, inputs), i);
            var inTime := i.now <= Run(cfg, inputs).sessions[i.sid].createdAt + cfg.sessionTtl;
            (answer.QueuedForBatch? <==> inTime) && (d in next.epochs.pending <==> inTime)
              && (LockedOut(next, d) <==> !inTime)
  {
    var st := Run(cfg, inputs);
    RunKeeps(cfg, inputs);
    if i.now > st.sessions[i.sid].createdAt + cfg.sessionTtl {
      ExpiryLocksOut(cfg, inputs, i, i.sid, d);
      ExpiredIsDeleted(cfg, st, i, i.sid);
    } else {
      assert MetadataReady(cfg, st, i);
      var leaf := MetadataShape(cfg, st, i);
    }
    SubmitMetadataKeeps(cfg, st, i);
  }

  /** A close by the admin registers whoever is queued and not blocked, unless member identities collide. */
  lemma QueuedIsRegistered(cfg: Config, st: FogState, i: Input, d: Bytes)
    requires Inv(cfg, st) && i.CloseInput? && i.isAdmin
    requires d in st.epochs.pending && d !in i.exclude && st.devices[d].status != Revoked
    ensures var (next, answer) := Step(cfg, st, i);
            || MembersCollide(cfg, st, i.exclude)
            || (answer.EpochClosed? && d in answer.result.packages && Issues(st, answer.result.packages, next)
                && next.devices[d].status == Registered && next.devices[d].metadata == st.devices[d].metadata)
  {
    assert d in Members(cfg.keys, st.devices, st.epochs.pending, i.exclude).Keys;
    CloseSucceeds(cfg, st, i);
    CloseStep(cfg, st, i);
  }

  /** On record, but not queued, not registered and not revoked. */
  predicate Waiting(st: FogState, d: Bytes) {
    d in st.devices && d !in st.epochs.pending && (st.devices[d].status == Pending || st.devices[d].status == Tokenized)
  }

  /** Metadata at time t, then a close. */
  function RegisterCalls(sid: Bytes, metadata: Metadata, t: Time, timestamp: Bytes): (Input, Input) {
    (MetadataInput(sid, metadata, t), CloseInput(true, {}, timestamp))
  }

  /** From time t on, a waiting device can be registered exactly when a session with its proven key is stored that
      has not expired at t: then valid metadata at t and a close do it, unless member identities collide; without
      one, no continuation of the run does whose calls are dated t or later. */
  lemma RegistrationOpenExactly(cfg: Config, inputs: seq<Input>, d: Bytes, t: Time, metadata: Metadata,
                                timestamp: Bytes)
    requires Waiting(Run(cfg, inputs), d) && cfg.validMetadata(metadata)
    ensures forall sid :: OpenSession(cfg, Run(cfg, inputs), sid, d, Some(t)) ==>
              RegistersNow(cfg, inputs, RegisterCalls(sid, metadata, t, timestamp), d)
    ensures (forall sid :: !OpenSession(cfg, Run(cfg, inputs), sid, d, Some(t))) ==>
            forall more :: AllDatedFrom(more, t) ==> !RegisteredAfter(cfg, inputs + more, d)
  {
    forall sid | OpenSession(cfg, Run(cfg, inputs), sid, d, Some(t))
      ensures RegistersNow(cfg, inputs, RegisterCalls(sid, metadata, t, timestamp), d)
    {
      OpenRegisters(cfg, inputs, sid, d, t, metadata, timestamp);
    }
    if forall sid :: !OpenSession(cfg, Run(cfg, inputs), sid, d, Some(t)) {
      forall more | AllDatedFrom(more, t) ensures !RegisteredAfter(cfg, inputs + more, d) {
        assert (inputs + more)[..|inputs|] == inputs;
        ShutOutForGood(cfg, inputs + more, |inputs|, d, Some(t));
      }
    }
  }

  predicate AllDatedFrom(calls: seq<Input>, t: Time) {
    forall k :: 0 <= k < |calls| ==> DatedFrom(calls[k], Some(t))
  }

  ghost predicate RegisteredAfter(cfg: Config, inputs: seq<Input>, d: Bytes) {
    d in Run(cfg, inputs).devices && Run(cfg, inputs).devices[d].status == Registered
  }

  ghost predicate RegistersNow(cfg: Config, inputs: seq<Input>, calls: (Input, Input), d: Bytes) {
    RegisteredAfter(cfg, inputs + [calls.0] + [calls.1], d) || MembersCollide(cfg, Run(cfg, inputs + [calls.0]), {})
  }

  lemma OpenRegisters(cfg: Config, inputs: seq<Input>, sid: Bytes, d: Bytes, t: Time, metadata: Metadata,
                      timestamp: Bytes)
    requires Waiting(Run(cfg, inputs), d) && cfg.validMetadata(metadata)
    requires OpenSession(cfg, Run(cfg, inputs), sid, d, Some(t))
    ensures RegistersNow(cfg, inputs, RegisterCalls(sid, metadata, t, timestamp), d)
  {
    var (a, b) := RegisterCalls(sid, metadata, t, timestamp);
    AfterMetadata(cfg, inputs, a, d);
    AfterClose(cfg, inputs + [a], b, d);
  }

  lemma AfterMetadata(cfg: Config, inputs: seq<Input>, i: Input, d: Bytes)
    requires i.MetadataInput? && MetadataReady(cfg, Run(cfg, inputs), i) && ProvenSession(Run(cfg, inputs), i.sid, d)
    requires Waiting(Run(cfg, inputs), d)
    ensures QueuedAlive(Run(cfg, inputs + [i]), d)
  {
    RunThen(cfg, inputs, i);
    RunKeeps(cfg, inputs);
    DescribedIsQueued(cfg, Run(cfg, inputs), i, d);
  }

  predicate QueuedAlive(st: FogState, d: Bytes) {
    d in st.epochs.pending && d in st.devices && st.devices[d].status != Revoked
  }

  lemma AfterClose(cfg: Config, inputs: seq<Input>, i: Input, d: Bytes)
    requires i.CloseInput? && i.isAdmin && i.exclude == {} && QueuedAlive(Run(cfg, inputs), d)
    ensures RegisteredAfter(cfg, inputs + [i], d) || MembersCollide(cfg, Run(cfg, inputs), {})
  {
    RunThen(cfg, inputs, i);
    RunKeeps(cfg, inputs);
    QueuedIsRegistered(cfg, Run(cfg, inputs), i, d);
  }

  /** Metadata in time queues the device and changes its description only. */
  lemma DescribedIsQueued(cfg: Config, st: FogState, i: Input, d: Bytes)
    requires OnboardingInv(cfg, st) && i.MetadataInput? && MetadataReady(cfg, st, i) && ProvenSession(st, i.sid, d)
    ensures var next := Step(cfg, st, i).0;
            && d in st.devices && d in next.devices && d in next.epochs.pending
            && next.epochs.current == st.epochs.current
            && next.devices[d].status == st.devices[d].status && next.devices[d].publicKey == st.devices[d].publicKey
            && next.devices[d].metadata == Some(i.metadata)
            && next.sessions == st.sessions[i.sid := st.sessions[i.sid].(state := MetadataAccepted)]
  {
    var leaf := MetadataShape(cfg, st, i);
  }

  // ---------- sessions that nobody looks up ----------

  /** No call looks the session up or opens another one under its id. */
  predicate LeavesAlone(calls: seq<Input>, sid: Bytes) {
    forall k :: 0 <= k < |calls| ==> !LooksUp(calls[k], sid) && !(calls[k].StartInput? && calls[k].sid == sid)
  }

  lemma SessionStays(cfg: Config, st: FogState, i: Input, sid: Bytes)
    requires sid in st.sessions && LeavesAlone([i], sid)
    ensures sid in Step(cfg, st, i).0.sessions && Step(cfg, st, i).0.sessions[sid] == st.sessions[sid]
  {
    assert !LooksUp([i][0], sid) && !([i][0].StartInput? && [i][0].sid == sid);
    if i.TokenNonceInput? || i.AccessInput? || i.VerifyNonceInput? || i.VerifyInput? {
      NonceStepsShape(cfg, st, i);
    } else if i.CloseInput? {
      CloseStep(cfg, st, i);
    } else if i.PopInput? {
      if PopReady(cfg, st, i) { PopShape(cfg, st, i); } else { RefusePop(cfg, st, i); }
    } else if i.TokenInput? {
      IssueShape(cfg, st, i);
    }
  }

  lemma {:induction false} SessionStaysInRuns(cfg: Config, inputs: seq<Input>, more: seq<Input>, sid: Bytes)
    requires sid in Run(cfg, inputs).sessions && LeavesAlone(more, sid)
    ensures sid in Run(cfg, inputs + more).sessions
    ensures Run(cfg, inputs + more).sessions[sid] == Run(cfg, inputs).sessions[sid]
    decreases |more|
  {
    if more == [] {
      assert inputs + more == inputs;
    } else {
      var most, last := more[..|more| - 1], more[|more| - 1];
      assert inputs + more == (inputs + most) + [last];
      SessionStaysInRuns(cfg, inputs, most, sid);
      RunThen(cfg, inputs + most, last);
      SessionStays(cfg, Run(cfg, inputs + most), last, sid);
    }
  }

  /** An expired session still counts as in use. A session beyond AUTHENTICATED that no call looks up keeps its DID
      out of every other session, however late the call and whatever happened in between. */
  lemma BusySessionBlocks(cfg: Config, inputs: seq<Input>, more: seq<Input>, sid: Bytes, i: Input)
    requires sid in Run(cfg, inputs).sessions && Busy(Run(cfg, inputs).sessions[sid]) && LeavesAlone(more, sid)
    requires i.KeyInput? && i.sid != sid && Run(cfg, inputs).sessions[sid].did == Some(i.did)
    ensures !Step(cfg, Run(cfg, inputs + more), i).1.ChallengeSent?
  {
    SessionStaysInRuns(cfg, inputs, more, sid);
    BusyIsRefused(cfg, Run(cfg, inputs + more), i, sid);
  }

  lemma BusyIsRefused(cfg: Config, st: FogState, i: Input, sid: Bytes)
    requires i.KeyInput? && i.sid != sid
    requires sid in st.sessions && Busy(st.sessions[sid]) && st.sessions[sid].did == Some(i.did)
    ensures !SubmitKey(cfg, st, i).1.ChallengeSent?
  {
    if SubmitKey(cfg, st, i).1.ChallengeSent? { KeyShape(cfg, st, i); }
  }

  // ---------- the honest device ----------

  /** What an honest device, the fog's random draws and its clock contribute. */
  datatype Honest = Honest(sid: Bytes, publicKey: Bytes, challenge: Digest, proof: Bytes, metadata: Metadata,
                           timestamp: Bytes,
                           nonce: Bytes, resource: Bytes, operation: Bytes, signature: Bytes,
                           started: Time, keyed: Time, proven: Time, described: Time, nonced: Time, asked: Time)

  function DidOf(cfg: Config, x: Honest): Bytes {
    DeriveDid(cfg.keys.crypto.hash, x.publicKey)
  }

  /** The six calls of the protocol. */
  function HonestCalls(cfg: Config, x: Honest): seq<Input> {
    [StartInput(true, x.sid, x.started),
     KeyInput(x.sid, DidOf(cfg, x), Some(x.publicKey), x.challenge, x.keyed),
     PopInput(x.sid, Some(x.proof), x.proven),
     MetadataInput(x.sid, x.metadata, x.described),
     CloseInput(true, {}, x.timestamp),
     VerifyNonceInput(DidOf(cfg, x), x.nonce, x.nonced)]
  }

  function HonestRequest(x: Honest, pkg: ProofPackage): Input {
    VerifyInput(Parsed(pkg), x.nonce, x.resource, x.operation, Some(x.signature), x.asked)
  }

  /** Valid inputs, in time, signed by the key, for an identity that is not in use, and a role that fits the type. */
  predicate Onboards(cfg: Config, st: FogState, x: Honest) {
    var did, c := DidOf(cfg, x), cfg.keys.crypto;
    && |x.publicKey| == COMPRESSED_PK_LEN && cfg.validPoint(x.publicKey) && did !in st.devices
    && !DidInUse(st.sessions, did, x.sid)
    && cfg.validMetadata(x.metadata) && TypeHolds(x.metadata.deviceType, x.metadata.role)
    && c.verify(x.publicKey, PopMessage(x.challenge, did), x.proof)
    && x.keyed <= x.started + cfg.sessionTtl && x.proven <= x.started + cfg.sessionTtl
    && x.described <= x.started + cfg.sessionTtl && x.proven <= x.keyed + cfg.challengeTtl
  }

  /** Besides, a request in time, signed by the key for the epoch that is open. */
  predicate PlaysByTheRules(cfg: Config, st: FogState, x: Honest) {
    && Onboards(cfg, st, x)
    && cfg.keys.crypto.verify(x.publicKey,
                              VerifyMessage(DidOf(cfg, x), st.epochs.current, x.nonce, x.resource, x.operation),
                              x.signature)
    && x.asked <= x.nonced + cfg.nonceTtl
  }

  /** The session of the honest device waits for the proof of its key. */
  predicate Challenged(cfg: Config, st: FogState, x: Honest, e: int) {
    && x.sid in st.sessions && DidOf(cfg, x) !in st.devices && st.epochs.current == e
    && st.sessions[x.sid] == Session(x.started, KeySubmitted, Some(DidOf(cfg, x)), Some(x.publicKey), Some(x.challenge),
                                     x.keyed + cfg.challengeTtl, false)
  }

  /** Its key is proven; its metadata is awaited. */
  predicate Proven(cfg: Config, st: FogState, x: Honest, e: int) {
    && ProvenSession(st, x.sid, DidOf(cfg, x)) && st.sessions[x.sid].createdAt == x.started && st.epochs.current == e
    && DidOf(cfg, x) in st.devices && st.devices[DidOf(cfg, x)] == Device(x.publicKey, Pending, None, None, None)
  }

  /** Its record, with the metadata it sent. */
  predicate OnRecord(cfg: Config, st: FogState, x: Honest, status: Status) {
    && DidOf(cfg, x) in st.devices && st.devices[DidOf(cfg, x)].status == status
    && st.devices[DidOf(cfg, x)].publicKey == x.publicKey && st.devices[DidOf(cfg, x)].metadata == Some(x.metadata)
  }

  predicate InBatch(cfg: Config, st: FogState, x: Honest, e: int) {
    OnRecord(cfg, st, x, Pending) && DidOf(cfg, x) in st.epochs.pending && st.epochs.current == e
  }

  /** Its session waits for a token. */
  predicate SessionDone(cfg: Config, st: FogState, x: Honest) {
    && x.sid in st.sessions && st.sessions[x.sid].state == MetadataAccepted
    && st.sessions[x.sid].did == Some(DidOf(cfg, x)) && st.sessions[x.sid].createdAt == x.started
  }

  /** Its package of epoch e is on offer. */
  ghost predicate Offered(cfg: Config, st: FogState, x: Honest, e: int) {
    && OnRecord(cfg, st, x, Registered) && DidOf(cfg, x) in st.epochs.latest
    && st.epochs.latest[DidOf(cfg, x)].did == DidOf(cfg, x) && st.epochs.latest[DidOf(cfg, x)].epochId == e
    && WasIssued(st, st.epochs.latest[DidOf(cfg, x)])
  }

  lemma HonestStart(cfg: Config, st: FogState, x: Honest)
    requires Onboards(cfg, st, x)
    ensures var next := Step(cfg, st, HonestCalls(cfg, x)[0]).0;
            && Onboards(cfg, next, x) && next.epochs == st.epochs && x.sid in next.sessions
            && next.sessions[x.sid] == Session(x.started, Authenticated, None, None, None, 0, true)
  {
  }

  lemma HonestKey(cfg: Config, st: FogState, x: Honest)
    requires Onboards(cfg, st, x) && x.sid in st.sessions
    requires st.sessions[x.sid] == Session(x.started, Authenticated, None, None, None, 0, true)
    ensures Challenged(cfg, Step(cfg, st, HonestCalls(cfg, x)[1]).0, x, st.epochs.current)
  {
  }

  lemma HonestProof(cfg: Config, st: FogState, x: Honest, e: int)
    requires Challenged(cfg, st, x, e) && x.proven <= x.started + cfg.sessionTtl
    requires x.proven <= x.keyed + cfg.challengeTtl
    requires cfg.keys.crypto.verify(x.publicKey, PopMessage(x.challenge, DidOf(cfg, x)), x.proof)
    ensures Proven(cfg, Step(cfg, st, HonestCalls(cfg, x)[2]).0, x, e)
  {
  }

  lemma HonestMetadata(cfg: Config, st: FogState, x: Honest, e: int)
    requires OnboardingInv(cfg, st) && Proven(cfg, st, x, e) && cfg.validMetadata(x.metadata)
    requires x.described <= x.started + cfg.sessionTtl
    ensures InBatch(cfg, Step(cfg, st, HonestCalls(cfg, x)[3]).0, x, e)
    ensures SessionDone(cfg, Step(cfg, st, HonestCalls(cfg, x)[3]).0, x)
  {
    DescribedIsQueued(cfg, st, HonestCalls(cfg, x)[3], DidOf(cfg, x));
  }

  lemma HonestClose(cfg: Config, st: FogState, i: Input, x: Honest, e: int)
    requires Inv(cfg, st) && InBatch(cfg, st, x, e)
    requires i.CloseInput? && i.isAdmin && DidOf(cfg, x) !in i.exclude && !MembersCollide(cfg, st, i.exclude)
    ensures Offered(cfg, Step(cfg, st, i).0, x, e)
  {
    QueuedIsRegistered(cfg, st, i, DidOf(cfg, x));
    StepKeeps(cfg, st, i);
    RegisteredIsOffered(cfg, st, Step(cfg, st, i).0, Step(cfg, st, i).1.result.packages, x, e);
  }

  lemma RegisteredIsOffered(cfg: Config, st: FogState, next: FogState, p: Packages, x: Honest, e: int)
    requires Inv(cfg, next) && Issues(st, p, next) && DidOf(cfg, x) in p && InBatch(cfg, st, x, e)
    requires next.devices[DidOf(cfg, x)].status == Registered
    requires next.devices[DidOf(cfg, x)].metadata == st.devices[DidOf(cfg, x)].metadata
    ensures Offered(cfg, next, x, e)
  {
    OfferedNow(cfg, st, next, p, DidOf(cfg, x));
  }

  lemma OfferedNow(cfg: Config, st: FogState, next: FogState, p: Packages, d: Bytes)
    requires Inv(cfg, next) && Issues(st, p, next) && d in p && d in st.devices
    ensures d in next.epochs.latest && next.epochs.latest[d].did == d
    ensures next.epochs.latest[d].epochId == st.epochs.current
    ensures WasIssued(next, next.epochs.latest[d]) && next.devices[d].publicKey == st.devices[d].publicKey
  {
    assert next.epochs.packages[st.epochs.current] == p && next.epochs.latest[d] == p[d];
    assert Committed(cfg.keys, st.epochs.current, p, next.ledger.rootCache[st.epochs.current]);
  }

  lemma HonestNonce(cfg: Config, st: FogState, x: Honest, e: int)
    requires Offered(cfg, st, x, e)
    ensures var next := Step(cfg, st, HonestCalls(cfg, x)[5]).0;
            && Offered(cfg, next, x, e) && x.nonce in next.nonces
            && next.nonces[x.nonce] == Entry(VERIFY_NONCE_PURPOSE, DidOf(cfg, x), x.nonced + cfg.nonceTtl, false)
  {
  }

  lemma HonestVerdict(cfg: Config, st: FogState, x: Honest, e: int)
    requires Offered(cfg, st, x, e) && x.nonce in st.nonces && x.asked <= x.nonced + cfg.nonceTtl
    requires st.nonces[x.nonce] == Entry(VERIFY_NONCE_PURPOSE, DidOf(cfg, x), x.nonced + cfg.nonceTtl, false)
    requires var pkg := st.epochs.latest[DidOf(cfg, x)];
             && pkg.publicKey == Some(x.publicKey)
             && VerifyPackage(cfg.keys.crypto, pkg, CachedRoot(st.ledger, pkg.epochId)) == Accepted
    requires TypeHolds(x.metadata.deviceType, x.metadata.role)
    requires cfg.keys.crypto.verify(x.publicKey, VerifyMessage(DidOf(cfg, x), e, x.nonce, x.resource, x.operation),
                                    x.signature)
    ensures Step(cfg, st, HonestRequest(x, st.epochs.latest[DidOf(cfg, x)])).1 == Allow <==>
              RoleMay(x.metadata.role, x.resource, x.operation)
  {
    AcceptedPackageDecides(cfg, st, HonestRequest(x, st.epochs.latest[DidOf(cfg, x)]));
  }

  // ---------- call by call ----------

  /** The state after the first k honest calls. */
  ghost function After(cfg: Config, inputs: seq<Input>, x: Honest, k: nat): FogState
    requires k <= 6
  {
    Run(cfg, inputs + HonestCalls(cfg, x)[..k])
  }

  lemma AfterStep(cfg: Config, inputs: seq<Input>, x: Honest, k: nat)
    requires k < 6
    ensures After(cfg, inputs, x, k + 1) == Step(cfg, After(cfg, inputs, x, k), HonestCalls(cfg, x)[k]).0
    ensures Inv(cfg, After(cfg, inputs, x, k))
  {
    var calls := HonestCalls(cfg, x);
    assert inputs + calls[..k + 1] == (inputs + calls[..k]) + [calls[k]];
    RunThen(cfg, inputs + calls[..k], calls[k]);
    RunKeeps(cfg, inputs + calls[..k]);
  }

  lemma AfterKey(cfg: Config, inputs: seq<Input>, x: Honest)
    requires Onboards(cfg, Run(cfg, inputs), x)
    ensures Challenged(cfg, After(cfg, inputs, x, 2), x, Run(cfg, inputs).epochs.current)
  {
    assert inputs + HonestCalls(cfg, x)[..0] == inputs;
    AfterStep(cfg, inputs, x, 0);
    HonestStart(cfg, After(cfg, inputs, x, 0), x);
    AfterStep(cfg, inputs, x, 1);
    HonestKey(cfg, After(cfg, inputs, x, 1), x);
  }

  lemma AfterProof(cfg: Config, inputs: seq<Input>, x: Honest)
    requires Onboards(cfg, Run(cfg, inputs), x)
    ensures Proven(cfg, After(cfg, inputs, x, 3), x, Run(cfg, inputs).epochs.current)
  {
    AfterKey(cfg, inputs, x);
    AfterStep(cfg, inputs, x, 2);
    HonestProof(cfg, After(cfg, inputs, x, 2), x, Run(cfg, inputs).epochs.current);
  }

  lemma AfterDescription(cfg: Config, inputs: seq<Input>, x: Honest)
    requires Onboards(cfg, Run(cfg, inputs), x)
    ensures InBatch(cfg, After(cfg, inputs, x, 4), x, Run(cfg, inputs).epochs.current)
    ensures SessionDone(cfg, After(cfg, inputs, x, 4), x)
  {
    AfterProof(cfg, inputs, x);
    AfterStep(cfg, inputs, x, 3);
    HonestMetadata(cfg, After(cfg, inputs, x, 3), x, Run(cfg, inputs).epochs.current);
  }

  lemma AfterClosing(cfg: Config, inputs: seq<Input>, i: Input, x: Honest)
    requires i == HonestCalls(cfg, x)[4] && i.CloseInput? && i.isAdmin && DidOf(cfg, x) !in i.exclude
    requires Onboards(cfg, Run(cfg, inputs), x) && !MembersCollide(cfg, After(cfg, inputs, x, 4), i.exclude)
    ensures Offered(cfg, After(cfg, inputs, x, 5), x, Run(cfg, inputs).epochs.current)
  {
    AfterDescription(cfg, inputs, x);
    AfterStep(cfg, inputs, x, 4);
    HonestClose(cfg, After(cfg, inputs, x, 4), i, x, Run(cfg, inputs).epochs.current);
  }

  lemma AfterNonce(cfg: Config, inputs: seq<Input>, x: Honest)
    requires Offered(cfg, After(cfg, inputs, x, 5), x, Run(cfg, inputs).epochs.current)
    ensures var st := After(cfg, inputs, x, 6);
            && Offered(cfg, st, x, Run(cfg, inputs).epochs.current) && x.nonce in st.nonces
            && st.nonces[x.nonce] == Entry(VERIFY_NONCE_PURPOSE, DidOf(cfg, x), x.nonced + cfg.nonceTtl, false)
  {
    AfterStep(cfg, inputs, x, 5);
    HonestNonce(cfg, After(cfg, inputs, x, 5), x, Run(cfg, inputs).epochs.current);
  }

  /** From every reachable state: a device that plays by the rules with an identity that is not in use is allowed,
      after the six calls of the protocol, exactly what its role may do, unless member identities of that close
      collide. */
  lemma HonestDeviceAllowed(cfg: Config, inputs: seq<Input>, x: Honest)
    requires SignatureCorrect(cfg.keys.crypto) && PlaysByTheRules(cfg, Run(cfg, inputs), x)
    ensures var st, d := Run(cfg, inputs + HonestCalls(cfg, x)), DidOf(cfg, x);
            || MembersCollide(cfg, Run(cfg, inputs + HonestCalls(cfg, x)[..4]), {})
            || (&& d in st.epochs.latest
                && (Step(cfg, st, HonestRequest(x, st.epochs.latest[d])).1 == Allow <==>
                      RoleMay(x.metadata.role, x.resource, x.operation)))
  {
    assert HonestCalls(cfg, x)[..6] == HonestCalls(cfg, x);
    if !MembersCollide(cfg, After(cfg, inputs, x, 4), {}) {
      AfterClosing(cfg, inputs, HonestCalls(cfg, x)[4], x);
      AfterNonce(cfg, inputs, x);
      var st := After(cfg, inputs, x, 6);
      IssuedIsAccepted(cfg, inputs + HonestCalls(cfg, x), st.epochs.latest[DidOf(cfg, x)]);
      HonestVerdict(cfg, st, x, Run(cfg, inputs).epochs.current);
    }
  }
}
