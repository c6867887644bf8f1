/** What a proven key of a run implies: registration cannot be replayed. */
module FogOnboarding {
  import opened Basics
  import opened Canonical
  import opened Messages
  import opened Epochs
  import opened FogState
  import opened FogInvariant

  // ---------- sessions come from starts ----------

  /** A caller who knows the pre-shared key opens the session. */
  predicate Opens(i: Input, sid: Bytes) {
    i.StartInput? && i.pskAccepted && i.sid == sid
  }

  lemma SessionStep(cfg: Config, st: FogState, i: Input, sid: Bytes)
    requires sid in Step(cfg, st, i).0.sessions
    ensures var s := Step(cfg, st, i).0.sessions[sid];
            if Opens(i, sid) then s.createdAt == i.now
            else sid in st.sessions && st.sessions[sid].createdAt == s.createdAt
  {
    if i.TokenNonceInput? || i.AccessInput? || i.VerifyNonceInput? || i.VerifyInput? {
      NonceStepsShape(cfg, st, i);
    } else if i.TokenInput? {
      IssueShape(cfg, st, i);
    } else if i.PopInput? {
      if PopReady(cfg, st, i) { PopShape(cfg, st, i); } else { RefusePop(cfg, st, i); }
    } else if i.CloseInput? {
      CloseStep(cfg, st, i);
    }
  }

  /** Every session of every reachable state was opened with the pre-shared key, at the time it says; the last such
      call is the one that counts. */
  lemma {:induction false} SessionWasOpened(cfg: Config, inputs: seq<Input>, sid: Bytes) returns (j: nat)
    requires sid in Run(cfg, inputs).sessions
    ensures j < |inputs| && Opens(inputs[j], sid) && Answer(cfg, inputs, j) == SessionOpened(sid)
    ensures Run(cfg, inputs).sessions[sid].createdAt == inputs[j].now
    ensures forall k :: j < k < |inputs| ==> !Opens(inputs[k], sid)
  {
    var n := |inputs| - 1;
    var before, last := inputs[..n], inputs[n];
    SessionStep(cfg, Run(cfg, before), last, sid);
    if Opens(last, sid) {
      j := n;
    } else {
      j := SessionWasOpened(cfg, before, sid);
      assert before[..j] == inputs[..j] && forall k :: 0 <= k < n ==> before[k] == inputs[k];
    }
  }

  /** Before call n the session was opened with the pre-shared key, and at `now` it had not expired. */
  ghost predicate OpenedBefore(cfg: Config, inputs: seq<Input>, n: nat, sid: Bytes, now: Time)
    requires n <= |inputs|
  {
    exists k :: 0 <= k < n && Opens(inputs[k], sid) && now <= inputs[k].now + cfg.sessionTtl
  }

  // ---------- proofs answer challenges ----------

  /** Call j answered with the challenge that the open session now holds, for a key that gives its DID. */
  ghost predicate ChallengedBy(cfg: Config, inputs: seq<Input>, j: nat, sid: Bytes, s: Session)
    requires j < |inputs|
  {
    && inputs[j].KeyInput? && inputs[j].sid == sid && Answer(cfg, inputs, j) == ChallengeSent(inputs[j].challenge)
    && inputs[j].publicKey.Some? && inputs[j].did == DeriveDid(cfg.keys.crypto.hash, inputs[j].publicKey.value)
    && s.did == Some(inputs[j].did) && s.publicKey == inputs[j].publicKey && s.challenge == Some(inputs[j].challenge)
    && s.challengeExpires == inputs[j].now + cfg.challengeTtl && !s.challengeUsed
    && sid in Run(cfg, inputs[..j]).sessions && Run(cfg, inputs[..j]).sessions[sid].createdAt == s.createdAt
  }

  predicate NoAttempt(inputs: seq<Input>, from: nat, to: nat, sid: Bytes)
    requires to <= |inputs|
  {
    forall k :: from < k < to ==> !(inputs[k].PopInput? && inputs[k].sid == sid)
  }

  /** A session waits for a proof after a step because the step challenged it, or because it waited before and
      the step was no attempt on it. */
  lemma WaitingStep(cfg: Config, st: FogState, i: Input, sid: Bytes)
    requires sid in Step(cfg, st, i).0.sessions && Step(cfg, st, i).0.sessions[sid].state == KeySubmitted
    ensures || (i.KeyInput? && i.sid == sid && Step(cfg, st, i).1.ChallengeSent?)
            || (&& sid in st.sessions && st.sessions[sid] == Step(cfg, st, i).0.sessions[sid]
                && !(i.PopInput? && i.sid == sid))
  {
    if i.TokenNonceInput? || i.AccessInput? || i.VerifyNonceInput? || i.VerifyInput? {
      NonceStepsShape(cfg, st, i);
    } else if i.TokenInput? {
      IssueShape(cfg, st, i);
    } else if i.PopInput? {
      if PopReady(cfg, st, i) { PopShape(cfg, st, i); } else { RefusePop(cfg, st, i); }
    }
  }

  lemma {:induction false} WaitingOrigin(cfg: Config, inputs: seq<Input>, sid: Bytes) returns (j: nat)
    requires sid in Run(cfg, inputs).sessions && Run(cfg, inputs).sessions[sid].state == KeySubmitted
    ensures j < |inputs| && ChallengedBy(cfg, inputs, j, sid, Run(cfg, inputs).sessions[sid])
    ensures NoAttempt(inputs, j, |inputs|, sid)
  {
    var n := |inputs| - 1;
    var before, last := Run(cfg, inputs[..n]), inputs[n];
    WaitingStep(cfg, before, last, sid);
    if last.KeyInput? && last.sid == sid && Step(cfg, before, last).1.ChallengeSent? {
      KeyShape(cfg, before, last);
      j := n;
    } else {
      j := WaitingOrigin(cfg, inputs[..n], sid);
      assert inputs[..n][..j] == inputs[..j] && inputs[..n][j] == inputs[j];
      assert forall k :: j < k < n ==> inputs[..n][k] == inputs[k];
    }
  }

  /** The accepted proof of call i answers the challenge of call j: a caller who knew the pre-shared key had opened this
      session; the fog challenged it for a key from which the DID is derived; the signature covers exactly that
      challenge and DID under that key; it came in time for the challenge and for the session; and it is the first
      attempt on that challenge. */
  ghost predicate ProofAnswers(cfg: Config, inputs: seq<Input>, i: nat, j: nat)
    requires i < |inputs|
  {
    && j < i && inputs[i].PopInput? && inputs[j].KeyInput? && inputs[j].sid == inputs[i].sid
    && OpenedBefore(cfg, inputs, j, inputs[i].sid, inputs[i].now)
    && Answer(cfg, inputs, j) == ChallengeSent(inputs[j].challenge)
    && Answer(cfg, inputs, i) == KeyProven(inputs[j].did)
    && inputs[j].publicKey.Some? && inputs[j].did == DeriveDid(cfg.keys.crypto.hash, inputs[j].publicKey.value)
    && inputs[i].signature.Some?
    && cfg.keys.crypto.verify(inputs[j].publicKey.value, PopMessage(inputs[j].challenge, inputs[j].did),
                              inputs[i].signature.value)
    && inputs[i].now <= inputs[j].now + cfg.challengeTtl
    && NoAttempt(inputs, j, i, inputs[i].sid)
  }

  /** Every key that the fog takes as proven rests on such an answer. */
  lemma KeyProvenJustified(cfg: Config, inputs: seq<Input>, i: nat) returns (j: nat)
    requires i < |inputs| && Answer(cfg, inputs, i).KeyProven?
    ensures ProofAnswers(cfg, inputs, i, j)
    ensures var next := Step(cfg, Run(cfg, inputs[..i]), inputs[i]).0;
            inputs[j].did in next.devices && next.devices[inputs[j].did].publicKey == inputs[j].publicKey.value
  {
    ProvenShape(cfg, Run(cfg, inputs[..i]), inputs[i]);
    j := WaitingOrigin(cfg, inputs[..i], inputs[i].sid);
    assert inputs[..i][..j] == inputs[..j] && inputs[..i][j] == inputs[j];
    assert forall k :: j < k < i ==> inputs[..i][k] == inputs[k];
    var start := SessionWasOpened(cfg, inputs[..j], inputs[i].sid);
    assert Opens(inputs[start], inputs[i].sid);
  }

  lemma ProvenShape(cfg: Config, st: FogState, i: Input)
    requires Step(cfg, st, i).1.KeyProven?
    ensures i.PopInput? && i.signature.Some? && i.sid in st.sessions && st.sessions[i.sid].state == KeySubmitted
    ensures var s := st.sessions[i.sid];
            && s.challenge.Some? && !s.challengeUsed && i.now <= s.challengeExpires
            && i.now <= s.createdAt + cfg.sessionTtl
            && Step(cfg, st, i).1.did == s.did.GetOr([])
            && Step(cfg, st, i).0.devices
               == st.devices[s.did.GetOr([]) := Device(s.publicKey.GetOr([]), Pending, None, None, None)]
            && cfg.keys.crypto.verify(s.publicKey.GetOr([]), PopMessage(s.challenge.value, s.did.GetOr([])),
                                      i.signature.value)
  {
  }

  function DrawnChallenge(i: Input): Option<Digest> {
    if i.KeyInput? then Some(i.challenge) else None
  }

  /** No proof is good for two registrations: when random challenges never repeat, the signed bytes behind two
      accepted proofs of a run differ. */
  lemma ProofsNeverShareBytes(cfg: Config, inputs: seq<Input>, i: nat, k: nat) returns (a: nat, b: nat)
    requires forall x, y :: 0 <= x < y < |inputs| && DrawnChallenge(inputs[x]).Some? ==>
               DrawnChallenge(inputs[x]) != DrawnChallenge(inputs[y])
    requires i < k < |inputs| && Answer(cfg, inputs, i).KeyProven? && Answer(cfg, inputs, k).KeyProven?
    ensures ProofAnswers(cfg, inputs, i, a) && ProofAnswers(cfg, inputs, k, b)
    ensures PopMessage(inputs[a].challenge, inputs[a].did) != PopMessage(inputs[b].challenge, inputs[b].did)
  {
    a := KeyProvenJustified(cfg, inputs, i);
    b := KeyProvenJustified(cfg, inputs, k);
    assert DrawnChallenge(inputs[a]).Some? && DrawnChallenge(inputs[b]).Some?;
    if PopMessage(inputs[a].challenge, inputs[a].did) == PopMessage(inputs[b].challenge, inputs[b].did) {
      PopMessageInjective(inputs[a].challenge, inputs[a].did, inputs[b].challenge, inputs[b].did);
    }
  }

  // ---------- records come from proofs ----------

  /** The proof of call i answers the challenge of call j, and both are about this DID and this key. */
  ghost predicate Proves(cfg: Config, inputs: seq<Input>, i: nat, j: nat, d: Bytes, publicKey: Bytes)
    requires i < |inputs|
  {
    ProofAnswers(cfg, inputs, i, j) && inputs[j].did == d && inputs[j].publicKey == Some(publicKey)
  }

  lemma ProvesInPrefix(cfg: Config, inputs: seq<Input>, n: nat, i: nat, j: nat, d: Bytes, publicKey: Bytes)
    requires i < n <= |inputs| && Proves(cfg, inputs[..n], i, j, d, publicKey)
    ensures Proves(cfg, inputs, i, j, d, publicKey)
  {
    assert inputs[..n][..i] == inputs[..i] && inputs[..n][..j] == inputs[..j];
    assert forall k :: 0 <= k < n ==> inputs[..n][k] == inputs[k];
  }

  /** A record is new only after an accepted proof of its DID. */
  lemma NewRecordIsProven(cfg: Config, st: FogState, i: Input, d: Bytes)
    requires d in Step(cfg, st, i).0.devices && d !in st.devices
    ensures Step(cfg, st, i).1 == KeyProven(d)
  {
    if i.TokenNonceInput? || i.AccessInput? || i.VerifyNonceInput? || i.VerifyInput? {
      NonceStepsShape(cfg, st, i);
    } else if i.TokenInput? {
      IssueShape(cfg, st, i);
    } else if i.CloseInput? {
      CloseStep(cfg, st, i);
    }
  }

  /** Every record of every reachable state goes back to an accepted possession proof for its DID under the key
      that is on record. */
  lemma {:induction false} RecordWasProven(cfg: Config, inputs: seq<Input>, d: Bytes) returns (i: nat, j: nat)
    requires d in Run(cfg, inputs).devices
    ensures i < |inputs| && Proves(cfg, inputs, i, j, d, Run(cfg, inputs).devices[d].publicKey)
    ensures Answer(cfg, inputs, i) == KeyProven(d)
  {
    var n := |inputs| - 1;
    var before, last := inputs[..n], inputs[n];
    if d in Run(cfg, before).devices {
      i, j := RecordWasProven(cfg, before, d);
      RunKeeps(cfg, before);
      StepKeepsRecords(cfg, Run(cfg, before), last);
      ProvesInPrefix(cfg, inputs, n, i, j, d, Run(cfg, before).devices[d].publicKey);
    } else {
      NewRecordIsProven(cfg, Run(cfg, before), last, d);
      i := n;
      j := KeyProvenJustified(cfg, inputs, n);
    }
  }
}
