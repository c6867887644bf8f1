/** Who is allowed what in a run: what roles and tokens are good for, and what a revocation takes away. */
module FogAccess {
  import opened Basics
  import opened Signing
  import opened Messages
  import opened Policy
  import opened Nonces
  import opened Epochs
  import opened FogState
  import opened FogAnswers
  import opened FogInvariant
  import opened FogNonces
  import opened FogTheorems
  import opened FogDecisions
  import opened FogReach

  // ---------- who may stop a machine ----------

  /** In every run: nothing is stopped by token, and what is stopped by package is stopped by a PLC acting as a
      controller, or it is a valve or motor stopped by a valve or motor. */
  lemma WhoMayStop(cfg: Config, inputs: seq<Input>, i: nat)
    requires i < |inputs| && Answer(cfg, inputs, i) == Allow
    requires (inputs[i].AccessInput? || inputs[i].VerifyInput?) && inputs[i].operation == STOP
    ensures inputs[i].VerifyInput? && inputs[i].raw.Parsed?
    ensures var st, d := Run(cfg, inputs[..i]), inputs[i].raw.pkg.did;
            && d in st.devices && st.devices[d].status == Registered && st.devices[d].metadata.Some?
            && var m := st.devices[d].metadata.value;
               || (m.role == CONTROLLER && m.deviceType == PLC && IsKnown(inputs[i].resource))
               || (m.role == ACTUATOR && IsDrive(m.deviceType) && IsDrive(inputs[i].resource))
  {
    NamesDiffer();
    if inputs[i].AccessInput? {
      AccessAllowChecks(cfg, Run(cfg, inputs[..i]), inputs[i]);
    } else {
      VerifyAllowChecks(cfg, Run(cfg, inputs[..i]), inputs[i]);
    }
  }

  /** A PLC that plays by the rules may stop whatever the policy knows. */
  lemma PlcMayStop(cfg: Config, inputs: seq<Input>, x: Honest)
    requires SignatureCorrect(cfg.keys.crypto) && PlaysByTheRules(cfg, Run(cfg, inputs), x)
    requires x.metadata.role == CONTROLLER && x.operation == STOP && IsKnown(x.resource)
    ensures var st, d := Run(cfg, inputs + HonestCalls(cfg, x)), DidOf(cfg, x);
            || MembersCollide(cfg, Run(cfg, inputs + HonestCalls(cfg, x)[..4]), {})
            || (d in st.epochs.latest && Step(cfg, st, HonestRequest(x, st.epochs.latest[d])).1 == Allow)
  {
    HonestDeviceAllowed(cfg, inputs, x);
  }

  // ---------- what a token is good for ----------

  lemma TokenStep(cfg: Config, st: FogState, i: Input)
    requires i.AccessInput? && i.token.TokenRecord? && TokenSignatureValid(cfg.keys.crypto, i.token, i.tokenSignature)
    ensures Step(cfg, st, i).1 == Allow <==>
              && AccessChecksPass(cfg, st, i)
              && Consumed(st.nonces, TOKEN_NONCE_PURPOSE, i.token.token.tokenId, i.nonce, i.now).1 == NonceOk
  {
    PolicyByRole(i.token.token.role, i.resource, i.operation);
  }

  /** With a clock that never goes back, a token with a valid fog signature gets exactly the decision that the history
      of the nonce and the present call for: in time, not revoked, nor its owner, signed by the key of the token for
      exactly this request, and a read or a write on the type of the token that its role may do. */
  lemma TokenDecides(cfg: Config, inputs: seq<Input>, i: nat)
    requires FreshRun(inputs) && ClockNeverGoesBack(Ops(cfg, inputs))
    requires i < |inputs| && inputs[i].AccessInput? && inputs[i].token.TokenRecord?
    requires TokenSignatureValid(cfg.keys.crypto, inputs[i].token, inputs[i].tokenSignature)
    ensures inputs[i].now <= inputs[i].token.token.expiresAt ==> OpIndex(cfg, inputs, i) < |Ops(cfg, inputs)|
    ensures Answer(cfg, inputs, i) == Allow <==>
              && AccessChecksPass(cfg, Run(cfg, inputs[..i]), inputs[i])
              && LogAccepts(cfg.nonceTtl, Ops(cfg, inputs), OpIndex(cfg, inputs, i))
  {
    TokenStep(cfg, Run(cfg, inputs[..i]), inputs[i]);
    if inputs[i].now <= inputs[i].token.token.expiresAt { NonceCheckIsExact(cfg, inputs, i); }
  }

  lemma {:induction false} SentIsSigned(cfg: Config, inputs: seq<Input>, j: nat)
    requires j < |inputs| && Answer(cfg, inputs, j).TokenSent?
    ensures TokenRecord(Answer(cfg, inputs, j).token) in SignedByFog(cfg, inputs)
    decreases |inputs|
  {
    var before := inputs[..|inputs| - 1];
    if j < |before| {
      assert before[..j] == inputs[..j];
      SentIsSigned(cfg, before, j);
    }
  }

  /** The request presents the token that call j sent, as it was sent. */
  ghost predicate Presents(cfg: Config, inputs: seq<Input>, j: nat, i: Input)
    requires j < |inputs|
  {
    && i.AccessInput? && Answer(cfg, inputs, j).TokenSent?
    && i.token == TokenRecord(Answer(cfg, inputs, j).token)
    && i.tokenSignature == Some(Answer(cfg, inputs, j).signature)
  }

  lemma SentToken(cfg: Config, inputs: seq<Input>, j: nat)
    requires j < |inputs| && Answer(cfg, inputs, j).TokenSent?
    ensures inputs[j].TokenInput?
    ensures var t := Answer(cfg, inputs, j).token;
            && t.expiresAt == inputs[j].now + cfg.tokenTtl
            && Answer(cfg, inputs, j).signature == cfg.keys.crypto.sign(cfg.keys.crypto.json(TokenRecord(t)))
  {
    TokenSentByIssue(cfg, Run(cfg, inputs[..j]), inputs[j]);
    IssueAnswersExactly(cfg, Run(cfg, inputs[..j]), inputs[j]);
  }

  lemma SentTokenStaysOnRecord(cfg: Config, inputs: seq<Input>, j: nat, n: nat)
    requires FreshRun(inputs) && j < n <= |inputs| && Answer(cfg, inputs, j).TokenSent?
    ensures TokenOnRecord(Run(cfg, inputs[..n]), Answer(cfg, inputs, j).token)
  {
    assert inputs[..n][..j] == inputs[..j] && inputs[..n][j] == inputs[j];
    SentIsSigned(cfg, inputs[..n], j);
    FreshPrefix(inputs, n);
    SignedTokenStaysOnRecord(cfg, inputs[..n], Answer(cfg, inputs, j).token);
  }

  /** The device as it is on record, asking for something on its own type, in time and with its own signature. */
  predicate HolderMay(cfg: Config, st: FogState, i: Input, sent: Time)
    requires i.AccessInput? && i.token.TokenRecord?
  {
    var t := i.token.token;
    && i.now <= sent + cfg.tokenTtl && t.tokenId !in st.revokedTokens
    && t.did in st.devices && st.devices[t.did].metadata.Some? && i.signature.Some?
    && cfg.keys.crypto.verify(st.devices[t.did].publicKey,
                              AccessMessage(t.tokenId, t.did, i.nonce, i.resource, i.operation), i.signature.value)
    && i.resource == st.devices[t.did].metadata.value.deviceType
    && TypeMay(st.devices[t.did].metadata.value.deviceType, i.operation)
  }

  /** Every token that the fog ever sent, whatever became of its device: until it has lived its time or is
      blacklisted, it is good for the operations that its device type may do on its own type, each with a fresh
      nonce and a signature of the device; and for nothing else. */
  lemma SentTokenDecides(cfg: Config, inputs: seq<Input>, j: nat, i: nat)
    requires SignatureCorrect(cfg.keys.crypto) && FreshRun(inputs) && ClockNeverGoesBack(Ops(cfg, inputs))
    requires j < i < |inputs| && Presents(cfg, inputs, j, inputs[i])
    ensures inputs[i].now <= inputs[j].now + cfg.tokenTtl ==> OpIndex(cfg, inputs, i) < |Ops(cfg, inputs)|
    ensures Answer(cfg, inputs, i) == Allow <==>
              && HolderMay(cfg, Run(cfg, inputs[..i]), inputs[i], inputs[j].now)
              && LogAccepts(cfg.nonceTtl, Ops(cfg, inputs), OpIndex(cfg, inputs, i))
  {
    SentToken(cfg, inputs, j);
    SentTokenStaysOnRecord(cfg, inputs, j, i);
    TokenDecides(cfg, inputs, i);
    StoresAgree(cfg, inputs[..i]);
    HolderPasses(cfg, Run(cfg, inputs[..i]), inputs[i], inputs[j].now);
  }

  lemma HolderPasses(cfg: Config, st: FogState, i: Input, sent: Time)
    requires i.AccessInput? && i.token.TokenRecord? && TokenOnRecord(st, i.token.token)
    requires i.token.token.expiresAt == sent + cfg.tokenTtl
    requires forall t :: t in st.issued && IsDeviceRevoked(st.devices, st.issued[t]) ==> t in st.revokedTokens
    ensures AccessChecksPass(cfg, st, i) <==> HolderMay(cfg, st, i, sent)
  {
    var t := i.token.token;
    ProvisionalByType(t.deviceType, t.role, i.resource, i.operation);
    PolicyByRole(t.role, i.resource, i.operation);
  }

  // ---------- the honest holder of a token ----------

  /** What the fog's random draws, its clock and the device contribute once the device is queued. */
  datatype Holder = Holder(tokenId: Bytes, nonce: Bytes, resource: Bytes, operation: Bytes, signature: Bytes,
                           sent: Time, nonced: Time, asked: Time)

  function TokenCall(x: Honest, y: Holder): Input {
    TokenInput(x.sid, y.tokenId, y.sent)
  }

  function NonceCall(y: Holder): Input {
    TokenNonceInput(y.tokenId, y.nonce, y.nonced)
  }

  function HolderRequest(answer: Response, y: Holder): Input
    requires answer.TokenSent?
  {
    AccessInput(TokenRecord(answer.token), Some(answer.signature), y.nonce, y.resource, y.operation,
                Some(y.signature), y.asked)
  }

  /** In time, and signed by the key of the device. */
  predicate HoldsProperly(cfg: Config, x: Honest, y: Holder) {
    && y.sent <= x.started + cfg.sessionTtl && y.asked <= y.nonced + cfg.nonceTtl && y.asked <= y.sent + cfg.tokenTtl
    && cfg.keys.crypto.verify(x.publicKey, AccessMessage(y.tokenId, DidOf(cfg, x), y.nonce, y.resource, y.operation),
                              y.signature)
  }

  lemma RegistrationKeepsBlacklist(cfg: Config, st: FogState, i: Input)
    requires i.StartInput? || i.KeyInput? || i.PopInput? || i.MetadataInput?
    ensures Step(cfg, st, i).0.revokedTokens == st.revokedTokens
  {
    if i.PopInput? {
      if PopReady(cfg, st, i) { PopShape(cfg, st, i); } else { RefusePop(cfg, st, i); }
    }
  }

  lemma {:induction false} AfterKeepsBlacklist(cfg: Config, inputs: seq<Input>, x: Honest, k: nat)
    requires k <= 4
    ensures After(cfg, inputs, x, k).revokedTokens == Run(cfg, inputs).revokedTokens
    decreases k
  {
    if k == 0 {
      assert inputs + HonestCalls(cfg, x)[..0] == inputs;
    } else {
      AfterKeepsBlacklist(cfg, inputs, x, k - 1);
      AfterStep(cfg, inputs, x, k - 1);
      RegistrationKeepsBlacklist(cfg, After(cfg, inputs, x, k - 1), HonestCalls(cfg, x)[k - 1]);
    }
  }

  /** The state in which the holder has its token, and what the token says. */
  predicate HasToken(cfg: Config, st: FogState, x: Honest, y: Holder, answer: Response) {
    && OnRecord(cfg, st, x, Tokenized) && y.tokenId in st.issued && y.tokenId !in st.revokedTokens
    && answer.TokenSent?
    && answer.token.tokenId == y.tokenId && answer.token.did == DidOf(cfg, x) && answer.token.publicKey == x.publicKey
    && answer.token.deviceType == x.metadata.deviceType && answer.token.role == x.metadata.role
    && answer.token.expiresAt == y.sent + cfg.tokenTtl
    && answer.signature == cfg.keys.crypto.sign(cfg.keys.crypto.json(TokenRecord(answer.token)))
  }

  lemma HolderGetsToken(cfg: Config, st: FogState, x: Honest, y: Holder, e: int)
    requires InBatch(cfg, st, x, e) && SessionDone(cfg, st, x) && y.tokenId !in st.revokedTokens
    requires TypeHolds(x.metadata.deviceType, x.metadata.role) && y.sent <= x.started + cfg.sessionTtl
    ensures var (next, answer) := Step(cfg, st, TokenCall(x, y)); HasToken(cfg, next, x, y, answer)
  {
    RolesByType(x.metadata.deviceType, x.metadata.role);
    IssueAnswersExactly(cfg, st, TokenCall(x, y));
  }

  lemma HolderGetsNonce(cfg: Config, st: FogState, x: Honest, y: Holder, answer: Response)
    requires HasToken(cfg, st, x, y, answer)
    ensures var next := Step(cfg, st, NonceCall(y)).0;
            && HasToken(cfg, next, x, y, answer) && y.nonce in next.nonces
            && next.nonces[y.nonce] == Entry(TOKEN_NONCE_PURPOSE, y.tokenId, y.nonced + cfg.nonceTtl, false)
  {
  }

  lemma HolderVerdict(cfg: Config, st: FogState, x: Honest, y: Holder, answer: Response)
    requires SignatureCorrect(cfg.keys.crypto) && HasToken(cfg, st, x, y, answer) && HoldsProperly(cfg, x, y)
    requires TypeHolds(x.metadata.deviceType, x.metadata.role) && y.nonce in st.nonces
    requires st.nonces[y.nonce] == Entry(TOKEN_NONCE_PURPOSE, y.tokenId, y.nonced + cfg.nonceTtl, false)
    ensures Step(cfg, st, HolderRequest(answer, y)).1 == Allow <==>
              y.resource == x.metadata.deviceType && TypeMay(x.metadata.deviceType, y.operation)
  {
    TokenStep(cfg, st, HolderRequest(answer, y));
    RolesByType(x.metadata.deviceType, x.metadata.role);
    ProvisionalByType(x.metadata.deviceType, x.metadata.role, y.resource, y.operation);
    PolicyByRole(x.metadata.role, y.resource, y.operation);
  }

  /** From every reachable state: a device that registers by the rules is sent a token before any window closes, and
      with it is allowed exactly what its type may do on its own type, as long as the token lives. */
  lemma HonestHolderAllowed(cfg: Config, inputs: seq<Input>, x: Honest, y: Holder)
    requires SignatureCorrect(cfg.keys.crypto) && Onboards(cfg, Run(cfg, inputs), x)
    requires HoldsProperly(cfg, x, y) && y.tokenId !in Run(cfg, inputs).revokedTokens
    ensures var queued := inputs + HonestCalls(cfg, x)[..4];
            var answer := Step(cfg, Run(cfg, queued), TokenCall(x, y)).1;
            var ready := Run(cfg, queued + [TokenCall(x, y)] + [NonceCall(y)]);
            && answer.TokenSent?
            && (Step(cfg, ready, HolderRequest(answer, y)).1 == Allow <==>
                  y.resource == x.metadata.deviceType && TypeMay(x.metadata.deviceType, y.operation))
  {
    var queued := inputs + HonestCalls(cfg, x)[..4];
    var answer := Step(cfg, Run(cfg, queued), TokenCall(x, y)).1;
    AfterDescription(cfg, inputs, x);
    AfterKeepsBlacklist(cfg, inputs, x, 4);
    HolderGetsToken(cfg, Run(cfg, queued), x, y, Run(cfg, inputs).epochs.current);
    RunThen(cfg, queued, TokenCall(x, y));
    HolderGetsNonce(cfg, Run(cfg, queued + [TokenCall(x, y)]), x, y, answer);
    RunThen(cfg, queued + [TokenCall(x, y)], NonceCall(y));
    HolderVerdict(cfg, Run(cfg, queued + [TokenCall(x, y)] + [NonceCall(y)]), x, y, answer);
  }

  // ---------- what a revocation takes away ----------

  predicate UsesToken(i: Input, tokenId: Bytes) {
    i.AccessInput? && i.token.TokenRecord? && i.token.token.tokenId == tokenId
  }

  function Without(st: FogState, tokenId: Bytes): FogState {
    st.(revokedTokens := st.revokedTokens + {tokenId})
  }

  /** The fog goes on as it would have gone on, and only requests with that token are answered differently. */
  lemma StepWithout(cfg: Config, st: FogState, i: Input, t: Bytes)
    ensures Step(cfg, Without(st, t), i).0 == Without(Step(cfg, st, i).0, t)
    ensures Step(cfg, Without(st, t), i).1 != Step(cfg, st, i).1 ==> UsesToken(i, t)
  {
    if i.AccessInput? {
      AccessWithout(cfg, st, i, t);
    } else if i.RevokeInput? {
      RevokeWithout(cfg, st, i, t);
    } else if i.StartInput? || i.KeyInput? || i.PopInput? || i.MetadataInput? {
      RegistrationWithout(cfg, st, i, t);
    } else if i.CloseInput? {
      CloseWithout(cfg, st, i, t);
    } else {
      QuietWithout(cfg, st, i, t);
    }
  }

  lemma CloseWithout(cfg: Config, st: FogState, i: Input, t: Bytes)
    requires i.CloseInput?
    ensures Step(cfg, Without(st, t), i) == (Without(Step(cfg, st, i).0, t), Step(cfg, st, i).1)
  {
    StepOfClose(cfg, st, i);
    StepOfClose(cfg, Without(st, t), i);
    var f := Finalize(cfg.keys, st.devices, st.epochs, st.ledger, i.exclude, i.timestamp);
    assert f == Finalize(cfg.keys, Without(st, t).devices, Without(st, t).epochs, Without(st, t).ledger, i.exclude,
                         i.timestamp);
  }

  lemma QuietWithout(cfg: Config, st: FogState, i: Input, t: Bytes)
    requires i.TokenInput? || i.TokenNonceInput? || i.VerifyNonceInput? || i.VerifyInput?
    ensures Step(cfg, Without(st, t), i) == (Without(Step(cfg, st, i).0, t), Step(cfg, st, i).1)
  {
  }

  lemma AccessWithout(cfg: Config, st: FogState, i: Input, t: Bytes)
    requires i.AccessInput?
    ensures AccessToken(cfg, Without(st, t), i).0 == Without(AccessToken(cfg, st, i).0, t)
    ensures AccessToken(cfg, Without(st, t), i).1 != AccessToken(cfg, st, i).1 ==> UsesToken(i, t)
  {
  }

  lemma RevokeWithout(cfg: Config, st: FogState, i: Input, t: Bytes)
    requires i.RevokeInput?
    ensures Revoke(cfg, Without(st, t), i).0 == Without(Revoke(cfg, st, i).0, t)
    ensures Revoke(cfg, Without(st, t), i).1 == Revoke(cfg, st, i).1
  {
    var a, b := Revoke(cfg, Without(st, t), i).0, Without(Revoke(cfg, st, i).0, t);
    assert a.revokedTokens == b.revokedTokens;
  }

  lemma RegistrationWithout(cfg: Config, st: FogState, i: Input, t: Bytes)
    requires i.StartInput? || i.KeyInput? || i.PopInput? || i.MetadataInput?
    ensures Step(cfg, Without(st, t), i) == (Without(Step(cfg, st, i).0, t), Step(cfg, st, i).1)
  {
    if i.MetadataInput? { MetadataWithout(cfg, st, i, t); }
  }

  lemma MetadataWithout(cfg: Config, st: FogState, i: Input, t: Bytes)
    requires i.MetadataInput?
    ensures SubmitMetadata(cfg, Without(st, t), i)
         == (Without(SubmitMetadata(cfg, st, i).0, t), SubmitMetadata(cfg, st, i).1)
  {
  }

  /** Revoking one token takes away that token and nothing else. Whatever calls follow, the state is what it would
      have been but for the blacklist, every call is answered as it would have been unless it presents that token,
      and no call that presents it is allowed. */
  lemma OneTokenLess(cfg: Config, inputs: seq<Input>, call: Input, more: seq<Input>)
    requires call.RevokeInput? && call.isAdmin && call.tokenOnly && NamesToken(Run(cfg, inputs), call)
    ensures Run(cfg, inputs + [call] + more) == Without(Run(cfg, inputs + more), call.revokedId.value)
    ensures forall k :: 0 <= k < |more| ==> AnsweredAlike(cfg, inputs, call, more, k)
  {
    RevokeTokenExactly(cfg, Run(cfg, inputs), call);
    RunThen(cfg, inputs, call);
    RunsWithout(cfg, inputs, call, more);
    forall k | 0 <= k < |more| ensures AnsweredAlike(cfg, inputs, call, more, k) {
      AnswersWithout(cfg, inputs, call, more, k);
    }
  }

  /** Call k after the revocation, and the same call without it. */
  ghost predicate AnsweredAlike(cfg: Config, inputs: seq<Input>, call: Input, more: seq<Input>, k: nat)
    requires call.RevokeInput? && call.revokedId.Some? && k < |more|
  {
    var answer := Answer(cfg, inputs + [call] + more, |inputs| + 1 + k);
    if UsesToken(more[k], call.revokedId.value) then answer != Allow
    else answer == Answer(cfg, inputs + more, |inputs| + k)
  }

  lemma {:induction false} RunsWithout(cfg: Config, inputs: seq<Input>, call: Input, more: seq<Input>)
    requires call.RevokeInput? && call.revokedId.Some?
    requires Run(cfg, inputs + [call]) == Without(Run(cfg, inputs), call.revokedId.value)
    ensures Run(cfg, inputs + [call] + more) == Without(Run(cfg, inputs + more), call.revokedId.value)
    decreases |more|
  {
    if more == [] {
      assert inputs + [call] + more == inputs + [call] && inputs + more == inputs;
    } else {
      var most, last := more[..|more| - 1], more[|more| - 1];
      assert inputs + [call] + more == (inputs + [call] + most) + [last] && inputs + more == (inputs + most) + [last];
      RunsWithout(cfg, inputs, call, most);
      RunThen(cfg, inputs + [call] + most, last);
      RunThen(cfg, inputs + most, last);
      StepWithout(cfg, Run(cfg, inputs + most), last, call.revokedId.value);
    }
  }

  lemma AnswerWithout(cfg: Config, st: FogState, i: Input, t: Bytes)
    ensures if UsesToken(i, t) then Step(cfg, Without(st, t), i).1 != Allow
            else Step(cfg, Without(st, t), i).1 == Step(cfg, st, i).1
  {
    StepWithout(cfg, st, i, t);
    if UsesToken(i, t) { BlacklistedIsDenied(cfg, Without(st, t), i); }
  }

  lemma AnswersWithout(cfg: Config, inputs: seq<Input>, call: Input, more: seq<Input>, k: nat)
    requires call.RevokeInput? && call.revokedId.Some? && k < |more|
    requires Run(cfg, inputs + [call]) == Without(Run(cfg, inputs), call.revokedId.value)
    ensures AnsweredAlike(cfg, inputs, call, more, k)
  {
    var a, b := inputs + [call] + more, inputs + more;
    assert a[..|inputs| + 1 + k] == inputs + [call] + more[..k] && b[..|inputs| + k] == inputs + more[..k];
    RunsWithout(cfg, inputs, call, more[..k]);
    AnswerWithout(cfg, Run(cfg, inputs + more[..k]), more[k], call.revokedId.value);
  }

  /** Revoking a device is final: after the call it is REVOKED in every state, neither it nor any token that it was
      sent before is allowed anything, and no epoch that closes later packages it. */
  lemma RevocationIsFinal(cfg: Config, inputs: seq<Input>, n: nat, i: nat)
    requires n < i < |inputs| && inputs[n].RevokeInput? && inputs[n].isAdmin && !inputs[n].tokenOnly
    requires inputs[n].did in Run(cfg, inputs[..n]).devices
    ensures IsDeviceRevoked(Run(cfg, inputs[..i]).devices, inputs[n].did)
    ensures Readable(inputs[i]) && RequestDid(inputs[i]) == inputs[n].did ==> Answer(cfg, inputs, i) != Allow
    ensures forall t :: t in TokensOf(Run(cfg, inputs[..n]).issued, inputs[n].did) && UsesToken(inputs[i], t) ==>
              Answer(cfg, inputs, i) != Allow
    ensures Answer(cfg, inputs, i).EpochClosed? ==> inputs[n].did !in Answer(cfg, inputs, i).result.packages
  {
    var d := inputs[n].did;
    AfterRevocation(cfg, inputs, n);
    assert inputs[..i][..n + 1] == inputs[..n + 1];
    StatusNeverMovesDown(cfg, inputs[..i], n + 1);
    if Readable(inputs[i]) && RequestDid(inputs[i]) == d { RevokedNeverAllowed(cfg, inputs, n + 1, i); }
    forall t | t in TokensOf(Run(cfg, inputs[..n]).issued, d) && UsesToken(inputs[i], t)
      ensures Answer(cfg, inputs, i) != Allow
    {
      RevokedTokenNeverAllowed(cfg, inputs, n + 1, i);
    }
    RevokedSkipped(cfg, Run(cfg, inputs[..i]), inputs[i], d);
  }

  lemma AfterRevocation(cfg: Config, inputs: seq<Input>, n: nat)
    requires n < |inputs| && inputs[n].RevokeInput? && inputs[n].isAdmin && !inputs[n].tokenOnly
    requires inputs[n].did in Run(cfg, inputs[..n]).devices
    ensures IsDeviceRevoked(Run(cfg, inputs[..n + 1]).devices, inputs[n].did)
    ensures TokensOf(Run(cfg, inputs[..n]).issued, inputs[n].did) <= Run(cfg, inputs[..n + 1]).revokedTokens
  {
    RevokeDeviceExactly(cfg, Run(cfg, inputs[..n]), inputs[n]);
    RunStep(cfg, inputs, n);
  }

  lemma RevokedSkipped(cfg: Config, st: FogState, i: Input, d: Bytes)
    requires IsDeviceRevoked(st.devices, d)
    ensures Step(cfg, st, i).1.EpochClosed? ==> d !in Step(cfg, st, i).1.result.packages
  {
    KeysAreRequired(cfg, st, i);
    if Step(cfg, st, i).1.EpochClosed? {
      CloseResultExactly(cfg, st, i);
      MembersExactly(cfg.keys, st.devices, st.epochs.pending, i.exclude, d);
    }
  }
}
