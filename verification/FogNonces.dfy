/** The nonce book inside a run of the fog: its history is a run of the book alone. */
module FogNonces {
  import opened Basics
  import opened Nonces
  import opened FogState

  /** What one endpoint call asks of the nonce book: nothing or one operation. */
  function OpsOf(cfg: Config, st: FogState, i: Input): seq<Op> {
    match i
    case TokenNonceInput(t, n, now) => if t in st.issued then [IssueOp(TOKEN_NONCE_PURPOSE, t, n, now)] else []
    case VerifyNonceInput(d, n, now) => if d in st.devices then [IssueOp(VERIFY_NONCE_PURPOSE, d, n, now)] else []
    case AccessInput(t, sig, n, _, _, _, now) =>
      if TokenSignatureValid(cfg.keys.crypto, t, sig) && t.TokenRecord? && now <= t.token.expiresAt then
        [ConsumeOp(TOKEN_NONCE_PURPOSE, t.token.tokenId, n, now)]
      else []
    case VerifyInput(raw, n, _, _, _, now) => [ConsumeOp(VERIFY_NONCE_PURPOSE, ClaimedDid(raw), n, now)]
    case _ => []
  }

  ghost function Ops(cfg: Config, inputs: seq<Input>): seq<Op> {
    if inputs == [] then []
    else
      var before := inputs[..|inputs| - 1];
      Ops(cfg, before) + OpsOf(cfg, Run(cfg, before), inputs[|inputs| - 1])
  }

  /** Where in the book's history the i-th call of the run acts. */
  ghost function OpIndex(cfg: Config, inputs: seq<Input>, i: nat): nat
    requires i <= |inputs|
  {
    |Ops(cfg, inputs[..i])|
  }

  lemma StepActsOnBook(cfg: Config, st: FogState, i: Input)
    ensures var ops := OpsOf(cfg, st, i);
            Step(cfg, st, i).0.nonces == if ops == [] then st.nonces else Apply(st.nonces, cfg.nonceTtl, ops[0])
  {
  }

  lemma {:induction false} NoncesFollowBook(cfg: Config, inputs: seq<Input>)
    ensures Run(cfg, inputs).nonces == RunBook(cfg.nonceTtl, Ops(cfg, inputs))
  {
    if inputs != [] {
      var before, last := inputs[..|inputs| - 1], inputs[|inputs| - 1];
      NoncesFollowBook(cfg, before);
      StepActsOnBook(cfg, Run(cfg, before), last);
      var ops, done := OpsOf(cfg, Run(cfg, before), last), Ops(cfg, before);
      assert ops == [] ==> done + ops == done;
      assert ops != [] ==> (done + ops)[..|done|] == done;
    }
  }

  lemma {:induction false} OpsPrefix(cfg: Config, inputs: seq<Input>, i: nat)
    requires i < |inputs|
    ensures Ops(cfg, inputs[..i]) + OpsOf(cfg, Run(cfg, inputs[..i]), inputs[i]) <= Ops(cfg, inputs)
    decreases |inputs|
  {
    var n := |inputs| - 1;
    if i < n {
      assert inputs[..n][..i] == inputs[..i];
      OpsPrefix(cfg, inputs[..n], i);
    }
  }

  lemma {:induction false} OpOrigin(cfg: Config, inputs: seq<Input>, m: nat) returns (i: nat)
    requires m < |Ops(cfg, inputs)|
    ensures i < |inputs| && m == OpIndex(cfg, inputs, i)
    ensures OpsOf(cfg, Run(cfg, inputs[..i]), inputs[i]) == [Ops(cfg, inputs)[m]]
  {
    var n := |inputs| - 1;
    if m < |Ops(cfg, inputs[..n])| {
      i := OpOrigin(cfg, inputs[..n], m);
      assert inputs[..n][..i] == inputs[..i];
    } else {
      i := n;
    }
  }

  lemma OpsAreFresh(cfg: Config, inputs: seq<Input>)
    requires FreshRun(inputs)
    ensures FreshNonces(Ops(cfg, inputs))
  {
    var ops := Ops(cfg, inputs);
    forall m, m' | 0 <= m < m' < |ops| && ops[m].IssueOp? && ops[m'].IssueOp? ensures ops[m].nonce != ops[m'].nonce {
      var i := IssueOrigin(cfg, inputs, m);
      var j := IssueOrigin(cfg, inputs, m');
    }
  }

  lemma IssueOrigin(cfg: Config, inputs: seq<Input>, m: nat) returns (i: nat)
    requires m < |Ops(cfg, inputs)| && Ops(cfg, inputs)[m].IssueOp?
    ensures i < |inputs| && m == OpIndex(cfg, inputs, i) && DrawnNonce(inputs[i]) == Some(Ops(cfg, inputs)[m].nonce)
  {
    i := OpOrigin(cfg, inputs, m);
  }

  /** A decision is ALLOW only when the book accepted the nonce of the request. */
  lemma AllowAcceptsNonce(cfg: Config, inputs: seq<Input>, i: nat)
    requires i < |inputs| && Answer(cfg, inputs, i) == Allow
    ensures inputs[i].AccessInput? || inputs[i].VerifyInput?
    ensures OpIndex(cfg, inputs, i) < |Ops(cfg, inputs)|
    ensures Accepts(cfg.nonceTtl, Ops(cfg, inputs), OpIndex(cfg, inputs, i))
    ensures [Ops(cfg, inputs)[OpIndex(cfg, inputs, i)]] == OpsOf(cfg, Run(cfg, inputs[..i]), inputs[i])
  {
    var st := Run(cfg, inputs[..i]);
    AllowShape(cfg, st, inputs[i]);
    OpsPrefix(cfg, inputs, i);
    NoncesFollowBook(cfg, inputs[..i]);
    var m := OpIndex(cfg, inputs, i);
    assert Ops(cfg, inputs)[..m] == Ops(cfg, inputs[..i]);
    assert Ops(cfg, inputs)[m] == OpsOf(cfg, st, inputs[i])[0];
  }

  lemma AllowShape(cfg: Config, st: FogState, i: Input)
    requires Step(cfg, st, i).1 == Allow
    ensures i.AccessInput? || i.VerifyInput?
    ensures |OpsOf(cfg, st, i)| == 1
    ensures var op := OpsOf(cfg, st, i)[0];
            && op.ConsumeOp? && op.nonce == i.nonce
            && Consumed(st.nonces, op.purpose, op.subject, op.nonce, op.now).1 == NonceOk
  {
  }

  /** No nonce leads to two ALLOW decisions, on either endpoint, whatever the clock does. */
  lemma NonceAllowsOnce(cfg: Config, inputs: seq<Input>, i: nat, j: nat)
    requires FreshRun(inputs) && i < j < |inputs|
    requires Answer(cfg, inputs, i) == Allow && Answer(cfg, inputs, j) == Allow
    ensures (inputs[i].AccessInput? || inputs[i].VerifyInput?) && (inputs[j].AccessInput? || inputs[j].VerifyInput?)
    ensures inputs[i].nonce != inputs[j].nonce
  {
    OpsAreFresh(cfg, inputs);
    AllowAcceptsNonce(cfg, inputs, i);
    AllowAcceptsNonce(cfg, inputs, j);
    OpIndexGrows(cfg, inputs, i, j);
    AcceptedAtMostOnce(cfg.nonceTtl, Ops(cfg, inputs), OpIndex(cfg, inputs, i), OpIndex(cfg, inputs, j));
  }

  lemma OpIndexGrows(cfg: Config, inputs: seq<Input>, i: nat, j: nat)
    requires i < j < |inputs| && OpsOf(cfg, Run(cfg, inputs[..i]), inputs[i]) != []
    ensures OpIndex(cfg, inputs, i) < OpIndex(cfg, inputs, j)
  {
    assert inputs[..j][..i] == inputs[..i];
    OpsPrefix(cfg, inputs[..j], i);
  }

  /** The nonce of an allowed request was sent by the fog before, for the same purpose and subject, and in time. */
  lemma AllowedNonceWasIssued(cfg: Config, inputs: seq<Input>, i: nat) returns (j: nat)
    requires i < |inputs| && Answer(cfg, inputs, i) == Allow
    ensures j < i && DrawnNonce(inputs[j]) == Some(inputs[i].nonce)
    ensures Answer(cfg, inputs, j) == NonceSent(inputs[i].nonce)
    ensures inputs[i].now <= inputs[j].now + cfg.nonceTtl
    ensures inputs[i].VerifyInput? ==> inputs[j].VerifyNonceInput? && inputs[j].did == ClaimedDid(inputs[i].raw)
    ensures inputs[i].AccessInput? ==> inputs[j].TokenNonceInput? && inputs[i].token.TokenRecord?
                                       && inputs[j].tokenId == inputs[i].token.token.tokenId
  {
    AllowAcceptsNonce(cfg, inputs, i);
    var ops, m := Ops(cfg, inputs), OpIndex(cfg, inputs, i);
    AcceptedWasIssued(cfg.nonceTtl, ops, m);
    var k :| 0 <= k < m && Covers(cfg.nonceTtl, ops, k, m);
    j := OpOrigin(cfg, inputs, k);
    if i < j {
      OpIndexGrows(cfg, inputs, i, j);
    }
    PurposesDiffer();
  }

  lemma PurposesDiffer()
    ensures TOKEN_NONCE_PURPOSE != VERIFY_NONCE_PURPOSE
  {
    assert TOKEN_NONCE_PURPOSE[0] != VERIFY_NONCE_PURPOSE[0];
  }

  /** Under a clock that never goes back, the nonce check of a call is exactly the check against a log that forgets
      nothing. */
  lemma NonceCheckIsExact(cfg: Config, inputs: seq<Input>, i: nat)
    requires FreshRun(inputs) && ClockNeverGoesBack(Ops(cfg, inputs))
    requires i < |inputs| && OpsOf(cfg, Run(cfg, inputs[..i]), inputs[i]) != []
    ensures OpIndex(cfg, inputs, i) < |Ops(cfg, inputs)|
    ensures var op := OpsOf(cfg, Run(cfg, inputs[..i]), inputs[i])[0];
            op.ConsumeOp? ==>
              (Consumed(Run(cfg, inputs[..i]).nonces, op.purpose, op.subject, op.nonce, op.now).1 == NonceOk
               <==> LogAccepts(cfg.nonceTtl, Ops(cfg, inputs), OpIndex(cfg, inputs, i)))
  {
    OpsAreFresh(cfg, inputs);
    NonceCheckIsBook(cfg, inputs, i);
    BookRefinesLog(cfg.nonceTtl, Ops(cfg, inputs), OpIndex(cfg, inputs, i));
  }

  lemma NonceCheckIsBook(cfg: Config, inputs: seq<Input>, i: nat)
    requires i < |inputs| && OpsOf(cfg, Run(cfg, inputs[..i]), inputs[i]) != []
    ensures OpIndex(cfg, inputs, i) < |Ops(cfg, inputs)|
    ensures var op := OpsOf(cfg, Run(cfg, inputs[..i]), inputs[i])[0];
            op.ConsumeOp? ==>
              (Consumed(Run(cfg, inputs[..i]).nonces, op.purpose, op.subject, op.nonce, op.now).1 == NonceOk
               <==> Accepts(cfg.nonceTtl, Ops(cfg, inputs), OpIndex(cfg, inputs, i)))
  {
    OpsPrefix(cfg, inputs, i);
    NoncesFollowBook(cfg, inputs[..i]);
    var m := OpIndex(cfg, inputs, i);
    assert Ops(cfg, inputs)[..m] == Ops(cfg, inputs[..i]);
    assert Ops(cfg, inputs)[m] == OpsOf(cfg, Run(cfg, inputs[..i]), inputs[i])[0];
  }
}
