/** Two honest devices in one run: the case of a token for a device that is not queued does arise. */
module FogExample {
  import opened Basics
  import opened Canonical
  import opened Signing
  import opened Policy
  import opened Epochs
  import opened FogState
  import opened FogInvariant
  import opened FogOnboarding
  import opened FogTheorems
  import opened FogReach
  import opened FogAccess

  predicate Registers(i: Input) {
    i.StartInput? || i.KeyInput? || i.PopInput? || i.MetadataInput?
  }

  // ---------- registration of one device leaves the others alone ----------

  /** Between the two states only the session of `x` and the record of its DID may have changed. */
  predicate TouchesOnly(cfg: Config, before: FogState, after: FogState, x: Honest) {
    && after.epochs.current == before.epochs.current
    && (forall s :: s in after.sessions && s != x.sid ==>
          s in before.sessions && after.sessions[s] == before.sessions[s])
    && (forall d :: d in after.devices ==> d in before.devices || d == DidOf(cfg, x))
  }

  lemma OtherSessionsStay(cfg: Config, st: FogState, i: Input)
    requires Registers(i)
    ensures var next := Step(cfg, st, i).0;
            forall s :: s in next.sessions && s != i.sid ==> s in st.sessions && next.sessions[s] == st.sessions[s]
  {
    if i.PopInput? {
      if PopReady(cfg, st, i) { PopShape(cfg, st, i); } else { RefusePop(cfg, st, i); }
    }
  }

  lemma StepTouches(cfg: Config, before: FogState, st: FogState, i: Input, x: Honest)
    requires Registers(i) && i.sid == x.sid && TouchesOnly(cfg, before, st, x)
    requires i.PopInput? ==> i.sid in st.sessions && st.sessions[i.sid].did == Some(DidOf(cfg, x))
    ensures TouchesOnly(cfg, before, Step(cfg, st, i).0, x)
  {
    var (next, answer) := Step(cfg, st, i);
    OtherSessionsStay(cfg, st, i);
    RegistrationKeepsHistory(cfg, st, i);
    forall d | d in next.devices && d !in st.devices ensures d == DidOf(cfg, x) {
      NewRecordIsProven(cfg, st, i, d);
      ProvenShape(cfg, st, i);
    }
  }

  lemma AfterTouches(cfg: Config, inputs: seq<Input>, x: Honest, k: nat)
    requires PlaysByTheRules(cfg, Run(cfg, inputs), x) && k <= 4
    ensures TouchesOnly(cfg, Run(cfg, inputs), After(cfg, inputs, x, k), x)
    decreases k
  {
    if k == 0 {
      assert inputs + HonestCalls(cfg, x)[..0] == inputs;
    } else {
      AfterTouches(cfg, inputs, x, k - 1);
      AfterStep(cfg, inputs, x, k - 1);
      if k == 3 { AfterKey(cfg, inputs, x); }
      StepTouches(cfg, Run(cfg, inputs), After(cfg, inputs, x, k - 1), HonestCalls(cfg, x)[k - 1], x);
    }
  }

  /** A queued device is not affected by the registration of any other. */
  lemma QueuedUntouched(cfg: Config, st: FogState, i: Input, d: Bytes)
    requires OnboardingInv(cfg, st) && Registers(i) && d in st.epochs.pending
    ensures var next := Step(cfg, st, i).0;
            d in next.epochs.pending && d in st.devices && d in next.devices && next.devices[d] == st.devices[d]
  {
    if i.PopInput? {
      ProofLeavesQueued(cfg, st, i, d);
    } else if i.MetadataInput? {
      MetadataLeavesQueued(cfg, st, i, d);
    }
  }

  lemma ProofLeavesQueued(cfg: Config, st: FogState, i: Input, d: Bytes)
    requires OnboardingInv(cfg, st) && i.PopInput? && d in st.epochs.pending
    ensures var next := ProvePossession(cfg, st, i).0;
            next.epochs == st.epochs && d in st.devices && d in next.devices && next.devices[d] == st.devices[d]
  {
    if PopReady(cfg, st, i) {
      PopShape(cfg, st, i);
      assert SessionOk(cfg.keys.crypto.hash, st.sessions[i.sid], st.devices, st.epochs.pending);
    } else {
      RefusePop(cfg, st, i);
    }
  }

  lemma MetadataLeavesQueued(cfg: Config, st: FogState, i: Input, d: Bytes)
    requires OnboardingInv(cfg, st) && i.MetadataInput? && d in st.epochs.pending
    ensures var next := SubmitMetadata(cfg, st, i).0;
            d in next.epochs.pending && d in st.devices && d in next.devices && next.devices[d] == st.devices[d]
  {
    if MetadataReady(cfg, st, i) {
      var leaf := MetadataShape(cfg, st, i);
    } else {
      RefuseMetadata(cfg, st, i);
    }
  }

  lemma QueuedStays(cfg: Config, inputs: seq<Input>, y: Honest, k: nat, d: Bytes)
    requires k <= 4 && d in Run(cfg, inputs).epochs.pending
    ensures var st := After(cfg, inputs, y, k);
            && d in st.epochs.pending && d in Run(cfg, inputs).devices && d in st.devices
            && st.devices[d] == Run(cfg, inputs).devices[d]
    decreases k
  {
    RunKeeps(cfg, inputs);
    if k == 0 {
      assert inputs + HonestCalls(cfg, y)[..0] == inputs;
    } else {
      QueuedStays(cfg, inputs, y, k - 1, d);
      AfterStep(cfg, inputs, y, k - 1);
      QueuedUntouched(cfg, After(cfg, inputs, y, k - 1), HonestCalls(cfg, y)[k - 1], d);
    }
  }

  // ---------- the run ----------

  /** Two devices of one start: each plays by the rules, and they have nothing in common. */
  predicate Pair(cfg: Config, x: Honest, y: Honest) {
    && PlaysByTheRules(cfg, INITIAL, x) && PlaysByTheRules(cfg, INITIAL, y)
    && x.sid != y.sid && DidOf(cfg, x) != DidOf(cfg, y)
  }

  function Onboard(cfg: Config, x: Honest): seq<Input> {
    HonestCalls(cfg, x)[..4]
  }

  /** Both are onboarded, then a close leaves the second one out. */
  function ExclusionRun(cfg: Config, x: Honest, y: Honest): seq<Input> {
    Onboard(cfg, x) + Onboard(cfg, y) + [CloseInput(true, {DidOf(cfg, y)}, x.timestamp)]
  }

  lemma FirstQueued(cfg: Config, x: Honest, y: Honest)
    requires Pair(cfg, x, y)
    ensures var st := Run(cfg, Onboard(cfg, x));
            InBatch(cfg, st, x, 1) && PlaysByTheRules(cfg, st, y) && st.devices.Keys <= {DidOf(cfg, x)}
  {
    assert [] + Onboard(cfg, x) == Onboard(cfg, x);
    AfterDescription(cfg, [], x);
    AfterTouches(cfg, [], x, 4);
    RulesSurvive(cfg, INITIAL, Run(cfg, Onboard(cfg, x)), x, y);
  }

  lemma BothQueued(cfg: Config, x: Honest, y: Honest)
    requires Pair(cfg, x, y)
    ensures var st := Run(cfg, Onboard(cfg, x) + Onboard(cfg, y));
            && InBatch(cfg, st, x, 1) && InBatch(cfg, st, y, 1) && SessionDone(cfg, st, y)
            && st.devices.Keys <= {DidOf(cfg, x), DidOf(cfg, y)}
  {
    var first := Onboard(cfg, x);
    FirstQueued(cfg, x, y);
    AfterDescription(cfg, first, y);
    AfterTouches(cfg, first, y, 4);
    QueuedStays(cfg, first, y, 4, DidOf(cfg, x));
  }

  /** What the first device did is no obstacle to the second. */
  lemma RulesSurvive(cfg: Config, before: FogState, after: FogState, x: Honest, y: Honest)
    requires PlaysByTheRules(cfg, before, y) && TouchesOnly(cfg, before, after, x)
    requires x.sid != y.sid && DidOf(cfg, x) != DidOf(cfg, y) && SessionDone(cfg, after, x)
    ensures PlaysByTheRules(cfg, after, y)
  {
    var d := DidOf(cfg, y);
    forall s | s in after.sessions && s != y.sid
      ensures !(after.sessions[s].did == Some(d) && after.sessions[s].state != Authenticated)
    {
      assert s != x.sid ==> s in before.sessions && after.sessions[s] == before.sessions[s];
    }
  }

  /** One member alone always fits into a tree. */
  lemma SingleMemberCloses(cfg: Config, st: FogState, i: Input, d: Bytes)
    requires Inv(cfg, st) && i.CloseInput? && i.isAdmin
    requires Members(cfg.keys, st.devices, st.epochs.pending, i.exclude).Keys == {d}
    ensures Step(cfg, st, i).1.EpochClosed?
  {
    MembersGenuine(cfg.keys, st.devices, st.epochs.pending, i.exclude);
    SingleFits(cfg.keys.crypto.hash, Members(cfg.keys, st.devices, st.epochs.pending, i.exclude), d);
    CloseAcceptsAt(cfg, st, i);
  }

  lemma SingleFits(h: Hash, members: Batch, d: Bytes)
    requires GenuineMembers(h, members) && members.Keys == {d}
    ensures members != map[] && TreeAccepts(members)
  {
    assert d in members;
  }

  lemma SecondLeftOut(cfg: Config, x: Honest, y: Honest, close: Input)
    requires Pair(cfg, x, y) && close == CloseInput(true, {DidOf(cfg, y)}, x.timestamp)
    ensures var st := Run(cfg, Onboard(cfg, x) + Onboard(cfg, y));
            InBatch(cfg, st, y, 1) && SessionDone(cfg, st, y) && Step(cfg, st, close).1.EpochClosed?
  {
    var inputs := Onboard(cfg, x) + Onboard(cfg, y);
    BothQueued(cfg, x, y);
    RunKeeps(cfg, inputs);
    OnlyFirstIsMember(cfg, Run(cfg, inputs), x, y, close.exclude);
    SingleMemberCloses(cfg, Run(cfg, inputs), close, DidOf(cfg, x));
  }

  /** The exception happens: after this run a token is sent for a device that is not queued. */
  lemma TokenForUnqueuedDevice(cfg: Config, x: Honest, y: Honest, tokenId: Bytes, now: Time)
    requires Pair(cfg, x, y) && now <= y.started + cfg.sessionTtl
    ensures var st := Run(cfg, ExclusionRun(cfg, x, y)); var answer := Step(cfg, st, TokenInput(y.sid, tokenId, now)).1;
            DidOf(cfg, y) !in st.epochs.pending && answer.TokenSent? && answer.token.did == DidOf(cfg, y)
  {
    var inputs, close := Onboard(cfg, x) + Onboard(cfg, y), CloseInput(true, {DidOf(cfg, y)}, x.timestamp);
    SecondLeftOut(cfg, x, y, close);
    RolesByType(y.metadata.deviceType, y.metadata.role);
    RunThen(cfg, inputs, close);
    ExcludedStillGetsToken(cfg, inputs, close, TokenInput(y.sid, tokenId, now), DidOf(cfg, y));
  }

  lemma OnlyFirstIsMember(cfg: Config, st: FogState, x: Honest, y: Honest, exclude: set<Bytes>)
    requires InBatch(cfg, st, x, 1) && st.devices.Keys <= {DidOf(cfg, x), DidOf(cfg, y)} && exclude == {DidOf(cfg, y)}
    requires st.epochs.pending.Keys <= st.devices.Keys && DidOf(cfg, x) != DidOf(cfg, y)
    ensures Members(cfg.keys, st.devices, st.epochs.pending, exclude).Keys == {DidOf(cfg, x)}
  {
  }

  // ---------- such devices exist ----------

  function LastByte(b: Bytes): Digest {
    seq(32, _ => if b == [] then 0 else b[|b| - 1])
  }

  /** A toy environment: everything is signed well, and a hash repeats the last byte. */
  function ToyConfig(): Config {
    Config(FogKeys(Crypto((b: Bytes) => LastByte(b), _ => [], (_, _, _) => true, _ => [], []), [], true), 9, 9, 9, 9,
           _ => true, _ => true)
  }

  function ToyDevice(n: byte): Honest {
    Honest([n], seq(33, _ => n), LastByte([]), [], Metadata([], TEMPERATURE_SENSOR, [], [], SENSOR), [],
           [n], TEMPERATURE_SENSOR, READ, [], 0, 0, 0, 0, 0, 0)
  }

  /** The rules can be followed, by two devices at once, and by the holder of a token: the theorems about honest
      devices are not empty. */
  lemma RulesCanBeFollowed()
    ensures SignatureCorrect(ToyConfig().keys.crypto) && Pair(ToyConfig(), ToyDevice(0), ToyDevice(1))
    ensures HoldsProperly(ToyConfig(), ToyDevice(0), Holder([0], [1], TEMPERATURE_SENSOR, READ, [], 0, 0, 0))
  {
    ToyRules(0);
    ToyRules(1);
    ToyDidDigit(0);
    ToyDidDigit(1);
  }

  lemma ToyRules(n: byte)
    ensures PlaysByTheRules(ToyConfig(), INITIAL, ToyDevice(n))
  {
  }

  lemma ToyDidDigit(n: byte)
    requires n < 10
    ensures DidOf(ToyConfig(), ToyDevice(n))[|DID_PREFIX| + 1] == 48 + n
  {
    assert LastByte(ToyDevice(n).publicKey)[0] == n;
    assert Hex(LastByte(ToyDevice(n).publicKey))[1] == HexDigit(n % 16);
  }
}
