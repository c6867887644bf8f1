/** Fog-issued, single-use, short-lived nonces (fog/tokens/store.py).
    The random nonce and the clock reading are parameters. */
module Nonces {
  import opened Basics

  datatype Entry = Entry(purpose: Bytes, subject: Bytes, expiresAt: Time, used: bool)

  datatype NonceStatus = NonceOk | NonceUnknown | NonceWrongSubject | NonceReused | NonceExpired

  type Book = map<Bytes, Entry>

  function Purged(book: Book, now: Time): Book {
    map n | n in book && now <= book[n].expiresAt :: book[n]
  }

  function Issued(book: Book, ttl: Time, purpose: Bytes, subject: Bytes, nonce: Bytes, now: Time): Book {
    Purged(book, now)[nonce := Entry(purpose, subject, now + ttl, false)]
  }

  /** A wrong subject does not burn the nonce. */
  function Consumed(book: Book, purpose: Bytes, subject: Bytes, nonce: Bytes, now: Time): (Book, NonceStatus) {
    if nonce !in book then (book, NonceUnknown)
    else
      var e := book[nonce];
      if e.purpose != purpose || e.subject != subject then (book, NonceWrongSubject)
      else if e.used then (book, NonceReused)
      else if now > e.expiresAt then (book - {nonce}, NonceExpired)
      else (book[nonce := e.(used := true)], NonceOk)
  }

  // ---------- whole runs ----------

  datatype Op =
    | IssueOp(purpose: Bytes, subject: Bytes, nonce: Bytes, now: Time)
    | ConsumeOp(purpose: Bytes, subject: Bytes, nonce: Bytes, now: Time)

  function Apply(book: Book, ttl: Time, op: Op): Book {
    match op
    case IssueOp(p, s, n, now) => Issued(book, ttl, p, s, n, now)
    case ConsumeOp(p, s, n, now) => Consumed(book, p, s, n, now).0
  }

  function RunBook(ttl: Time, ops: seq<Op>): Book {
    if ops == [] then map[] else Apply(RunBook(ttl, ops[..|ops| - 1]), ttl, ops[|ops| - 1])
  }

  /** Did the i-th operation consume its nonce successfully? */
  predicate Accepts(ttl: Time, ops: seq<Op>, i: nat)
    requires i < |ops|
  {
    match ops[i]
    case ConsumeOp(p, s, n, now) => Consumed(RunBook(ttl, ops[..i]), p, s, n, now).1 == NonceOk
    case _ => false
  }

  /** Random nonces never repeat. */
  predicate FreshNonces(ops: seq<Op>) {
    forall i, j :: 0 <= i < j < |ops| && ops[i].IssueOp? && ops[j].IssueOp? ==> ops[i].nonce != ops[j].nonce
  }

  predicate ClockNeverGoesBack(ops: seq<Op>) {
    forall i, j :: 0 <= i < j < |ops| ==> ops[i].now <= ops[j].now
  }

  /** Operation j issued the nonce that operation i asks for, to the same purpose and subject, and in time. */
  predicate Covers(ttl: Time, ops: seq<Op>, j: nat, i: nat)
    requires j < |ops| && i < |ops|
  {
    && ops[j].IssueOp? && ops[i].ConsumeOp? && ops[j].nonce == ops[i].nonce
    && ops[j].purpose == ops[i].purpose && ops[j].subject == ops[i].subject
    && ops[i].now <= ops[j].now + ttl
  }

  /** The reference: a log that forgets nothing. A nonce is accepted when it was issued before for this
      purpose and subject, has not expired, and was never accepted before. */
  predicate LogAccepts(ttl: Time, ops: seq<Op>, i: nat)
    requires i < |ops|
    decreases i
  {
    && (exists j :: 0 <= j < i && Covers(ttl, ops, j, i))
    && (forall k :: 0 <= k < i && ops[k].nonce == ops[i].nonce ==> !LogAccepts(ttl, ops, k))
  }

  predicate IssuedAs(ttl: Time, op: Op, x: Bytes, e: Entry) {
    op.IssueOp? && op.nonce == x && op.purpose == e.purpose && op.subject == e.subject && e.expiresAt == op.now + ttl
  }

  /** Every entry of the book was put there by an issue. */
  lemma {:induction false} EntryWasIssued(ttl: Time, ops: seq<Op>, n: nat, x: Bytes) returns (j: nat)
    requires n <= |ops| && x in RunBook(ttl, ops[..n])
    ensures j < n && IssuedAs(ttl, ops[j], x, RunBook(ttl, ops[..n])[x])
  {
    j := 0;
    if n > 0 {
      var i := n - 1;
      assert ops[..n][..i] == ops[..i];
      if ops[i].IssueOp? && ops[i].nonce == x {
        j := i;
      } else {
        j := EntryWasIssued(ttl, ops, i, x);
      }
    }
  }

  ghost predicate AcceptedInLog(ttl: Time, ops: seq<Op>, n: nat, x: Bytes)
    requires n <= |ops|
  {
    exists k :: 0 <= k < n && ops[k].nonce == x && LogAccepts(ttl, ops, k)
  }

  /** The book after n operations, seen through the log. */
  ghost predicate BookMatchesLog(ttl: Time, ops: seq<Op>, n: nat)
    requires n <= |ops|
  {
    var book := RunBook(ttl, ops[..n]);
    && (forall x :: x in book ==> (book[x].used <==> AcceptedInLog(ttl, ops, n, x)))
    && (forall j :: 0 <= j < n && ops[j].IssueOp? && ops[j].nonce !in book ==> ops[n - 1].now > ops[j].now + ttl)
  }

  lemma {:induction false} BookTracksLog(ttl: Time, ops: seq<Op>, n: nat)
    requires n <= |ops| && FreshNonces(ops) && ClockNeverGoesBack(ops)
    ensures BookMatchesLog(ttl, ops, n)
  {
    if n == 0 {
      assert ops[..0] == [];
    } else {
      BookTracksLog(ttl, ops, n - 1);
      StepAgrees(ttl, ops, n - 1);
      UsedTracksLog(ttl, ops, n - 1);
      MissingIsExpired(ttl, ops, n - 1);
    }
  }

  lemma StepAgrees(ttl: Time, ops: seq<Op>, i: nat)
    requires i < |ops| && FreshNonces(ops) && ClockNeverGoesBack(ops) && BookMatchesLog(ttl, ops, i)
    ensures Accepts(ttl, ops, i) <==> LogAccepts(ttl, ops, i)
  {
    if ops[i].ConsumeOp? {
      if Accepts(ttl, ops, i) { AcceptedIsLogged(ttl, ops, i); }
      if LogAccepts(ttl, ops, i) { LoggedIsAccepted(ttl, ops, i); }
    }
  }

  lemma AcceptedIsLogged(ttl: Time, ops: seq<Op>, i: nat)
    requires i < |ops| && BookMatchesLog(ttl, ops, i) && Accepts(ttl, ops, i)
    ensures LogAccepts(ttl, ops, i)
  {
    var j := EntryWasIssued(ttl, ops, i, ops[i].nonce);
    assert Covers(ttl, ops, j, i);
    assert !AcceptedInLog(ttl, ops, i, ops[i].nonce);
  }

  lemma LoggedIsAccepted(ttl: Time, ops: seq<Op>, i: nat)
    requires i < |ops| && FreshNonces(ops) && ClockNeverGoesBack(ops) && BookMatchesLog(ttl, ops, i)
    requires LogAccepts(ttl, ops, i)
    ensures Accepts(ttl, ops, i)
  {
    var book, x := RunBook(ttl, ops[..i]), ops[i].nonce;
    var k :| 0 <= k < i && Covers(ttl, ops, k, i);
    assert x in book;
    var j := EntryWasIssued(ttl, ops, i, x);
    assert j == k && !AcceptedInLog(ttl, ops, i, x);
  }

  lemma UsedTracksLog(ttl: Time, ops: seq<Op>, i: nat)
    requires i < |ops| && FreshNonces(ops) && BookMatchesLog(ttl, ops, i)
    requires Accepts(ttl, ops, i) <==> LogAccepts(ttl, ops, i)
    ensures var book := RunBook(ttl, ops[..i + 1]);
            forall x :: x in book ==> (book[x].used <==> AcceptedInLog(ttl, ops, i + 1, x))
  {
    var book := RunBook(ttl, ops[..i + 1]);
    forall x | x in book ensures book[x].used <==> AcceptedInLog(ttl, ops, i + 1, x) {
      UsedTracksLogAt(ttl, ops, i, x);
    }
  }

  lemma UsedTracksLogAt(ttl: Time, ops: seq<Op>, i: nat, x: Bytes)
    requires i < |ops| && FreshNonces(ops)
    requires x in RunBook(ttl, ops[..i]) ==> (RunBook(ttl, ops[..i])[x].used <==> AcceptedInLog(ttl, ops, i, x))
    requires Accepts(ttl, ops, i) <==> LogAccepts(ttl, ops, i)
    requires x in RunBook(ttl, ops[..i + 1])
    ensures RunBook(ttl, ops[..i + 1])[x].used <==> AcceptedInLog(ttl, ops, i + 1, x)
  {
    assert ops[..i + 1][..i] == ops[..i];
    AcceptedSplits(ttl, ops, i, x);
    UsedAfter(RunBook(ttl, ops[..i]), ttl, ops[i], x);
    if ops[i].IssueOp? && ops[i].nonce == x {
      NotAcceptedBeforeIssue(ttl, ops, i);
    }
  }

  lemma UsedAfter(book: Book, ttl: Time, op: Op, x: Bytes)
    requires x in Apply(book, ttl, op)
    ensures if op.IssueOp? && op.nonce == x then !Apply(book, ttl, op)[x].used
            else x in book && (Apply(book, ttl, op)[x].used
                               <==> book[x].used || (op.ConsumeOp? && op.nonce == x
                                      && Consumed(book, op.purpose, op.subject, op.nonce, op.now).1 == NonceOk))
  {
  }

  lemma AcceptedSplits(ttl: Time, ops: seq<Op>, i: nat, x: Bytes)
    requires i < |ops|
    ensures AcceptedInLog(ttl, ops, i + 1, x)
       <==> AcceptedInLog(ttl, ops, i, x) || (ops[i].nonce == x && LogAccepts(ttl, ops, i))
  {
  }

  lemma NotAcceptedBeforeIssue(ttl: Time, ops: seq<Op>, i: nat)
    requires i < |ops| && FreshNonces(ops) && ops[i].IssueOp?
    ensures !AcceptedInLog(ttl, ops, i, ops[i].nonce)
  {
    forall k | 0 <= k < i && ops[k].nonce == ops[i].nonce ensures !LogAccepts(ttl, ops, k) {
      assert forall j :: 0 <= j < k ==> !Covers(ttl, ops, j, k);
    }
  }

  lemma MissingIsExpired(ttl: Time, ops: seq<Op>, i: nat)
    requires i < |ops| && ClockNeverGoesBack(ops) && BookMatchesLog(ttl, ops, i) && FreshNonces(ops)
    ensures var book := RunBook(ttl, ops[..i + 1]);
            forall j :: 0 <= j <= i && ops[j].IssueOp? && ops[j].nonce !in book ==> ops[i].now > ops[j].now + ttl
  {
    assert ops[..i + 1][..i] == ops[..i];
    var before, book := RunBook(ttl, ops[..i]), RunBook(ttl, ops[..i + 1]);
    forall j | 0 <= j <= i && ops[j].IssueOp? && ops[j].nonce !in book ensures ops[i].now > ops[j].now + ttl {
      if ops[j].nonce in before {
        var k := EntryWasIssued(ttl, ops, i, ops[j].nonce);
        assert k == j;
      }
    }
  }

  /** Refinement: purging loses nothing that matters. */
  lemma BookRefinesLog(ttl: Time, ops: seq<Op>, i: nat)
    requires i < |ops| && FreshNonces(ops) && ClockNeverGoesBack(ops)
    ensures Accepts(ttl, ops, i) <==> LogAccepts(ttl, ops, i)
  {
    BookTracksLog(ttl, ops, i);
    StepAgrees(ttl, ops, i);
  }

  // ---------- without any assumption on the clock ----------

  /** Whatever the clock does, an accepted nonce was issued before for this purpose and subject. */
  lemma AcceptedWasIssued(ttl: Time, ops: seq<Op>, i: nat)
    requires i < |ops| && Accepts(ttl, ops, i)
    ensures exists j :: 0 <= j < i && Covers(ttl, ops, j, i)
  {
    var j := EntryWasIssued(ttl, ops, i, ops[i].nonce);
    assert Covers(ttl, ops, j, i);
  }

  /** Whatever the clock does, an accepted nonce is used up for good. */
  lemma {:induction false} AcceptedStaysUsed(ttl: Time, ops: seq<Op>, k: nat, n: nat)
    requires k < n <= |ops| && FreshNonces(ops) && Accepts(ttl, ops, k)
    ensures ops[k].nonce in RunBook(ttl, ops[..n]) ==> RunBook(ttl, ops[..n])[ops[k].nonce].used
  {
    var i := n - 1;
    assert ops[..n][..i] == ops[..i];
    if k < i {
      AcceptedStaysUsed(ttl, ops, k, i);
      var j := EntryWasIssued(ttl, ops, k, ops[k].nonce);
    }
  }

  /** Whatever the clock does, no nonce is accepted twice. */
  lemma AcceptedAtMostOnce(ttl: Time, ops: seq<Op>, i: nat, j: nat)
    requires i < j < |ops| && FreshNonces(ops) && Accepts(ttl, ops, i) && Accepts(ttl, ops, j)
    ensures ops[i].nonce != ops[j].nonce
  {
    AcceptedStaysUsed(ttl, ops, i, j);
  }

  // ---------- what each status means ----------

  /** The first n checks of an attempt: known, meant for this purpose and subject, unused, in time. */
  predicate AttemptPasses(book: Book, purpose: Bytes, subject: Bytes, nonce: Bytes, now: Time, n: nat) {
    && (n >= 1 ==> nonce in book)
    && (n >= 2 ==> nonce in book && book[nonce].purpose == purpose && book[nonce].subject == subject)
    && (n >= 3 ==> nonce in book && !book[nonce].used)
    && (n >= 4 ==> nonce in book && now <= book[nonce].expiresAt)
  }

  /** Each status names the first check that fails, and only an attempt that is meant and unused changes the book. */
  lemma StatusesExactly(book: Book, p: Bytes, s: Bytes, x: Bytes, now: Time)
    ensures var (after, status) := Consumed(book, p, s, x, now);
            && (status == NonceUnknown <==> !AttemptPasses(book, p, s, x, now, 1))
            && (status == NonceWrongSubject <==>
                  AttemptPasses(book, p, s, x, now, 1) && !AttemptPasses(book, p, s, x, now, 2))
            && (status == NonceReused <==>
                  AttemptPasses(book, p, s, x, now, 2) && !AttemptPasses(book, p, s, x, now, 3))
            && (status == NonceExpired <==>
                  AttemptPasses(book, p, s, x, now, 3) && !AttemptPasses(book, p, s, x, now, 4))
            && (status == NonceOk <==> AttemptPasses(book, p, s, x, now, 4))
            && (!AttemptPasses(book, p, s, x, now, 3) ==> after == book)
            && (status == NonceExpired ==> after.Keys == book.Keys - {x})
            && (status == NonceOk ==> after.Keys == book.Keys && after[x] == book[x].(used := true))
            && (forall y :: y in book && y != x ==> y in after && after[y] == book[y])
  {
  }

  /** After a nonce is issued no entry of the book has expired, the new one being valid for the whole time to live. */
  lemma IssueKeepsLiveOnly(book: Book, ttl: Time, purpose: Bytes, subject: Bytes, nonce: Bytes, now: Time)
    ensures var after := Issued(book, ttl, purpose, subject, nonce, now);
            && nonce in after && after[nonce] == Entry(purpose, subject, now + ttl, false)
            && (forall x :: x in after && x != nonce ==> x in book && after[x] == book[x] && now <= after[x].expiresAt)
            && (forall x :: x in book && now <= book[x].expiresAt ==> x in after)
  {
  }

  /** A replay is answered as such: while the nonce is in time, its second use for the same purpose and subject gets
      NonceReused. */
  lemma ReplayIsReused(ttl: Time, ops: seq<Op>, j: nat, k: nat, i: nat)
    requires FreshNonces(ops) && ClockNeverGoesBack(ops) && k < i < |ops|
    requires j < k && Covers(ttl, ops, j, k) && Covers(ttl, ops, j, i) && Accepts(ttl, ops, k)
    ensures Consumed(RunBook(ttl, ops[..i]), ops[i].purpose, ops[i].subject, ops[i].nonce, ops[i].now).1 == NonceReused
  {
    BookTracksLog(ttl, ops, i);
    assert ops[i - 1].now <= ops[i].now;
    assert ops[j].nonce in RunBook(ttl, ops[..i]);
    AcceptedStaysUsed(ttl, ops, k, i);
    var m := EntryWasIssued(ttl, ops, i, ops[i].nonce);
    assert ops[m].nonce == ops[j].nonce;
  }

  // ---------- which attempts burn a nonce ----------

  predicate Usable(book: Book, purpose: Bytes, subject: Bytes, nonce: Bytes, now: Time) {
    Consumed(book, purpose, subject, nonce, now).1 == NonceOk
  }

  ghost predicate NoLaterUse(book: Book, nonce: Bytes) {
    forall purpose, subject, now :: !Usable(book, purpose, subject, nonce, now)
  }

  /** An attempt leaves a nonce without any later use exactly when the nonce was already gone or used, or when the
      attempt named its purpose and subject: an attempt for anyone else leaves it as it was. */
  lemma AttemptBurnsExactly(book: Book, purpose: Bytes, subject: Bytes, nonce: Bytes, now: Time)
    ensures NoLaterUse(Consumed(book, purpose, subject, nonce, now).0, nonce) <==>
              nonce !in book || book[nonce].used || (purpose == book[nonce].purpose && subject == book[nonce].subject)
  {
    var after := Consumed(book, purpose, subject, nonce, now).0;
    if nonce in book {
      var e := book[nonce];
      assert nonce in after && !after[nonce].used ==> Usable(after, e.purpose, e.subject, nonce, e.expiresAt);
    }
  }

  /** The documented rule fails: a wrong subject fails first, and the right one is accepted after it. */
  lemma WrongSubjectLeavesNonce(ttl: Time, purpose: Bytes, subject: Bytes, other: Bytes, nonce: Bytes, t: Time)
    requires ttl >= 0 && other != subject
    ensures var ops := [IssueOp(purpose, subject, nonce, t), ConsumeOp(purpose, other, nonce, t),
                        ConsumeOp(purpose, subject, nonce, t)];
            && FreshNonces(ops) && ClockNeverGoesBack(ops)
            && Consumed(RunBook(ttl, ops[..1]), purpose, other, nonce, t).1 == NonceWrongSubject
            && !Accepts(ttl, ops, 1) && Accepts(ttl, ops, 2)
  {
    var ops := [IssueOp(purpose, subject, nonce, t), ConsumeOp(purpose, other, nonce, t),
                ConsumeOp(purpose, subject, nonce, t)];
    assert ops[..0] == [] && ops[..1][..0] == [] && ops[..2][..1] == ops[..1];
    assert RunBook(ttl, ops[..1]) == map[nonce := Entry(purpose, subject, t + ttl, false)];
    assert RunBook(ttl, ops[..2]) == RunBook(ttl, ops[..1]);
  }

  /** Whatever follows, the nonce is never accepted again. */
  ghost predicate Burned(ttl: Time, ops: seq<Op>, nonce: Bytes) {
    forall more :: FreshNonces(ops + more) && ClockNeverGoesBack(ops + more) ==>
        NotAcceptedFrom(ttl, ops + more, |ops|, nonce)
  }

  predicate NotAcceptedFrom(ttl: Time, ops: seq<Op>, n: nat, nonce: Bytes) {
    forall k :: n <= k < |ops| && ops[k].nonce == nonce ==> !Accepts(ttl, ops, k)
  }

  /** Operation j issued the nonce that attempt i asks for, in time, but to another purpose or subject, and the
      nonce had not been accepted before the attempt. */
  predicate MeantForAnother(ttl: Time, ops: seq<Op>, j: nat, i: nat)
    requires j < i < |ops|
  {
    && ops[j].IssueOp? && ops[i].ConsumeOp? && ops[j].nonce == ops[i].nonce
    && (ops[j].purpose != ops[i].purpose || ops[j].subject != ops[i].subject)
    && ops[i].now <= ops[j].now + ttl
    && forall k :: 0 <= k < i && ops[k].nonce == ops[i].nonce ==> !LogAccepts(ttl, ops, k)
  }

  lemma {:induction false} LogAcceptsPrefix(ttl: Time, ops: seq<Op>, more: seq<Op>, i: nat)
    requires i < |ops|
    ensures LogAccepts(ttl, ops + more, i) == LogAccepts(ttl, ops, i)
    decreases i
  {
    forall k | 0 <= k < i ensures LogAccepts(ttl, ops + more, k) == LogAccepts(ttl, ops, k) {
      LogAcceptsPrefix(ttl, ops, more, k);
    }
    forall j | 0 <= j < i ensures Covers(ttl, ops + more, j, i) == Covers(ttl, ops, j, i) {
    }
  }

  /** In runs: the last attempt on a nonce that was issued burns it for good, except exactly when the nonce was
      meant for another purpose or subject, was still in time, and had not been accepted. */
  lemma AttemptBurnsInRuns(ttl: Time, ops: seq<Op>, j: nat)
    requires ops != [] && FreshNonces(ops) && ClockNeverGoesBack(ops)
    requires ops[|ops| - 1].ConsumeOp?
    requires j < |ops| - 1 && ops[j].IssueOp? && ops[j].nonce == ops[|ops| - 1].nonce
    ensures Burned(ttl, ops, ops[j].nonce) <==> !MeantForAnother(ttl, ops, j, |ops| - 1)
  {
    if MeantForAnother(ttl, ops, j, |ops| - 1) {
      StillUsable(ttl, ops, j);
    } else {
      forall more | FreshNonces(ops + more) && ClockNeverGoesBack(ops + more)
        ensures NotAcceptedFrom(ttl, ops + more, |ops|, ops[j].nonce)
      {
        forall k | |ops| <= k < |ops + more| && (ops + more)[k].nonce == ops[j].nonce
            ensures !Accepts(ttl, ops + more, k) {
          NeverAgain(ttl, ops, more, j, k);
        }
      }
    }
  }

  lemma StillUsable(ttl: Time, ops: seq<Op>, j: nat)
    requires ops != [] && FreshNonces(ops) && ClockNeverGoesBack(ops)
    requires j < |ops| - 1 && MeantForAnother(ttl, ops, j, |ops| - 1)
    ensures !Burned(ttl, ops, ops[j].nonce)
  {
    var n, i := |ops|, |ops| - 1;
    var more := [ConsumeOp(ops[j].purpose, ops[j].subject, ops[j].nonce, ops[i].now)];
    var all := ops + more;
    assert all[n] == more[0] && Covers(ttl, all, j, n);
    forall k | 0 <= k < n && all[k].nonce == all[n].nonce ensures !LogAccepts(ttl, all, k) {
      LogAcceptsPrefix(ttl, ops, more, k);
    }
    assert FreshNonces(all) && ClockNeverGoesBack(all);
    BookRefinesLog(ttl, all, n);
  }

  lemma NeverAgain(ttl: Time, ops: seq<Op>, more: seq<Op>, j: nat, k: nat)
    requires ops != [] && FreshNonces(ops + more) && ClockNeverGoesBack(ops + more)
    requires ops[|ops| - 1].ConsumeOp? && |ops| <= k < |ops + more|
    requires j < |ops| - 1 && ops[j].IssueOp? && ops[j].nonce == ops[|ops| - 1].nonce == (ops + more)[k].nonce
    requires !MeantForAnother(ttl, ops, j, |ops| - 1)
    ensures !Accepts(ttl, ops + more, k)
  {
    BookRefinesLog(ttl, ops + more, k);
    if LogAccepts(ttl, ops + more, k) { AcceptedLaterWasMeant(ttl, ops, more, j, k); }
  }

  lemma AcceptedLaterWasMeant(ttl: Time, ops: seq<Op>, more: seq<Op>, j: nat, k: nat)
    requires ops != [] && FreshNonces(ops + more) && ClockNeverGoesBack(ops + more)
    requires ops[|ops| - 1].ConsumeOp? && |ops| <= k < |ops + more|
    requires j < |ops| - 1 && ops[j].IssueOp? && ops[j].nonce == ops[|ops| - 1].nonce == (ops + more)[k].nonce
    requires LogAccepts(ttl, ops + more, k)
    ensures MeantForAnother(ttl, ops, j, |ops| - 1)
  {
    var all, i := ops + more, |ops| - 1;
    var m :| 0 <= m < k && Covers(ttl, all, m, k);
    assert all[m].nonce == all[j].nonce && all[m] == all[j];
    assert all[i].now <= all[k].now;
    forall x | 0 <= x <= i && ops[x].nonce == ops[i].nonce ensures !LogAccepts(ttl, ops, x) {
      LogAcceptsPrefix(ttl, ops, more, x);
      assert all[x].nonce == all[k].nonce;
    }
    assert !Covers(ttl, ops, j, i);
  }

  // ---------- the nonce book object ----------

  class NonceBook {
    const ttl: Time
    var entries: Book

    constructor (ttl: Time)
      ensures this.ttl == ttl && entries == map[]
    {
      this.ttl := ttl;
      entries := map[];
    }

    method Purge(now: Time)
      modifies this
      ensures entries == Purged(old(entries), now)
    {
      var dead := set n | n in entries && now > entries[n].expiresAt;
      while dead != {}
        invariant dead <= entries.Keys <= old(entries).Keys
        invariant forall n :: n in entries ==> entries[n] == old(entries)[n]
        invariant forall n :: n in old(entries) ==> (n in dead ==> now > old(entries)[n].expiresAt)
        invariant forall n :: n in old(entries) ==> (n in entries && n !in dead <==> now <= old(entries)[n].expiresAt)
        decreases dead
      {
        var n :| n in dead;
        entries := entries - {n};
        dead := dead - {n};
      }
    }

    method Issue(purpose: Bytes, subject: Bytes, nonce: Bytes, now: Time) returns (issued: Bytes)
      modifies this
      ensures issued == nonce && entries == Issued(old(entries), ttl, purpose, subject, nonce, now)
    {
      Purge(now);
      entries := entries[nonce := Entry(purpose, subject, now + ttl, false)];
      issued := nonce;
    }

    method Consume(purpose: Bytes, subject: Bytes, nonce: Bytes, now: Time) returns (status: NonceStatus)
      modifies this
      ensures (entries, status) == Consumed(old(entries), purpose, subject, nonce, now)
    {
      if nonce !in entries {
        return NonceUnknown;
      }
      var e := entries[nonce];
      if e.purpose != purpose || e.subject != subject {
        return NonceWrongSubject;
      }
      if e.used {
        return NonceReused;
      }
      if now > e.expiresAt {
        entries := entries - {nonce};
        return NonceExpired;
      }
      entries := entries[nonce := e.(used := true)];
      status := NonceOk;
    }
  }
}
