/** The three byte strings that devices sign (common/canonical.py, fog/tokens/tokens.py,
    fog/verification/routes.py). */
module Messages {
  import opened Basics
  import opened Canonical

  /** "IIOT_POP_V1" */
  const POP_CONTEXT: Bytes := [73, 73, 79, 84, 95, 80, 79, 80, 95, 86, 49]

  /** "IIOT_TOKEN_ACCESS_V1" */
  const TOKEN_ACCESS_LABEL: Bytes := [73, 73, 79, 84, 95, 84, 79, 75, 69, 78, 95, 65, 67, 67, 69, 83, 83, 95, 86, 49]

  /** "IIOT_VERIFY_ACCESS_V1" */
  const VERIFY_LABEL: Bytes := [73, 73, 79, 84, 95, 86, 69, 82, 73, 70, 89, 95, 65, 67, 67, 69, 83, 83, 95, 86, 49]

  const MINUS: byte := 45

  /** `b"|".join(parts)` */
  function Join(parts: seq<Bytes>): Bytes
    requires parts != []
  {
    if |parts| == 1 then parts[0] else parts[0] + [SEPARATOR] + Join(parts[1..])
  }

  /** `msg.split(b"|")` */
  function SplitAtSeparators(msg: Bytes): (parts: seq<Bytes>)
    ensures parts != []
  {
    if msg == [] then [[]]
    else
      var rest := SplitAtSeparators(msg[1..]);
      if msg[0] == SEPARATOR then [[]] + rest else [[msg[0]] + rest[0]] + rest[1..]
  }

  predicate SeparatorFree(parts: seq<Bytes>) {
    forall p :: p in parts ==> SEPARATOR !in p
  }

  lemma {:induction false} SplitOfField(field: Bytes)
    ensures SplitAtSeparators(field) == [field] <==> SEPARATOR !in field
    ensures |SplitAtSeparators(field)| == 1 <==> SEPARATOR !in field
    ensures SeparatorFree(SplitAtSeparators(field))
  {
    if field != [] {
      SplitOfField(field[1..]);
      assert field == [field[0]] + field[1..];
      var rest := SplitAtSeparators(field[1..]);
      assert rest[0] in rest;
    }
  }

  lemma {:induction false} SplitOfTwo(a: Bytes, b: Bytes)
    ensures SplitAtSeparators(a + [SEPARATOR] + b) == SplitAtSeparators(a) + SplitAtSeparators(b)
  {
    var msg := a + [SEPARATOR] + b;
    if a == [] {
      assert msg[1..] == b;
    } else {
      assert msg[1..] == a[1..] + [SEPARATOR] + b;
      SplitOfTwo(a[1..], b);
    }
  }

  /** The pieces between separators, field after field. */
  function Segments(parts: seq<Bytes>): seq<Bytes> {
    if parts == [] then [] else SplitAtSeparators(parts[0]) + Segments(parts[1..])
  }

  lemma {:induction false} SegmentsAppend(a: seq<Bytes>, b: seq<Bytes>)
    ensures Segments(a + b) == Segments(a) + Segments(b)
  {
    if a == [] {
      assert a + b == b;
    } else {
      assert (a + b)[1..] == a[1..] + b;
      SegmentsAppend(a[1..], b);
    }
  }

  lemma {:induction false} SplitOfJoin(parts: seq<Bytes>)
    requires parts != []
    ensures SplitAtSeparators(Join(parts)) == Segments(parts)
  {
    if |parts| == 1 {
      assert Segments(parts[1..]) == [];
    } else {
      SplitOfTwo(parts[0], Join(parts[1..]));
      SplitOfJoin(parts[1..]);
    }
  }

  lemma {:induction false} JoinUndoesSplit(msg: Bytes)
    ensures Join(SplitAtSeparators(msg)) == msg
  {
    if msg != [] {
      var rest := SplitAtSeparators(msg[1..]);
      JoinUndoesSplit(msg[1..]);
      assert msg == [msg[0]] + msg[1..];
      if msg[0] == SEPARATOR {
        assert ([[]] + rest)[1..] == rest;
      } else {
        assert ([[msg[0]] + rest[0]] + rest[1..])[1..] == rest[1..];
      }
    }
  }

  /** Two lists of fields give the same bytes exactly when they give the same pieces. */
  lemma SameBytesSameSegments(a: seq<Bytes>, b: seq<Bytes>)
    requires a != [] && b != []
    ensures Join(a) == Join(b) <==> Segments(a) == Segments(b)
  {
    SplitOfJoin(a);
    SplitOfJoin(b);
    JoinUndoesSplit(Join(a));
    JoinUndoesSplit(Join(b));
  }

  lemma {:induction false} SegmentCount(parts: seq<Bytes>)
    ensures |Segments(parts)| >= |parts|
    ensures |Segments(parts)| == |parts| <==> SeparatorFree(parts)
    ensures SeparatorFree(parts) ==> Segments(parts) == parts
  {
    if parts != [] {
      SplitOfField(parts[0]);
      SegmentCount(parts[1..]);
      assert parts == [parts[0]] + parts[1..];
    }
  }

  /** Splitting undoes joining when no field contains the separator. */
  lemma SplitUndoesJoin(parts: seq<Bytes>)
    requires parts != [] && SeparatorFree(parts)
    ensures SplitAtSeparators(Join(parts)) == parts
  {
    SplitOfJoin(parts);
    SegmentCount(parts);
  }

  /** The number of pieces tells separator-free fields from all others. */
  lemma SameCountSameFields(a: seq<Bytes>, b: seq<Bytes>)
    requires |a| == |b| > 0 && SeparatorFree(a) && Join(a) == Join(b)
    ensures a == b
  {
    SameBytesSameSegments(a, b);
    SegmentCount(a);
    SegmentCount(b);
  }

  lemma TwoPieces(x: Bytes, y: Bytes)
    ensures Segments([x, y]) == SplitAtSeparators(x) + SplitAtSeparators(y)
  {
    assert [x, y][1..] == [y] && Segments([y]) == SplitAtSeparators(y) + Segments([]);
  }

  lemma ThreePieces(x: Bytes, y: Bytes, z: Bytes)
    ensures Segments([x, y, z]) == SplitAtSeparators(x) + SplitAtSeparators(y) + SplitAtSeparators(z)
  {
    TwoPieces(y, z);
    assert [x, y, z][1..] == [y, z];
    Regrouped(SplitAtSeparators(x), SplitAtSeparators(y), SplitAtSeparators(z));
  }

  /** Two neighbouring fields, one of them with a separator, can be read in another way. */
  lemma OtherReading(before: seq<Bytes>, x: Bytes, y: Bytes, after: seq<Bytes>) returns (x': Bytes, y': Bytes)
    requires SEPARATOR in x || SEPARATOR in y
    ensures x' != x && Join(before + [x', y'] + after) == Join(before + [x, y] + after)
  {
    var p, q := SplitAtSeparators(x), SplitAtSeparators(y);
    SplitOfField(x);
    SplitOfField(y);
    var k := if SEPARATOR in x then 1 else |p| + 1;
    var all := p + q;
    assert SeparatorFree(all[..k]) && SeparatorFree(all[k..]);
    x', y' := Join(all[..k]), Join(all[k..]);
    SplitUndoesJoin(all[..k]);
    SplitUndoesJoin(all[k..]);
    assert all[..k] + all[k..] == all;
    TwoPieces(x, y);
    TwoPieces(x', y');
    SamePieces(before, [x, y], [x', y'], after);
  }

  lemma SamePieces(before: seq<Bytes>, a: seq<Bytes>, b: seq<Bytes>, after: seq<Bytes>)
    requires a != [] && b != [] && Segments(a) == Segments(b)
    ensures Join(before + a + after) == Join(before + b + after)
  {
    SegmentsAppend(before, a);
    SegmentsAppend(before, b);
    SegmentsAppend(before + a, after);
    SegmentsAppend(before + b, after);
    SameBytesSameSegments(before + a + after, before + b + after);
  }

  // ---------- str(epoch_id) ----------

  function Digits(n: nat): (r: Bytes)
    ensures r != [] && forall i :: 0 <= i < |r| ==> 48 <= r[i] <= 57
  {
    if n < 10 then [48 + n] else Digits(n / 10) + [48 + n % 10]
  }

  function Decimal(n: int): Bytes {
    if n < 0 then [MINUS] + Digits(-n) else Digits(n)
  }

  function Value(digits: Bytes): int {
    if digits == [] then 0 else 10 * Value(digits[..|digits| - 1]) + digits[|digits| - 1] - 48
  }

  lemma {:induction false} ValueOfDigits(n: nat)
    ensures Value(Digits(n)) == n
  {
    if n >= 10 {
      ValueOfDigits(n / 10);
      assert Digits(n)[..|Digits(n)| - 1] == Digits(n / 10);
    } else {
      assert Digits(n)[..0] == [];
    }
  }

  lemma DecimalInjective(m: int, n: int)
    ensures SEPARATOR !in Decimal(m)
    ensures Decimal(m) == Decimal(n) ==> m == n
  {
    ValueOfDigits(if m < 0 then -m else m);
    ValueOfDigits(if n < 0 then -n else n);
    if Decimal(m) == Decimal(n) {
      assert Decimal(m)[0] == Decimal(n)[0];
      if m < 0 { assert Decimal(m)[1..] == Digits(-m) && Decimal(n)[1..] == Digits(-n); }
    }
  }

  // ---------- the signed messages ----------

  function PopMessage(challenge: Bytes, did: Bytes): Bytes {
    POP_CONTEXT + [SEPARATOR] + challenge + [SEPARATOR] + did
  }

  function AccessFields(tokenId: Bytes, did: Bytes, nonce: Bytes, resource: Bytes, operation: Bytes): seq<Bytes> {
    [TOKEN_ACCESS_LABEL, tokenId, did, nonce, resource, operation]
  }

  function AccessMessage(tokenId: Bytes, did: Bytes, nonce: Bytes, resource: Bytes, operation: Bytes): Bytes {
    Join(AccessFields(tokenId, did, nonce, resource, operation))
  }

  function VerifyFields(did: Bytes, epochId: int, nonce: Bytes, resource: Bytes, operation: Bytes): seq<Bytes> {
    [VERIFY_LABEL, did, Decimal(epochId), nonce, resource, operation]
  }

  function VerifyMessage(did: Bytes, epochId: int, nonce: Bytes, resource: Bytes, operation: Bytes): Bytes {
    Join(VerifyFields(did, epochId, nonce, resource, operation))
  }

  lemma PopMessageInjective(challenge: Bytes, did: Bytes, challenge': Bytes, did': Bytes)
    requires |challenge| == |challenge'| && PopMessage(challenge, did) == PopMessage(challenge', did')
    ensures challenge == challenge' && did == did'
  {
    var x, y, n := PopMessage(challenge, did), PopMessage(challenge', did'), |challenge|;
    assert challenge == x[12..12 + n] && challenge' == y[12..12 + n];
    assert did == x[13 + n..] && did' == y[13 + n..];
  }

  // ---------- the exact layout ----------

  lemma LabelsRead()
    ensures POP_CONTEXT == Ascii("IIOT_POP_V1") && TOKEN_ACCESS_LABEL == Ascii("IIOT_TOKEN_ACCESS_V1")
    ensures VERIFY_LABEL == Ascii("IIOT_VERIFY_ACCESS_V1") && [SEPARATOR] == Ascii("|") && [MINUS] == Ascii("-")
  {
  }

  lemma {:induction false} JoinLast(parts: seq<Bytes>, last: Bytes)
    requires parts != []
    ensures Join(parts + [last]) == Join(parts) + [SEPARATOR] + last
  {
    if |parts| == 1 {
      assert (parts + [last])[1..] == [last];
    } else {
      assert (parts + [last])[1..] == parts[1..] + [last];
      JoinLast(parts[1..], last);
    }
  }

  lemma JoinSix(a: Bytes, b: Bytes, c: Bytes, d: Bytes, e: Bytes, f: Bytes)
    ensures var bar := [SEPARATOR]; Join([a, b, c, d, e, f]) == a + bar + b + bar + c + bar + d + bar + e + bar + f
  {
    JoinLast([a], b);
    assert [a] + [b] == [a, b];
    JoinLast([a, b], c);
    assert [a, b] + [c] == [a, b, c];
    JoinLast([a, b, c], d);
    assert [a, b, c] + [d] == [a, b, c, d];
    JoinLast([a, b, c, d], e);
    assert [a, b, c, d] + [e] == [a, b, c, d, e];
    JoinLast([a, b, c, d, e], f);
    assert [a, b, c, d, e] + [f] == [a, b, c, d, e, f];
  }

  /** The three messages, byte by byte: which fields they carry and in which order. */
  lemma MessageLayouts(challenge: Bytes, did: Bytes, t: Bytes, e: int, n: Bytes, r: Bytes, o: Bytes)
    ensures var bar := Ascii("|");
            && PopMessage(challenge, did) == Ascii("IIOT_POP_V1") + bar + challenge + bar + did
            && AccessMessage(t, did, n, r, o)
               == Ascii("IIOT_TOKEN_ACCESS_V1") + bar + t + bar + did + bar + n + bar + r + bar + o
            && VerifyMessage(did, e, n, r, o)
               == Ascii("IIOT_VERIFY_ACCESS_V1") + bar + did + bar + Decimal(e) + bar + n + bar + r + bar + o
  {
    LabelsRead();
    JoinSix(TOKEN_ACCESS_LABEL, t, did, n, r, o);
    JoinSix(VERIFY_LABEL, did, Decimal(e), n, r, o);
  }

  /** The text of a number: its decimal digits without leading zeros, after a minus sign when it is negative. */
  lemma {:induction false} DecimalReads(n: int)
    ensures n < 0 ==> Decimal(n) == Ascii("-") + Decimal(-n)
    ensures n >= 0 ==> Value(Decimal(n)) == n && forall i :: 0 <= i < |Decimal(n)| ==> 48 <= Decimal(n)[i] <= 57
    ensures 0 <= n < 10 ==> |Decimal(n)| == 1
    ensures n >= 10 ==> Decimal(n)[0] != 48
    decreases if n < 0 then -n else n
  {
    LabelsRead();
    if n >= 0 {
      ValueOfDigits(n);
      if n >= 10 { DecimalReads(n / 10); }
    }
  }

  /** The signed bytes say which request it is. */
  ghost predicate AccessDetermined(t: Bytes, d: Bytes, n: Bytes, r: Bytes, o: Bytes) {
    forall t', d', n', r', o' :: AccessMessage(t', d', n', r', o') == AccessMessage(t, d, n, r, o) ==>
                                   t' == t && d' == d && n' == n && r' == r && o' == o
  }

  ghost predicate VerifyDetermined(d: Bytes, e: int, n: Bytes, r: Bytes, o: Bytes) {
    forall d', e', n', r', o' :: VerifyMessage(d', e', n', r', o') == VerifyMessage(d, e, n, r, o) ==>
                                   d' == d && e' == e && n' == n && r' == r && o' == o
  }

  /** The signed bytes of a token request determine it exactly when no field contains the separator. */
  lemma AccessDeterminedExactly(t: Bytes, d: Bytes, n: Bytes, r: Bytes, o: Bytes)
    ensures AccessDetermined(t, d, n, r, o) <==> SeparatorFree([t, d, n, r, o])
  {
    if SeparatorFree([t, d, n, r, o]) {
      forall t', d', n', r', o' | AccessMessage(t', d', n', r', o') == AccessMessage(t, d, n, r, o)
        ensures t' == t && d' == d && n' == n && r' == r && o' == o
      {
        AccessMessageInjective(t, d, n, r, o, t', d', n', r', o');
      }
    } else if SEPARATOR in t || SEPARATOR in d {
      var t', d' := OtherReading([TOKEN_ACCESS_LABEL], t, d, [n, r, o]);
      assert [TOKEN_ACCESS_LABEL] + [t, d] + [n, r, o] == AccessFields(t, d, n, r, o);
      assert [TOKEN_ACCESS_LABEL] + [t', d'] + [n, r, o] == AccessFields(t', d', n, r, o);
      assert AccessMessage(t', d', n, r, o) == AccessMessage(t, d, n, r, o);
    } else if SEPARATOR in n || SEPARATOR in r {
      var n', r' := OtherReading([TOKEN_ACCESS_LABEL, t, d], n, r, [o]);
      assert [TOKEN_ACCESS_LABEL, t, d] + [n, r] + [o] == AccessFields(t, d, n, r, o);
      assert [TOKEN_ACCESS_LABEL, t, d] + [n', r'] + [o] == AccessFields(t, d, n', r', o);
      assert AccessMessage(t, d, n', r', o) == AccessMessage(t, d, n, r, o);
    } else {
      var r', o' := OtherReading([TOKEN_ACCESS_LABEL, t, d, n], r, o, []);
      assert [TOKEN_ACCESS_LABEL, t, d, n] + [r, o] + [] == AccessFields(t, d, n, r, o);
      assert [TOKEN_ACCESS_LABEL, t, d, n] + [r', o'] + [] == AccessFields(t, d, n, r', o');
      assert AccessMessage(t, d, n, r', o') == AccessMessage(t, d, n, r, o);
    }
  }

  /** It is enough that one of the two requests is free of separators: the count of pieces excludes any other. */
  lemma AccessMessageInjective(t: Bytes, d: Bytes, n: Bytes, r: Bytes, o: Bytes, t': Bytes, d': Bytes, n': Bytes,
                               r': Bytes, o': Bytes)
    requires SeparatorFree([t, d, n, r, o])
    requires AccessMessage(t, d, n, r, o) == AccessMessage(t', d', n', r', o')
    ensures t == t' && d == d' && n == n' && r == r' && o == o'
  {
    var a, b := AccessFields(t, d, n, r, o), AccessFields(t', d', n', r', o');
    assert a == [TOKEN_ACCESS_LABEL] + [t, d, n, r, o];
    SameCountSameFields(a, b);
    assert a[1] == b[1] && a[2] == b[2] && a[3] == b[3] && a[4] == b[4] && a[5] == b[5];
  }

  /** Some piece of the DID after its first separator is the text of a number. */
  ghost predicate NumberInside(d: Bytes) {
    exists q, e :: NumberAt(d, q, e)
  }

  predicate NumberAt(d: Bytes, q: nat, e: int) {
    1 <= q < |SplitAtSeparators(d)| && SplitAtSeparators(d)[q] == Decimal(e)
  }

  /** The signed bytes of a /verify request determine it exactly when nonce, resource and operation contain no
      separator and no later piece of the DID reads as a number: only there can the epoch number be misread. */
  lemma VerifyDeterminedExactly(d: Bytes, e: int, n: Bytes, r: Bytes, o: Bytes)
    ensures VerifyDetermined(d, e, n, r, o) <==> SeparatorFree([n, r, o]) && !NumberInside(d)
  {
    if SEPARATOR in n || SEPARATOR in r {
      var n', r' := OtherReading([VERIFY_LABEL, d, Decimal(e)], n, r, [o]);
      assert [VERIFY_LABEL, d, Decimal(e)] + [n, r] + [o] == VerifyFields(d, e, n, r, o);
      assert [VERIFY_LABEL, d, Decimal(e)] + [n', r'] + [o] == VerifyFields(d, e, n', r', o);
      assert VerifyMessage(d, e, n', r', o) == VerifyMessage(d, e, n, r, o);
    } else if SEPARATOR in o {
      var r', o' := OtherReading([VERIFY_LABEL, d, Decimal(e), n], r, o, []);
      assert [VERIFY_LABEL, d, Decimal(e), n] + [r, o] + [] == VerifyFields(d, e, n, r, o);
      assert [VERIFY_LABEL, d, Decimal(e), n] + [r', o'] + [] == VerifyFields(d, e, n, r', o');
      assert VerifyMessage(d, e, n, r', o') == VerifyMessage(d, e, n, r, o);
    } else if NumberInside(d) {
      var q, e' :| NumberAt(d, q, e');
      NumberMisread(d, e, n, r, o, q, e');
    } else {
      forall d', e', n', r', o' | VerifyMessage(d', e', n', r', o') == VerifyMessage(d, e, n, r, o)
        ensures d' == d && e' == e && n' == n && r' == r && o' == o
      {
        VerifyMessageInjective(d, e, n, r, o, d', e', n', r', o');
      }
    }
  }

  lemma NoNumberInside(d: Bytes)
    requires SEPARATOR !in d
    ensures !NumberInside(d)
  {
    SplitOfField(d);
  }

  /** The later piece taken for the epoch number: the DID ends before it, the nonce begins after it. */
  lemma NumberMisread(d: Bytes, e: int, n: Bytes, r: Bytes, o: Bytes, q: nat, e': int)
    requires NumberAt(d, q, e')
    ensures !VerifyDetermined(d, e, n, r, o)
  {
    var d', n' := MisreadFields(d, e, n, q, e');
    SamePieces([VERIFY_LABEL], [d, Decimal(e), n], [d', Decimal(e'), n'], [r, o]);
    assert [VERIFY_LABEL] + [d, Decimal(e), n] + [r, o] == VerifyFields(d, e, n, r, o);
    assert [VERIFY_LABEL] + [d', Decimal(e'), n'] + [r, o] == VerifyFields(d', e', n', r, o);
    assert VerifyMessage(d', e', n', r, o) == VerifyMessage(d, e, n, r, o);
  }

  lemma MisreadFields(d: Bytes, e: int, n: Bytes, q: nat, e': int) returns (d': Bytes, n': Bytes)
    requires NumberAt(d, q, e')
    ensures d' != d && Segments([d', Decimal(e'), n']) == Segments([d, Decimal(e), n])
  {
    var p, s := SplitAtSeparators(d), SplitAtSeparators(n);
    var tail := p[q + 1..] + [Decimal(e)] + s;
    SplitOfField(d);
    SplitOfField(n);
    NumberIsOnePiece(e);
    NumberIsOnePiece(e');
    d', n' := Join(p[..q]), Join(tail);
    SplitUndoesJoin(p[..q]);
    SplitUndoesJoin(tail);
    ThreePieces(d, Decimal(e), n);
    ThreePieces(d', Decimal(e'), n');
    ResplitAt(p, q, Decimal(e'), Decimal(e), s);
  }

  lemma ResplitAt(p: seq<Bytes>, q: nat, x: Bytes, y: Bytes, s: seq<Bytes>)
    requires q < |p| && p[q] == x
    ensures p[..q] + [x] + (p[q + 1..] + [y] + s) == p + [y] + s
  {
    assert p == p[..q] + [x] + p[q + 1..];
    Resplit(p[..q], x, p[q + 1..], y, s);
  }

  lemma Resplit(a: seq<Bytes>, x: Bytes, b: seq<Bytes>, y: Bytes, c: seq<Bytes>)
    ensures a + [x] + (b + [y] + c) == (a + [x] + b) + [y] + c
  {
  }

  lemma NumberIsOnePiece(e: int)
    ensures SEPARATOR !in Decimal(e) && SplitAtSeparators(Decimal(e)) == [Decimal(e)]
  {
    DecimalInjective(e, e);
    SplitOfField(Decimal(e));
  }

  lemma SegmentsAfter(prefix: Bytes, d: Bytes, e: int, rest: seq<Bytes>)
    requires SEPARATOR !in prefix
    ensures Segments([prefix, d, Decimal(e)] + rest) == [prefix] + SplitAtSeparators(d) + [Decimal(e)] + Segments(rest)
  {
    NumberIsOnePiece(e);
    SplitOfField(prefix);
    ThreePieces(prefix, d, Decimal(e));
    SegmentsAppend([prefix, d, Decimal(e)], rest);
  }

  lemma VerifyMessageInjective(d: Bytes, e: int, n: Bytes, r: Bytes, o: Bytes, d': Bytes, e': int, n': Bytes,
                               r': Bytes, o': Bytes)
    requires SeparatorFree([n, r, o]) && !NumberInside(d)
    requires VerifyMessage(d, e, n, r, o) == VerifyMessage(d', e', n', r', o')
    ensures d == d' && e == e' && n == n' && r == r' && o == o'
  {
    var f, f' := [n, r, o], [n', r', o'];
    assert [VERIFY_LABEL, d, Decimal(e)] + f == VerifyFields(d, e, n, r, o);
    assert [VERIFY_LABEL, d', Decimal(e')] + f' == VerifyFields(d', e', n', r', o');
    SameReading(VERIFY_LABEL, d, e, f, d', e', f');
    assert f[0] == f'[0] && f[1] == f'[1] && f[2] == f'[2];
  }

  lemma SameReading(prefix: Bytes, d: Bytes, e: int, f: seq<Bytes>, d': Bytes, e': int, f': seq<Bytes>)
    requires SEPARATOR !in prefix && SeparatorFree(f) && !NumberInside(d) && |f| == |f'|
    requires Join([prefix, d, Decimal(e)] + f) == Join([prefix, d', Decimal(e')] + f')
    ensures d == d' && e == e' && f == f'
  {
    var p, p' := SplitAtSeparators(d), SplitAtSeparators(d');
    SegmentsAfter(prefix, d, e, f);
    SegmentsAfter(prefix, d', e', f');
    SameBytesSameSegments([prefix, d, Decimal(e)] + f, [prefix, d', Decimal(e')] + f');
    SegmentCount(f);
    SegmentCount(f');
    PieceAfter(prefix, p, Decimal(e), f, p', Decimal(e'), Segments(f'));
    if |p'| < |p| {
      assert NumberAt(d, |p'|, e');
    }
    DecimalInjective(e, e');
    JoinUndoesSplit(d);
    JoinUndoesSplit(d');
  }

  /** Where the second reading has its number, the first has the piece at that place. */
  lemma PieceAfter(x: Bytes, p: seq<Bytes>, y: Bytes, f: seq<Bytes>, p': seq<Bytes>, y': Bytes, f': seq<Bytes>)
    requires [x] + p + [y] + f == [x] + p' + [y'] + f' && |f| <= |f'|
    ensures |p'| <= |p| && (|p'| < |p| ==> p[|p'|] == y')
    ensures |p'| == |p| ==> p == p' && y == y' && f == f'
  {
    var all, all', n := [x] + p + [y] + f, [x] + p' + [y'] + f', |p'|;
    assert |all| == |p| + |f| + 2 && |all'| == n + |f'| + 2;
    assert all'[1 + n] == y';
    if n == |p| {
      assert p == all[1..1 + n] && p' == all'[1..1 + n];
      assert f == all[2 + n..] && f' == all'[2 + n..];
      assert all[1 + n] == y;
    } else {
      assert all[1 + n] == p[n];
    }
  }

  /** An example: "x|y" then "z" reads as "x" then "y|z". */
  lemma SeparatorInFieldIsAmbiguous(t: Bytes, d: Bytes, n: Bytes)
    ensures AccessMessage(t, d, n, [120, SEPARATOR, 121], [122]) == AccessMessage(t, d, n, [120], [121, SEPARATOR, 122])
  {
    assert [120, SEPARATOR, 121] == [120] + [SEPARATOR] + [121] && [121, SEPARATOR, 122] == [121] + [SEPARATOR] + [122];
    SplitOfTwo([120], [121]);
    SplitOfTwo([121], [122]);
    var a, b := [[120, SEPARATOR, 121], [122]], [[120], [121, SEPARATOR, 122]];
    TwoPieces(a[0], a[1]);
    TwoPieces(b[0], b[1]);
    SplitOfField([120]);
    SplitOfField([121]);
    SplitOfField([122]);
    SamePieces([TOKEN_ACCESS_LABEL, t, d, n], a, b, []);
    assert [TOKEN_ACCESS_LABEL, t, d, n] + a + [] == AccessFields(t, d, n, a[0], a[1]);
    assert [TOKEN_ACCESS_LABEL, t, d, n] + b + [] == AccessFields(t, d, n, b[0], b[1]);
  }

  /** A signature for one protocol step is never a signature for another. */
  lemma MessagesDisjoint(challenge: Bytes, did: Bytes, t: Bytes, d: Bytes, n: Bytes, r: Bytes, o: Bytes,
                         d': Bytes, e': int, n': Bytes, r': Bytes, o': Bytes)
    ensures PopMessage(challenge, did) != AccessMessage(t, d, n, r, o)
    ensures PopMessage(challenge, did) != VerifyMessage(d', e', n', r', o')
    ensures AccessMessage(t, d, n, r, o) != VerifyMessage(d', e', n', r', o')
  {
    assert PopMessage(challenge, did)[5] == POP_CONTEXT[5] == 80;
    assert AccessMessage(t, d, n, r, o)[5] == TOKEN_ACCESS_LABEL[5] == 84;
    assert VerifyMessage(d', e', n', r', o')[5] == VERIFY_LABEL[5] == 86;
  }
}
