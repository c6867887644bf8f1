/** Shared vocabulary: byte strings, optional and failing results. */
module Basics {
  datatype Option<+T> = None | Some(value: T) {
    function GetOr(default: T): T {
      if Some? then value else default
    }
  }

  datatype Result<+T, +E> = Ok(value: T) | Err(error: E)

  type byte = x: int | 0 <= x < 256

  /** Raw bytes. Text travels as its UTF-8 bytes. */
  type Bytes = seq<byte>

  /** The output of SHA-256. */
  type Digest = d: Bytes | |d| == 32 witness seq(32, i => 0)

  /** A clock reading or a duration, counted in the smallest steps of the clock. */
  type Time = int

  predicate DuplicateFree<T(==)>(s: seq<T>) {
    forall i, j :: 0 <= i < j < |s| ==> s[i] != s[j]
  }

  /** ASCII text as bytes. */
  function Ascii(text: string): (r: Bytes)
    requires forall i :: 0 <= i < |text| ==> text[i] as int < 128
    ensures |r| == |text| && forall i :: 0 <= i < |r| ==> r[i] == text[i] as int
  {
    seq(|text|, i requires 0 <= i < |text| => text[i] as int)
  }

  ghost function Elements<T>(s: seq<T>): set<T> {
    set x | x in s
  }

  lemma Regrouped<T>(a: seq<T>, b: seq<T>, c: seq<T>)
    ensures (a + b) + c == a + (b + c)
  {
  }

  /** Moving the first element of the rest to the end of what is done. */
  lemma FirstMoved<T>(done: seq<T>, rest: seq<T>)
    requires rest != []
    ensures (done + [rest[0]]) + rest[1..] == done + rest
  {
  }
}

/** The order in which leaves are sorted: byte strings compared lexicographically. */
module ByteOrder {
  import opened Basics

  predicate Leq(a: Bytes, b: Bytes) {
    a == [] || (b != [] && (a[0] < b[0] || (a[0] == b[0] && Leq(a[1..], b[1..]))))
  }

  lemma LeqReflexive(a: Bytes)
    ensures Leq(a, a)
  {
  }

  lemma LeqTotal(a: Bytes, b: Bytes)
    ensures Leq(a, b) || Leq(b, a)
  {
  }

  lemma {:induction false} LeqAntisymmetric(a: Bytes, b: Bytes)
    requires Leq(a, b) && Leq(b, a)
    ensures a == b
  {
    if a != [] {
      LeqAntisymmetric(a[1..], b[1..]);
      assert a == [a[0]] + a[1..] && b == [b[0]] + b[1..];
    }
  }

  lemma {:induction false} LeqTransitive(a: Bytes, b: Bytes, c: Bytes)
    requires Leq(a, b) && Leq(b, c)
    ensures Leq(a, c)
  {
    if a != [] && a[0] == b[0] == c[0] {
      LeqTransitive(a[1..], b[1..], c[1..]);
    }
  }

  // ---------- what the order means ----------

  /** The two differ first in byte k, and there `a` is the smaller. */
  predicate SmallerAt(a: Bytes, b: Bytes, k: nat) {
    k < |a| && k < |b| && a[..k] == b[..k] && a[k] < b[k]
  }

  predicate Below(a: Bytes, b: Bytes) {
    exists k :: 0 <= k < |a| && SmallerAt(a, b, k)
  }

  /** The first difference decides. */
  lemma {:induction false} FirstDifferenceDecides(a: Bytes, b: Bytes, k: nat)
    requires SmallerAt(a, b, k)
    ensures Leq(a, b) && !Leq(b, a)
  {
    if k > 0 {
      assert a[0] == a[..k][0] && b[0] == b[..k][0];
      assert a[1..][..k - 1] == a[..k][1..] && b[1..][..k - 1] == b[..k][1..];
      FirstDifferenceDecides(a[1..], b[1..], k - 1);
    }
  }

  lemma {:induction false} FirstDifference(a: Bytes, b: Bytes)
    requires |a| == |b| && a != b
    ensures Below(a, b) || Below(b, a)
  {
    if a[0] != b[0] {
      assert SmallerAt(a, b, 0) || SmallerAt(b, a, 0);
    } else {
      assert a == [a[0]] + a[1..] && b == [b[0]] + b[1..];
      FirstDifference(a[1..], b[1..]);
      var x, y := if Below(a[1..], b[1..]) then a else b, if Below(a[1..], b[1..]) then b else a;
      var k :| 0 <= k < |x[1..]| && SmallerAt(x[1..], y[1..], k);
      assert x[..k + 1] == [x[0]] + x[1..][..k] && y[..k + 1] == [y[0]] + y[1..][..k];
      assert SmallerAt(x, y, k + 1);
    }
  }

  /** On strings of one length the order is that of the first different byte. */
  lemma LeqIsByFirstDifference(a: Bytes, b: Bytes)
    requires |a| == |b|
    ensures Leq(a, b) <==> a == b || Below(a, b)
  {
    LeqReflexive(a);
    if a != b { FirstDifference(a, b); }
    if Below(a, b) {
      var k :| 0 <= k < |a| && SmallerAt(a, b, k);
      FirstDifferenceDecides(a, b, k);
    }
    if Below(b, a) {
      var k :| 0 <= k < |b| && SmallerAt(b, a, k);
      FirstDifferenceDecides(b, a, k);
    }
  }

  /** Each element is below all that follow. */
  predicate Ascends(s: seq<Bytes>) {
    forall i, j :: 0 <= i < j < |s| ==> Below(s[i], s[j])
  }

  lemma SortedAscends(s: seq<Bytes>)
    requires Sorted(s) && DuplicateFree(s) && forall i, j :: 0 <= i < j < |s| ==> |s[i]| == |s[j]|
    ensures Ascends(s)
  {
    forall i, j | 0 <= i < j < |s| ensures Below(s[i], s[j]) {
      LeqIsByFirstDifference(s[i], s[j]);
    }
  }

  predicate Sorted(s: seq<Bytes>) {
    forall i, j :: 0 <= i < j < |s| ==> Leq(s[i], s[j])
  }

  lemma {:induction false} LeastExists(s: set<Bytes>) returns (m: Bytes)
    requires s != {}
    ensures m in s && forall x :: x in s ==> Leq(m, x)
    decreases |s|
  {
    m :| m in s;
    LeqReflexive(m);
    if s - {m} != {} {
      var least := LeastExists(s - {m});
      LeqTotal(m, least);
      if Leq(m, least) {
        forall x | x in s ensures Leq(m, x) {
          if x != m { LeqTransitive(m, least, x); }
        }
      } else {
        m := least;
      }
    }
  }

  ghost function Least(s: set<Bytes>): (m: Bytes)
    requires s != {}
    ensures m in s && forall x :: x in s ==> Leq(m, x)
  {
    assert exists m :: m in s && forall x :: x in s ==> Leq(m, x) by {
      var m := LeastExists(s);
    }
    var m :| m in s && forall x :: x in s ==> Leq(m, x);
    m
  }

  lemma Prepended(s: set<Bytes>, m: Bytes, rest: seq<Bytes>)
    requires m in s && (forall x :: x in s ==> Leq(m, x)) && (forall x :: x in rest <==> x in s - {m})
    requires Sorted(rest) && DuplicateFree(rest)
    ensures forall x :: x in [m] + rest <==> x in s
    ensures Sorted([m] + rest) && DuplicateFree([m] + rest)
  {
    assert forall i :: 0 <= i < |rest| ==> rest[i] in rest && rest[i] in s - {m};
  }

  /** The elements of a set, listed in ascending order. */
  ghost function Ascending(s: set<Bytes>): (r: seq<Bytes>)
    ensures forall x :: x in r <==> x in s
    ensures Sorted(r) && DuplicateFree(r)
    ensures |r| == |s|
  {
    if s == {} then []
    else
      var m := Least(s);
      var rest := Ascending(s - {m});
      Prepended(s, m, rest);
      [m] + rest
  }

  /** Sorted lists without repetition are determined by their elements. */
  lemma {:induction false} SortedUnique(a: seq<Bytes>, b: seq<Bytes>)
    requires Sorted(a) && DuplicateFree(a) && Sorted(b) && DuplicateFree(b)
    requires forall x :: x in a <==> x in b
    ensures a == b
  {
    assert a == [] || a[0] in a;
    assert b == [] || b[0] in b;
    if a != [] && b != [] {
      assert a[0] in b && b[0] in a;
      if a[0] != b[0] {
        assert Leq(a[0], b[0]) && Leq(b[0], a[0]);
        LeqAntisymmetric(a[0], b[0]);
      }
      assert a == [a[0]] + a[1..] && b == [b[0]] + b[1..];
      forall x ensures x in a[1..] <==> x in b[1..] {
        if x in a[1..] { assert x in a && x in b; }
        if x in b[1..] { assert x in b && x in a; }
      }
      SortedUnique(a[1..], b[1..]);
    }
  }

  function Insert(x: Bytes, s: seq<Bytes>): (r: seq<Bytes>)
    requires Sorted(s)
    ensures Sorted(r) && multiset(r) == multiset(s) + multiset{x}
  {
    if s == [] then [x]
    else if Leq(x, s[0]) then
      assert forall i :: 0 <= i < |s| ==> Leq(x, s[i]) by {
        forall i | 0 <= i < |s| ensures Leq(x, s[i]) {
          if i > 0 { LeqTransitive(x, s[0], s[i]); }
        }
      }
      [x] + s
    else
      LeqTotal(x, s[0]);
      var rest := Insert(x, s[1..]);
      assert s == [s[0]] + s[1..];
      assert forall y :: y in rest ==> Leq(s[0], y) by {
        forall y | y in rest ensures Leq(s[0], y) {
          assert y in multiset(rest);
        }
      }
      [s[0]] + rest
  }

  /** The built-in stable sort on byte strings. */
  function Sort(s: seq<Bytes>): (r: seq<Bytes>)
    ensures Sorted(r) && multiset(r) == multiset(s)
  {
    if s == [] then []
    else
      assert s == [s[0]] + s[1..];
      Insert(s[0], Sort(s[1..]))
  }

  /** Sorting forgets arrival order: the result depends only on the set of leaves. */
  lemma SortIsAscending(s: seq<Bytes>)
    requires DuplicateFree(s)
    ensures Sort(s) == Ascending(Elements(s))
    ensures |Sort(s)| == |s| && DuplicateFree(Sort(s))
    ensures forall x :: x in Sort(s) <==> x in s
  {
    var r := Sort(s);
    assert forall x :: x in multiset(r) <==> x in multiset(s);
    assert |multiset(r)| == |multiset(s)|;
    SameMultisetDuplicateFree(s, r);
    SortedUnique(r, Ascending(Elements(s)));
  }

  lemma SortAgreesExactlyOnSameElements(s: seq<Bytes>, t: seq<Bytes>)
    requires DuplicateFree(s) && DuplicateFree(t)
    ensures Sort(s) == Sort(t) <==> Elements(s) == Elements(t)
  {
    SortIsAscending(s);
    SortIsAscending(t);
    if Sort(s) == Sort(t) {
      forall x ensures x in s <==> x in t { assert x in Sort(s) <==> x in Sort(t); }
    }
  }

  lemma SameMultisetDuplicateFree(s: seq<Bytes>, r: seq<Bytes>)
    requires multiset(s) == multiset(r) && DuplicateFree(s)
    ensures DuplicateFree(r) && |r| == |s| && forall x :: x in r <==> x in s
  {
    assert |s| == |multiset(s)| && |r| == |multiset(r)|;
    forall x ensures x in r <==> x in s { assert x in multiset(r) <==> x in multiset(s); }
    forall x | x in s ensures multiset(s)[x] <= 1 { DuplicateFreeCount(s, x); }
    forall i, j | 0 <= i < j < |r| ensures r[i] != r[j] {
      if r[i] == r[j] { RepeatCount(r, i, j); }
    }
  }

  lemma RepeatCount(s: seq<Bytes>, i: nat, j: nat)
    requires i < j < |s| && s[i] == s[j]
    ensures multiset(s)[s[i]] >= 2
  {
    assert s == s[..j] + [s[j]] + s[j + 1..];
    assert multiset(s) == multiset(s[..j]) + multiset{s[j]} + multiset(s[j + 1..]);
    assert s[..j][i] in s[..j];
  }

  lemma {:induction false} DuplicateFreeCount(s: seq<Bytes>, x: Bytes)
    requires DuplicateFree(s)
    ensures multiset(s)[x] <= 1
  {
    if s != [] {
      assert s == [s[0]] + s[1..];
      DuplicateFreeCount(s[1..], x);
      if x == s[0] { assert x !in s[1..]; }
    }
  }
}
