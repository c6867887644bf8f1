/** Hash inputs shared by every component (common/canonical.py).

    SHA-256 is an arbitrary function from bytes to 32 bytes, never assumed
    injective: no function into a finite set is. A soundness claim here reads
    "the property holds, or two of these strings collide", where "these strings"
    is the finite set that the computations in question really hashed. */
module Canonical {
  import opened Basics

  type Hash = Bytes -> Digest

  const LEAF_PREFIX: byte := 0x00
  const NODE_PREFIX: byte := 0x01
  const SEPARATOR: byte := 0x7C
  const COMPRESSED_PK_LEN := 33

  /** The ASCII bytes of "did:iiot:". */
  const DID_PREFIX: Bytes := [100, 105, 100, 58, 105, 105, 111, 116, 58]

  datatype Identity = Identity(did: Bytes, publicKey: Bytes)

  predicate ValidIdentity(id: Identity) {
    DID_PREFIX <= id.did && |id.publicKey| == COMPRESSED_PK_LEN
  }

  function LeafInput(id: Identity): Bytes {
    [LEAF_PREFIX] + id.did + [SEPARATOR] + id.publicKey
  }

  /** None when the code raises ValueError. */
  function LeafHash(h: Hash, id: Identity): Option<Digest> {
    if ValidIdentity(id) then Some(h(LeafInput(id))) else None
  }

  function NodeInput(left: Digest, right: Digest): Bytes {
    [NODE_PREFIX] + left + right
  }

  function NodeHash(h: Hash, left: Digest, right: Digest): Digest {
    h(NodeInput(left, right))
  }

  // ---------- the exact layout ----------

  /** 0x00, the DID, "|", the key; defined exactly for DIDs that start with "did:iiot:" and keys of 33 bytes. */
  lemma LeafLayout(h: Hash, id: Identity)
    ensures var x, n := LeafInput(id), |id.did|;
            && |x| == n + 2 + |id.publicKey| && x[0] == 0 && x[1..n + 1] == id.did && x[n + 1] == '|' as int
            && x[n + 2..] == id.publicKey
    ensures LeafHash(h, id).Some? <==> Ascii("did:iiot:") <= id.did && |id.publicKey| == 33
    ensures LeafHash(h, id).Some? ==> LeafHash(h, id).value == h(LeafInput(id))
  {
    assert DID_PREFIX == Ascii("did:iiot:");
  }

  /** 0x01, the left child, the right child. */
  lemma NodeLayout(h: Hash, left: Digest, right: Digest)
    ensures var x := NodeInput(left, right);
            |x| == 65 && x[0] == 1 && x[1..33] == left && x[33..] == right && NodeHash(h, left, right) == h(x)
  {
  }

  /** Two different strings of `inputs` have the same hash. */
  ghost predicate HasCollision(h: Hash, inputs: set<Bytes>) {
    exists x, y :: x in inputs && y in inputs && x != y && h(x) == h(y)
  }

  lemma SameHashSameInput(h: Hash, inputs: set<Bytes>, x: Bytes, y: Bytes)
    requires x in inputs && y in inputs && h(x) == h(y)
    ensures x == y || HasCollision(h, inputs)
  {
  }

  /** The fixed key length makes the leaf encoding injective even though a DID may contain the separator. */
  lemma LeafInputInjective(a: Identity, b: Identity)
    requires |a.publicKey| == |b.publicKey| && LeafInput(a) == LeafInput(b)
    ensures a == b
  {
    var x, y := LeafInput(a), LeafInput(b);
    var n := |a.did|;
    assert n == |b.did|;
    assert a.did == x[1..n + 1] && b.did == y[1..n + 1];
    assert a.publicKey == x[n + 2..] && b.publicKey == y[n + 2..];
  }

  lemma NodeInputInjective(l: Digest, r: Digest, l': Digest, r': Digest)
    requires NodeInput(l, r) == NodeInput(l', r')
    ensures l == l' && r == r'
  {
    var x, y := NodeInput(l, r), NodeInput(l', r');
    assert l == x[1..33] && l' == y[1..33];
    assert r == x[33..] && r' == y[33..];
  }

  lemma LeafIsNotNode(id: Identity, l: Digest, r: Digest)
    ensures LeafInput(id) != NodeInput(l, r)
  {
    assert LeafInput(id)[0] == LEAF_PREFIX && NodeInput(l, r)[0] == NODE_PREFIX;
  }

  // ---------- DIDs derived from keys (common/crypto_utils.py) ----------

  function HexDigit(n: int): byte
    requires 0 <= n < 16
  {
    if n < 10 then 48 + n else 87 + n
  }

  function Hex(b: Bytes): (r: Bytes)
    ensures |r| == 2 * |b|
    ensures SEPARATOR !in r
  {
    seq(2 * |b|, i requires 0 <= i < 2 * |b| =>
      if i % 2 == 0 then HexDigit(b[i / 2] / 16) else HexDigit(b[i / 2] % 16))
  }

  /** Two digits of "0123456789abcdef" for each byte, the high one first. */
  lemma HexReads(b: Bytes, i: nat)
    requires i < |b|
    ensures var digits := "0123456789abcdef";
            Hex(b)[2 * i] == digits[b[i] / 16] as int && Hex(b)[2 * i + 1] == digits[b[i] % 16] as int
  {
    HexDigitReads(b[i] / 16);
    HexDigitReads(b[i] % 16);
    assert (2 * i) / 2 == i && (2 * i + 1) / 2 == i;
  }

  lemma HexDigitReads(n: nat)
    requires n < 16
    ensures HexDigit(n) == "0123456789abcdef"[n] as int
  {
  }

  /** The DID of a key is "did:iiot:" and the hex text of the first eight bytes of its hash. */
  lemma DidReads(h: Hash, publicKey: Bytes)
    ensures DeriveDid(h, publicKey) == Ascii("did:iiot:") + Hex(h(publicKey)[..8])
  {
    assert DID_PREFIX == Ascii("did:iiot:");
    var d := h(publicKey);
    forall i | 0 <= i < 16 ensures Hex(d)[..16][i] == Hex(d[..8])[i] {
      assert d[..8][i / 2] == d[i / 2];
    }
    assert Hex(d)[..16] == Hex(d[..8]);
  }

  /** "did:iiot:" followed by the first 16 hex characters of SHA-256 of the key. */
  function DeriveDid(h: Hash, publicKey: Bytes): (did: Bytes)
    ensures DID_PREFIX <= did && |did| == 25 && SEPARATOR !in did
  {
    DID_PREFIX + Hex(h(publicKey))[..16]
  }
}
