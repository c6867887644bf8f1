/** Keys, signatures and the typed records that the fog turns into canonical JSON. */
module Signing {
  import opened Basics
  import opened Canonical

  /** The signed fields of a ledger block (registry/ledger.py). */
  datatype Body = Body(blockIndex: int, epochId: int, root: Bytes, leafCount: int,
                       timestamp: Bytes, fogId: Bytes, prevHash: Bytes)

  /** The signed fields of a provisional token (fog/tokens/tokens.py). */
  datatype TokenFields = TokenFields(tokenId: Bytes, did: Bytes, publicKey: Bytes, deviceType: Bytes, role: Bytes,
                                     queuedForEpoch: int, issuedAt: Time, expiresAt: Time)

  /** Everything the code passes to canonical_json. */
  datatype Record =
    | BlockRecord(body: Body)
    | SealedBlock(body: Body, signature: Bytes)
    | PackageRecord(did: Bytes, leaf: Bytes, root: Bytes, epochId: int, fogId: Bytes)
    | TokenRecord(token: TokenFields)

  /** The cryptographic environment: uninterpreted functions and the fog's own public key. */
  datatype Crypto = Crypto(
    hash: Hash,
    json: Record -> Bytes,
    verify: (Bytes, Bytes, Bytes) -> bool,
    sign: Bytes -> Bytes,
    fogKey: Bytes)

  /** Sorted keys and fixed separators make canonical JSON injective on records. */
  ghost predicate JsonInjective(c: Crypto) {
    forall r, r' :: c.json(r) == c.json(r') ==> r == r'
  }

  /** What the fog signs verifies under the fog's key. */
  ghost predicate SignatureCorrect(c: Crypto) {
    forall m :: c.verify(c.fogKey, m, c.sign(m))
  }

  function SignRecord(c: Crypto, r: Record): Bytes {
    c.sign(c.json(r))
  }

  /** A (record, signature) pair that passes under the fog's key although the fog signed no such record. */
  predicate Forged(c: Crypto, signed: set<Record>, r: Record, signature: Bytes) {
    c.verify(c.fogKey, c.json(r), signature) && r !in signed
  }
}
