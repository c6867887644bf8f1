/** The local hash chain that anchors one root per epoch (registry/ledger.py).
    The file is a sequence of typed blocks; writing it is not part of the model. */
module Ledgers {
  import opened Basics
  import opened Canonical
  import opened Signing

  datatype Block = Block(body: Body, signature: Bytes, blockHash: Bytes)

  /** A block read back from disk; Incomplete when one of the signed fields is missing. */
  datatype StoredBlock = Stored(block: Block) | Incomplete

  datatype LedgerState = LedgerState(blocks: seq<Block>, rootCache: map<int, Bytes>)

  datatype LedgerError = AlreadyAnchored | BadRootLength

  datatype ChainReport =
    | ChainValid(blocks: nat)
    | MissingField(at: nat)
    | WrongIndex(at: nat)
    | BrokenLink(at: nat)
    | BadSignature(at: nat)
    | HashMismatch(at: nat)

  /** "0" * 64. */
  function GenesisPrevHash(): (r: Digest)
    ensures forall i :: 0 <= i < 32 ==> r[i] == 0
  {
    seq(32, i => 0)
  }

  function BlockHash(c: Crypto, body: Body, signature: Bytes): Digest {
    c.hash(c.json(SealedBlock(body, signature)))
  }

  function PrevHash(blocks: seq<Block>): Bytes {
    if blocks == [] then GenesisPrevHash() else blocks[|blocks| - 1].blockHash
  }

  function NextBlock(c: Crypto, fogId: Bytes, blocks: seq<Block>, epochId: int, root: Bytes, leafCount: int,
                     timestamp: Bytes): Block {
    var body := Body(|blocks|, epochId, root, leafCount, timestamp, fogId, PrevHash(blocks));
    var signature := SignRecord(c, BlockRecord(body));
    Block(body, signature, BlockHash(c, body, signature))
  }

  function Anchor(c: Crypto, fogId: Bytes, st: LedgerState, epochId: int, root: Bytes, leafCount: int, timestamp: Bytes)
    : Result<LedgerState, LedgerError>
  {
    if epochId in st.rootCache then Err(AlreadyAnchored)
    else if |root| != 32 then Err(BadRootLength)
    else Ok(LedgerState(st.blocks + [NextBlock(c, fogId, st.blocks, epochId, root, leafCount, timestamp)],
                        st.rootCache[epochId := root]))
  }

  function CachedRoot(st: LedgerState, epochId: int): Option<Bytes> {
    if epochId in st.rootCache then Some(st.rootCache[epochId]) else None
  }

  /** The first block of an epoch, scanning from the oldest. */
  function Scan(blocks: seq<Block>, epochId: int): Option<Block> {
    if blocks == [] then None
    else if blocks[0].body.epochId == epochId then Some(blocks[0])
    else Scan(blocks[1..], epochId)
  }

  /** `{b["epoch_id"]: b["root"] for b in blocks}`: a later block overwrites an earlier one. */
  function LoadCache(blocks: seq<Block>): map<int, Bytes> {
    if blocks == [] then map[]
    else
      var b := blocks[|blocks| - 1].body;
      LoadCache(blocks[..|blocks| - 1])[b.epochId := b.root]
  }

  // ---------- the chain checker and what it accepts ----------

  /** The first defect of one block, in the order of the code. */
  function CheckBlock(c: Crypto, pk: Bytes, i: nat, prev: Bytes, stored: StoredBlock): Option<ChainReport> {
    match stored
    case Incomplete => Some(MissingField(i))
    case Stored(b) =>
      if b.body.blockIndex != i then Some(WrongIndex(i))
      else if b.body.prevHash != prev then Some(BrokenLink(i))
      else if !c.verify(pk, c.json(BlockRecord(b.body)), b.signature) then Some(BadSignature(i))
      else if BlockHash(c, b.body, b.signature) != b.blockHash then Some(HashMismatch(i))
      else None
  }

  function CheckChain(c: Crypto, pk: Bytes, file: seq<StoredBlock>): ChainReport {
    if file == [] then ChainValid(0)
    else
      var n := |file| - 1;
      match CheckChain(c, pk, file[..n])
      case ChainValid(_) =>
        var prev := if n == 0 then GenesisPrevHash() else if file[n - 1].Stored? then file[n - 1].block.blockHash
          else [];
        (match CheckBlock(c, pk, n, prev, file[n])
         case None => ChainValid(n + 1)
         case Some(defect) => defect)
      case defect => defect
  }

  function AsFile(blocks: seq<Block>): (file: seq<StoredBlock>)
    ensures |file| == |blocks|
  {
    seq(|blocks|, i requires 0 <= i < |blocks| => Stored(blocks[i]))
  }

  /** Block by block: right index, linked to its predecessor, signed, and sealed by its hash. */
  ghost predicate Linked(c: Crypto, pk: Bytes, blocks: seq<Block>) {
    forall i :: 0 <= i < |blocks| ==> BlockLinked(c, pk, blocks, i)
  }

  predicate BlockLinked(c: Crypto, pk: Bytes, blocks: seq<Block>, i: nat)
    requires i < |blocks|
  {
    && blocks[i].body.blockIndex == i
    && blocks[i].body.prevHash == (if i == 0 then GenesisPrevHash() else blocks[i - 1].blockHash)
    && c.verify(pk, c.json(BlockRecord(blocks[i].body)), blocks[i].signature)
    && blocks[i].blockHash == BlockHash(c, blocks[i].body, blocks[i].signature)
  }

  lemma LinkedPrefix(c: Crypto, pk: Bytes, blocks: seq<Block>, n: nat)
    requires n <= |blocks| && Linked(c, pk, blocks)
    ensures Linked(c, pk, blocks[..n])
  {
    forall i | 0 <= i < n ensures BlockLinked(c, pk, blocks[..n], i) {
      assert BlockLinked(c, pk, blocks, i);
    }
  }

  // ---------- what each report means ----------

  /** What the p-th block must link to. */
  function LinkBefore(file: seq<StoredBlock>, p: nat): Bytes
    requires p <= |file|
  {
    if p == 0 then seq(32, i => 0) else if file[p - 1].Stored? then file[p - 1].block.blockHash else []
  }

  /** The first n checks of the p-th block: complete, at its index, linked, signed, sealed. */
  predicate BlockPasses(c: Crypto, pk: Bytes, file: seq<StoredBlock>, p: nat, n: nat)
    requires p < |file|
  {
    && (n >= 1 ==> file[p].Stored?)
    && (n >= 2 ==> file[p].Stored? && file[p].block.body.blockIndex == p)
    && (n >= 3 ==> file[p].Stored? && file[p].block.body.prevHash == LinkBefore(file, p))
    && (n >= 4 ==> file[p].Stored?
                   && c.verify(pk, c.json(BlockRecord(file[p].block.body)), file[p].block.signature))
    && (n >= 5 ==> file[p].Stored?
                   && file[p].block.blockHash
                      == c.hash(c.json(SealedBlock(file[p].block.body, file[p].block.signature))))
  }

  /** A report names the first block that fails and the first check that it fails; a clean one counts the blocks. */
  predicate ReportMeans(c: Crypto, pk: Bytes, file: seq<StoredBlock>, report: ChainReport) {
    match report
    case ChainValid(n) => n == |file| && forall p :: 0 <= p < |file| ==> BlockPasses(c, pk, file, p, 5)
    case MissingField(p) => FailsAt(c, pk, file, p, 0)
    case WrongIndex(p) => FailsAt(c, pk, file, p, 1)
    case BrokenLink(p) => FailsAt(c, pk, file, p, 2)
    case BadSignature(p) => FailsAt(c, pk, file, p, 3)
    case HashMismatch(p) => FailsAt(c, pk, file, p, 4)
  }

  predicate FailsAt(c: Crypto, pk: Bytes, file: seq<StoredBlock>, p: nat, n: nat) {
    && p < |file| && BlockPasses(c, pk, file, p, n) && !BlockPasses(c, pk, file, p, n + 1)
    && forall q :: 0 <= q < p ==> BlockPasses(c, pk, file, q, 5)
  }

  lemma {:induction false} ReportIsRight(c: Crypto, pk: Bytes, file: seq<StoredBlock>)
    ensures ReportMeans(c, pk, file, CheckChain(c, pk, file))
  {
    if file != [] {
      var n := |file| - 1;
      ReportIsRight(c, pk, file[..n]);
      forall p, k: nat | 0 <= p < n ensures BlockPasses(c, pk, file[..n], p, k) <==> BlockPasses(c, pk, file, p, k) {
      }
    }
  }

  lemma FailsOnce(c: Crypto, pk: Bytes, file: seq<StoredBlock>, p: nat, n: nat, q: nat, m: nat)
    requires n < 5 && m < 5 && FailsAt(c, pk, file, p, n) && FailsAt(c, pk, file, q, m)
    ensures p == q && n == m
  {
    assert !BlockPasses(c, pk, file, p, 5) && !BlockPasses(c, pk, file, q, 5);
  }

  lemma FailsNever(c: Crypto, pk: Bytes, file: seq<StoredBlock>, p: nat, n: nat)
    requires n < 5 && FailsAt(c, pk, file, p, n)
    ensures p < |file| && !BlockPasses(c, pk, file, p, 5)
  {
  }

  /** Where a report sees the first failure, and at which check. */
  function Place(report: ChainReport): (nat, nat)
    requires !report.ChainValid?
  {
    match report
    case MissingField(p) => (p, 0)
    case WrongIndex(p) => (p, 1)
    case BrokenLink(p) => (p, 2)
    case BadSignature(p) => (p, 3)
    case HashMismatch(p) => (p, 4)
  }

  /** The report of the checker is the only one that is right. */
  lemma ReportExactly(c: Crypto, pk: Bytes, file: seq<StoredBlock>, report: ChainReport)
    ensures CheckChain(c, pk, file) == report <==> ReportMeans(c, pk, file, report)
  {
    ReportIsRight(c, pk, file);
    var own := CheckChain(c, pk, file);
    if ReportMeans(c, pk, file, report) {
      if !own.ChainValid? { FailsNever(c, pk, file, Place(own).0, Place(own).1); }
      if !report.ChainValid? { FailsNever(c, pk, file, Place(report).0, Place(report).1); }
      if !own.ChainValid? && !report.ChainValid? {
        FailsOnce(c, pk, file, Place(own).0, Place(own).1, Place(report).0, Place(report).1);
      }
    }
  }

  /** The checker accepts exactly the linked chains. */
  lemma {:induction false} CheckerAcceptsExactlyLinked(c: Crypto, pk: Bytes, blocks: seq<Block>)
    ensures CheckChain(c, pk, AsFile(blocks)).ChainValid? <==> Linked(c, pk, blocks)
    ensures CheckChain(c, pk, AsFile(blocks)).ChainValid? ==> CheckChain(c, pk, AsFile(blocks)) == ChainValid(|blocks|)
  {
    if blocks != [] {
      var n := |blocks| - 1;
      assert AsFile(blocks)[..n] == AsFile(blocks[..n]);
      CheckerAcceptsExactlyLinked(c, pk, blocks[..n]);
      LinkedByLast(c, pk, blocks);
    }
  }

  lemma LinkedByLast(c: Crypto, pk: Bytes, blocks: seq<Block>)
    requires blocks != []
    ensures var n := |blocks| - 1; Linked(c, pk, blocks) <==>
            Linked(c, pk, blocks[..n]) && BlockLinked(c, pk, blocks, n)
  {
    var n := |blocks| - 1;
    if Linked(c, pk, blocks) {
      LinkedPrefix(c, pk, blocks, n);
      assert BlockLinked(c, pk, blocks, n);
    }
    if Linked(c, pk, blocks[..n]) && BlockLinked(c, pk, blocks, n) {
      forall i | 0 <= i < |blocks| ensures BlockLinked(c, pk, blocks, i) {
        assert i < n ==> BlockLinked(c, pk, blocks[..n], i);
      }
    }
  }

  /** A file with an incomplete block is never accepted, so the accepted files are the linked chains. */
  lemma {:induction false} AcceptedFileIsComplete(c: Crypto, pk: Bytes, file: seq<StoredBlock>)
    requires CheckChain(c, pk, file).ChainValid?
    ensures forall i :: 0 <= i < |file| ==> file[i].Stored?
  {
    if file != [] {
      var n := |file| - 1;
      AcceptedFileIsComplete(c, pk, file[..n]);
      forall i | 0 <= i < |file| ensures file[i].Stored? {
        assert i < n ==> file[..n][i].Stored?;
      }
    }
  }

  /** A limit of the checker: dropping blocks at the end goes unnoticed. */
  lemma TruncationAccepted(c: Crypto, pk: Bytes, blocks: seq<Block>, n: nat)
    requires n <= |blocks| && CheckChain(c, pk, AsFile(blocks)).ChainValid?
    ensures CheckChain(c, pk, AsFile(blocks[..n])) == ChainValid(n)
  {
    CheckerAcceptsExactlyLinked(c, pk, blocks);
    LinkedPrefix(c, pk, blocks, n);
    CheckerAcceptsExactlyLinked(c, pk, blocks[..n]);
  }

  /** An epoch is refused exactly when it is anchored already or its root is not 32 bytes, in this order. */
  lemma AnchorExactly(c: Crypto, fogId: Bytes, st: LedgerState, epochId: int, root: Bytes, leafCount: int,
                      timestamp: Bytes)
    ensures var r := Anchor(c, fogId, st, epochId, root, leafCount, timestamp);
            && (r == Err(AlreadyAnchored) <==> epochId in st.rootCache)
            && (r == Err(BadRootLength) <==> epochId !in st.rootCache && |root| != 32)
            && (r.Ok? ==>
                  && |r.value.blocks| == |st.blocks| + 1 && r.value.blocks[..|st.blocks|] == st.blocks
                  && Describes(r.value.blocks[|st.blocks|].body, |st.blocks|, epochId, root, leafCount, timestamp,
                               fogId))
  {
  }

  predicate Describes(b: Body, index: int, epochId: int, root: Bytes, leafCount: int, timestamp: Bytes, fogId: Bytes) {
    && b.blockIndex == index && b.epochId == epochId && b.root == root && b.leafCount == leafCount
    && b.timestamp == timestamp && b.fogId == fogId
  }

  /** The strings hashed to seal these blocks. */
  ghost function SealInputs(c: Crypto, blocks: seq<Block>): set<Bytes> {
    set i | 0 <= i < |blocks| :: c.json(SealedBlock(blocks[i].body, blocks[i].signature))
  }

  /** Chain binding: the last block hash determines the whole chain, signatures included. */
  lemma {:induction false} ChainBinding(c: Crypto, pk: Bytes, pk': Bytes, a: seq<Block>, b: seq<Block>)
    requires JsonInjective(c) && a != [] && b != []
    requires CheckChain(c, pk, AsFile(a)).ChainValid? && CheckChain(c, pk', AsFile(b)).ChainValid?
    ensures (PrevHash(a) == PrevHash(b) <==> a == b) || HasCollision(c.hash, SealInputs(c, a) + SealInputs(c, b))
  {
    CheckerAcceptsExactlyLinked(c, pk, a);
    CheckerAcceptsExactlyLinked(c, pk', b);
    var inputs := SealInputs(c, a) + SealInputs(c, b);
    if PrevHash(a) == PrevHash(b) && !HasCollision(c.hash, inputs) {
      SameTipSameChain(c, pk, pk', a, b, inputs);
    }
  }

  lemma {:induction false} SameTipSameChain(c: Crypto, pk: Bytes, pk': Bytes, a: seq<Block>, b: seq<Block>,
                                            inputs: set<Bytes>)
    requires JsonInjective(c) && a != [] && b != [] && Linked(c, pk, a) && Linked(c, pk', b)
    requires PrevHash(a) == PrevHash(b)
    requires SealInputs(c, a) <= inputs && SealInputs(c, b) <= inputs && !HasCollision(c.hash, inputs)
    ensures a == b
    decreases |a|
  {
    var n, m := |a| - 1, |b| - 1;
    assert BlockLinked(c, pk, a, n) && BlockLinked(c, pk', b, m);
    var x, y := c.json(SealedBlock(a[n].body, a[n].signature)), c.json(SealedBlock(b[m].body, b[m].signature));
    assert x in SealInputs(c, a) && y in SealInputs(c, b);
    SameHashSameInput(c.hash, inputs, x, y);
    assert a[n] == b[m] && n == m;
    if n > 0 {
      LinkedPrefix(c, pk, a, n);
      LinkedPrefix(c, pk', b, n);
      SealInputsPrefix(c, a, n);
      SealInputsPrefix(c, b, n);
      SameTipSameChain(c, pk, pk', a[..n], b[..n], inputs);
    }
    assert a == a[..n] + [a[n]] && b == b[..n] + [b[n]];
  }

  lemma SealInputsPrefix(c: Crypto, blocks: seq<Block>, n: nat)
    requires n <= |blocks|
    ensures SealInputs(c, blocks[..n]) <= SealInputs(c, blocks)
  {
    forall x | x in SealInputs(c, blocks[..n]) ensures x in SealInputs(c, blocks) {
      var i :| 0 <= i < n && x == c.json(SealedBlock(blocks[..n][i].body, blocks[..n][i].signature));
      assert x == c.json(SealedBlock(blocks[i].body, blocks[i].signature));
    }
  }

  // ---------- what the fog's own ledger guarantees ----------

  ghost predicate LedgerInv(c: Crypto, st: LedgerState) {
    && Linked(c, c.fogKey, st.blocks)
    && st.rootCache == LoadCache(st.blocks)
    && UniqueEpochs(st.blocks)
  }

  predicate UniqueEpochs(blocks: seq<Block>) {
    forall i, j :: 0 <= i < j < |blocks| ==> blocks[i].body.epochId != blocks[j].body.epochId
  }

  predicate IsFirst(blocks: seq<Block>, i: nat) {
    i < |blocks| && forall j :: 0 <= j < i ==> blocks[j].body.epochId != blocks[i].body.epochId
  }

  predicate IsLast(blocks: seq<Block>, i: nat) {
    i < |blocks| && forall j :: i < j < |blocks| ==> blocks[j].body.epochId != blocks[i].body.epochId
  }

  predicate HasEpoch(blocks: seq<Block>, epochId: int) {
    exists i :: 0 <= i < |blocks| && blocks[i].body.epochId == epochId
  }

  lemma {:induction false} ScanFindsFirst(blocks: seq<Block>, epochId: int) returns (i: nat)
    ensures Scan(blocks, epochId).Some? <==> HasEpoch(blocks, epochId)
    ensures HasEpoch(blocks, epochId) ==>
              IsFirst(blocks, i) && blocks[i].body.epochId == epochId && Scan(blocks, epochId) == Some(blocks[i])
  {
    i := 0;
    if blocks != [] && blocks[0].body.epochId != epochId {
      var j := ScanFindsFirst(blocks[1..], epochId);
      assert HasEpoch(blocks, epochId) ==> HasEpoch(blocks[1..], epochId) by {
        if k :| 0 <= k < |blocks| && blocks[k].body.epochId == epochId {
          assert blocks[1..][k - 1].body.epochId == epochId;
        }
      }
      i := j + 1;
    }
  }

  lemma {:induction false} CacheHoldsLast(blocks: seq<Block>, epochId: int) returns (i: nat)
    ensures epochId in LoadCache(blocks) <==> HasEpoch(blocks, epochId)
    ensures HasEpoch(blocks, epochId) ==>
              IsLast(blocks, i) && blocks[i].body.epochId == epochId
                && LoadCache(blocks)[epochId] == blocks[i].body.root
  {
    i := 0;
    if blocks != [] {
      var n := |blocks| - 1;
      if blocks[n].body.epochId == epochId {
        i := n;
      } else {
        i := CacheHoldsLast(blocks[..n], epochId);
        assert HasEpoch(blocks, epochId) ==> HasEpoch(blocks[..n], epochId) by {
          if k :| 0 <= k < |blocks| && blocks[k].body.epochId == epochId {
            assert blocks[..n][k].body.epochId == epochId;
          }
        }
      }
    }
  }

  lemma AnchorKeepsInv(c: Crypto, fogId: Bytes, st: LedgerState, epochId: int, root: Bytes, leafCount: int,
                       timestamp: Bytes)
    requires SignatureCorrect(c) && LedgerInv(c, st)
    requires Anchor(c, fogId, st, epochId, root, leafCount, timestamp).Ok?
    ensures LedgerInv(c, Anchor(c, fogId, st, epochId, root, leafCount, timestamp).value)
  {
    var b := NextBlock(c, fogId, st.blocks, epochId, root, leafCount, timestamp);
    var _ := CacheHoldsLast(st.blocks, epochId);
    AppendLinked(c, st.blocks, b);
    assert (st.blocks + [b])[..|st.blocks|] == st.blocks;
  }

  lemma AppendLinked(c: Crypto, blocks: seq<Block>, b: Block)
    requires SignatureCorrect(c) && Linked(c, c.fogKey, blocks)
    requires b == NextBlock(c, b.body.fogId, blocks, b.body.epochId, b.body.root, b.body.leafCount, b.body.timestamp)
    ensures Linked(c, c.fogKey, blocks + [b])
  {
    var after := blocks + [b];
    forall i | 0 <= i < |after| ensures BlockLinked(c, c.fogKey, after, i) {
      assert i < |blocks| ==> BlockLinked(c, c.fogKey, blocks, i);
    }
  }

  datatype AnchorCall = AnchorCall(epochId: int, root: Bytes, leafCount: int, timestamp: Bytes)

  /** The ledger after a sequence of calls; a refused call changes nothing. */
  function RunLedger(c: Crypto, fogId: Bytes, calls: seq<AnchorCall>): LedgerState {
    if calls == [] then LedgerState([], map[])
    else
      var st, a := RunLedger(c, fogId, calls[..|calls| - 1]), calls[|calls| - 1];
      match Anchor(c, fogId, st, a.epochId, a.root, a.leafCount, a.timestamp)
      case Ok(next) => next
      case Err(_) => st
  }

  lemma {:induction false} RunKeepsInv(c: Crypto, fogId: Bytes, calls: seq<AnchorCall>)
    requires SignatureCorrect(c)
    ensures LedgerInv(c, RunLedger(c, fogId, calls))
  {
    if calls != [] {
      var before, a := calls[..|calls| - 1], calls[|calls| - 1];
      RunKeepsInv(c, fogId, before);
      var st := RunLedger(c, fogId, before);
      if Anchor(c, fogId, st, a.epochId, a.root, a.leafCount, a.timestamp).Ok? {
        AnchorKeepsInv(c, fogId, st, a.epochId, a.root, a.leafCount, a.timestamp);
      }
    }
  }

  lemma CacheAgreesWithScan(c: Crypto, st: LedgerState, epochId: int)
    requires LedgerInv(c, st)
    ensures ReloadAgreesAt(st.blocks, epochId) && st.rootCache == LoadCache(st.blocks)
  {
    var i := ScanFindsFirst(st.blocks, epochId);
    var j := CacheHoldsLast(st.blocks, epochId);
    assert HasEpoch(st.blocks, epochId) ==> i == j;
  }

  /** Every ledger the fog builds passes its own check, answers `get_root` as a scan would, and reloads to itself. */
  lemma HonestLedgerVerifies(c: Crypto, fogId: Bytes, calls: seq<AnchorCall>, epochId: int)
    requires SignatureCorrect(c)
    ensures var st := RunLedger(c, fogId, calls);
            && CheckChain(c, c.fogKey, AsFile(st.blocks)) == ChainValid(|st.blocks|)
            && ReloadAgreesAt(st.blocks, epochId)
            && st.rootCache == LoadCache(st.blocks)
  {
    RunKeepsInv(c, fogId, calls);
    var st := RunLedger(c, fogId, calls);
    CheckerAcceptsExactlyLinked(c, c.fogKey, st.blocks);
    CacheAgreesWithScan(c, st, epochId);
  }

  /** Epochs are frozen: whatever is called later, earlier blocks and cache entries stay as they are. */
  lemma {:induction false} EpochsAreFrozen(c: Crypto, fogId: Bytes, calls: seq<AnchorCall>, n: nat)
    requires n <= |calls|
    ensures RunLedger(c, fogId, calls[..n]).blocks <= RunLedger(c, fogId, calls).blocks
    ensures forall e :: e in RunLedger(c, fogId, calls[..n]).rootCache ==>
              && e in RunLedger(c, fogId, calls).rootCache
              && RunLedger(c, fogId, calls).rootCache[e] == RunLedger(c, fogId, calls[..n]).rootCache[e]
    decreases |calls|
  {
    if n < |calls| {
      var before := calls[..|calls| - 1];
      assert before[..n] == calls[..n];
      EpochsAreFrozen(c, fogId, before, n);
    } else {
      assert calls[..n] == calls;
    }
  }

  /** On an arbitrary file the reloaded cache and the scan can disagree; they answer alike for every
      epoch exactly when the first and the last block of each epoch carry the same root. */
  lemma ReloadAgreesWithScanExactly(blocks: seq<Block>)
    ensures (forall e :: ReloadAgreesAt(blocks, e)) <==> FirstAndLastAgree(blocks)
  {
    forall i: nat, j: nat | IsFirst(blocks, i) && IsLast(blocks, j) && blocks[i].body.epochId == blocks[j].body.epochId
      ensures ReloadAgreesAt(blocks, blocks[i].body.epochId) ==> blocks[i].body.root == blocks[j].body.root
    {
      var e := blocks[i].body.epochId;
      var first := ScanFindsFirst(blocks, e);
      var last := CacheHoldsLast(blocks, e);
      assert first == i && last == j;
    }
    if FirstAndLastAgree(blocks) {
      forall e ensures ReloadAgreesAt(blocks, e) {
        var first := ScanFindsFirst(blocks, e);
        var last := CacheHoldsLast(blocks, e);
      }
    }
  }

  /** Such a file: two blocks of one epoch with different roots. The cache follows the last, the scan the first. */
  lemma ReloadCanDisagree(a: Block, b: Block)
    requires a.body.epochId == b.body.epochId && a.body.root != b.body.root
    ensures var e, state := a.body.epochId, LedgerState([a, b], LoadCache([a, b]));
            CachedRoot(state, e) == Some(b.body.root) && Scan([a, b], e) == Some(a) && !ReloadAgreesAt([a, b], e)
  {
    assert [a, b][..1] == [a];
  }

  ghost predicate FirstAndLastAgree(blocks: seq<Block>) {
    forall i: nat, j: nat :: IsFirst(blocks, i) && IsLast(blocks, j) && blocks[i].body.epochId == blocks[j].body.epochId
      ==> blocks[i].body.root == blocks[j].body.root
  }

  predicate ReloadAgreesAt(blocks: seq<Block>, epochId: int) {
    CachedRoot(LedgerState(blocks, LoadCache(blocks)), epochId)
      == match Scan(blocks, epochId) case None => None case Some(b) => Some(b.body.root)
  }

  /** Under unforgeable signatures, a file that the checker accepts is a prefix of the fog's chain:
      bodies agree everywhere, and every block but the last agrees in hash as well. */
  lemma AcceptedFileIsPrefix(c: Crypto, honest: seq<Block>, signed: set<Record>, file: seq<Block>)
    requires JsonInjective(c) && Linked(c, c.fogKey, honest)
    requires forall r :: r in signed && r.BlockRecord? ==> exists i :: 0 <= i < |honest| && honest[i].body == r.body
    requires CheckChain(c, c.fogKey, AsFile(file)).ChainValid?
    ensures || (&& |file| <= |honest|
                && (forall i :: 0 <= i < |file| ==> file[i].body == honest[i].body)
                && (forall i :: 0 <= i < |file| - 1 ==> file[i].blockHash == honest[i].blockHash))
            || (exists i :: 0 <= i < |file| && Forged(c, signed, BlockRecord(file[i].body), file[i].signature))
  {
    CheckerAcceptsExactlyLinked(c, c.fogKey, file);
    if !exists i :: 0 <= i < |file| && Forged(c, signed, BlockRecord(file[i].body), file[i].signature) {
      forall i | 0 <= i < |file| ensures i < |honest| && file[i].body == honest[i].body {
        assert BlockLinked(c, c.fogKey, file, i);
        assert !Forged(c, signed, BlockRecord(file[i].body), file[i].signature);
        var k :| 0 <= k < |honest| && honest[k].body == file[i].body;
        assert BlockLinked(c, c.fogKey, honest, k);
      }
      forall i | 0 <= i < |file| - 1 ensures file[i].blockHash == honest[i].blockHash {
        assert BlockLinked(c, c.fogKey, file, i + 1) && BlockLinked(c, c.fogKey, honest, i + 1);
      }
    }
  }

  // ---------- the ledger object ----------

  lemma {:induction false} DefectStays(c: Crypto, pk: Bytes, file: seq<StoredBlock>, n: nat)
    requires n <= |file| && !CheckChain(c, pk, file[..n]).ChainValid?
    ensures CheckChain(c, pk, file) == CheckChain(c, pk, file[..n])
    decreases |file| - n
  {
    if n < |file| {
      assert file[..n + 1][..n] == file[..n];
      DefectStays(c, pk, file, n + 1);
    } else {
      assert file[..n] == file;
    }
  }

  class Ledger {
    const crypto: Crypto
    const fogId: Bytes
    var blocks: seq<Block>
    var rootCache: map<int, Bytes>

    ghost function State(): LedgerState
      reads this
    {
      LedgerState(blocks, rootCache)
    }

    /** `_load`: the cache is rebuilt from the file. */
    constructor (crypto: Crypto, fogId: Bytes, file: seq<Block>)
      ensures this.crypto == crypto && this.fogId == fogId
      ensures State() == LedgerState(file, LoadCache(file))
    {
      this.crypto := crypto;
      this.fogId := fogId;
      blocks := file;
      rootCache := map[];
      new;
      for i := 0 to |file|
        invariant blocks == file && this.crypto == crypto && this.fogId == fogId
        invariant rootCache == LoadCache(file[..i])
      {
        assert file[..i + 1][..i] == file[..i];
        rootCache := rootCache[file[i].body.epochId := file[i].body.root];
      }
      assert file[..|file|] == file;
    }

    method AnchorRoot(epochId: int, root: Bytes, leafCount: int, timestamp: Bytes)
        returns (r: Result<Block, LedgerError>)
      modifies this
      ensures match Anchor(crypto, fogId, old(State()), epochId, root, leafCount, timestamp)
              case Ok(next) => State() == next && r == Ok(next.blocks[|next.blocks| - 1])
              case Err(e) => State() == old(State()) && r == Err(e)
    {
      if epochId in rootCache {
        return Err(AlreadyAnchored);
      }
      if |root| != 32 {
        return Err(BadRootLength);
      }
      var prevHash := if |blocks| > 0 then blocks[|blocks| - 1].blockHash else GenesisPrevHash();
      var body := Body(|blocks|, epochId, root, leafCount, timestamp, fogId, prevHash);
      var signature := crypto.sign(crypto.json(BlockRecord(body)));
      var block := Block(body, signature, BlockHash(crypto, body, signature));
      blocks := blocks + [block];
      rootCache := rootCache[epochId := root];
      r := Ok(block);
    }

    method GetRoot(epochId: int) returns (r: Option<Bytes>)
      ensures r == CachedRoot(State(), epochId)
    {
      r := if epochId in rootCache then Some(rootCache[epochId]) else None;
    }

    method GetBlock(epochId: int) returns (r: Option<Block>)
      ensures r == Scan(blocks, epochId)
    {
      assert blocks[0..] == blocks;
      for i := 0 to |blocks|
        invariant Scan(blocks, epochId) == Scan(blocks[i..], epochId)
      {
        assert blocks[i..][1..] == blocks[i + 1..];
        if blocks[i].body.epochId == epochId {
          return Some(blocks[i]);
        }
      }
      r := None;
    }

    method LatestEpoch() returns (r: Option<int>)
      ensures r.None? <==> blocks == []
      ensures r.Some? ==> r.value == blocks[|blocks| - 1].body.epochId
    {
      r := if |blocks| > 0 then Some(blocks[|blocks| - 1].body.epochId) else None;
    }

    /** `file` is what is on disk now; without a trusted key the fog's own key is used. */
    method VerifyChain(trustedKey: Option<Bytes>, file: seq<StoredBlock>) returns (r: ChainReport)
      ensures r == CheckChain(crypto, if trustedKey.GetOr([]) == [] then crypto.fogKey else trustedKey.value, file)
    {
      var pk := if trustedKey.GetOr([]) == [] then crypto.fogKey else trustedKey.value;
      var prev: Bytes := GenesisPrevHash();
      for i := 0 to |file|
        invariant CheckChain(crypto, pk, file[..i]) == ChainValid(i)
        invariant i == 0 ==> prev == GenesisPrevHash()
        invariant i > 0 ==> file[i - 1].Stored? && prev == file[i - 1].block.blockHash
      {
        assert file[..i + 1][..i] == file[..i];
        var defect := CheckBlock(crypto, pk, i, prev, file[i]);
        if defect.Some? {
          DefectStays(crypto, pk, file, i + 1);
          return defect.value;
        }
        prev := file[i].block.blockHash;
      }
      assert file[..|file|] == file;
      r := ChainValid(|file|);
    }
  }
}
