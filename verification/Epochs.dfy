/** What closing a registration window computes (fog/batch/epoch_manager.py), on plain values. */
module Epochs {
  import opened Basics
  import opened ByteOrder
  import opened Canonical
  import opened MerkleTree
  import opened Signing
  import opened ProofPackages
  import opened Ledgers

  datatype Status = Pending | Tokenized | Registered | Revoked

  datatype Metadata = Metadata(deviceName: Bytes, deviceType: Bytes, zone: Bytes, vendor: Bytes, role: Bytes)

  /** A device record; its DID is its key in the store. */
  datatype Device = Device(publicKey: Bytes, status: Status, metadata: Option<Metadata>,
                           leaf: Option<Bytes>, epochId: Option<int>)

  datatype PendingEntry = PendingEntry(publicKey: Bytes, leaf: Bytes)

  type Devices = map<Bytes, Device>
  type Batch = map<Bytes, PendingEntry>
  type Packages = map<Bytes, ProofPackage>

  datatype EpochState = EpochState(current: int, pending: Batch, packages: map<int, Packages>,
                                   latest: Packages, active: set<Bytes>)

  datatype EpochError = AlreadyQueued | BadIdentity | EmptyBatch | TreeFailed | LedgerRefused

  datatype EpochResult = EpochResult(epochId: int, root: Digest, block: Block, sortedLeaves: seq<Digest>,
                                     packages: Packages, newDevices: nat, carriedForward: nat, excluded: set<Bytes>)

  /** The parts of the configuration that the epoch manager uses. */
  datatype FogKeys = FogKeys(crypto: Crypto, fogId: Bytes, carryForward: bool)

  function Queue(h: Hash, pending: Batch, id: Identity): Result<Batch, EpochError> {
    if id.did in pending then Err(AlreadyQueued)
    else if LeafHash(h, id).None? then Err(BadIdentity)
    else Ok(pending[id.did := PendingEntry(id.publicKey, LeafHash(h, id).value)])
  }

  function WithStatus(devices: Devices, status: Status): set<Bytes> {
    set d | d in devices && devices[d].status == status
  }

  function Blocked(devices: Devices, exclude: set<Bytes>): set<Bytes> {
    exclude + WithStatus(devices, Revoked)
  }

  function Carried(k: FogKeys, devices: Devices, pending: Batch, exclude: set<Bytes>): set<Bytes> {
    if k.carryForward then WithStatus(devices, Registered) - Blocked(devices, exclude) - pending.Keys else {}
  }

  function Admitted(devices: Devices, pending: Batch, exclude: set<Bytes>): set<Bytes> {
    pending.Keys - Blocked(devices, exclude)
  }

  /** `bytes.fromhex(None)` raises; here a missing leaf becomes one that no tree accepts. */
  function CarriedEntry(d: Device): PendingEntry {
    PendingEntry(d.publicKey, d.leaf.GetOr([]))
  }

  function Members(k: FogKeys, devices: Devices, pending: Batch, exclude: set<Bytes>): (m: Batch)
    ensures m.Keys == Carried(k, devices, pending, exclude) + Admitted(devices, pending, exclude)
  {
    map d | d in Carried(k, devices, pending, exclude) + Admitted(devices, pending, exclude) ::
      if d in pending then pending[d] else CarriedEntry(devices[d])
  }

  ghost function LeafSet(members: Batch): set<Bytes> {
    set d | d in members :: members[d].leaf
  }

  predicate TreeAccepts(members: Batch) {
    && (forall d :: d in members ==> |members[d].leaf| == 32)
    && (forall d, e :: d in members && e in members && d != e ==> members[d].leaf != members[e].leaf)
  }

  ghost function SortedLeaves(members: Batch): (s: seq<Digest>)
    requires TreeAccepts(members)
    ensures |s| == |LeafSet(members)| && DuplicateFree(s)
    ensures forall x :: x in s <==> x in LeafSet(members)
  {
    AsHashes(Ascending(LeafSet(members)))
  }

  ghost function IndexOf(s: seq<Digest>, x: Bytes): (i: nat)
    requires x in s
    ensures i < |s| && s[i] == x
  {
    var i: nat :| i < |s| && s[i] == x; i
  }

  lemma IndexUnique(s: seq<Digest>, i: nat)
    requires DuplicateFree(s) && i < |s|
    ensures IndexOf(s, s[i]) == i
  {
  }

  ghost function PackagesOf(k: FogKeys, members: Batch, epochId: int): (p: Packages)
    requires TreeAccepts(members)
    ensures p.Keys == members.Keys
  {
    map d | d in members :: PackageOf(k, members, epochId, d)
  }

  ghost function PackageOf(k: FogKeys, members: Batch, epochId: int, d: Bytes): ProofPackage
    requires TreeAccepts(members) && d in members
  {
    assert members[d].leaf in LeafSet(members);
    var leaves := SortedLeaves(members);
    BuildPackage(k.crypto, Identity(d, members[d].publicKey), leaves, IndexOf(leaves, members[d].leaf), epochId,
                 k.fogId)
  }

  function MarkRegistered(d: Device, leaf: Bytes, epochId: int): Device {
    d.(status := Registered, leaf := Some(leaf), epochId := Some(epochId))
  }

  function Promote(devices: Devices, packages: Packages, epochId: int): Devices {
    map d | d in devices :: if d in packages then MarkRegistered(devices[d], packages[d].leaf, epochId) else devices[d]
  }

  datatype Closed = Closed(devices: Devices, epochs: EpochState, ledger: LedgerState, result: EpochResult)

  /** The figures that a close reports besides its packages. */
  datatype Counts = Counts(newDevices: nat, carriedForward: nat, excluded: set<Bytes>)

  function CountsOf(k: FogKeys, devices: Devices, epochs: EpochState, exclude: set<Bytes>): Counts {
    Counts(|Admitted(devices, epochs.pending, exclude)|, |Carried(k, devices, epochs.pending, exclude)|,
           Blocked(devices, exclude) * (epochs.pending.Keys + epochs.active))
  }

  ghost function Finalize(k: FogKeys, devices: Devices, epochs: EpochState, ledger: LedgerState,
                          exclude: set<Bytes>, timestamp: Bytes): Result<Closed, EpochError>
  {
    var members := Members(k, devices, epochs.pending, exclude);
    if members == map[] then Err(EmptyBatch)
    else if !TreeAccepts(members) then Err(TreeFailed)
    else
      NonEmptyLeaves(members);
      Seal(k, devices, epochs, ledger, SortedLeaves(members), PackagesOf(k, members, epochs.current),
           CountsOf(k, devices, epochs, exclude), timestamp)
  }

  /** The part that follows once the tree is built: anchoring the root comes first. */
  ghost function Seal(k: FogKeys, devices: Devices, epochs: EpochState, ledger: LedgerState, leaves: seq<Digest>,
                      packages: Packages, counts: Counts, timestamp: Bytes): Result<Closed, EpochError>
    requires |leaves| > 0
  {
    var root := Root(k.crypto.hash, leaves);
    match Anchor(k.crypto, k.fogId, ledger, epochs.current, root, |leaves|, timestamp)
    case Err(_) => Err(LedgerRefused)
    case Ok(anchored) => Ok(Commit(devices, epochs, anchored, root, leaves, packages, counts))
  }

  function Commit(devices: Devices, epochs: EpochState, anchored: LedgerState, root: Digest, leaves: seq<Digest>,
                  packages: Packages, counts: Counts): Closed
    requires |anchored.blocks| > 0
  {
    var epochId := epochs.current;
    Closed(
      Promote(devices, packages, epochId),
      NextWindow(epochs, packages),
      anchored,
      EpochResult(epochId, root, anchored.blocks[|anchored.blocks| - 1], leaves, packages,
                  counts.newDevices, counts.carriedForward, counts.excluded))
  }

  function NextWindow(e: EpochState, packages: Packages): EpochState {
    EpochState(e.current + 1, map[], e.packages[e.current := packages], e.latest + packages, packages.Keys)
  }

  // ---------- the package on offer ----------

  /** Of all epochs that packaged `d`, the one of `pkg` is the newest, and `pkg` is what it gave. */
  predicate IsNewest(packages: map<int, Packages>, d: Bytes, pkg: ProofPackage) {
    && pkg.epochId in packages && d in packages[pkg.epochId] && pkg == packages[pkg.epochId][d]
    && forall e :: e in packages && d in packages[e] ==> e <= pkg.epochId
  }

  predicate LatestInv(packages: map<int, Packages>, latest: Packages) {
    && (forall e, d :: e in packages && d in packages[e] ==> d in latest)
    && (forall d :: d in latest ==> IsNewest(packages, d, latest[d]))
  }

  predicate EverPackaged(packages: map<int, Packages>, d: Bytes) {
    exists e :: e in packages && d in packages[e]
  }

  /** The packages of a new epoch are the newest of their devices. */
  lemma LatestExtends(current: int, packages: map<int, Packages>, latest: Packages, p: Packages)
    requires LatestInv(packages, latest)
    requires forall e :: e in packages ==> e < current
    requires forall d :: d in p ==> p[d].epochId == current
    ensures LatestInv(packages[current := p], latest + p)
  {
    var after := packages[current := p];
    forall d | d in latest + p ensures IsNewest(after, d, (latest + p)[d]) {
      if d !in p { assert IsNewest(packages, d, latest[d]); }
    }
  }

  // ---------- what a close takes in ----------

  /** A device is queued exactly when it is not queued yet and its identity is valid; the entry is its leaf hash. */
  lemma QueueExactly(h: Hash, pending: Batch, id: Identity)
    ensures var r := Queue(h, pending, id);
            && (r == Err(AlreadyQueued) <==> id.did in pending)
            && (r == Err(BadIdentity) <==>
                  id.did !in pending && !(Ascii("did:iiot:") <= id.did && |id.publicKey| == 33))
            && (r.Ok? ==>
                  && r.value.Keys == pending.Keys + {id.did}
                  && r.value[id.did] == PendingEntry(id.publicKey, h(LeafInput(id)))
                  && forall d :: d in pending ==> r.value[d] == pending[d])
  {
    LeafLayout(h, id);
  }

  /** Who is in the next root: the queued devices and, with carry-forward, the registered ones, but nobody who is
      revoked or excluded. */
  lemma MembersExactly(k: FogKeys, devices: Devices, pending: Batch, exclude: set<Bytes>, d: Bytes)
    ensures d in Members(k, devices, pending, exclude) <==>
              && (d in pending || (k.carryForward && d in devices && devices[d].status == Registered))
              && d !in exclude && !(d in devices && devices[d].status == Revoked)
    ensures d in Members(k, devices, pending, exclude) && d in pending ==>
              Members(k, devices, pending, exclude)[d] == pending[d]
    ensures d in Members(k, devices, pending, exclude) && d !in pending && devices[d].leaf.Some? ==>
              Members(k, devices, pending, exclude)[d] == PendingEntry(devices[d].publicKey, devices[d].leaf.value)
  {
  }

  /** The figures of the result: members from the batch, members carried forward, and whoever was left out. */
  lemma CountsExactly(k: FogKeys, devices: Devices, epochs: EpochState, exclude: set<Bytes>)
    ensures var counts, members := CountsOf(k, devices, epochs, exclude), Members(k, devices, epochs.pending, exclude);
            && counts.newDevices == |set d | d in members && d in epochs.pending.Keys|
            && counts.carriedForward == |set d | d in members && d !in epochs.pending.Keys|
            && forall d :: d in counts.excluded <==>
                 && (d in exclude || (d in devices && devices[d].status == Revoked))
                 && (d in epochs.pending || d in epochs.active)
  {
    var members := Members(k, devices, epochs.pending, exclude);
    var admitted, carried := Admitted(devices, epochs.pending, exclude), Carried(k, devices, epochs.pending, exclude);
    SplitByBatch(members, epochs.pending.Keys, admitted, carried);
  }

  lemma SplitByBatch(members: Batch, queued: set<Bytes>, admitted: set<Bytes>, carried: set<Bytes>)
    requires members.Keys == carried + admitted && admitted <= queued && carried !! queued
    ensures (set d | d in members && d in queued) == admitted && (set d | d in members && d !in queued) == carried
  {
  }

  /** What a close does to the records: the packaged ones become REGISTERED with their leaf and epoch, the others
      stay as they are. */
  lemma RecordsAfterClose(devices: Devices, packages: Packages, epochId: int, d: Bytes)
    requires d in devices
    ensures var after := Promote(devices, packages, epochId);
            && after.Keys == devices.Keys
            && (d !in packages ==> after[d] == devices[d])
            && (d in packages ==>
                  && after[d].status == Registered && after[d].leaf == Some(packages[d].leaf)
                  && after[d].epochId == Some(epochId)
                  && after[d].publicKey == devices[d].publicKey && after[d].metadata == devices[d].metadata)
  {
  }

  /** The leaves of a tree ascend by their bytes. */
  lemma SortedLeavesAscend(members: Batch)
    requires TreeAccepts(members)
    ensures Ascends(SortedLeaves(members)) && Elements(SortedLeaves(members)) == LeafSet(members)
  {
    var s := SortedLeaves(members);
    assert Sorted(s) && DuplicateFree(s);
    SortedAscends(s);
  }

  // ---------- what a close keeps ----------

  lemma NonEmptyLeaves(members: Batch)
    requires members != map[] && TreeAccepts(members)
    ensures |SortedLeaves(members)| > 0
  {
    var d :| d in members;
    assert members[d].leaf in LeafSet(members);
  }

  /** Distinct leaves: the tree has one leaf per member. */
  lemma {:induction false} LeafSetSize(members: Batch)
    requires TreeAccepts(members)
    ensures |LeafSet(members)| == |members|
    decreases |members|
  {
    if members == map[] {
      assert LeafSet(members) == {};
    } else {
      var d :| d in members;
      var rest := members - {d};
      LeafSetSize(rest);
      assert LeafSet(members) == LeafSet(rest) + {members[d].leaf} by {
        forall x | x in LeafSet(members) ensures x in LeafSet(rest) + {members[d].leaf} {
          var e :| e in members && members[e].leaf == x;
          assert e != d ==> e in rest && rest[e].leaf == x;
        }
      }
      assert members[d].leaf !in LeafSet(rest);
    }
  }

  lemma FinalizeUnfold(k: FogKeys, devices: Devices, epochs: EpochState, ledger: LedgerState, exclude: set<Bytes>,
                       timestamp: Bytes)
    requires Finalize(k, devices, epochs, ledger, exclude, timestamp).Ok?
    ensures var members := Members(k, devices, epochs.pending, exclude);
            var closed := Finalize(k, devices, epochs, ledger, exclude, timestamp).value;
            && members != map[] && TreeAccepts(members)
            && |SortedLeaves(members)| > 0 && |closed.ledger.blocks| == |ledger.blocks| + 1
            && closed == Commit(devices, epochs, closed.ledger, Root(k.crypto.hash, SortedLeaves(members)),
                                SortedLeaves(members),
                                PackagesOf(k, members, epochs.current), CountsOf(k, devices, epochs, exclude))
            && Anchor(k.crypto, k.fogId, ledger, epochs.current, Root(k.crypto.hash, SortedLeaves(members)),
                      |SortedLeaves(members)|, timestamp) == Ok(closed.ledger)
  {
  }

  lemma MemberCount(k: FogKeys, devices: Devices, pending: Batch, exclude: set<Bytes>)
    ensures |Members(k, devices, pending, exclude)|
         == |Admitted(devices, pending, exclude)| + |Carried(k, devices, pending, exclude)|
  {
    var carried, admitted := Carried(k, devices, pending, exclude), Admitted(devices, pending, exclude);
    assert carried !! admitted;
    assert |Members(k, devices, pending, exclude).Keys| == |carried| + |admitted|;
  }

  /** Conservation: with carry-forward on, everyone who was queued or in the last root is in exactly one of
      the new packages and the excluded list, and the counts of the result add up. */
  lemma CloseConserves(k: FogKeys, devices: Devices, epochs: EpochState, ledger: LedgerState, exclude: set<Bytes>,
                       timestamp: Bytes)
    requires k.carryForward
    requires forall d :: d in epochs.active ==> d in devices && devices[d].status in {Registered, Revoked}
    requires Finalize(k, devices, epochs, ledger, exclude, timestamp).Ok?
    ensures var r := Finalize(k, devices, epochs, ledger, exclude, timestamp).value.result;
            && (forall d :: d in epochs.pending || d in epochs.active ==> (d in r.packages <==> d !in r.excluded))
            && (forall d :: d in r.excluded ==> d in epochs.pending || d in epochs.active)
            && |r.packages| == |r.sortedLeaves| == r.newDevices + r.carriedForward
  {
    FinalizeUnfold(k, devices, epochs, ledger, exclude, timestamp);
    var members := Members(k, devices, epochs.pending, exclude);
    LeafSetSize(members);
    MemberCount(k, devices, epochs.pending, exclude);
    var r := Finalize(k, devices, epochs, ledger, exclude, timestamp).value.result;
    assert |r.packages| == |r.packages.Keys| && |members| == |members.Keys|;
  }

  /** Without exclusions, the active set right after a close is exactly the registered devices. */
  lemma ActiveIsRegistered(k: FogKeys, devices: Devices, epochs: EpochState, ledger: LedgerState, timestamp: Bytes)
    requires k.carryForward && epochs.pending.Keys <= devices.Keys
    requires Finalize(k, devices, epochs, ledger, {}, timestamp).Ok?
    ensures var closed := Finalize(k, devices, epochs, ledger, {}, timestamp).value;
            closed.epochs.active == WithStatus(closed.devices, Registered)
  {
    FinalizeUnfold(k, devices, epochs, ledger, {}, timestamp);
    MembersAreRegistered(k, devices, epochs.pending,
      PackagesOf(k, Members(k, devices, epochs.pending, {}), epochs.current), epochs.current);
  }

  lemma MembersAreRegistered(k: FogKeys, devices: Devices, pending: Batch, packages: Packages, epochId: int)
    requires k.carryForward && pending.Keys <= devices.Keys
    requires packages.Keys == Members(k, devices, pending, {}).Keys
    ensures packages.Keys == WithStatus(Promote(devices, packages, epochId), Registered)
  {
    assert forall d :: d in packages <==> d in Carried(k, devices, pending, {}) || d in Admitted(devices, pending, {});
  }
}
