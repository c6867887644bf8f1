/** The epoch manager as an object (fog/batch/epoch_manager.py): its loops, proved against Epochs.dfy.
    Dictionaries are visited in an arbitrary order, so nothing depends on insertion order. */
module EpochManagers {
  import opened Basics
  import opened ByteOrder
  import opened Canonical
  import opened MerkleTree
  import opened ProofPackages
  import opened Ledgers
  import opened Epochs
  import opened Stores

  // ---------- the pieces of finalize_epoch ----------

  /** The leaves of the members, in the order in which they are visited. */
  method CollectLeaves(members: Batch) returns (leaves: seq<Bytes>, owner: map<Bytes, Bytes>)
    ensures Elements(leaves) == LeafSet(members)
    ensures TreeAccepts(members) <==> AllHashes(leaves) && DuplicateFree(leaves)
    ensures leaves == [] <==> members == map[]
    ensures OwnsLeaves(members, owner)
  {
    leaves := [];
    owner := map[];
    var todo := members.Keys;
    ghost var visited: seq<Bytes> := [];
    while todo != {}
      invariant todo <= members.Keys
      invariant |visited| == |leaves| && DuplicateFree(visited)
      invariant forall d :: d in visited <==> d in members && d !in todo
      invariant forall i :: 0 <= i < |visited| ==> visited[i] in members && leaves[i] == members[visited[i]].leaf
      invariant owner.Keys == Elements(leaves)
      invariant forall x :: x in owner ==> owner[x] in members && members[owner[x]].leaf == x
      decreases todo
    {
      var d :| d in todo;
      leaves := leaves + [members[d].leaf];
      owner := owner[members[d].leaf := d];
      visited := visited + [d];
      todo := todo - {d};
    }
    VisitedAll(members, visited, leaves);
  }

  lemma VisitedAll(members: Batch, visited: seq<Bytes>, leaves: seq<Bytes>)
    requires |visited| == |leaves| && DuplicateFree(visited)
    requires forall d :: d in visited <==> d in members
    requires forall i :: 0 <= i < |visited| ==> visited[i] in members && leaves[i] == members[visited[i]].leaf
    ensures Elements(leaves) == LeafSet(members)
    ensures TreeAccepts(members) <==> AllHashes(leaves) && DuplicateFree(leaves)
    ensures leaves == [] <==> members == map[]
  {
    forall d | d in members ensures members[d].leaf in leaves {
      var i :| 0 <= i < |visited| && visited[i] == d;
      assert leaves[i] == members[d].leaf;
    }
    VisitedDistinct(members, visited, leaves);
    if members != map[] {
      var d :| d in members;
      assert d in visited;
    }
    if leaves != [] {
      assert visited[0] in members;
    }
  }

  lemma VisitedDistinct(members: Batch, visited: seq<Bytes>, leaves: seq<Bytes>)
    requires |visited| == |leaves| && DuplicateFree(visited)
    requires forall d :: d in visited <==> d in members
    requires forall i :: 0 <= i < |visited| ==> visited[i] in members && leaves[i] == members[visited[i]].leaf
    ensures TreeAccepts(members) <==> AllHashes(leaves) && DuplicateFree(leaves)
  {
    if AllHashes(leaves) && DuplicateFree(leaves) {
      forall d | d in members ensures |members[d].leaf| == 32 {
        var i :| 0 <= i < |visited| && visited[i] == d;
        assert leaves[i] == members[d].leaf;
      }
      forall d, e | d in members && e in members && d != e ensures members[d].leaf != members[e].leaf {
        var i :| 0 <= i < |visited| && visited[i] == d;
        var j :| 0 <= j < |visited| && visited[j] == e;
        assert leaves[i] == members[d].leaf && leaves[j] == members[e].leaf;
      }
    }
  }

  /** Sort, then build without sorting again. */
  method BuildTree(h: Hash, members: Batch, leaves: seq<Bytes>) returns (r: Result<Tree, TreeError>)
    requires Elements(leaves) == LeafSet(members)
    requires TreeAccepts(members) <==> AllHashes(leaves) && DuplicateFree(leaves)
    requires leaves != []
    ensures r.Ok? <==> TreeAccepts(members)
    ensures r.Ok? ==> ValidTree(h, r.value) && r.value.leaves == SortedLeaves(members)
  {
    var leavesSorted := Sort(leaves);
    SortedForTree(members, leaves, leavesSorted);
    r := NewTree(h, leavesSorted, false);
  }

  lemma SortedForTree(members: Batch, leaves: seq<Bytes>, leavesSorted: seq<Bytes>)
    requires Elements(leaves) == LeafSet(members)
    requires TreeAccepts(members) <==> AllHashes(leaves) && DuplicateFree(leaves)
    requires leaves != [] && leavesSorted == Sort(leaves)
    ensures leavesSorted != []
    ensures TreeAccepts(members) <==> AllHashes(leavesSorted) && DuplicateFree(leavesSorted)
    ensures TreeAccepts(members) ==> leavesSorted == SortedLeaves(members)
  {
    forall x ensures x in leavesSorted <==> x in leaves {
      assert x in multiset(leavesSorted) <==> x in multiset(leaves);
    }
    assert leaves[0] in leavesSorted;
    if DuplicateFree(leavesSorted) { SameMultisetDuplicateFree(leavesSorted, leaves); }
    if DuplicateFree(leaves) { SortIsAscending(leaves); }
  }

  /** `owner` names for each leaf of the batch the device it belongs to. */
  ghost predicate OwnsLeaves(members: Batch, owner: map<Bytes, Bytes>) {
    && owner.Keys == LeafSet(members)
    && (forall x :: x in owner ==> owner[x] in members && members[owner[x]].leaf == x)
  }

  ghost predicate OwnersIn(leaves: seq<Digest>, owner: map<Bytes, Bytes>, dids: set<Bytes>) {
    forall leaf :: leaf in leaves ==> leaf in owner && owner[leaf] in dids
  }

  /** The packages issued so far: the owners of `leaves` have theirs, and each is the one in `all`. */
  ghost predicate IssuedFor(leaves: seq<Digest>, owner: map<Bytes, Bytes>, all: Packages, packages: Packages) {
    && OwnersIn(leaves, owner, packages.Keys)
    && (forall d :: d in packages ==> d in all && packages[d] == all[d])
  }

  /** `all` holds the package built from the tree for the owner of each leaf, and no others. */
  ghost predicate BuiltFromTree(k: FogKeys, members: Batch, leaves: seq<Digest>, owner: map<Bytes, Bytes>,
                                epochId: int, all: Packages) {
    && (forall i :: 0 <= i < |leaves| ==>
          leaves[i] in owner && PackageAt(k, members, leaves, owner[leaves[i]], epochId, all, i))
    && (forall dids :: OwnersIn(leaves, owner, dids) ==> all.Keys <= dids)
  }

  ghost predicate PackageAt(k: FogKeys, members: Batch, leaves: seq<Digest>, did: Bytes, epochId: int, all: Packages,
                            i: nat)
    requires i < |leaves|
  {
    && did in members && did in all
    && all[did] == BuildPackage(k.crypto, Identity(did, members[did].publicKey), leaves, i, epochId, k.fogId)
  }

  /** One signed package per leaf of the tree. */
  method BuildPackages(k: FogKeys, members: Batch, t: Tree, owner: map<Bytes, Bytes>, epochId: int, ghost all: Packages)
    returns (packages: Packages)
    requires ValidTree(k.crypto.hash, t) && BuiltFromTree(k, members, t.leaves, owner, epochId, all)
    ensures packages == all
  {
    packages := map[];
    for i := 0 to |t.leaves|
      invariant IssuedFor(t.leaves[..i], owner, all, packages)
    {
      var leaf := t.leaves[i];
      var did := owner[leaf];
      assert PackageAt(k, members, t.leaves, did, epochId, all, i);
      var package := PackageFromTree(k.crypto, Identity(did, members[did].publicKey), leaf, t, epochId, k.fogId);
      OneMoreIssued(t.leaves, owner, all, packages, i);
      packages := packages[did := package.value];
    }
    assert t.leaves[..|t.leaves|] == t.leaves;
    assert all.Keys <= packages.Keys;
  }

  lemma AllBuiltFromTree(k: FogKeys, members: Batch, leaves: seq<Digest>, owner: map<Bytes, Bytes>, epochId: int)
    requires TreeAccepts(members) && leaves == SortedLeaves(members) && OwnsLeaves(members, owner)
    ensures BuiltFromTree(k, members, leaves, owner, epochId, PackagesOf(k, members, epochId))
  {
    var all := PackagesOf(k, members, epochId);
    forall i | 0 <= i < |leaves|
      ensures leaves[i] in owner && PackageAt(k, members, leaves, owner[leaves[i]], epochId, all, i)
    {
      assert leaves[i] in LeafSet(members);
      IndexUnique(leaves, i);
    }
    forall dids | OwnersIn(leaves, owner, dids) ensures all.Keys <= dids {
      EveryMemberOwnsALeaf(members, leaves, owner, dids);
    }
  }

  lemma EveryMemberOwnsALeaf(members: Batch, leaves: seq<Digest>, owner: map<Bytes, Bytes>, dids: set<Bytes>)
    requires TreeAccepts(members) && leaves == SortedLeaves(members) && OwnsLeaves(members, owner)
    requires OwnersIn(leaves, owner, dids)
    ensures members.Keys <= dids
  {
    forall d | d in members ensures d in dids {
      assert members[d].leaf in LeafSet(members);
      assert members[d].leaf in leaves;
    }
  }

  lemma OneMoreIssued(leaves: seq<Digest>, owner: map<Bytes, Bytes>, all: Packages, packages: Packages, i: nat)
    requires i < |leaves| && leaves[i] in owner && owner[leaves[i]] in all
    requires IssuedFor(leaves[..i], owner, all, packages)
    ensures IssuedFor(leaves[..i + 1], owner, all, packages[owner[leaves[i]] := all[owner[leaves[i]]]])
  {
    assert leaves[..i + 1] == leaves[..i] + [leaves[i]];
  }

  ghost function PromoteSome(devices: Devices, issued: Packages, done: set<Bytes>, epochId: int): Devices
    requires done <= issued.Keys
  {
    map d | d in devices :: if d in done then MarkRegistered(devices[d], issued[d].leaf, epochId) else devices[d]
  }

  lemma MembersAssembled(k: FogKeys, devices: Devices, pending: Batch, exclude: set<Bytes>, kept: Batch, members: Batch)
    requires forall d :: d in kept <==> d in Carried(k, devices, pending, exclude)
    requires forall d :: d in kept ==> kept[d] == CarriedEntry(devices[d])
    requires forall d :: d in members <==> d in kept || d in Admitted(devices, pending, exclude)
    requires forall d :: d in members ==>
               members[d] == if d in Admitted(devices, pending, exclude) then pending[d] else kept[d]
    ensures members == Members(k, devices, pending, exclude)
  {
  }

  /** Everything that a close reads and changes. */
  datatype World = World(devices: Devices, epochs: EpochState, ledger: LedgerState)

  /** The state after an attempt to close, and what the caller gets: a failed close changes nothing. */
  function Outcome(w: World, attempt: Result<Closed, EpochError>): (World, Result<EpochResult, EpochError>) {
    match attempt
    case Ok(closed) => (World(closed.devices, closed.epochs, closed.ledger), Ok(closed.result))
    case Err(e) => (w, Err(e))
  }

  /** What `finalize_epoch` must do. */
  ghost function Finalized(k: FogKeys, w: World, exclude: set<Bytes>, timestamp: Bytes)
    : (World, Result<EpochResult, EpochError>)
  {
    Outcome(w, Finalize(k, w.devices, w.epochs, w.ledger, exclude, timestamp))
  }

  ghost function Sealed(k: FogKeys, w: World, leaves: seq<Digest>, packages: Packages, counts: Counts,
                        timestamp: Bytes):
    (World, Result<EpochResult, EpochError>)
    requires |leaves| > 0
  {
    Outcome(w, Seal(k, w.devices, w.epochs, w.ledger, leaves, packages, counts, timestamp))
  }

  lemma SealFinalizes(k: FogKeys, w: World, exclude: set<Bytes>, timestamp: Bytes, members: Batch)
    requires members == Members(k, w.devices, w.epochs.pending, exclude)
    requires members != map[] && TreeAccepts(members)
    ensures |SortedLeaves(members)| > 0
    ensures Finalized(k, w, exclude, timestamp)
         == Sealed(k, w, SortedLeaves(members), PackagesOf(k, members, w.epochs.current),
                   CountsOf(k, w.devices, w.epochs, exclude), timestamp)
  {
    NonEmptyLeaves(members);
  }

  lemma RejectFinalizes(k: FogKeys, w: World, exclude: set<Bytes>, timestamp: Bytes)
    ensures var members := Members(k, w.devices, w.epochs.pending, exclude);
            && (members == map[] ==> Finalized(k, w, exclude, timestamp) == (w, Err(EmptyBatch)))
            && (members != map[] && !TreeAccepts(members) ==>
                Finalized(k, w, exclude, timestamp) == (w, Err(TreeFailed)))
  {
  }

  /** The checks and the tree, before anything is changed. */
  method PrepareTree(k: FogKeys, members: Batch, ghost w: World, ghost exclude: set<Bytes>, ghost timestamp: Bytes)
    returns (r: Result<Tree, EpochError>, owner: map<Bytes, Bytes>, ghost all: Packages)
    requires members == Members(k, w.devices, w.epochs.pending, exclude)
    ensures r.Err? ==> Finalized(k, w, exclude, timestamp) == (w, Err(r.error))
    ensures r.Ok? ==> ValidTree(k.crypto.hash, r.value)
    ensures r.Ok? ==> BuiltFromTree(k, members, r.value.leaves, owner, w.epochs.current, all)
    ensures var counts := CountsOf(k, w.devices, w.epochs, exclude);
            r.Ok? ==> Finalized(k, w, exclude, timestamp) == Sealed(k, w, r.value.leaves, all, counts, timestamp)
  {
    RejectFinalizes(k, w, exclude, timestamp);
    owner, all := map[], map[];
    if members == map[] {
      return Err(EmptyBatch), owner, all;
    }
    var leaves;
    leaves, owner := CollectLeaves(members);
    var tree := BuildTree(k.crypto.hash, members, leaves);
    if tree.Err? {
      return Err(TreeFailed), owner, all;
    }
    SealFinalizes(k, w, exclude, timestamp, members);
    AllBuiltFromTree(k, members, tree.value.leaves, owner, w.epochs.current);
    r, all := Ok(tree.value), PackagesOf(k, members, w.epochs.current);
  }

  // ---------- the object ----------

  class EpochManager {
    const keys: FogKeys
    const ledger: Ledger
    const devices: DeviceStore
    var current: int
    var pending: Batch
    var packages: map<int, Packages>
    var latest: Packages
    var active: set<Bytes>

    ghost function State(): EpochState
      reads this
    {
      EpochState(current, pending, packages, latest, active)
    }

    ghost function View(): World
      reads this, ledger, devices, devices.devices.Values
    {
      World(devices.View(), State(), ledger.State())
    }

    /** Reading leaves the view as it is. */
    twostate lemma SameView()
      requires unchanged(this) && unchanged(ledger) && unchanged(devices)
      requires forall d :: d in devices.devices ==> unchanged(devices.devices[d])
      ensures View() == old(View())
    {
      devices.SameView();
    }

    /** Numbering continues after the newest block of the ledger. */
    constructor (keys: FogKeys, ledger: Ledger, devices: DeviceStore)
      ensures this.keys == keys && this.ledger == ledger && this.devices == devices
      ensures State() == EpochState(if ledger.blocks == [] then 1
                                    else ledger.blocks[|ledger.blocks| - 1].body.epochId + 1,
                                    map[], map[], map[], {})
    {
      this.keys, this.ledger, this.devices := keys, ledger, devices;
      current := 1;
      pending, packages, latest, active := map[], map[], map[], {};
      new;
      var newest := ledger.LatestEpoch();
      if newest.Some? {
        current := newest.value + 1;
      }
    }

    method AddLeaf(did: Bytes, publicKey: Bytes) returns (r: Result<Bytes, EpochError>)
      modifies `pending
      ensures match Queue(keys.crypto.hash, old(pending), Identity(did, publicKey))
              case Ok(queued) => pending == queued && r == Ok(queued[did].leaf)
              case Err(e) => pending == old(pending) && r == Err(e)
    {
      if did in pending {
        return Err(AlreadyQueued);
      }
      var leaf := LeafHash(keys.crypto.hash, Identity(did, publicKey));
      if leaf.None? {
        return Err(BadIdentity);
      }
      pending := pending[did := PendingEntry(publicKey, leaf.value)];
      r := Ok(leaf.value);
    }

    /** Without an epoch, the package on offer is the newest that the device was ever given. */
    method GetPackage(did: Bytes, epochId: Option<int>) returns (r: Option<ProofPackage>)
      ensures epochId.Some? ==> (r.Some? <==> epochId.value in packages && did in packages[epochId.value])
      ensures epochId.Some? && r.Some? ==> r.value == packages[epochId.value][did]
      ensures epochId.None? && LatestInv(packages, latest) ==> (r.Some? <==> EverPackaged(packages, did))
      ensures epochId.None? && LatestInv(packages, latest) && r.Some? ==> IsNewest(packages, did, r.value)
    {
      if epochId.None? {
        r := if did in latest then Some(latest[did]) else None;
      } else {
        r := if epochId.value in packages && did in packages[epochId.value]
             then Some(packages[epochId.value][did]) else None;
      }
    }

    /** The registered devices that are neither blocked nor queued again. */
    method CarryForward(blocked: set<Bytes>, ghost exclude: set<Bytes>, ghost view: Devices)
        returns (members: Batch, carried: nat)
      requires devices.Valid() && view == devices.View() && blocked == Blocked(view, exclude)
      ensures forall d :: d in members <==> d in Carried(keys, view, pending, exclude)
      ensures forall d :: d in members ==> members[d] == CarriedEntry(view[d])
      ensures carried == |Carried(keys, view, pending, exclude)|
    {
      members, carried := map[], 0;
      if !keys.carryForward {
        return;
      }
      ghost var keep := Carried(keys, view, pending, exclude);
      ghost var kept: set<Bytes> := {};
      label start:
      var todo := devices.ByStatus(Registered);
      devices.SameView@start();
      assert forall d :: d in todo ==> (d in keep <==> d !in blocked && d !in pending);
      while todo != {}
        invariant forall d :: d in todo ==> d in devices.devices && (d in keep <==> d !in blocked && d !in pending)
        invariant forall d :: d in kept <==> d in keep && d !in todo
        invariant forall d :: d in members <==> d in kept
        invariant forall d :: d in members ==> members[d] == CarriedEntry(view[d])
        invariant carried == |kept|
        decreases todo
      {
        var d :| d in todo;
        todo := todo - {d};
        if d !in blocked && d !in pending {
          var rec := devices.devices[d];
          assert view[d] == rec.Value();
          members := members[d := PendingEntry(rec.publicKey, rec.leaf.GetOr([]))];
          kept := kept + {d};
          carried := carried + 1;
        }
      }
      assert kept == keep;
    }

    method AdmitPending(carried: Batch, blocked: set<Bytes>, ghost admit: set<Bytes>)
        returns (members: Batch, new_: nat)
      requires forall d :: d in admit <==> d in pending && d !in blocked
      ensures forall d :: d in members <==> d in carried || d in admit
      ensures forall d :: d in members ==> members[d] == if d in admit then pending[d] else carried[d]
      ensures new_ == |admit|
    {
      members, new_ := carried, 0;
      ghost var added: set<Bytes> := {};
      var todo := pending.Keys;
      while todo != {}
        invariant todo <= pending.Keys && new_ == |added|
        invariant forall d :: d in added <==> d in admit && d !in todo
        invariant forall d :: d in members <==> d in carried || d in added
        invariant forall d :: d in members ==> members[d] == if d in added then pending[d] else carried[d]
        decreases todo
      {
        var d :| d in todo;
        todo := todo - {d};
        if d !in blocked {
          members := members[d := pending[d]];
          added := added + {d};
          new_ := new_ + 1;
        }
      }
      assert added == admit;
    }

    /** The batch merged with the devices carried forward, without the blocked ones. */
    method CollectMembers(blocked: set<Bytes>, ghost exclude: set<Bytes>, ghost view: Devices)
      returns (members: Batch, new_: nat, carried: nat)
      requires devices.Valid() && view == devices.View() && blocked == Blocked(view, exclude)
      ensures members == Members(keys, view, pending, exclude)
      ensures new_ == |Admitted(view, pending, exclude)|
      ensures carried == |Carried(keys, view, pending, exclude)|
    {
      var kept;
      kept, carried := CarryForward(blocked, exclude, view);
      members, new_ := AdmitPending(kept, blocked, Admitted(view, pending, exclude));
      MembersAssembled(keys, view, pending, exclude, kept, members);
    }

    /** Every packaged device that has a record becomes REGISTERED, in place. */
    method PromoteDevices(issued: Packages, epochId: int)
      requires devices.Valid()
      modifies devices.devices.Values
      ensures devices.Valid() && devices.View() == Promote(old(devices.View()), issued, epochId)
    {
      var todo := issued.Keys;
      ghost var done: set<Bytes> := {};
      assert devices.View() == PromoteSome(old(devices.View()), issued, done, epochId);
      while todo != {}
        invariant done == issued.Keys - todo && todo <= issued.Keys && devices.Valid()
        invariant devices.View() == PromoteSome(old(devices.View()), issued, done, epochId)
        decreases todo
      {
        var d :| d in todo;
        MarkOne(d, issued[d].leaf, epochId);
        todo := todo - {d};
        done := done + {d};
      }
      assert done == issued.Keys;
    }

    method MarkOne(did: Bytes, leaf: Bytes, epochId: int)
      requires devices.Valid()
      modifies devices.devices.Values
      ensures devices.Valid()
      ensures devices.View() == if did in old(devices.View())
                then old(devices.View())[did := MarkRegistered(old(devices.View())[did], leaf, epochId)]
                  else old(devices.View())
    {
      var rec := devices.Get(did);
      if rec != null {
        rec.status := Registered;
        rec.leaf := Some(leaf);
        rec.epochId := Some(epochId);
        devices.OneChanged(did);
      }
    }

    method FinalizeEpoch(exclude: set<Bytes>, timestamp: Bytes) returns (r: Result<EpochResult, EpochError>)
      requires devices.Valid() && ledger.crypto == keys.crypto && ledger.fogId == keys.fogId
      modifies this, ledger, devices.devices.Values
      ensures devices.Valid() && (View(), r) == Finalized(keys, old(View()), exclude, timestamp)
    {
      ghost var before := View();
      label start:
      var members, counts := Survey(exclude, before);
      var tree, owner, all := PrepareTree(keys, members, before, exclude, timestamp);
      SameView@start();
      if tree.Err? {
        return Err(tree.error);
      }
      r := Seal(members, tree.value, owner, timestamp, counts, all, before);
    }

    method Dropped(blocked: set<Bytes>) returns (dropped: set<Bytes>)
      ensures dropped == blocked * (pending.Keys + active)
    {
      dropped := set d | d in blocked && (d in pending || d in active);
    }

    /** Who will be in the next root, who will not, and how many. */
    method Survey(exclude: set<Bytes>, ghost w: World) returns (members: Batch, counts: Counts)
      requires devices.Valid() && w == View()
      ensures members == Members(keys, w.devices, w.epochs.pending, exclude)
      ensures counts == CountsOf(keys, w.devices, w.epochs, exclude)
    {
      label start:
      var revoked := devices.ByStatus(Revoked);
      devices.SameView@start();
      var blocked := exclude + revoked;
      var new_, carried;
      members, new_, carried := CollectMembers(blocked, exclude, w.devices);
      var dropped := Dropped(blocked);
      counts := Counts(new_, carried, dropped);
    }

    /** Anchoring the root comes first: a refusal leaves everything as it was. */
    method Seal(members: Batch, t: Tree, owner: map<Bytes, Bytes>, timestamp: Bytes, counts: Counts,
                ghost all: Packages, ghost before: World)
      returns (r: Result<EpochResult, EpochError>)
      requires devices.Valid() && before == View()
      requires ledger.crypto == keys.crypto && ledger.fogId == keys.fogId
      requires ValidTree(keys.crypto.hash, t) && BuiltFromTree(keys, members, t.leaves, owner, current, all)
      modifies this, ledger, devices.devices.Values
      ensures devices.Valid()
      ensures (View(), r) == Sealed(keys, before, t.leaves, all, counts, timestamp)
    {
      var epochId := current;
      var root := t.levels[|t.levels| - 1][0];
      var block := ledger.AnchorRoot(epochId, root, |t.leaves|, timestamp);
      devices.SameView();
      if block.Err? {
        return Err(LedgerRefused);
      }
      label anchored:
      var issued := BuildPackages(keys, members, t, owner, epochId, all);
      SameView@anchored();
      Publish(issued);
      r := Ok(EpochResult(epochId, root, block.value, t.leaves, issued, counts.newDevices, counts.carriedForward,
                          counts.excluded));
    }

    /** The last step of a close: records, packages and the next window. */
    method Publish(issued: Packages)
      requires devices.Valid()
      modifies this, devices.devices.Values
      ensures devices.Valid()
      ensures View() == World(Promote(old(devices.View()), issued, old(current)), NextWindow(old(State()), issued),
                              old(ledger.State()))
    {
      PromoteDevices(issued, current);
      label promoted:
      latest := latest + issued;
      packages := packages[current := issued];
      active := issued.Keys;
      pending := map[];
      current := current + 1;
      devices.SameView@promoted();
    }
  }
}
