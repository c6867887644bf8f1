/** The in-memory stores as objects (fog/storage/device_store.py, fog/registration/pop.py, TokenState of
    fog/tokens/store.py). Sessions and device records are objects that callers change in place; View()
    is the value that the specification in FogState.dfy and Epochs.dfy speaks about. */
module Stores {
  import opened Basics
  import opened Signing
  import opened Messages
  import opened Nonces
  import opened Epochs
  import opened FogState
  import Spec = FogState

  class SessionObject {
    const createdAt: Time
    var state: SessionState
    var did: Option<Bytes>
    var publicKey: Option<Bytes>
    var challenge: Option<Digest>
    var challengeExpires: Time
    var challengeUsed: bool

    constructor (now: Time)
      ensures Value() == Session(now, Authenticated, None, None, None, 0, true)
    {
      createdAt := now;
      state := Authenticated;
      did, publicKey, challenge := None, None, None;
      challengeExpires := 0;
      challengeUsed := true;
    }

    function Value(): Session
      reads this
    {
      Session(createdAt, state, did, publicKey, challenge, challengeExpires, challengeUsed)
    }

    method IssueChallenge(fresh32: Digest, ttl: Time, now: Time)
      modifies this
      ensures Value() == WithChallenge(old(Value()), fresh32, ttl, now)
    {
      challenge := Some(fresh32);
      challengeExpires := now + ttl;
      challengeUsed := false;
    }

    method VerifyPop(c: Crypto, signature: Option<Bytes>, now: Time) returns (passed: bool)
      modifies this
      ensures (Value(), passed) == Spec.VerifyPop(c, old(Value()), signature, now)
    {
      if challenge.None? || challengeUsed {
        return false;
      }
      challengeUsed := true;
      if now > challengeExpires {
        return false;
      }
      if signature.None? {
        return false;
      }
      var message := PopMessage(challenge.value, did.GetOr([]));
      passed := c.verify(publicKey.GetOr([]), message, signature.value);
    }
  }

  class SessionStore {
    const ttl: Time
    var sessions: map<Bytes, SessionObject>

    constructor (ttl: Time)
      ensures Valid() && this.ttl == ttl && View() == map[] && sessions == map[]
    {
      this.ttl := ttl;
      sessions := map[];
    }

    /** No two entries share an object. */
    ghost predicate Valid()
      reads this
    {
      forall a, b :: a in sessions && b in sessions && a != b ==> sessions[a] != sessions[b]
    }

    ghost function View(): Sessions
      reads this, sessions.Values
    {
      map a | a in sessions :: sessions[a].Value()
    }

    method Create(sid: Bytes, now: Time) returns (s: SessionObject)
      requires Valid()
      modifies this
      ensures Valid() && fresh(s) && sessions == old(sessions)[sid := s]
      ensures View() == old(View())[sid := Session(now, Authenticated, None, None, None, 0, true)]
    {
      s := new SessionObject(now);
      sessions := sessions[sid := s];
    }

    method Get(sid: Bytes, now: Time) returns (s: SessionObject?)
      requires Valid()
      modifies this
      ensures Valid() && View() == Lookup(old(View()), ttl, sid, now).0
      ensures s == null <==> Lookup(old(View()), ttl, sid, now).1.None?
      ensures s != null ==> sessions == old(sessions) && sid in sessions && sessions[sid] == s
                            && Lookup(old(View()), ttl, sid, now).1 == Some(s.Value())
      ensures sessions.Values <= old(sessions.Values)
    {
      if sid !in sessions {
        return null;
      }
      s := sessions[sid];
      if now > s.createdAt + ttl {
        sessions := sessions - {sid};
        s := null;
      }
    }

    method DidInUse(did: Bytes, exceptSid: Bytes) returns (found: bool)
      ensures found <==> Spec.DidInUse(View(), did, exceptSid)
    {
      var todo := sessions.Keys;
      while todo != {}
        invariant todo <= sessions.Keys
        invariant forall a :: a in sessions && a !in todo ==>
                    !(a != exceptSid && sessions[a].did == Some(did) && sessions[a].state != Authenticated)
        decreases todo
      {
        var a :| a in todo;
        if a != exceptSid && sessions[a].did == Some(did) && sessions[a].state != Authenticated {
          assert View()[a] == sessions[a].Value();
          return true;
        }
        todo := todo - {a};
      }
      found := false;
    }

    /** Reading leaves the view as it is. */
    twostate lemma SameView()
      requires unchanged(this) && forall a :: a in sessions ==> unchanged(sessions[a])
      ensures View() == old(View())
    {
    }

    /** Changing the object of one session in place changes one entry of the view. */
    twostate lemma OneChanged(sid: Bytes)
      requires old(Valid()) && sessions == old(sessions) && sid in sessions
      requires forall a :: a in sessions && a != sid ==> unchanged(sessions[a])
      ensures Valid() && View() == old(View())[sid := sessions[sid].Value()]
    {
    }
  }

  class DeviceObject {
    const did: Bytes
    const publicKey: Bytes
    var status: Status
    var metadata: Option<Metadata>
    var leaf: Option<Bytes>
    var epochId: Option<int>

    constructor (did: Bytes, publicKey: Bytes)
      ensures this.did == did && Value() == Device(publicKey, Pending, None, None, None)
    {
      this.did, this.publicKey := did, publicKey;
      status := Pending;
      metadata, leaf, epochId := None, None, None;
    }

    function Value(): Device
      reads this
    {
      Device(publicKey, status, metadata, leaf, epochId)
    }
  }

  class DeviceStore {
    var devices: map<Bytes, DeviceObject>

    constructor ()
      ensures Valid() && View() == map[] && devices == map[]
    {
      devices := map[];
    }

    /** Every record is filed under its own DID, so no two entries share an object. */
    ghost predicate Valid()
      reads this
    {
      forall d :: d in devices ==> devices[d].did == d
    }

    ghost function View(): Devices
      reads this, devices.Values
    {
      map d | d in devices :: devices[d].Value()
    }

    method Upsert(r: DeviceObject)
      requires Valid()
      modifies this
      ensures Valid() && devices == old(devices)[r.did := r] && View() == old(View())[r.did := r.Value()]
    {
      devices := devices[r.did := r];
    }

    method Get(did: Bytes) returns (r: DeviceObject?)
      ensures r == null <==> did !in devices
      ensures r != null ==> r == devices[did]
    {
      r := if did in devices then devices[did] else null;
    }

    method SetStatus(did: Bytes, status: Status)
      requires Valid()
      modifies devices.Values
      ensures Valid()
      ensures View() == if did in old(View()) then old(View())[did := old(View())[did].(status := status)]
              else old(View())
    {
      if did in devices {
        devices[did].status := status;
        OneChanged(did);
      }
    }

    method ByStatus(status: Status) returns (dids: set<Bytes>)
      requires Valid()
      ensures dids == WithStatus(old(View()), status)
    {
      dids := set d | d in devices && devices[d].status == status;
    }

    /** Reading leaves the view as it is. */
    twostate lemma SameView()
      requires unchanged(this) && forall d :: d in devices ==> unchanged(devices[d])
      ensures View() == old(View())
    {
    }

    /** Changing one record in place changes one entry of the view. */
    twostate lemma OneChanged(did: Bytes)
      requires old(Valid()) && devices == old(devices) && did in devices
      requires forall d :: d in devices && d != did ==> unchanged(devices[d])
      ensures Valid() && View() == old(View())[did := devices[did].Value()]
    {
    }
  }

  class TokenState {
    const nonces: NonceBook
    var issued: map<Bytes, Bytes>
    var revokedTokenIds: set<Bytes>

    constructor (nonceTtl: Time)
      ensures fresh(nonces) && nonces.ttl == nonceTtl && nonces.entries == map[]
      ensures issued == map[] && revokedTokenIds == {}
    {
      nonces := new NonceBook(nonceTtl);
      issued := map[];
      revokedTokenIds := {};
    }

    method RecordIssued(tokenId: Bytes, did: Bytes)
      modifies `issued
      ensures issued == old(issued)[tokenId := did]
    {
      issued := issued[tokenId := did];
    }

    method TokensOf(did: Bytes) returns (tokens: set<Bytes>)
      ensures tokens == Spec.TokensOf(issued, did)
    {
      tokens := set t | t in issued && issued[t] == did;
    }

    method RevokeToken(tokenId: Bytes)
      modifies `revokedTokenIds
      ensures revokedTokenIds == old(revokedTokenIds) + {tokenId}
    {
      revokedTokenIds := revokedTokenIds + {tokenId};
    }
  }
}
