/**
 The anti-replay cache (src/replay_cache.rs), one call at a time. `Check` and its neighbours
 are the cache as a function on values; the class updates entry objects in
 place, as the source does. The clock reading of each call is a parameter.
 */
module ReplayCache {
  import opened Bytes
  import opened Wrappers

  const REPLAY_CACHE_MAX_CAPACITY: nat := 100_000
  /** 60 seconds, in nanoseconds. */
  const REPLAY_CACHE_DEFAULT_TTL: nat := 60_000_000_000

  datatype ReplayKey = ReplayKey(tenantId: U64, sourceId: U64)

  datatype Verdict = Allowed | Rejected | CacheFull

  datatype Entry = Entry(lastSeq: U16, lastUpdate: nat)

  type Entries = map<ReplayKey, Entry>

  /** `elapsed() > ttl`; `elapsed` is zero when the clock reads less than the stored time. */
  predicate Expired(e: Entry, ttl: nat, now: nat) {
    now > e.lastUpdate + ttl
  }

  function Check(m: Entries, cap: nat, key: ReplayKey, seqNo: U16, now: nat): (Entries, Verdict) {
    if key in m then
      if seqNo <= m[key].lastSeq then (m, Rejected) else (m[key := Entry(seqNo, now)], Allowed)
    else if |m| >= cap then (m, CacheFull)
    else (m[key := Entry(seqNo, now)], Allowed)
  }

  function Preview(m: Entries, cap: nat, key: ReplayKey, seqNo: U16): Verdict {
    if key in m then
      if seqNo <= m[key].lastSeq then Rejected else Allowed
    else if |m| >= cap then CacheFull
    else Allowed
  }

  function Unexpired(m: Entries, ttl: nat, now: nat): Entries {
    map k | k in m && !Expired(m[k], ttl, now) :: m[k]
  }

  lemma CleanupSize(m: Entries, ttl: nat, now: nat)
    ensures |m| == |Unexpired(m, ttl, now)| + |set k | k in m && Expired(m[k], ttl, now)|
  {
    var kept, dropped := Unexpired(m, ttl, now).Keys, set k | k in m && Expired(m[k], ttl, now);
    assert m.Keys == kept + dropped && kept !! dropped;
    assert |m.Keys| == |kept| + |dropped|;
  }

  /** One cache entry: the last sequence number and when it was stored. */
  class ReplayEntry {
    var lastSeq: U16
    var lastUpdate: nat

    constructor (seqNo: U16, now: nat)
      ensures lastSeq == seqNo && lastUpdate == now
    {
      lastSeq := seqNo;
      lastUpdate := now;
    }

    method UpdateSeq(seqNo: U16, now: nat)
      modifies this
      ensures lastSeq == seqNo && lastUpdate == now
    {
      lastSeq := seqNo;
      lastUpdate := now;
    }

    predicate IsExpired(ttl: nat, now: nat)
      reads this
    {
      Expired(Entry(lastSeq, lastUpdate), ttl, now)
    }
  }

  class ReplayCache {
    var entries: map<ReplayKey, ReplayEntry>
    const ttl: nat

    /** No two keys share an entry object. */
    ghost predicate Valid()
      reads this
    {
      forall j, k | j in entries && k in entries && j != k :: entries[j] != entries[k]
    }

    ghost function View(): Entries
      reads this, entries.Values
    {
      map k | k in entries :: Entry(entries[k].lastSeq, entries[k].lastUpdate)
    }

    lemma ViewSize()
      ensures View().Keys == entries.Keys && |View()| == |entries|
    {
      assert View().Keys == entries.Keys;
      assert |View()| == |View().Keys| && |entries| == |entries.Keys|;
    }

    constructor WithTtl(ttl: nat)
      ensures Valid() && View() == map[] && this.ttl == ttl && entries == map[]
    {
      entries := map[];
      this.ttl := ttl;
    }

    /** DashMap's `insert`: the displaced entry, if there was one. */
    method Insert(key: ReplayKey, entry: ReplayEntry) returns (displaced: Option<ReplayEntry>)
      modifies this
      ensures entries == old(entries)[key := entry]
      ensures displaced == if key in old(entries) then Some(old(entries)[key]) else None
    {
      displaced := if key in entries then Some(entries[key]) else None;
      entries := entries[key := entry];
    }

    /** `update_seq` on the entry of `key`: only that entry object changes. */
    method StoreSeq(key: ReplayKey, seqNo: U16, now: nat)
      requires Valid() && key in entries
      modifies entries[key]
      ensures View() == old(View())[key := Entry(seqNo, now)]
    {
      entries[key].UpdateSeq(seqNo, now);
    }

    method CheckAndUpdate(key: ReplayKey, seqNo: U16, now: nat) returns (verdict: Verdict)
      requires Valid()
      modifies this, entries.Values
      ensures Valid() && fresh(entries.Values - old(entries.Values))
      ensures View() == Check(old(View()), REPLAY_CACHE_MAX_CAPACITY, key, seqNo, now).0
      ensures verdict == Check(old(View()), REPLAY_CACHE_MAX_CAPACITY, key, seqNo, now).1
    {
      ghost var before := View();
      if key in entries {
        var lastSeq := entries[key].lastSeq;
        if seqNo <= lastSeq {
          return Rejected;
        }
        StoreSeq(key, seqNo, now);
        return Allowed;
      }
      ViewSize();
      if |entries| >= REPLAY_CACHE_MAX_CAPACITY {
        return CacheFull;
      }
      var created := new ReplayEntry(seqNo, now);
      var displaced := Insert(key, created);
      match displaced {
        case None =>
          assert View() == before[key := Entry(seqNo, now)];
          verdict := Allowed;
        case Some(_) =>
          // With no other call in between, the key is still absent here.
          assert false;
      }
    }

    method CheckOnly(key: ReplayKey, seqNo: U16) returns (verdict: Verdict)
      requires Valid()
      ensures verdict == Preview(View(), REPLAY_CACHE_MAX_CAPACITY, key, seqNo)
    {
      ViewSize();
      if key in entries {
        if seqNo <= entries[key].lastSeq {
          return Rejected;
        }
        return Allowed;
      }
      if |entries| >= REPLAY_CACHE_MAX_CAPACITY {
        return CacheFull;
      }
      return Allowed;
    }

    method LastSeq(key: ReplayKey) returns (r: Option<U16>)
      requires Valid()
      ensures r == if key in View() then Some(View()[key].lastSeq) else None
    {
      r := if key in entries then Some(entries[key].lastSeq) else None;
    }

    /** Deletes exactly the expired entries and returns how many there were. */
    method CleanupExpired(now: nat) returns (removed: nat)
      requires Valid()
      modifies this
      ensures Valid() && entries.Values <= old(entries.Values)
      ensures View() == Unexpired(old(View()), ttl, now)
      ensures removed == |set k | k in old(View()) && Expired(old(View())[k], ttl, now)|
    {
      ghost var was := View();
      ViewSize();
      var before := |entries|;
      entries := map k | k in entries && !entries[k].IsExpired(ttl, now) :: entries[k];
      assert View() == Unexpired(was, ttl, now);
      ViewSize();
      CleanupSize(was, ttl, now);
      removed := before - |entries|;
    }

    method Remove(key: ReplayKey) returns (removed: bool)
      requires Valid()
      modifies this
      ensures Valid() && entries.Values <= old(entries.Values)
      ensures View() == old(View()) - {key}
      ensures removed <==> key in old(View())
    {
      removed := key in entries;
      entries := entries - {key};
    }

    method Clear()
      requires Valid()
      modifies this
      ensures Valid() && View() == map[] && entries == map[]
    {
      entries := map[];
    }
  }
}
