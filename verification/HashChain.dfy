/**
 What a verified chain binds. Nothing is assumed of the hash: where two different records
 could hide behind one hash, the proof hands over the two byte strings that collide.
 */
module HashChain {
  import opened Bytes
  import opened Wrappers
  import opened AuditLog

  datatype Finding =
    | Agree
      /** Two different byte strings with one hash. */
    | Collision(x: seq<Byte>, y: seq<Byte>)
      /** A byte string whose hash is all zeros, the hash the chain starts from. */
    | ZeroPreimage(z: seq<Byte>)

  /** Equal in everything the chain covers. */
  predicate SameRecord(a: AuditEntry, b: AuditEntry) {
    && a.sequence == b.sequence
    && Serialize(a.event) == Serialize(b.event)
    && a.prevHash == b.prevHash
    && a.hash == b.hash
  }

  function LastHash(entries: seq<AuditEntry>): Digest {
    PrevOf(entries, |entries|)
  }

  lemma EntryBytesInjective(H: HashFn, a: AuditEntry, b: AuditEntry)
    requires EntryBytes(H, a.sequence, a.event, a.prevHash) == EntryBytes(H, b.sequence, b.event, b.prevHash)
    ensures a.sequence == b.sequence && H(Serialize(a.event)) == H(Serialize(b.event)) && a.prevHash == b.prevHash
  {
    hide EntryBytes, Serialize, ToLe, Pow256;
    EntryParts(H, a.sequence, a.event, a.prevHash);
    EntryParts(H, b.sequence, b.event, b.prevHash);
    PowWidths();
    LeInjective(8, a.sequence, b.sequence);
  }

  lemma ChainFront(H: HashFn, entries: seq<AuditEntry>)
    requires ChainOk(H, entries) && entries != []
    ensures var k := |entries| - 1;
            && ChainOk(H, entries[..k]) && VerifyHash(H, entries[k]) && entries[k].prevHash == LastHash(entries[..k])
  {
    hide VerifyHash, ZeroHash;
    var k := |entries| - 1;
    forall i | 0 <= i < k
      ensures VerifyHash(H, entries[..k][i]) && entries[..k][i].prevHash == PrevOf(entries[..k], i)
    {
      assert entries[i].prevHash == PrevOf(entries, i);
    }
    assert entries[k].prevHash == PrevOf(entries, k);
  }

  /**
   Hash-chain binding: two chains that verify and end in the same hash have the same length
   and agree entry by entry on sequence number, event bytes and both hashes, or else the
   proof exhibits two colliding byte strings, or, if the lengths differ, possibly a byte
   string that hashes to zero.
   */
  lemma {:induction false} Binding(H: HashFn, a: seq<AuditEntry>, b: seq<AuditEntry>) returns (r: Finding)
    requires ChainOk(H, a) && ChainOk(H, b) && LastHash(a) == LastHash(b)
    ensures r.Agree? ==> |a| == |b| && forall i | 0 <= i < |a| :: SameRecord(a[i], b[i])
    ensures r.Collision? ==> r.x != r.y && H(r.x) == H(r.y)
    ensures r.ZeroPreimage? ==> |a| != |b| && H(r.z) == ZeroHash()
    decreases |a|
  {
    hide ChainOk, EntryBytes, Serialize, ZeroHash;
    if a == [] && b == [] {
      return Agree;
    }
    if a == [] {
      var y := b[|b| - 1];
      ChainFront(H, b);
      return ZeroPreimage(EntryBytes(H, y.sequence, y.event, y.prevHash));
    }
    var x := a[|a| - 1];
    ChainFront(H, a);
    if b == [] {
      return ZeroPreimage(EntryBytes(H, x.sequence, x.event, x.prevHash));
    }
    var y := b[|b| - 1];
    ChainFront(H, b);
    var p, q := EntryBytes(H, x.sequence, x.event, x.prevHash), EntryBytes(H, y.sequence, y.event, y.prevHash);
    if p != q {
      return Collision(p, q);
    }
    EntryBytesInjective(H, x, y);
    if Serialize(x.event) != Serialize(y.event) {
      return Collision(Serialize(x.event), Serialize(y.event));
    }
    r := Binding(H, a[..|a| - 1], b[..|b| - 1]);
    if r == Agree {
      forall i | 0 <= i < |a|
        ensures SameRecord(a[i], b[i])
      {
        if i < |a| - 1 {
          assert SameRecord(a[..|a| - 1][i], b[..|b| - 1][i]);
        }
      }
    }
  }

  /**
   What the event bytes pin down: time, PFP bytes, the counter with "none" read as zero, and
   context and source run together; and nothing more.
   */
  lemma SerializeFields(a: CatastrophicEvent, b: CatastrophicEvent)
    ensures Serialize(a) == Serialize(b) <==>
            && a.timestamp == b.timestamp && a.timestampNanos == b.timestampNanos
            && a.pfpBytes == b.pfpBytes && SeqOrZero(a) == SeqOrZero(b) && Trailer(a) == Trailer(b)
  {
    hide Serialize, ToLe, Pow256, Trailer, SeqOrZero;
    if Serialize(a) == Serialize(b) {
      SerializedParts(a);
      SerializedParts(b);
      PowWidths();
      LeInjective(8, a.timestamp, b.timestamp);
      LeInjective(4, a.timestampNanos, b.timestampNanos);
      LeInjective(2, SeqOrZero(a), SeqOrZero(b));
    }
    if a.timestamp == b.timestamp && a.timestampNanos == b.timestampNanos
       && a.pfpBytes == b.pfpBytes && SeqOrZero(a) == SeqOrZero(b) && Trailer(a) == Trailer(b) {
      SerializedFrom(a, b);
    }
  }

  lemma SerializedFrom(a: CatastrophicEvent, b: CatastrophicEvent)
    requires a.timestamp == b.timestamp && a.timestampNanos == b.timestampNanos
    requires a.pfpBytes == b.pfpBytes && SeqOrZero(a) == SeqOrZero(b) && Trailer(a) == Trailer(b)
    ensures Serialize(a) == Serialize(b)
  {
    hide ToLe, Trailer, SeqOrZero;
  }

  lemma SerializedParts(e: CatastrophicEvent)
    ensures var s := Serialize(e);
            && |s| >= 18 && s[..8] == ToLe(8, e.timestamp) && s[8..12] == ToLe(4, e.timestampNanos)
            && s[12..16] == e.pfpBytes && s[16..18] == ToLe(2, SeqOrZero(e)) && s[18..] == Trailer(e)
            && SeqOrZero(e) == (if e.seqCounter.None? then 0 else e.seqCounter.value)
            && s[18..] == (if e.sensorContext.None? then [] else e.sensorContext.value) + e.source
  {
    hide ToLe;
  }

  /** So two different events can share their bytes: a missing counter and zero, a context moved into the source. */
  lemma SerializeNotInjective(e: CatastrophicEvent, c: seq<Byte>, source: seq<Byte>)
    ensures Serialize(e.(seqCounter := None)) == Serialize(e.(seqCounter := Some(0)))
    ensures Serialize(e.(sensorContext := Some(c), source := source))
            == Serialize(e.(sensorContext := None, source := c + source))
  {
    hide Serialize;
    SerializeFields(e.(seqCounter := None), e.(seqCounter := Some(0)));
    SerializeFields(e.(sensorContext := Some(c), source := source), e.(sensorContext := None, source := c + source));
  }

  /** For two whole histories of the log: equal last hashes mean equal event bytes, or a finding. */
  lemma HistoriesBound(H: HashFn, a: seq<CatastrophicEvent>, b: seq<CatastrophicEvent>) returns (r: Finding)
    requires ChainHash(H, a) == ChainHash(H, b)
    ensures r.Agree? ==> |a| == |b| && forall i | 0 <= i < |a| :: Serialize(a[i]) == Serialize(b[i])
    ensures r.Collision? ==> r.x != r.y && H(r.x) == H(r.y)
    ensures r.ZeroPreimage? ==> |a| != |b| && H(r.z) == ZeroHash()
  {
    hide ChainOk, ChainHash, EntryBytes, Serialize, ZeroHash, AllEntries, VerifyHash;
    var v, w := Window(H, |a|, a), Window(H, |b|, b);
    WholeChain(H, a);
    WholeChain(H, b);
    WindowLinks(H, |a|, a);
    WindowLinks(H, |b|, b);
    r := Binding(H, v, w);
    if r == Agree {
      forall i | 0 <= i < |a|
        ensures Serialize(a[i]) == Serialize(b[i])
      {
        assert SameRecord(v[i], w[i]);
      }
    }
  }

  lemma WholeChain(H: HashFn, es: seq<CatastrophicEvent>)
    ensures ChainOk(H, Window(H, |es|, es)) && LastHash(Window(H, |es|, es)) == ChainHash(H, es)
  {
    hide VerifyHash, EntryBytes, AllEntries, ZeroHash;
    WindowLinks(H, |es|, es);
    if es != [] { WindowVerifies(H, |es|, es); }
  }
}
