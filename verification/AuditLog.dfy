/**
 The audit log (src/catastrophic.rs): a hash chain kept in a bounded window. SHA-256
 (section 6.2 of FIPS 180-4) is an arbitrary function `H` from byte strings to 32 bytes;
 feeding a hasher piece by piece hashes the concatenation of the pieces. Counters of type
 u64 wrap, as in a release build.
 */
module AuditLog {
  import opened Bytes
  import opened Wrappers

  const AUDIT_LOG_MAX_ENTRIES: nat := 10_000

  type Digest = s: seq<Byte> | |s| == 32 witness seq(32, _ => 0)
  type HashFn = seq<Byte> -> Digest
  type PfpBytes = s: seq<Byte> | |s| == 4 witness seq(4, _ => 0)

  function ZeroHash(): (z: Digest)
    ensures forall i | 0 <= i < 32 :: z[i] == 0
  {
    seq(32, _ => 0)
  }

  datatype CatastrophicEvent = CatastrophicEvent(
    timestamp: U64,
    timestampNanos: U32,
    pfpBytes: PfpBytes,
    seqCounter: Option<U16>,
    sensorContext: Option<seq<Byte>>,
    source: seq<Byte>)

  /** A missing counter is hashed as zero. */
  function SeqOrZero(e: CatastrophicEvent): U16 {
    match e.seqCounter case None => 0 case Some(s) => s
  }

  /** Context and source are hashed without a boundary between them. */
  function Trailer(e: CatastrophicEvent): seq<Byte> {
    (match e.sensorContext case None => [] case Some(c) => c) + e.source
  }

  /** The bytes `CatastrophicEvent::hash` feeds to the hasher. */
  function Serialize(e: CatastrophicEvent): seq<Byte> {
    ToLe(8, e.timestamp) + ToLe(4, e.timestampNanos) + e.pfpBytes + ToLe(2, SeqOrZero(e)) + Trailer(e)
  }

  datatype AuditEntry = AuditEntry(sequence: U64, event: CatastrophicEvent, prevHash: Digest, hash: Digest)

  /** The bytes an entry's hash is taken of. */
  function EntryBytes(H: HashFn, sequence: U64, e: CatastrophicEvent, prevHash: Digest): seq<Byte> {
    ToLe(8, sequence) + H(Serialize(e)) + prevHash
  }

  /** Where each part lies in them: sequence number, event hash, previous hash. */
  lemma EntryParts(H: HashFn, sequence: U64, e: CatastrophicEvent, prevHash: Digest)
    ensures var x := EntryBytes(H, sequence, e, prevHash);
            && x == ToLe(8, sequence) + H(Serialize(e)) + prevHash
            && |x| == 72 && x[..8] == ToLe(8, sequence) && x[8..40] == H(Serialize(e)) && x[40..] == prevHash
  {
    hide Serialize, ToLe;
  }

  function NewEntry(H: HashFn, sequence: U64, e: CatastrophicEvent, prevHash: Digest): AuditEntry {
    AuditEntry(sequence, e, prevHash, H(EntryBytes(H, sequence, e, prevHash)))
  }

  predicate VerifyHash(H: HashFn, a: AuditEntry) {
    a.hash == H(EntryBytes(H, a.sequence, a.event, a.prevHash))
  }

  function PrevOf(entries: seq<AuditEntry>, i: nat): Digest
    requires i <= |entries|
  {
    if i == 0 then ZeroHash() else entries[i - 1].hash
  }

  /** Every hash is right and every entry names its predecessor's hash, the first one all zeros. */
  predicate ChainOk(H: HashFn, entries: seq<AuditEntry>) {
    forall i | 0 <= i < |entries| :: VerifyHash(H, entries[i]) && entries[i].prevHash == PrevOf(entries, i)
  }

  lemma VerifyHashParts(H: HashFn, a: AuditEntry)
    ensures VerifyHash(H, a) <==> a.hash == H(ToLe(8, a.sequence) + H(Serialize(a.event)) + a.prevHash)
  {
    EntryParts(H, a.sequence, a.event, a.prevHash);
  }

  /** A chain that is in order, with the hashed bytes spelt out. */
  predicate ChainSpeltOut(H: HashFn, entries: seq<AuditEntry>) {
    forall i | 0 <= i < |entries| ::
      && entries[i].hash == H(ToLe(8, entries[i].sequence) + H(Serialize(entries[i].event)) + entries[i].prevHash)
      && entries[i].prevHash == if i == 0 then ZeroHash() else entries[i - 1].hash
  }

  lemma ChainOkParts(H: HashFn, entries: seq<AuditEntry>)
    ensures ChainOk(H, entries) <==> ChainSpeltOut(H, entries)
  {
    forall i | 0 <= i < |entries|
      ensures VerifyHash(H, entries[i]) <==>
              entries[i].hash == H(ToLe(8, entries[i].sequence) + H(Serialize(entries[i].event)) + entries[i].prevHash)
    {
      VerifyHashParts(H, entries[i]);
    }
    hide VerifyHash, ZeroHash, ToLe, Serialize;
  }

  datatype LogState = LogState(entries: seq<AuditEntry>, nextSequence: U64, lastHash: Digest, totalTriggers: U64)

  const EMPTY_LOG: LogState := LogState([], 0, ZeroHash(), 0)

  /** Make room again after one entry too many. */
  function DropOldest(s: seq<AuditEntry>, cap: nat): seq<AuditEntry> {
    if |s| > cap then s[1..] else s
  }

  function Appended(H: HashFn, cap: nat, s: LogState, e: CatastrophicEvent): LogState {
    var entry := NewEntry(H, s.nextSequence, e, s.lastHash);
    LogState(
      DropOldest(s.entries + [entry], cap),
      Wrap64(s.nextSequence + 1),
      entry.hash,
      Wrap64(s.totalTriggers + 1))
  }

  /** `clear` keeps the trigger count. */
  function Emptied(s: LogState): LogState {
    LogState([], 0, ZeroHash(), s.totalTriggers)
  }

  class CatastrophicAuditLog {
    const H: HashFn
    var entries: seq<AuditEntry>
    var nextSequence: U64
    var lastHash: Digest
    var totalTriggers: U64

    ghost function View(): LogState
      reads this
    {
      LogState(entries, nextSequence, lastHash, totalTriggers)
    }

    constructor (H: HashFn)
      ensures View() == EMPTY_LOG && this.H == H
    {
      this.H := H;
      entries := [];
      nextSequence := 0;
      lastHash := ZeroHash();
      totalTriggers := 0;
    }

    method Append(event: CatastrophicEvent) returns (entry: AuditEntry)
      modifies this
      ensures View() == Appended(H, AUDIT_LOG_MAX_ENTRIES, old(View()), event)
      ensures entry.sequence == old(nextSequence) && entry.event == event && entry.prevHash == old(lastHash)
      ensures entry.hash == H(ToLe(8, old(nextSequence)) + H(Serialize(event)) + old(lastHash))
      ensures lastHash == entry.hash
      ensures entries != [] && entry == entries[|entries| - 1]
    {
      hide EntryBytes;
      EntryParts(H, nextSequence, event, lastHash);
      entry := NewEntry(H, nextSequence, event, lastHash);
      lastHash := entry.hash;
      nextSequence := Wrap64(nextSequence + 1);
      totalTriggers := Wrap64(totalTriggers + 1);
      entries := entries + [entry];
      if |entries| > AUDIT_LOG_MAX_ENTRIES {
        entries := entries[1..];
      }
    }

    /** The source's loop: recompute each hash, compare each link with the hash before it. */
    method VerifyChain() returns (ok: bool)
      ensures ok <==> ChainOk(H, entries)
      ensures ok <==> ChainSpeltOut(H, entries)
    {
      hide VerifyHash, ZeroHash, ChainSpeltOut;
      ChainOkParts(H, entries);
      var prevHash := ZeroHash();
      for i := 0 to |entries|
        invariant prevHash == PrevOf(entries, i)
        invariant forall j | 0 <= j < i :: VerifyHash(H, entries[j]) && entries[j].prevHash == PrevOf(entries, j)
      {
        if !VerifyHash(H, entries[i]) {
          return false;
        }
        if entries[i].prevHash != prevHash {
          return false;
        }
        prevHash := entries[i].hash;
      }
      ok := true;
    }

    method Clear()
      modifies this
      ensures View() == Emptied(old(View()))
    {
      entries := [];
      nextSequence := 0;
      lastHash := ZeroHash();
    }
  }

  // ----- the log is a window on the events since the last clear

  /** The chain's hash after the events `es`. */
  function ChainHash(H: HashFn, es: seq<CatastrophicEvent>): Digest {
    if es == [] then ZeroHash()
    else
      var k := |es| - 1;
      NewEntry(H, Wrap64(k), es[k], ChainHash(H, es[..k])).hash
  }

  /** The entry that recorded event `i` of `es`. */
  function EntryAt(H: HashFn, es: seq<CatastrophicEvent>, i: nat): AuditEntry
    requires i < |es|
  {
    NewEntry(H, Wrap64(i), es[i], ChainHash(H, es[..i]))
  }

  function Min(a: nat, b: nat): nat {
    if a <= b then a else b
  }

  /** Every entry ever made for `es`, had none been evicted. */
  function AllEntries(H: HashFn, es: seq<CatastrophicEvent>): (r: seq<AuditEntry>)
    ensures |r| == |es|
  {
    if es == [] then [] else AllEntries(H, es[..|es| - 1]) + [EntryAt(H, es, |es| - 1)]
  }

  lemma {:induction false} AllEntriesAt(H: HashFn, es: seq<CatastrophicEvent>, i: nat)
    requires i < |es|
    ensures AllEntries(H, es)[i] == EntryAt(H, es, i)
  {
    hide EntryBytes, ZeroHash;
    if i < |es| - 1 {
      AllEntriesAt(H, es[..|es| - 1], i);
      assert es[..|es| - 1][..i] == es[..i];
    }
  }

  function Newest(s: seq<AuditEntry>, cap: nat): seq<AuditEntry> {
    s[|s| - Min(|s|, cap)..]
  }

  /** The newest entries, at most `cap` of them. */
  function Window(H: HashFn, cap: nat, es: seq<CatastrophicEvent>): seq<AuditEntry> {
    Newest(AllEntries(H, es), cap)
  }

  function WindowState(H: HashFn, cap: nat, es: seq<CatastrophicEvent>, total: nat): LogState {
    LogState(Window(H, cap, es), Wrap64(|es|), ChainHash(H, es), Wrap64(total))
  }

  lemma NewestPush(s: seq<AuditEntry>, x: AuditEntry, cap: nat)
    ensures Newest(s + [x], cap) == DropOldest(Newest(s, cap) + [x], cap)
  {
  }

  lemma AllEntriesPush(H: HashFn, es: seq<CatastrophicEvent>, e: CatastrophicEvent)
    ensures AllEntries(H, es + [e]) == AllEntries(H, es) + [NewEntry(H, Wrap64(|es|), e, ChainHash(H, es))]
    ensures ChainHash(H, es + [e]) == NewEntry(H, Wrap64(|es|), e, ChainHash(H, es)).hash
  {
    hide NewEntry;
    assert (es + [e])[..|es|] == es;
  }

  lemma AppendKeepsWindow(H: HashFn, cap: nat, es: seq<CatastrophicEvent>, total: nat, e: CatastrophicEvent)
    ensures Appended(H, cap, WindowState(H, cap, es, total), e) == WindowState(H, cap, es + [e], total + 1)
  {
    hide NewEntry, AllEntries, ChainHash, Wrap64, Newest, DropOldest;
    AllEntriesPush(H, es, e);
    WrapSucc(|es|);
    WrapSucc(total);
    var entry := NewEntry(H, Wrap64(|es|), e, ChainHash(H, es));
    NewestPush(AllEntries(H, es), entry, cap);
    assert Window(H, cap, es + [e]) == DropOldest(Window(H, cap, es) + [entry], cap);
  }

  lemma WrapSucc(n: nat)
    ensures Wrap64(Wrap64(n) + 1) == Wrap64(n + 1)
  {
  }

  lemma EmptyWindow(H: HashFn, cap: nat)
    ensures EMPTY_LOG == WindowState(H, cap, [], 0)
  {
  }

  lemma ClearKeepsWindow(H: HashFn, cap: nat, es: seq<CatastrophicEvent>, total: nat)
    ensures Emptied(WindowState(H, cap, es, total)) == WindowState(H, cap, [], total)
  {
  }

  datatype LogOp = Append(event: CatastrophicEvent) | Clear

  function RunLog(H: HashFn, cap: nat, ops: seq<LogOp>): LogState {
    if ops == [] then EMPTY_LOG
    else
      var s := RunLog(H, cap, ops[..|ops| - 1]);
      match ops[|ops| - 1]
      case Append(e) => Appended(H, cap, s, e)
      case Clear => Emptied(s)
  }

  /** The events appended since the last clear. */
  function Since(ops: seq<LogOp>): seq<CatastrophicEvent> {
    if ops == [] then []
    else match ops[|ops| - 1]
      case Append(e) => Since(ops[..|ops| - 1]) + [e]
      case Clear => []
  }

  /** All appends of the run. */
  function Triggers(ops: seq<LogOp>): nat {
    if ops == [] then 0 else Triggers(ops[..|ops| - 1]) + if ops[|ops| - 1].Append? then 1 else 0
  }

  lemma {:induction false} RunIsWindow(H: HashFn, cap: nat, ops: seq<LogOp>)
    ensures RunLog(H, cap, ops) == WindowState(H, cap, Since(ops), Triggers(ops))
  {
    hide ZeroHash, Appended, WindowState;
    EmptyWindow(H, cap);
    if ops == [] {
    } else {
      var front := ops[..|ops| - 1];
      RunIsWindow(H, cap, front);
      match ops[|ops| - 1] {
        case Append(e) => AppendKeepsWindow(H, cap, Since(front), Triggers(front), e);
        case Clear => ClearKeepsWindow(H, cap, Since(front), Triggers(front));
      }
    }
  }

  lemma EntryLinks(H: HashFn, es: seq<CatastrophicEvent>, i: nat)
    requires i < |es|
    ensures VerifyHash(H, EntryAt(H, es, i))
    ensures EntryAt(H, es, i).prevHash == ChainHash(H, es[..i]) && EntryAt(H, es, i).hash == ChainHash(H, es[..i + 1])
  {
    hide EntryBytes, ZeroHash;
    assert es[..i + 1][..i] == es[..i];
  }

  lemma WindowEntries(H: HashFn, cap: nat, es: seq<CatastrophicEvent>)
    ensures var w := Window(H, cap, es);
            && |w| == Min(|es|, cap)
            && forall j | 0 <= j < |w| :: w[j] == EntryAt(H, es, |es| - |w| + j)
  {
    hide AllEntries, EntryAt;
    var w := Window(H, cap, es);
    forall j | 0 <= j < |w|
      ensures w[j] == EntryAt(H, es, |es| - |w| + j)
    {
      AllEntriesAt(H, es, |es| - |w| + j);
    }
  }

  /** A window's links: only the oldest entry can fail to verify, and only for what was evicted before it. */
  lemma WindowLinks(H: HashFn, cap: nat, es: seq<CatastrophicEvent>)
    ensures var w := Window(H, cap, es);
            && (forall j | 0 <= j < |w| :: w[j] == EntryAt(H, es, |es| - |w| + j) && VerifyHash(H, w[j]))
            && (forall j | 0 < j < |w| :: w[j].prevHash == w[j - 1].hash)
            && (w != [] ==> w[0].prevHash == ChainHash(H, es[..|es| - |w|]) && w[|w| - 1].hash == ChainHash(H, es))
  {
    hide Window, EntryAt, ChainHash, VerifyHash;
    var w := Window(H, cap, es);
    WindowEntries(H, cap, es);
    forall j | 0 <= j < |w|
      ensures VerifyHash(H, w[j])
      ensures w[j].prevHash == ChainHash(H, es[..|es| - |w| + j])
      ensures w[j].hash == ChainHash(H, es[..|es| - |w| + j + 1])
    {
      EntryLinks(H, es, |es| - |w| + j);
    }
    assert es[..|es|] == es;
  }

  /** `verify_chain` holds exactly when nothing was evicted, or the last evicted hash is all zeros. */
  lemma WindowVerifies(H: HashFn, cap: nat, es: seq<CatastrophicEvent>)
    requires cap >= 1
    ensures ChainOk(H, Window(H, cap, es)) <==> |es| <= cap || EntryAt(H, es, |es| - cap - 1).hash == ZeroHash()
  {
    hide EntryBytes, ZeroHash, VerifyHash;
    var w := Window(H, cap, es);
    WindowLinks(H, cap, es);
    if |es| > cap {
      var g := |es| - cap;
      assert es[..g][..g - 1] == es[..g - 1];
      assert EntryAt(H, es, g - 1).hash == ChainHash(H, es[..g]);
      assert w[0].prevHash == ChainHash(H, es[..g]);
      if ChainOk(H, w) {
        assert w[0].prevHash == PrevOf(w, 0);
      }
    } else if w != [] {
      assert es[..0] == [];
    }
  }

  /** The log holds the last events of `es`, in order, consecutively numbered, hashed and linked. */
  predicate Records(H: HashFn, s: LogState, es: seq<CatastrophicEvent>) {
    && |s.entries| <= |es|
    && (forall j | 0 <= j < |s.entries| ::
          && s.entries[j].event == es[|es| - |s.entries| + j]
          && s.entries[j].sequence == Wrap64(|es| - |s.entries| + j)
          && VerifyHash(H, s.entries[j]))
    && (forall j | 0 < j < |s.entries| :: s.entries[j].prevHash == s.entries[j - 1].hash)
    && s.lastHash == PrevOf(s.entries, |s.entries|)
    && s.nextSequence == Wrap64(|es|)
  }

  /**
   After any run of append and clear: the log records the last min(n, 10000) events since the
   last clear, every trigger is counted, and the chain verifies exactly when nothing was
   evicted or the last evicted hash is all zeros.
   */
  lemma SlidingWindow(H: HashFn, ops: seq<LogOp>)
    ensures Records(H, RunLog(H, AUDIT_LOG_MAX_ENTRIES, ops), Since(ops))
    ensures |RunLog(H, AUDIT_LOG_MAX_ENTRIES, ops).entries| == Min(|Since(ops)|, 10_000)
    ensures RunLog(H, AUDIT_LOG_MAX_ENTRIES, ops).totalTriggers == Wrap64(Triggers(ops))
    ensures Triggers(ops) < 0x1_0000_0000_0000_0000 ==>
              RunLog(H, AUDIT_LOG_MAX_ENTRIES, ops).totalTriggers == Triggers(ops)
    ensures forall a | a in RunLog(H, AUDIT_LOG_MAX_ENTRIES, ops).entries ::
              a.hash == H(ToLe(8, a.sequence) + H(Serialize(a.event)) + a.prevHash)
    ensures ChainOk(H, RunLog(H, AUDIT_LOG_MAX_ENTRIES, ops).entries) <==>
            |Since(ops)| <= 10_000 || EntryAt(H, Since(ops), |Since(ops)| - 10_001).hash == ZeroHash()
  {
    hide EntryAt, ZeroHash, Records, ChainOk, RunLog, Since, Triggers, Wrap64, AllEntries;
    RunIsWindow(H, AUDIT_LOG_MAX_ENTRIES, ops);
    WindowRecords(H, AUDIT_LOG_MAX_ENTRIES, Since(ops), Triggers(ops));
    WindowVerifies(H, AUDIT_LOG_MAX_ENTRIES, Since(ops));
    RecordedHashes(H, RunLog(H, AUDIT_LOG_MAX_ENTRIES, ops), Since(ops));
    NoWrap(Triggers(ops));
  }

  lemma NoWrap(n: nat)
    ensures n < 0x1_0000_0000_0000_0000 ==> Wrap64(n) == n
  {
  }

  lemma RecordedHashes(H: HashFn, s: LogState, es: seq<CatastrophicEvent>)
    requires Records(H, s, es)
    ensures forall a | a in s.entries :: a.hash == H(ToLe(8, a.sequence) + H(Serialize(a.event)) + a.prevHash)
  {
    hide VerifyHash, Serialize, ToLe;
    forall a | a in s.entries
      ensures a.hash == H(ToLe(8, a.sequence) + H(Serialize(a.event)) + a.prevHash)
    {
      VerifyHashParts(H, a);
    }
  }

  lemma WindowRecords(H: HashFn, cap: nat, es: seq<CatastrophicEvent>, total: nat)
    requires cap >= 1
    ensures Records(H, WindowState(H, cap, es, total), es)
    ensures |Window(H, cap, es)| == Min(|es|, cap)
  {
    hide EntryBytes, ZeroHash, VerifyHash, Wrap64, Window;
    WindowEntries(H, cap, es);
    WindowLinks(H, cap, es);
    NoEventsNoHash(H, es);
  }

  lemma NoEventsNoHash(H: HashFn, es: seq<CatastrophicEvent>)
    ensures es == [] ==> ChainHash(H, es) == ZeroHash()
  {
  }
}
