/**
 The decision gate of examples/tuck_integration.rs: catastrophic detection first, then the
 replay check. The gate drops the receiving end of its event channel when it is made, so its
 events reach only the audit log.
 */
module TuckGate {
  import opened Bytes
  import opened Wrappers
  import opened AuditLog
  import opened Frame
  import opened ReplayCache
  import C = CatastrophicManager
  import FrameCodec
  import P = Processor
  import Pfp

  datatype Decision = Allow | Reject | CatastrophicOverride | NoSap

  /** A frame at the gate, with the clock readings its handling takes. */
  datatype Arrival = Arrival(frame: BindFrame, sourceId: U64, now: nat, timestamp: U64, timestampNanos: U32)

  datatype GateState = GateState(cache: Entries, log: LogState)

  function Ascii(text: string): (bytes: seq<Byte>)
    requires forall i | 0 <= i < |text| :: text[i] < 128 as char
    ensures |bytes| == |text| && forall i | 0 <= i < |text| :: ByteVal(bytes[i]) == text[i] as int
  {
    seq(|text|, i requires 0 <= i < |text| => ByteOf(text[i] as int))
  }

  function SourceText(): seq<Byte> {
    Ascii("Tuck hard-real-time decision")
  }

  predicate Overrides(a: Arrival) {
    a.frame.pfp.Some? && a.frame.pfp.value.IsCatastrophicOverride()
  }

  function TriggerOf(a: Arrival, pfp: Pfp.PfpHeader): C.Trigger {
    var seqCounter := match a.frame.sap case None => None case Some(s) => Some(s.seqCounter);
    C.Trigger(Pfp.Encode(pfp), seqCounter, None, SourceText(), a.timestamp, a.timestampNanos)
  }

  /** The event an override frame leaves in the log. */
  function OverrideEvent(a: Arrival): CatastrophicEvent
    requires a.frame.pfp.Some?
  {
    C.EventOf(TriggerOf(a, a.frame.pfp.value))
  }

  function FromResult(r: P.ProcessResult): Decision {
    if r.IsRejected() then Reject else Allow
  }

  /** The gate as a function: the header test decides on override, the processor on the rest. */
  function Decided(H: HashFn, p: P.Setup, s: GateState, a: Arrival): (GateState, Decision) {
    if a.frame.pfp.None? then (s, NoSap)
    else if Overrides(a) then
      (s.(log := Appended(H, AUDIT_LOG_MAX_ENTRIES, s.log, OverrideEvent(a))), CatastrophicOverride)
    else
      var r := P.Process(s.cache, p.cap, p.tenantId, a.frame, a.sourceId, a.now);
      (s.(cache := r.0), FromResult(r.1))
  }

  /** The frame's PFP says hard override, by its two fields. */
  predicate SaysOverride(a: Arrival) {
    && a.frame.pfp.Some?
    && a.frame.pfp.value.riskLevel == Pfp.Catastrophic && a.frame.pfp.value.overrideFlag == Pfp.HardOverride
  }

  /** The frame reaches the replay check: PFP without override and with replay protection, and SAP. */
  predicate IsChecked(a: Arrival) {
    a.frame.pfp.Some? && !SaysOverride(a) && a.frame.sap.Some? && a.frame.pfp.value.replayEnable
  }

  /** What the gate must answer, from the frame's fields, the stored number and the cache's size. */
  predicate DecidesRightly(d: Decision, m: Entries, p: P.Setup, a: Arrival) {
    var key := ReplayKey(p.tenantId, a.sourceId);
    var refused := IsChecked(a)
                   && if key in m then a.frame.sap.value.seqCounter <= m[key].lastSeq else |m| >= p.cap;
    && (d == NoSap <==> a.frame.pfp.None?)
    && (d == CatastrophicOverride <==> SaysOverride(a))
    && (d == Reject <==> refused)
    && (d == Allow <==> a.frame.pfp.Some? && !SaysOverride(a) && !refused)
  }

  /**
   The gate's answer table, and what a frame leaves behind: a checked frame that is allowed its
   number, an override one log entry, and every other frame nothing.
   */
  lemma GateTable(H: HashFn, p: P.Setup, s: GateState, a: Arrival)
    ensures var (s', d) := Decided(H, p, s, a);
            var key := ReplayKey(p.tenantId, a.sourceId);
            && DecidesRightly(d, s.cache, p, a)
            && s'.cache == (if IsChecked(a) && d == Allow
                            then s.cache[key := Entry(a.frame.sap.value.seqCounter, a.now)] else s.cache)
            && (s'.log != s.log ==> d == CatastrophicOverride)
  {
    hide Appended, OverrideEvent;
    if a.frame.pfp.Some? {
      Pfp.CatastrophicTestsAgree(a.frame.pfp.value, Pfp.Encode(a.frame.pfp.value));
    }
    P.AnswerTable(s.cache, p.cap, p.tenantId, a.frame, a.sourceId, a.now);
    hide P.Process;
  }

  /**
   What an override leaves in the log: its newest entry, chained to the hash before it, reports
   the frame's PFP bits, its counter if it has SAP, no context, the gate's text and both times.
   */
  lemma OverrideIsLogged(H: HashFn, p: P.Setup, s: GateState, a: Arrival)
    requires SaysOverride(a)
    ensures var entries := Decided(H, p, s, a).0.log.entries;
            && entries != []
            && var entry := entries[|entries| - 1];
            var e := entry.event;
            && entry.sequence == s.log.nextSequence && entry.prevHash == s.log.lastHash
            && entry.hash == H(ToLe(8, s.log.nextSequence) + H(Serialize(e)) + s.log.lastHash)
            && e.pfpBytes[0] == 0xCF && e.pfpBytes[1] == 0x14
            && Pfp.FieldsAt(a.frame.pfp.value.(reserved := 0), e.pfpBytes[2], e.pfpBytes[3])
            && e.seqCounter == (if a.frame.sap.None? then None else Some(a.frame.sap.value.seqCounter))
            && e.sensorContext == None
            && |e.source| == 28
            && (forall i | 0 <= i < 28 :: ByteVal(e.source[i]) == "Tuck hard-real-time decision"[i] as int)
            && e.timestamp == a.timestamp && e.timestampNanos == a.timestampNanos
  {
    hide Pfp.FieldsAt, Pfp.Decode, EntryBytes, Serialize, ToLe, ByteVal;
    Pfp.CatastrophicTestsAgree(a.frame.pfp.value, Pfp.Encode(a.frame.pfp.value));
    Pfp.FieldLayout(Pfp.Encode(a.frame.pfp.value), a.frame.pfp.value);
    EntryParts(H, s.log.nextSequence, OverrideEvent(a), s.log.lastHash);
  }

  /** The gate's function, with the override decided on the re-encoded bytes as the gate does. */
  lemma DecidedByBits(H: HashFn, p: P.Setup, s: GateState, a: Arrival)
    ensures a.frame.pfp.None? ==> Decided(H, p, s, a) == (s, NoSap)
    ensures a.frame.pfp.Some? ==>
      var bytes := Pfp.Encode(a.frame.pfp.value);
      var event := C.EventOf(TriggerOf(a, a.frame.pfp.value));
      var r := P.Process(s.cache, p.cap, p.tenantId, a.frame, a.sourceId, a.now);
      && TriggerOf(a, a.frame.pfp.value).pfpBytes == bytes
      && Decided(H, p, s, a)
         == if bytes[2] & 0x0C == 0x0C && bytes[3] & 0x02 != 0
            then (s.(log := Appended(H, AUDIT_LOG_MAX_ENTRIES, s.log, event)), CatastrophicOverride)
            else (s.(cache := r.0), FromResult(r.1))
  {
    hide Appended, P.Process, Pfp.Encode, SourceText;
    if a.frame.pfp.Some? {
      Pfp.CatastrophicTestsAgree(a.frame.pfp.value, Pfp.Encode(a.frame.pfp.value));
    }
  }

  class TuckGate {
    const processor: P.FrameProcessor
    const catastrophic: C.CatastrophicManager

    ghost predicate Valid()
      reads this, processor, processor.replayCache, catastrophic.eventBus
    {
      processor.Valid() && !catastrophic.eventBus.receiverAlive
    }

    ghost function View(): GateState
      reads this, processor, processor.replayCache, processor.replayCache.entries.Values, catastrophic.auditLog
    {
      GateState(processor.View(), catastrophic.auditLog.View())
    }

    ghost function Setup(): P.Setup {
      P.Setup(processor.tenantId, REPLAY_CACHE_MAX_CAPACITY, processor.replayCache.ttl)
    }

    constructor (H: HashFn, tenantId: U64)
      ensures Valid() && View() == GateState(map[], EMPTY_LOG)
      ensures Setup() == P.Setup(tenantId, 100_000, 60_000_000_000)
      ensures catastrophic.auditLog.H == H && catastrophic.eventBus.sent == []
      ensures fresh(processor.replayCache) && fresh(catastrophic.auditLog) && fresh(catastrophic.eventBus)
    {
      catastrophic := new C.CatastrophicManager(H, false);
      processor := new P.FrameProcessor.WithTtl(tenantId, REPLAY_CACHE_DEFAULT_TTL);
    }

    /** The source's path: re-encode the PFP, test its bytes, then check for replay. */
    method Decide(a: Arrival) returns (d: Decision)
      requires Valid()
      modifies catastrophic.eventBus, catastrophic.auditLog
      modifies processor.replayCache, processor.replayCache.entries.Values
      ensures Valid() && catastrophic.eventBus.sent == old(catastrophic.eventBus.sent)
      ensures View() == Decided(catastrophic.auditLog.H, Setup(), old(View()), a).0
      ensures d == Decided(catastrophic.auditLog.H, Setup(), old(View()), a).1
      ensures DecidesRightly(d, old(View()).cache, Setup(), a)
    {
      hide Decided, DecidesRightly, TriggerOf, C.EventOf, C.Reports, Appended, P.Process, P.AnswersRightly, Pfp.Encode;
      GateTable(catastrophic.auditLog.H, Setup(), View(), a);
      DecidedByBits(catastrophic.auditLog.H, Setup(), View(), a);
      if a.frame.pfp.None? {
        return NoSap;
      }
      var pfp := a.frame.pfp.value;
      var triggered := catastrophic.HandleFrame(TriggerOf(a, pfp));
      if triggered {
        return CatastrophicOverride;
      }
      var result := processor.ProcessFrame(a.frame, a.sourceId, a.now);
      if result.IsRejected() {
        return Reject;
      }
      return Allow;
    }
  }

  // ----- runs

  function RunGate(H: HashFn, p: P.Setup, arrivals: seq<Arrival>): GateState {
    if arrivals == [] then GateState(map[], EMPTY_LOG)
    else Decided(H, p, RunGate(H, p, arrivals[..|arrivals| - 1]), arrivals[|arrivals| - 1]).0
  }

  function Decisions(H: HashFn, p: P.Setup, arrivals: seq<Arrival>): (ds: seq<Decision>)
    ensures |ds| == |arrivals|
  {
    if arrivals == [] then []
    else
      var front := arrivals[..|arrivals| - 1];
      Decisions(H, p, front) + [Decided(H, p, RunGate(H, p, front), arrivals[|arrivals| - 1]).1]
  }

  /** The events of the override frames. */
  function Alarms(arrivals: seq<Arrival>): seq<CatastrophicEvent> {
    if arrivals == [] then []
    else
      var a := arrivals[|arrivals| - 1];
      Alarms(arrivals[..|arrivals| - 1]) + if Overrides(a) then [OverrideEvent(a)] else []
  }

  /** The other frames with PFP, as calls to a processor. */
  function Rest(arrivals: seq<Arrival>): seq<P.TimedCall> {
    if arrivals == [] then []
    else
      var a := arrivals[|arrivals| - 1];
      Rest(arrivals[..|arrivals| - 1])
      + if a.frame.pfp.Some? && !Overrides(a) then [P.Call(a.now, P.Handle(a.frame, a.sourceId))] else []
  }

  /** What a processor answers to such calls when it gets nothing else. */
  function ProcessorDecisions(p: P.Setup, calls: seq<P.TimedCall>): seq<Decision> {
    if calls == [] then []
    else
      var front, t := calls[..|calls| - 1], calls[|calls| - 1];
      ProcessorDecisions(p, front) + match P.ReplyTo(p, P.RunFrames(p, front), t)
                                     case Result(r) => [FromResult(r)]
                                     case _ => []
  }

  /** The decisions that the replay check made. */
  function Judged(ds: seq<Decision>): seq<Decision> {
    if ds == [] then []
    else
      var d := ds[|ds| - 1];
      Judged(ds[..|ds| - 1]) + if d == Allow || d == Reject then [d] else []
  }

  function Count(ds: seq<Decision>, d: Decision): nat {
    if ds == [] then 0 else Count(ds[..|ds| - 1], d) + if ds[|ds| - 1] == d then 1 else 0
  }

  lemma PushDecision(ds: seq<Decision>, d: Decision)
    ensures Judged(ds + [d]) == Judged(ds) + if d == Allow || d == Reject then [d] else []
    ensures Count(ds + [d], CatastrophicOverride)
            == Count(ds, CatastrophicOverride) + if d == CatastrophicOverride then 1 else 0
  {
    assert (ds + [d])[..|ds|] == ds;
  }

  /** The part of the gate's state and answers that each of its two halves accounts for. */
  ghost predicate Projected(H: HashFn, p: P.Setup, arrivals: seq<Arrival>) {
    var s, ds, alarms := RunGate(H, p, arrivals), Decisions(H, p, arrivals), Alarms(arrivals);
    && s.log == WindowState(H, AUDIT_LOG_MAX_ENTRIES, alarms, |alarms|)
    && Count(ds, CatastrophicOverride) == |alarms|
    && s.cache == P.RunFrames(p, Rest(arrivals))
    && Judged(ds) == ProcessorDecisions(p, Rest(arrivals))
  }

  lemma {:induction false} RunProjected(H: HashFn, p: P.Setup, arrivals: seq<Arrival>)
    ensures Projected(H, p, arrivals)
  {
    hide WindowState, P.RunFrames, ProcessorDecisions, EMPTY_LOG;
    if arrivals == [] {
      EmptyWindow(H, AUDIT_LOG_MAX_ENTRIES);
      NothingProcessed(p);
    } else {
      RunProjected(H, p, arrivals[..|arrivals| - 1]);
      ProjectedStep(H, p, arrivals);
    }
  }

  lemma NothingProcessed(p: P.Setup)
    ensures P.RunFrames(p, []) == map[] && ProcessorDecisions(p, []) == []
  {
  }

  lemma ProjectedStep(H: HashFn, p: P.Setup, arrivals: seq<Arrival>)
    requires arrivals != [] && Projected(H, p, arrivals[..|arrivals| - 1])
    ensures Projected(H, p, arrivals)
  {
    hide Decided, WindowState, P.RunFrames, ProcessorDecisions, OverrideEvent, Overrides, Judged, Count;
    var front, a := arrivals[..|arrivals| - 1], arrivals[|arrivals| - 1];
    var s := RunGate(H, p, front);
    PushDecision(Decisions(H, p, front), Decided(H, p, s, a).1);
    if a.frame.pfp.None? {
      assert Alarms(arrivals) == Alarms(front) + [] by { NoOverride(a); }
      assert Alarms(arrivals) == Alarms(front) && Rest(arrivals) == Rest(front);
      SilentStep(H, p, s, a);
    } else if Overrides(a) {
      assert Rest(arrivals) == Rest(front);
      OverrideStep(H, p, s, a, Alarms(front));
    } else {
      assert Alarms(arrivals) == Alarms(front);
      CheckStep(H, p, s, a, Rest(front));
    }
  }

  lemma NoOverride(a: Arrival)
    requires a.frame.pfp.None?
    ensures !Overrides(a)
  {
  }

  lemma SilentStep(H: HashFn, p: P.Setup, s: GateState, a: Arrival)
    requires a.frame.pfp.None?
    ensures Decided(H, p, s, a) == (s, NoSap)
  {
  }

  lemma OverrideStep(H: HashFn, p: P.Setup, s: GateState, a: Arrival, alarms: seq<CatastrophicEvent>)
    requires Overrides(a) && s.log == WindowState(H, AUDIT_LOG_MAX_ENTRIES, alarms, |alarms|)
    ensures var (s', d) := Decided(H, p, s, a);
            && d == CatastrophicOverride && s'.cache == s.cache
            && s'.log == WindowState(H, AUDIT_LOG_MAX_ENTRIES, alarms + [OverrideEvent(a)], |alarms| + 1)
  {
    hide Appended, WindowState, OverrideEvent;
    AppendKeepsWindow(H, AUDIT_LOG_MAX_ENTRIES, alarms, |alarms|, OverrideEvent(a));
  }

  lemma CheckStep(H: HashFn, p: P.Setup, s: GateState, a: Arrival, calls: seq<P.TimedCall>)
    requires a.frame.pfp.Some? && !Overrides(a) && s.cache == P.RunFrames(p, calls)
    ensures var (s', d) := Decided(H, p, s, a);
            var t := P.Call(a.now, P.Handle(a.frame, a.sourceId));
            && s'.log == s.log && (d == Allow || d == Reject)
            && s'.cache == P.RunFrames(p, calls + [t])
            && ProcessorDecisions(p, calls + [t]) == ProcessorDecisions(p, calls) + [d]
  {
    hide P.Process, P.RunFrames, ProcessorDecisions;
    ProcessedPush(p, calls, P.Call(a.now, P.Handle(a.frame, a.sourceId)));
  }

  lemma ProcessedPush(p: P.Setup, calls: seq<P.TimedCall>, t: P.TimedCall)
    requires t.call.Handle?
    ensures var r := P.Process(P.RunFrames(p, calls), p.cap, p.tenantId, t.call.frame, t.call.sourceId, t.now);
            && P.RunFrames(p, calls + [t]) == r.0
            && ProcessorDecisions(p, calls + [t]) == ProcessorDecisions(p, calls) + [FromResult(r.1)]
  {
    hide P.Process;
    assert (calls + [t])[..|calls|] == calls;
  }

  /**
   Gate projection, over any run. The log records exactly the override frames, in order, and
   counts as many triggers as there were override decisions. Override frames and frames
   without PFP never touch the cache: it is the cache of a processor that was handed only the
   remaining frames, and the remaining decisions are that processor's answers.
   */
  lemma GateProjection(H: HashFn, p: P.Setup, arrivals: seq<Arrival>)
    ensures var s, ds := RunGate(H, p, arrivals), Decisions(H, p, arrivals);
            && Records(H, s.log, Alarms(arrivals))
            && |s.log.entries| == Min(Count(ds, CatastrophicOverride), 10_000)
            && s.log.totalTriggers == Wrap64(Count(ds, CatastrophicOverride))
            && s.cache == P.RunFrames(p, Rest(arrivals))
            && Judged(ds) == ProcessorDecisions(p, Rest(arrivals))
  {
    hide Records, Window, Alarms, Rest, Decisions, RunGate;
    RunProjected(H, p, arrivals);
    WindowRecords(H, AUDIT_LOG_MAX_ENTRIES, Alarms(arrivals), |Alarms(arrivals)|);
  }

  /** Every decision of a run, by the frame's fields and the cache it meets. */
  lemma {:induction false} DecisionsExactly(H: HashFn, p: P.Setup, arrivals: seq<Arrival>, i: nat)
    requires i < |arrivals|
    ensures Decisions(H, p, arrivals)[i] == Decided(H, p, RunGate(H, p, arrivals[..i]), arrivals[i]).1
    ensures DecidesRightly(Decisions(H, p, arrivals)[i], RunGate(H, p, arrivals[..i]).cache, p, arrivals[i])
  {
    hide Decided, RunGate, DecidesRightly;
    var k := |arrivals| - 1;
    if i == k {
      GateTable(H, p, RunGate(H, p, arrivals[..k]), arrivals[k]);
    } else {
      DecisionsExactly(H, p, arrivals[..k], i);
      assert arrivals[..k][..i] == arrivals[..i];
    }
  }

  /** Frame `i` of the run is checked, carries number `q` of `sourceId`, and is allowed. */
  predicate PassedCheck(H: HashFn, p: P.Setup, arrivals: seq<Arrival>, i: nat, sourceId: U64, q: U16) {
    && i < |arrivals| && IsChecked(arrivals[i])
    && arrivals[i].sourceId == sourceId && arrivals[i].frame.sap.value.seqCounter == q
    && Decisions(H, p, arrivals)[i] == Allow
  }

  /** The cache stores, for each source, the largest number that the gate allowed. */
  ghost predicate StoresLargest(H: HashFn, p: P.Setup, arrivals: seq<Arrival>, sourceId: U64) {
    var m, key := RunGate(H, p, arrivals).cache, ReplayKey(p.tenantId, sourceId);
    && (key in m ==> exists i: nat :: PassedCheck(H, p, arrivals, i, sourceId, m[key].lastSeq))
    && forall i: nat, q: U16 :: PassedCheck(H, p, arrivals, i, sourceId, q) ==> key in m && q <= m[key].lastSeq
  }

  lemma PassedPush(H: HashFn, p: P.Setup, front: seq<Arrival>, a: Arrival, i: nat, sourceId: U64, q: U16)
    ensures PassedCheck(H, p, front + [a], i, sourceId, q) <==>
            || PassedCheck(H, p, front, i, sourceId, q)
            || (i == |front| && IsChecked(a) && a.sourceId == sourceId && a.frame.sap.value.seqCounter == q
                && Decided(H, p, RunGate(H, p, front), a).1 == Allow)
  {
    hide Decided, RunGate;
    assert (front + [a])[..|front|] == front;
  }

  lemma {:induction false} CacheStoresLargest(H: HashFn, p: P.Setup, arrivals: seq<Arrival>, sourceId: U64)
    ensures StoresLargest(H, p, arrivals, sourceId)
  {
    if arrivals == [] {
    } else {
      var k := |arrivals| - 1;
      CacheStoresLargest(H, p, arrivals[..k], sourceId);
      assert arrivals == arrivals[..k] + [arrivals[k]];
      LargestStep(H, p, arrivals[..k], arrivals[k], sourceId);
    }
  }

  lemma LargestStep(H: HashFn, p: P.Setup, front: seq<Arrival>, a: Arrival, sourceId: U64)
    requires StoresLargest(H, p, front, sourceId)
    ensures StoresLargest(H, p, front + [a], sourceId)
  {
    hide Decided, PassedCheck;
    var s, all, key := RunGate(H, p, front), front + [a], ReplayKey(p.tenantId, sourceId);
    assert all[..|front|] == front;
    GateTable(H, p, s, a);
    var m := RunGate(H, p, all).cache;
    forall i: nat, q: U16
      ensures PassedCheck(H, p, all, i, sourceId, q) <==>
              || PassedCheck(H, p, front, i, sourceId, q)
              || (i == |front| && IsChecked(a) && a.sourceId == sourceId && a.frame.sap.value.seqCounter == q
                  && Decided(H, p, s, a).1 == Allow)
    {
      PassedPush(H, p, front, a, i, sourceId, q);
    }
    if key in m {
      if IsChecked(a) && a.sourceId == sourceId && Decided(H, p, s, a).1 == Allow {
        assert PassedCheck(H, p, all, |front|, sourceId, m[key].lastSeq);
      } else {
        var i: nat :| PassedCheck(H, p, front, i, sourceId, m[key].lastSeq);
        assert PassedCheck(H, p, all, i, sourceId, m[key].lastSeq);
      }
    }
  }

  /**
   Replays at the gate, over every run and by its own decisions alone: a checked frame is rejected
   exactly if an earlier checked frame of its source with a number at least as large was allowed,
   or if none of its source was and the cache is full.
   */
  lemma RejectsReplays(H: HashFn, p: P.Setup, arrivals: seq<Arrival>, j: nat)
    requires j < |arrivals| && IsChecked(arrivals[j])
    ensures var source, q := arrivals[j].sourceId, arrivals[j].frame.sap.value.seqCounter;
            var before := arrivals[..j];
            Decisions(H, p, arrivals)[j] == Reject <==>
            || (exists i: nat, r: U16 :: PassedCheck(H, p, before, i, source, r) && r >= q)
            || (|RunGate(H, p, before).cache| >= p.cap
                && !exists i: nat, r: U16 :: PassedCheck(H, p, before, i, source, r))
    ensures Decisions(H, p, arrivals)[j] == Allow <==> Decisions(H, p, arrivals)[j] != Reject
  {
    hide Decisions, RunGate, Decided, PassedCheck, IsChecked;
    DecisionsExactly(H, p, arrivals, j);
    CacheStoresLargest(H, p, arrivals[..j], arrivals[j].sourceId);
    CheckedIsOther(arrivals[j]);
  }

  lemma CheckedIsOther(a: Arrival)
    requires IsChecked(a)
    ensures a.frame.pfp.Some? && !SaysOverride(a)
  {
  }

  /**
   The gate on received bytes: a frame is an override exactly when its PFP flag is set and the
   bits of both fields in bytes 10 and 11 say so, whatever its SAP, its payload, the reserved
   bits, the cache and the log hold.
   */
  lemma OverrideOnTheWire(H: HashFn, p: P.Setup, s: GateState, a: Arrival, buf: seq<Byte>)
    requires DecodeFrame(buf) == Ok(a.frame)
    ensures |buf| >= 8
    ensures buf[2] & 0x08 != 0 ==> |buf| >= 12
    ensures Decided(H, p, s, a).1 == NoSap <==> buf[2] & 0x08 == 0
    ensures Decided(H, p, s, a).1 == CatastrophicOverride
            <==> buf[2] & 0x08 != 0 && buf[10] & 0x0C == 0x0C && buf[11] & 0x02 != 0
  {
    hide Appended, P.Process, OverrideEvent, Pfp.Decode, Pfp.VerifyMagic, Pfp.IsCatastrophicBytes, DecodeSap, U32FromBe;
    var h := DecodeHeader(buf[..8]);
    if h.HasPfp() {
      assert buf[8..][..4] == buf[8..12];
      Pfp.CatastrophicTestsAgree(Pfp.Decode(buf[8..12]), buf[8..12]);
    }
  }

  /**
   The example's remark that a frame without replay protection cannot be an override does not
   hold: any override frame with the bit cleared is still one, though its effective level is MEDIUM.
   The remark holds exactly for the frames whose raw fields do not say override.
   */
  lemma UnprotectedOverride(H: HashFn, p: P.Setup, s: GateState, a: Arrival)
    requires a.frame.pfp.Some? && !a.frame.pfp.value.replayEnable
    ensures a.frame.pfp.value.EffectiveRiskLevel() == Pfp.Medium
    ensures Decided(H, p, s, a).1 == CatastrophicOverride <==>
            a.frame.pfp.value.riskLevel == Pfp.Catastrophic && a.frame.pfp.value.overrideFlag == Pfp.HardOverride
    ensures Decided(H, p, s, a).1 == CatastrophicOverride || Decided(H, p, s, a) == (s, Allow)
  {
    hide Appended, OverrideEvent, Pfp.Encode, Pfp.IsCatastrophicBytes;
    Pfp.CatastrophicTestsAgree(a.frame.pfp.value, Pfp.Encode(a.frame.pfp.value));
  }

  /** Such a frame exists, and comes over the wire as built. */
  lemma UnprotectedOverrideExists(H: HashFn, p: P.Setup, s: GateState, sourceId: U64, now: nat, timestamp: U64)
    ensures var pfp := Pfp.PfpHeader(Pfp.Executive, Pfp.Catastrophic, Pfp.Moving, Pfp.CriticalEdge,
                                     Pfp.External, Pfp.HardOverride, false, 0);
            var f := New(Data, 1, 0, Some(pfp), None, []);
            && f.Ok? && DecodeFrame(EncodeFrame(f.value)) == f
            && Decided(H, p, s, Arrival(f.value, sourceId, now, timestamp, 0)).1 == CatastrophicOverride
            && pfp.EffectiveRiskLevel() == Pfp.Medium
  {
    hide Appended, OverrideEvent, DecodeFrame, EncodeFrame;
    var pfp := Pfp.PfpHeader(Pfp.Executive, Pfp.Catastrophic, Pfp.Moving, Pfp.CriticalEdge,
                             Pfp.External, Pfp.HardOverride, false, 0);
    var f := New(Data, 1, 0, Some(pfp), None, []);
    FrameCodec.NewRoundTrip(Data, 1, 0, Some(pfp), None, [], []);
    assert EncodeFrame(f.value) + [] == EncodeFrame(f.value);
  }

  predicate Monotone(arrivals: seq<Arrival>) {
    forall i, j | 0 <= i <= j < |arrivals| :: arrivals[i].now <= arrivals[j].now
  }

  lemma {:induction false} RestMonotone(arrivals: seq<Arrival>)
    requires Monotone(arrivals)
    ensures P.Monotone(Rest(arrivals))
    ensures arrivals != [] ==>
      forall i | 0 <= i < |Rest(arrivals)| :: Rest(arrivals)[i].now <= arrivals[|arrivals| - 1].now
  {
    if arrivals == [] {
    } else {
      var front, a := arrivals[..|arrivals| - 1], arrivals[|arrivals| - 1];
      assert Monotone(front);
      RestMonotone(front);
      if front == [] {
        assert Rest(front) == [];
      } else {
        assert front[|front| - 1].now <= a.now;
      }
    }
  }

  /** Replay safety behind the gate: the numbers a source gets through the check strictly increase. */
  lemma GateReplaySafety(H: HashFn, p: P.Setup, arrivals: seq<Arrival>, sourceId: U64)
    requires Monotone(arrivals)
    ensures var accepted := P.PassedSince(p, Rest(arrivals), sourceId);
            && (forall i, j | 0 <= i < j < |accepted| :: accepted[i].seqNo < accepted[j].seqNo)
            && P.LastSeqOf(RunGate(H, p, arrivals).cache, p.tenantId, sourceId)
               == if accepted == [] then None else Some(accepted[|accepted| - 1].seqNo)
  {
    hide P.PassedSince, P.RunFrames, Rest, RunGate, P.Monotone;
    RestMonotone(arrivals);
    GateProjection(H, p, arrivals);
    P.ProcessorReplaySafety(p, Rest(arrivals), sourceId);
  }
}
