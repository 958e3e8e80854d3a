/**
 The frame processor (src/processor.rs): anti-replay checking of decoded frames for one
 tenant, and what it guarantees over whole runs.
 */
module Processor {
  import opened Bytes
  import opened Wrappers
  import opened ReplayCache
  import R = ReplayRuns
  import opened Frame

  datatype ProcessResult = Passed | RejectedReplay | RejectedCacheFull | NoSap {
    predicate IsRejected() {
      RejectedReplay? || RejectedCacheFull?
    }
  }

  /** The sequence number to check, for a frame that has SAP and does not switch checking off. */
  function CheckedSeq(f: BindFrame): Option<U16> {
    if f.sap.None? then None
    else if f.pfp.Some? && !f.pfp.value.replayEnable then None
    else Some(f.sap.value.seqCounter)
  }

  function FromVerdict(v: Verdict): ProcessResult {
    match v case Allowed => Passed case Rejected => RejectedReplay case CacheFull => RejectedCacheFull
  }

  /** The answer for a frame that needs no check. */
  function Unchecked(f: BindFrame): ProcessResult {
    if f.sap.None? then NoSap else Passed
  }

  /** The processor as a function on the cache: new content and answer. */
  function Process(m: Entries, cap: nat, tenantId: U64, f: BindFrame, sourceId: U64, now: nat)
    : (Entries, ProcessResult)
  {
    match CheckedSeq(f)
    case None => (m, Unchecked(f))
    case Some(s) =>
      var r := Check(m, cap, ReplayKey(tenantId, sourceId), s, now);
      (r.0, FromVerdict(r.1))
  }

  function PreviewFrame(m: Entries, cap: nat, tenantId: U64, f: BindFrame, sourceId: U64): ProcessResult {
    match CheckedSeq(f)
    case None => Unchecked(f)
    case Some(s) => FromVerdict(Preview(m, cap, ReplayKey(tenantId, sourceId), s))
  }

  /** What the source documents: which frames are checked, and what the stored number and the size say then. */
  predicate AnswersRightly(r: ProcessResult, m: Entries, cap: nat, tenantId: U64, f: BindFrame, sourceId: U64) {
    var checked := f.sap.Some? && (f.pfp.Some? ==> f.pfp.value.replayEnable);
    var key := ReplayKey(tenantId, sourceId);
    && (r == NoSap <==> f.sap.None?)
    && (r == Passed <==> f.sap.Some? && (checked ==>
          if key in m then f.sap.value.seqCounter > m[key].lastSeq else |m| < cap))
    && (r == RejectedReplay <==> checked && key in m && f.sap.value.seqCounter <= m[key].lastSeq)
    && (r == RejectedCacheFull <==> checked && key !in m && |m| >= cap)
  }

  class FrameProcessor {
    const replayCache: ReplayCache
    const tenantId: U64

    ghost predicate Valid()
      reads this, replayCache
    {
      replayCache.Valid()
    }

    ghost function View(): Entries
      reads this, replayCache, replayCache.entries.Values
    {
      replayCache.View()
    }

    constructor WithTtl(tenantId: U64, ttl: nat)
      ensures Valid() && View() == map[] && this.tenantId == tenantId && replayCache.ttl == ttl
      ensures fresh(replayCache) && replayCache.entries == map[]
    {
      this.tenantId := tenantId;
      replayCache := new ReplayCache.WithTtl(ttl);
    }

    method ProcessFrame(f: BindFrame, sourceId: U64, now: nat) returns (r: ProcessResult)
      requires Valid()
      modifies replayCache, replayCache.entries.Values
      ensures Valid() && fresh(replayCache.entries.Values - old(replayCache.entries.Values))
      ensures View() == Process(old(View()), REPLAY_CACHE_MAX_CAPACITY, tenantId, f, sourceId, now).0
      ensures r == Process(old(View()), REPLAY_CACHE_MAX_CAPACITY, tenantId, f, sourceId, now).1
      ensures AnswersRightly(r, old(View()), REPLAY_CACHE_MAX_CAPACITY, tenantId, f, sourceId)
    {
      if f.sap.None? {
        return NoSap;
      }
      var sap := f.sap.value;
      var replayEnable := if f.pfp.Some? then f.pfp.value.replayEnable else true;
      if !replayEnable {
        return Passed;
      }
      var verdict := replayCache.CheckAndUpdate(ReplayKey(tenantId, sourceId), sap.seqCounter, now);
      match verdict {
        case Allowed => r := Passed;
        case Rejected => r := RejectedReplay;
        case CacheFull => r := RejectedCacheFull;
      }
    }

    method CheckFrame(f: BindFrame, sourceId: U64) returns (r: ProcessResult)
      requires Valid()
      ensures r == PreviewFrame(View(), REPLAY_CACHE_MAX_CAPACITY, tenantId, f, sourceId)
      ensures AnswersRightly(r, View(), REPLAY_CACHE_MAX_CAPACITY, tenantId, f, sourceId)
    {
      if f.sap.None? {
        return NoSap;
      }
      var replayEnable := if f.pfp.Some? then f.pfp.value.replayEnable else true;
      if !replayEnable {
        return Passed;
      }
      var verdict := replayCache.CheckOnly(ReplayKey(tenantId, sourceId), f.sap.value.seqCounter);
      match verdict {
        case Allowed => r := Passed;
        case Rejected => r := RejectedReplay;
        case CacheFull => r := RejectedCacheFull;
      }
    }

    method CleanupExpired(now: nat) returns (removed: nat)
      requires Valid()
      modifies replayCache
      ensures Valid() && replayCache.entries.Values <= old(replayCache.entries.Values)
      ensures View() == Unexpired(old(View()), replayCache.ttl, now)
      ensures removed == |old(View())| - |View()|
    {
      ghost var was := View();
      removed := replayCache.CleanupExpired(now);
      CleanupSize(was, replayCache.ttl, now);
    }

    method LastSeq(sourceId: U64) returns (r: Option<U16>)
      requires Valid()
      ensures r == LastSeqOf(View(), tenantId, sourceId)
    {
      r := replayCache.LastSeq(ReplayKey(tenantId, sourceId));
    }

    method RemoveSource(sourceId: U64) returns (removed: bool)
      requires Valid()
      modifies replayCache
      ensures Valid() && replayCache.entries.Values <= old(replayCache.entries.Values)
      ensures View() == old(View()) - {ReplayKey(tenantId, sourceId)}
      ensures removed <==> ReplayKey(tenantId, sourceId) in old(View())
    {
      removed := replayCache.Remove(ReplayKey(tenantId, sourceId));
    }
  }

  function LastSeqOf(m: Entries, tenantId: U64, sourceId: U64): Option<U16> {
    var key := ReplayKey(tenantId, sourceId);
    if key in m then Some(m[key].lastSeq) else None
  }

  /**
   The full answer table on raw fields, for processing and preview alike, and what processing
   stores: the new number, exactly if a check passed it. SAP without PFP is checked.
   */
  lemma AnswerTable(m: Entries, cap: nat, tenantId: U64, f: BindFrame, sourceId: U64, now: nat)
    ensures var r := Process(m, cap, tenantId, f, sourceId, now);
            var checked := f.sap.Some? && (f.pfp.Some? ==> f.pfp.value.replayEnable);
            && AnswersRightly(r.1, m, cap, tenantId, f, sourceId)
            && AnswersRightly(PreviewFrame(m, cap, tenantId, f, sourceId), m, cap, tenantId, f, sourceId)
            && r.0 == (if checked && r.1 == Passed
                       then m[ReplayKey(tenantId, sourceId) := Entry(f.sap.value.seqCounter, now)] else m)
            && (r.1.IsRejected() <==> r.1 == RejectedReplay || r.1 == RejectedCacheFull)
  {
  }

  /** A preview gives the verdict that processing the frame in the same state would give, at any time. */
  lemma PreviewIsVerdict(m: Entries, cap: nat, tenantId: U64, f: BindFrame, sourceId: U64, now: nat)
    ensures PreviewFrame(m, cap, tenantId, f, sourceId) == Process(m, cap, tenantId, f, sourceId, now).1
  {
  }

  // ----- runs

  datatype Call =
    | Handle(frame: BindFrame, sourceId: U64)
    | Look(frame: BindFrame, sourceId: U64)
    | Forget(sourceId: U64)
    | Sweep

  datatype TimedCall = Call(now: nat, call: Call)

  datatype Reply = Result(result: ProcessResult) | Forgot(found: bool) | Swept(count: nat)

  datatype Setup = Setup(tenantId: U64, cap: nat, ttl: nat)

  function After(p: Setup, m: Entries, t: TimedCall): Entries {
    match t.call
    case Handle(f, src) => Process(m, p.cap, p.tenantId, f, src, t.now).0
    case Look(_, _) => m
    case Forget(src) => m - {ReplayKey(p.tenantId, src)}
    case Sweep => Unexpired(m, p.ttl, t.now)
  }

  function ReplyTo(p: Setup, m: Entries, t: TimedCall): Reply {
    match t.call
    case Handle(f, src) => Result(Process(m, p.cap, p.tenantId, f, src, t.now).1)
    case Look(f, src) => Result(PreviewFrame(m, p.cap, p.tenantId, f, src))
    case Forget(src) => Forgot(ReplayKey(p.tenantId, src) in m)
    case Sweep => CleanupSize(m, p.ttl, t.now); Swept(|m| - |Unexpired(m, p.ttl, t.now)|)
  }

  function RunFrames(p: Setup, calls: seq<TimedCall>): Entries {
    if calls == [] then map[] else After(p, RunFrames(p, calls[..|calls| - 1]), calls[|calls| - 1])
  }

  /** A call that does not consult the cache for good: a preview, or a frame that is not checked. */
  predicate Silent(c: Call) {
    match c
    case Handle(f, _) => CheckedSeq(f).None?
    case Look(_, _) => true
    case Forget(_) => false
    case Sweep => false
  }

  function Audible(calls: seq<TimedCall>): seq<TimedCall> {
    if calls == [] then []
    else
      var t := calls[|calls| - 1];
      Audible(calls[..|calls| - 1]) + if Silent(t.call) then [] else [t]
  }

  /** The replies to the calls that are not silent, in order. */
  function AudibleReplies(p: Setup, calls: seq<TimedCall>): seq<Reply> {
    if calls == [] then []
    else
      var front, t := calls[..|calls| - 1], calls[|calls| - 1];
      AudibleReplies(p, front) + if Silent(t.call) then [] else [ReplyTo(p, RunFrames(p, front), t)]
  }

  /** Deleting every silent call changes no other reply and not the final cache. */
  lemma {:induction false} SilentCallsRemovable(p: Setup, calls: seq<TimedCall>)
    ensures RunFrames(p, Audible(calls)) == RunFrames(p, calls)
    ensures AudibleReplies(p, Audible(calls)) == AudibleReplies(p, calls)
  {
    if calls == [] {
    } else {
      var front, t := calls[..|calls| - 1], calls[|calls| - 1];
      SilentCallsRemovable(p, front);
      if Silent(t.call) {
        assert Audible(calls) == Audible(front);
      } else {
        assert Audible(calls)[..|Audible(front)|] == Audible(front);
      }
    }
  }

  /** The cache calls a run makes. */
  function CacheOps(p: Setup, calls: seq<TimedCall>): seq<R.Timed> {
    if calls == [] then []
    else
      var t := calls[|calls| - 1];
      CacheOps(p, calls[..|calls| - 1]) + OpsOf(p, t)
  }

  function OpsOf(p: Setup, t: TimedCall): (ops: seq<R.Timed>)
    ensures |ops| <= 1
  {
    match t.call
    case Handle(f, src) =>
      (match CheckedSeq(f)
       case None => []
       case Some(s) => [R.At(t.now, R.Submit(ReplayKey(p.tenantId, src), s))])
    case Look(f, src) =>
      (match CheckedSeq(f)
       case None => []
       case Some(s) => [R.At(t.now, R.Peek(ReplayKey(p.tenantId, src), s))])
    case Forget(src) => [R.At(t.now, R.Remove(ReplayKey(p.tenantId, src)))]
    case Sweep => [R.At(t.now, R.Cleanup)]
  }

  predicate Monotone(calls: seq<TimedCall>) {
    forall i, j | 0 <= i <= j < |calls| :: calls[i].now <= calls[j].now
  }

  lemma {:induction false} RunsTheCache(p: Setup, calls: seq<TimedCall>)
    ensures RunFrames(p, calls) == R.Run(R.Config(p.cap, p.ttl), CacheOps(p, calls))
  {
    if calls == [] {
    } else {
      var front, t := calls[..|calls| - 1], calls[|calls| - 1];
      hide OpsOf, After, R.Next;
      RunsTheCache(p, front);
      var ops := CacheOps(p, front);
      AfterIsNext(p, RunFrames(p, front), t);
      R.RunAppend(R.Config(p.cap, p.ttl), ops, OpsOf(p, t));
    }
  }

  lemma AfterIsNext(p: Setup, m: Entries, t: TimedCall)
    ensures After(p, m, t) == if OpsOf(p, t) == [] then m else R.Next(R.Config(p.cap, p.ttl), m, OpsOf(p, t)[0])
  {
  }

  function LatestCall(calls: seq<TimedCall>): nat {
    if calls == [] then 0 else calls[|calls| - 1].now
  }

  lemma {:induction false} CacheOpsMonotone(p: Setup, calls: seq<TimedCall>)
    requires Monotone(calls)
    ensures R.MonotoneClock(CacheOps(p, calls))
    ensures forall i | 0 <= i < |CacheOps(p, calls)| :: CacheOps(p, calls)[i].now <= LatestCall(calls)
  {
    if calls == [] {
    } else {
      var front, t := calls[..|calls| - 1], calls[|calls| - 1];
      assert Monotone(front);
      CacheOpsMonotone(p, front);
      assert LatestCall(front) <= t.now;
    }
  }

  /**
   What a source got through the check since it was last registered: a passed checked frame
   adds its number, removal empties the list, and so does a sweep that finds nothing recent.
   */
  function PassedSince(p: Setup, calls: seq<TimedCall>, sourceId: U64): seq<R.Acceptance> {
    if calls == [] then []
    else
      var front, t := calls[..|calls| - 1], calls[|calls| - 1];
      var before := PassedSince(p, front, sourceId);
      match t.call
      case Handle(f, src) =>
        if src == sourceId && CheckedSeq(f).Some? && ReplyTo(p, RunFrames(p, front), t) == Result(Passed)
        then before + [R.Acceptance(CheckedSeq(f).value, t.now)]
        else before
      case Look(_, _) => before
      case Forget(src) => if src == sourceId then [] else before
      case Sweep => if R.Recent(before, p.ttl, t.now) then before else []
  }

  lemma {:induction false} PassedIsHistory(p: Setup, calls: seq<TimedCall>, sourceId: U64)
    requires Monotone(calls)
    ensures PassedSince(p, calls, sourceId)
            == R.Accepted(R.RefRun(R.Config(p.cap, p.ttl), CacheOps(p, calls)), ReplayKey(p.tenantId, sourceId))
  {
    hide OpsOf, NextHistory, ReplyTo, After, R.RefNext, R.Next, R.RefAnswer, R.Answer, R.MonotoneClock, R.AnswerAt;
    if calls == [] {
    } else {
      var front, t := calls[..|calls| - 1], calls[|calls| - 1];
      assert Monotone(front);
      PassedIsHistory(p, front, sourceId);
      var c, ops := R.Config(p.cap, p.ttl), CacheOps(p, front);
      CacheOpsMonotone(p, front);
      R.RefinesHistory(c, ops);
      RunsTheCache(p, front);
      if OpsOf(p, t) == [] {
        assert CacheOps(p, calls) == ops;
        NoOpNoHistory(p, calls, sourceId);
      } else {
        var op := OpsOf(p, t)[0];
        assert OpsOf(p, t) == [op];
        assert CacheOps(p, calls) == ops + [op];
        R.RefRunStep(c, ops, op);
        R.SameAnswer(c, R.Run(c, ops), R.RefRun(c, ops), op, R.LastTime(ops));
        HistoryStep(p, R.Run(c, ops), R.RefRun(c, ops), t, sourceId);
        PassedStep(p, calls, sourceId);
      }
    }
  }

  lemma NoOpNoHistory(p: Setup, calls: seq<TimedCall>, sourceId: U64)
    requires calls != [] && OpsOf(p, calls[|calls| - 1]) == []
    ensures PassedSince(p, calls, sourceId) == PassedSince(p, calls[..|calls| - 1], sourceId)
  {
  }

  /** The history of `key` after a cache call, given the history before it and the processor's reply. */
  function NextHistory(p: Setup, before: seq<R.Acceptance>, t: TimedCall, reply: Reply, sourceId: U64)
    : seq<R.Acceptance>
    requires OpsOf(p, t) != []
  {
    match t.call
    case Handle(f, src) =>
      if src == sourceId && reply == Result(Passed)
      then before + [R.Acceptance(CheckedSeq(f).value, t.now)]
      else before
    case Look(_, _) => before
    case Forget(src) => if src == sourceId then [] else before
    case Sweep => if R.Recent(before, p.ttl, t.now) then before else []
  }

  lemma PassedStep(p: Setup, calls: seq<TimedCall>, sourceId: U64)
    requires calls != [] && OpsOf(p, calls[|calls| - 1]) != []
    ensures var front, t := calls[..|calls| - 1], calls[|calls| - 1];
            PassedSince(p, calls, sourceId)
            == NextHistory(p, PassedSince(p, front, sourceId), t, ReplyTo(p, RunFrames(p, front), t), sourceId)
  {
  }

  /** A checked frame, its verdict the reference cache's. */
  lemma HandleHistory(p: Setup, m: Entries, h: R.History, t: TimedCall, sourceId: U64)
    requires t.call.Handle? && CheckedSeq(t.call.frame).Some?
    requires var key, s := ReplayKey(p.tenantId, t.call.sourceId), CheckedSeq(t.call.frame).value;
             Check(m, p.cap, key, s, t.now).1 == R.RefVerdict(p.cap, h, key, s)
    ensures var key := ReplayKey(p.tenantId, sourceId);
            R.Accepted(R.RefNext(R.Config(p.cap, p.ttl), h, OpsOf(p, t)[0]), key)
            == NextHistory(p, R.Accepted(h, key), t, ReplyTo(p, m, t), sourceId)
  {
    hide R.Seen, R.RefVerdict, R.Recent, Check, Preview, Unexpired, CheckedSeq;
  }

  lemma HistoryStep(p: Setup, m: Entries, h: R.History, t: TimedCall, sourceId: U64)
    requires OpsOf(p, t) != []
    requires var c, op := R.Config(p.cap, p.ttl), OpsOf(p, t)[0]; R.Answer(c, m, op) == R.RefAnswer(c, h, op)
    ensures var key := ReplayKey(p.tenantId, sourceId);
            R.Accepted(R.RefNext(R.Config(p.cap, p.ttl), h, OpsOf(p, t)[0]), key)
            == NextHistory(p, R.Accepted(h, key), t, ReplyTo(p, m, t), sourceId)
  {
    hide R.Recent, R.Seen, R.RefVerdict, Check, Preview, Unexpired, Expired, CheckedSeq, Unchecked, ReplyTo;
    match t.call {
      case Handle(f, src) => HandleHistory(p, m, h, t, sourceId);
      case Look(_, _) =>
      case Forget(_) =>
      case Sweep =>
    }
  }

  /**
   Replay safety of the processor, for any decoded frames (also SAP without PFP), previews,
   removals and sweeps: the numbers a source gets through since its registration strictly
   increase, so none passes twice; there are at most last - first + 1 of them; and the
   processor reports the largest as the source's last number, or none if there are none.
   */
  lemma ProcessorReplaySafety(p: Setup, calls: seq<TimedCall>, sourceId: U64)
    requires Monotone(calls)
    ensures var a := PassedSince(p, calls, sourceId);
            && (forall i, j | 0 <= i < j < |a| :: a[i].seqNo < a[j].seqNo)
            && (a != [] ==> |a| <= a[|a| - 1].seqNo - a[0].seqNo + 1 <= 0x1_0000)
            && LastSeqOf(RunFrames(p, calls), p.tenantId, sourceId)
               == if a == [] then None else Some(a[|a| - 1].seqNo)
  {
    hide R.MonotoneClock, R.Run, R.RefRun, RunFrames, CacheOps, PassedSince;
    PassedIsHistory(p, calls, sourceId);
    CacheOpsMonotone(p, calls);
    RunsTheCache(p, calls);
    R.ReplaySafety(R.Config(p.cap, p.ttl), CacheOps(p, calls), ReplayKey(p.tenantId, sourceId));
  }
}
