/**
 The catastrophic manager (src/catastrophic.rs): detect a hard override, send the event on the
 bus, append it to the audit log. Clones share both, so besides the sequential class there is
 a step model of `n` threads that send and append in two separate accesses.
 */
module CatastrophicManager {
  import opened Bytes
  import opened Wrappers
  import opened AuditLog
  import Pfp

  /** The sending half of the channel, shared by all clones. The channel is unbounded. */
  class EventBus {
    var sent: seq<CatastrophicEvent>
    var receiverAlive: bool

    constructor (receiverAlive: bool)
      ensures sent == [] && this.receiverAlive == receiverAlive
    {
      sent := [];
      this.receiverAlive := receiverAlive;
    }

    /** Fails exactly when the receiver is gone. */
    method Send(event: CatastrophicEvent) returns (ok: bool)
      modifies this
      ensures ok == old(receiverAlive) && receiverAlive == old(receiverAlive)
      ensures sent == if ok then old(sent) + [event] else old(sent)
    {
      ok := receiverAlive;
      if ok {
        sent := sent + [event];
      }
    }
  }

  /** What `handle_frame` is given, and the clock reading it takes. */
  datatype Trigger = Trigger(
    pfpBytes: PfpBytes,
    seqCounter: Option<U16>,
    sensorContext: Option<seq<Byte>>,
    source: seq<Byte>,
    timestamp: U64,
    timestampNanos: U32)

  function EventOf(a: Trigger): CatastrophicEvent {
    CatastrophicEvent(a.timestamp, a.timestampNanos, a.pfpBytes, a.seqCounter, a.sensorContext, a.source)
  }

  /** The event carries everything that was handed in, field by field. */
  predicate Reports(e: CatastrophicEvent, a: Trigger) {
    && e.timestamp == a.timestamp && e.timestampNanos == a.timestampNanos
    && e.pfpBytes == a.pfpBytes && e.seqCounter == a.seqCounter
    && e.sensorContext == a.sensorContext && e.source == a.source
  }

  class CatastrophicManager {
    const eventBus: EventBus
    const auditLog: CatastrophicAuditLog

    constructor (H: HashFn, receiverAlive: bool)
      ensures fresh(eventBus) && fresh(auditLog)
      ensures auditLog.H == H && auditLog.View() == EMPTY_LOG
      ensures eventBus.sent == [] && eventBus.receiverAlive == receiverAlive
    {
      eventBus := new EventBus(receiverAlive);
      auditLog := new CatastrophicAuditLog(H);
    }

    /** Records the event exactly when the bytes say override; a dead bus does not stop the audit. */
    method HandleFrame(a: Trigger) returns (triggered: bool)
      modifies eventBus, auditLog
      ensures triggered <==> a.pfpBytes[2] & 0x0C == 0x0C && a.pfpBytes[3] & 0x02 != 0
      ensures auditLog.View() == if triggered
                                 then Appended(auditLog.H, AUDIT_LOG_MAX_ENTRIES, old(auditLog.View()), EventOf(a))
                                 else old(auditLog.View())
      ensures triggered ==> auditLog.entries != [] && Reports(auditLog.entries[|auditLog.entries| - 1].event, a)
      ensures eventBus.receiverAlive == old(eventBus.receiverAlive)
      ensures eventBus.sent == if triggered && old(eventBus.receiverAlive)
                               then old(eventBus.sent) + [EventOf(a)]
                               else old(eventBus.sent)
    {
      hide Appended, Pfp.IsCatastrophicBytes;
      Pfp.OverrideBits(a.pfpBytes);
      if !Pfp.IsCatastrophicBytes(a.pfpBytes) {
        return false;
      }
      var event := EventOf(a);
      var _ := eventBus.Send(event);
      var _ := auditLog.Append(event);
      triggered := true;
    }
  }

  // ----- n threads, receiver alive, mutex unpoisoned

  datatype Thread =
    | Ready
      /** The event is made, not yet sent. */
    | Made(event: CatastrophicEvent)
      /** Sent, not yet in the log. */
    | Sent(event: CatastrophicEvent)

  /** An event and the thread that handled it. */
  datatype Note = Note(t: nat, event: CatastrophicEvent)

  datatype State = State(
    threads: seq<Thread>,
    /** Override calls in the order they were made; a record only. */
    triggers: seq<Note>,
    /** Everything ever sent on the bus. */
    bus: seq<Note>,
    /** Everything ever appended, in the order the lock was taken; a record only. */
    appended: seq<Note>,
    log: LogState)

  datatype Label = Handle(t: nat, a: Trigger) | Go(t: nat)

  function Init(n: nat): State {
    State(seq(n, _ => Ready), [], [], [], EMPTY_LOG)
  }

  function Next(H: HashFn, cap: nat, s: State, l: Label): State {
    match l
    case Handle(t, a) =>
      if t < |s.threads| && s.threads[t].Ready? && Pfp.IsCatastrophicBytes(a.pfpBytes)
      then s.(threads := s.threads[t := Made(EventOf(a))], triggers := s.triggers + [Note(t, EventOf(a))])
      else s
    case Go(t) =>
      if t < |s.threads| then
        match s.threads[t]
        case Ready => s
        case Made(e) => s.(threads := s.threads[t := Sent(e)], bus := s.bus + [Note(t, e)])
        case Sent(e) =>
          s.(threads := s.threads[t := Ready], appended := s.appended + [Note(t, e)], log := Appended(H, cap, s.log, e))
      else s
  }

  function Run(H: HashFn, cap: nat, n: nat, labels: seq<Label>): State {
    if labels == [] then Init(n) else Next(H, cap, Run(H, cap, n, labels[..|labels| - 1]), labels[|labels| - 1])
  }

  /** The events of thread `t`, in order. */
  function Of(notes: seq<Note>, t: nat): seq<CatastrophicEvent> {
    if notes == [] then []
    else
      var last := notes[|notes| - 1];
      Of(notes[..|notes| - 1], t) + if last.t == t then [last.event] else []
  }

  function Events(notes: seq<Note>): seq<CatastrophicEvent> {
    if notes == [] then [] else Events(notes[..|notes| - 1]) + [notes[|notes| - 1].event]
  }

  function Unsent(th: Thread): seq<CatastrophicEvent> {
    if th.Made? then [th.event] else []
  }

  function Unlogged(th: Thread): seq<CatastrophicEvent> {
    if th.Sent? then [th.event] else []
  }

  /** The events of all threads that stand between send and append. */
  function Between(threads: seq<Thread>): multiset<CatastrophicEvent> {
    if threads == [] then multiset{}
    else Between(threads[..|threads| - 1]) + multiset(Unlogged(threads[|threads| - 1]))
  }

  lemma OfPush(notes: seq<Note>, n: Note, t: nat)
    ensures Of(notes + [n], t) == Of(notes, t) + if n.t == t then [n.event] else []
    ensures Events(notes + [n]) == Events(notes) + [n.event]
  {
    assert (notes + [n])[..|notes|] == notes;
  }

  lemma {:induction false} BetweenUpdate(threads: seq<Thread>, t: nat, th: Thread)
    requires t < |threads|
    ensures Between(threads[t := th]) + multiset(Unlogged(threads[t])) == Between(threads) + multiset(Unlogged(th))
  {
    var k := |threads| - 1;
    var after := threads[t := th];
    if t < k {
      assert after[..k] == threads[..k][t := th] && after[k] == threads[k];
      BetweenUpdate(threads[..k], t, th);
      Shift(Between(after[..k]), multiset(Unlogged(threads[t])), Between(threads[..k]), multiset(Unlogged(th)),
            multiset(Unlogged(threads[k])));
    } else {
      assert after[..k] == threads[..k] && after[k] == th;
    }
  }

  lemma Shift<T>(a: multiset<T>, b: multiset<T>, c: multiset<T>, d: multiset<T>, x: multiset<T>)
    requires a + b == c + d
    ensures a + x + b == c + x + d
  {
    assert a + x + b == a + b + x && c + x + d == c + d + x;
  }

  lemma {:induction false} BetweenReady(n: nat)
    ensures Between(seq(n, _ => Ready)) == multiset{}
  {
    if n == 0 {
    } else {
      assert seq<Thread>(n, _ => Ready)[..n - 1] == seq<Thread>(n - 1, _ => Ready);
      BetweenReady(n - 1);
    }
  }

  /** Each thread's calls reach the bus, and its bus events the log, in order and without loss. */
  predicate InStep(s: State, t: nat)
    requires t < |s.threads|
  {
    && Of(s.triggers, t) == Of(s.bus, t) + Unsent(s.threads[t])
    && Of(s.bus, t) == Of(s.appended, t) + Unlogged(s.threads[t])
  }

  predicate Conserved(s: State) {
    multiset(Events(s.bus)) == multiset(Events(s.appended)) + Between(s.threads)
  }

  predicate LogRight(H: HashFn, cap: nat, s: State) {
    s.log == WindowState(H, cap, Events(s.appended), |s.appended|)
  }

  lemma InStepHandle(H: HashFn, cap: nat, s: State, u: nat, a: Trigger, t: nat)
    requires t < |s.threads| && InStep(s, t)
    ensures |Next(H, cap, s, Handle(u, a)).threads| == |s.threads| && InStep(Next(H, cap, s, Handle(u, a)), t)
  {
    hide Pfp.IsCatastrophicBytes, Appended, Of, EventOf;
    assert Of(s.bus, t) + [] == Of(s.bus, t) && Of(s.triggers, t) + [] == Of(s.triggers, t);
    OfPush(s.triggers, Note(u, EventOf(a)), t);
  }

  lemma InStepSend(H: HashFn, cap: nat, s: State, u: nat, t: nat)
    requires t < |s.threads| && InStep(s, t) && u < |s.threads| && s.threads[u].Made?
    ensures |Next(H, cap, s, Go(u)).threads| == |s.threads| && InStep(Next(H, cap, s, Go(u)), t)
  {
    hide Appended, Of;
    var c, b, a, e := Of(s.triggers, t), Of(s.bus, t), Of(s.appended, t), s.threads[u].event;
    OfPush(s.bus, Note(u, e), t);
    if u == t {
      assert c == b + [e] && b == a + [];
      assert a + [] == a && (b + [e]) + [] == b + [e];
    } else {
      assert b + [] == b;
    }
  }

  lemma InStepLog(H: HashFn, cap: nat, s: State, u: nat, t: nat)
    requires t < |s.threads| && InStep(s, t) && u < |s.threads| && s.threads[u].Sent?
    ensures |Next(H, cap, s, Go(u)).threads| == |s.threads| && InStep(Next(H, cap, s, Go(u)), t)
  {
    hide Appended, Of;
    var a, e := Of(s.appended, t), s.threads[u].event;
    OfPush(s.appended, Note(u, e), t);
    assert a + [] == a && a + [e] + [] == a + [e];
  }

  lemma InStepNext(H: HashFn, cap: nat, s: State, l: Label, t: nat)
    requires t < |s.threads| && InStep(s, t)
    ensures |Next(H, cap, s, l).threads| == |s.threads| && InStep(Next(H, cap, s, l), t)
  {
    hide InStep;
    match l {
      case Handle(u, a) => InStepHandle(H, cap, s, u, a, t);
      case Go(u) =>
        if u < |s.threads| && s.threads[u].Made? {
          InStepSend(H, cap, s, u, t);
        } else if u < |s.threads| && s.threads[u].Sent? {
          InStepLog(H, cap, s, u, t);
        } else {
          assert Next(H, cap, s, l) == s;
        }
    }
  }

  lemma ConservedHandle(H: HashFn, cap: nat, s: State, t: nat, a: Trigger)
    requires Conserved(s)
    ensures Conserved(Next(H, cap, s, Handle(t, a)))
  {
    hide Pfp.IsCatastrophicBytes, Appended, Between, Events, EventOf, Unlogged;
    if t < |s.threads| && s.threads[t].Ready? {
      BetweenUpdate(s.threads, t, Made(EventOf(a)));
      NothingUnlogged(s.threads[t], Made(EventOf(a)));
      var after := Between(s.threads[t := Made(EventOf(a))]);
      assert after == after + multiset{} == Between(s.threads) + multiset{} == Between(s.threads);
    }
  }

  lemma ConservedSend(H: HashFn, cap: nat, s: State, t: nat)
    requires Conserved(s) && t < |s.threads| && s.threads[t].Made?
    ensures Conserved(Next(H, cap, s, Go(t)))
  {
    hide Appended, Between, Events;
    var e := s.threads[t].event;
    BetweenUpdate(s.threads, t, Sent(e));
    OfPush(s.bus, Note(t, e), 0);
    NothingUnlogged(s.threads[t], Ready);
    SendBalance(Events(s.bus), Events(s.appended), Between(s.threads), Between(s.threads[t := Sent(e)]), e);
  }

  lemma ConservedLog(H: HashFn, cap: nat, s: State, t: nat)
    requires Conserved(s) && t < |s.threads| && s.threads[t].Sent?
    ensures Conserved(Next(H, cap, s, Go(t)))
  {
    hide Appended, Between, Events;
    var e := s.threads[t].event;
    BetweenUpdate(s.threads, t, Ready);
    OfPush(s.appended, Note(t, e), 0);
    LogBalance(Events(s.bus), Events(s.appended), Between(s.threads), Between(s.threads[t := Ready]), e);
  }

  lemma ConservedNext(H: HashFn, cap: nat, s: State, l: Label)
    requires Conserved(s)
    ensures Conserved(Next(H, cap, s, l))
  {
    hide Pfp.IsCatastrophicBytes, Appended, Between, Events, EventOf, Conserved;
    match l {
      case Handle(t, a) => ConservedHandle(H, cap, s, t, a);
      case Go(t) =>
        if t < |s.threads| && s.threads[t].Made? {
          ConservedSend(H, cap, s, t);
        } else if t < |s.threads| && s.threads[t].Sent? {
          ConservedLog(H, cap, s, t);
        }
    }
  }

  lemma NothingUnlogged(a: Thread, b: Thread)
    requires !a.Sent? && !b.Sent?
    ensures multiset(Unlogged(a)) == multiset{} && multiset(Unlogged(b)) == multiset{}
  {
  }

  lemma SendBalance<T>(bus: seq<T>, log: seq<T>, before: multiset<T>, after: multiset<T>, e: T)
    requires multiset(bus) == multiset(log) + before && after == before + multiset{e}
    ensures multiset(bus + [e]) == multiset(log) + after
  {
  }

  lemma LogBalance<T>(bus: seq<T>, log: seq<T>, before: multiset<T>, after: multiset<T>, e: T)
    requires multiset(bus) == multiset(log) + before && after + multiset{e} == before
    ensures multiset(bus) == multiset(log + [e]) + after
  {
  }

  lemma LogRightNext(H: HashFn, cap: nat, s: State, l: Label)
    requires LogRight(H, cap, s)
    ensures LogRight(H, cap, Next(H, cap, s, l))
  {
    hide Pfp.IsCatastrophicBytes, Appended, WindowState;
    if l.Go? && l.t < |s.threads| && s.threads[l.t].Sent? {
      var e := s.threads[l.t].event;
      OfPush(s.appended, Note(l.t, e), 0);
      AppendKeepsWindow(H, cap, Events(s.appended), |s.appended|, e);
    }
  }

  lemma {:induction false} InStepRun(H: HashFn, cap: nat, n: nat, labels: seq<Label>, t: nat)
    requires t < n
    ensures |Run(H, cap, n, labels).threads| == n && InStep(Run(H, cap, n, labels), t)
  {
    hide Next, InStep;
    if labels == [] {
      InStepInit(n, t);
    } else {
      InStepRun(H, cap, n, labels[..|labels| - 1], t);
      InStepNext(H, cap, Run(H, cap, n, labels[..|labels| - 1]), labels[|labels| - 1], t);
    }
  }

  lemma InStepInit(n: nat, t: nat)
    requires t < n
    ensures InStep(Init(n), t)
  {
  }

  lemma {:induction false} RunConserves(H: HashFn, cap: nat, n: nat, labels: seq<Label>)
    ensures Conserved(Run(H, cap, n, labels)) && LogRight(H, cap, Run(H, cap, n, labels))
  {
    hide Next, EMPTY_LOG, WindowState;
    if labels == [] {
      BetweenReady(n);
      EmptyWindow(H, cap);
    } else {
      var s, l := Run(H, cap, n, labels[..|labels| - 1]), labels[|labels| - 1];
      RunConserves(H, cap, n, labels[..|labels| - 1]);
      ConservedNext(H, cap, s, l);
      LogRightNext(H, cap, s, l);
    }
  }

  lemma {:induction false} EventsLength(notes: seq<Note>)
    ensures |Events(notes)| == |notes|
  {
    if notes == [] {
    } else {
      EventsLength(notes[..|notes| - 1]);
    }
  }

  /**
   Which calls trigger: an idle thread's call adds its event to the record, and gives the thread
   that event to send, exactly if the PFP bytes say override; other calls do nothing.
   */
  lemma OnlyOverridesTrigger(H: HashFn, cap: nat, s: State, t: nat, a: Trigger)
    requires t < |s.threads|
    ensures var s' := Next(H, cap, s, Handle(t, a));
            && (s' != s <==> s.threads[t].Ready? && a.pfpBytes[2] & 0x0C == 0x0C && a.pfpBytes[3] & 0x02 != 0)
            && (s' != s ==>
                  && s'.threads[t].Made? && Reports(s'.threads[t].event, a)
                  && s'.triggers == s.triggers + [Note(t, s'.threads[t].event)]
                  && s'.bus == s.bus && s'.appended == s.appended && s'.log == s.log)
  {
    hide Pfp.IsCatastrophicBytes;
    Pfp.OverrideBits(a.pfpBytes);
    var s' := Next(H, cap, s, Handle(t, a));
    assert s' != s ==> |s'.triggers| == |s.triggers| + 1;
    if s.threads[t].Ready? && Pfp.IsCatastrophicBytes(a.pfpBytes) {
      assert |s'.triggers| == |s.triggers| + 1;
    }
  }

  /**
   Trigger conservation in every interleaving: what was sent is what was appended plus what
   stands between send and append; each thread's override calls reach the bus and then the
   log in their order, none lost or doubled; and the log always records exactly the newest
   appended events as a valid hash chain, with every append counted.
   */
  lemma TriggerConservation(H: HashFn, n: nat, labels: seq<Label>, t: nat)
    requires t < n
    ensures var s := Run(H, AUDIT_LOG_MAX_ENTRIES, n, labels);
            && multiset(Events(s.bus)) == multiset(Events(s.appended)) + Between(s.threads)
            && |s.threads| == n
            && Of(s.triggers, t) == Of(s.bus, t) + Unsent(s.threads[t])
            && Of(s.bus, t) == Of(s.appended, t) + Unlogged(s.threads[t])
            && Records(H, s.log, Events(s.appended))
            && |s.log.entries| == Min(|s.appended|, 10_000)
            && s.log.totalTriggers == Wrap64(|s.appended|)
  {
    hide Run, Records, Window;
    var s := Run(H, AUDIT_LOG_MAX_ENTRIES, n, labels);
    InStepRun(H, AUDIT_LOG_MAX_ENTRIES, n, labels, t);
    RunConserves(H, AUDIT_LOG_MAX_ENTRIES, n, labels);
    WindowRecords(H, AUDIT_LOG_MAX_ENTRIES, Events(s.appended), |s.appended|);
    EventsLength(s.appended);
  }

  lemma RunPush(H: HashFn, cap: nat, n: nat, labels: seq<Label>, l: Label)
    ensures Run(H, cap, n, labels + [l]) == Next(H, cap, Run(H, cap, n, labels), l)
  {
    assert (labels + [l])[..|labels|] == labels;
  }
}
