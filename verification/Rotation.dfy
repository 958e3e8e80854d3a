/**
 Key rotation (src/rotation.rs): the payload codec, the state machine, and what holds over
 every sequence of calls.
 */
module Rotation {
  import opened Bytes
  import opened Wrappers

  const ROTATION_THRESHOLD: U16 := 65534
  const MAX_RETRIES: nat := 3
  const NONCE_SIZE: nat := 12

  type Nonce = s: seq<Byte> | |s| == 12 witness seq(12, _ => 0)

  datatype KeyRotationPayload = KeyRotationPayload(nonce: Nonce, newKeyEncrypted: seq<Byte>)

  datatype RotationError =
    | PayloadTooShort
    | NotInIdleState
    | UnexpectedAck
    | NotInFailedState
    | NotInRotatedState

  function EncodePayload(p: KeyRotationPayload): seq<Byte> {
    p.nonce + p.newKeyEncrypted
  }

  function DecodePayload(buf: seq<Byte>): Result<KeyRotationPayload, RotationError> {
    if |buf| < NONCE_SIZE then Err(PayloadTooShort)
    else Ok(KeyRotationPayload(buf[..NONCE_SIZE], buf[NONCE_SIZE..]))
  }

  /** Payloads and byte strings of at least twelve bytes correspond one to one. */
  lemma PayloadRoundTrip(p: KeyRotationPayload, buf: seq<Byte>)
    ensures DecodePayload(EncodePayload(p)) == Ok(p)
    ensures DecodePayload(buf) == Ok(p) <==> buf == EncodePayload(p)
    ensures DecodePayload(buf) == Err(PayloadTooShort) <==> |buf| < 12
    ensures |buf| >= 12 ==> DecodePayload(buf) == Ok(KeyRotationPayload(buf[..12], buf[12..]))
  {
    assert EncodePayload(p)[..12] == p.nonce && EncodePayload(p)[12..] == p.newKeyEncrypted;
    if |buf| >= 12 {
      assert buf == buf[..12] + buf[12..];
    }
  }

  datatype RotationState = Idle | Pending(retries: nat) | Rotated | Failed

  /** The machine's fields. */
  datatype Machine = Machine(state: RotationState, pending: Option<KeyRotationPayload>) {
    /** The counter has reached the threshold and no rotation is under way. */
    predicate Due(seqCounter: U16) {
      state == Idle && seqCounter >= ROTATION_THRESHOLD
    }

    /** Fail-closed: no data leaves while Failed. */
    predicate MaySend() {
      state != Failed
    }
  }

  datatype TimeoutResult = Retry(payload: KeyRotationPayload) | GaveUp | Ignored

  class KeyRotationStateMachine {
    var state: RotationState
    var pendingPayload: Option<KeyRotationPayload>

    ghost function View(): Machine
      reads this
    {
      Machine(state, pendingPayload)
    }

    /** A payload is stored exactly while an answer is awaited, after at most three retries. */
    ghost predicate Valid()
      reads this
    {
      Consistent(View())
    }

    constructor ()
      ensures Valid() && View() == NEW_MACHINE
    {
      state := Idle;
      pendingPayload := None;
    }

    method StartRotation(payload: KeyRotationPayload) returns (r: Result<KeyRotationPayload, RotationError>)
      requires Valid()
      modifies this
      ensures Valid() && View() == Step(old(View()), Start(payload))
      ensures old(state) == Idle ==> r == Ok(payload) && state == Pending(0) && pendingPayload == Some(payload)
      ensures old(state) != Idle ==> r == Err(NotInIdleState) && View() == old(View())
    {
      if state != Idle {
        return Err(NotInIdleState);
      }
      pendingPayload := Some(payload);
      state := Pending(0);
      r := Ok(pendingPayload.value);
    }

    method HandleAck() returns (r: Result<(), RotationError>)
      requires Valid()
      modifies this
      ensures Valid() && View() == Step(old(View()), Ack)
      ensures old(state).Pending? ==> r == Ok(()) && state == Rotated && pendingPayload == None
      ensures !old(state).Pending? ==> r == Err(UnexpectedAck) && View() == old(View())
    {
      match state {
        case Pending(_) =>
          state := Rotated;
          pendingPayload := None;
          r := Ok(());
        case _ =>
          r := Err(UnexpectedAck);
      }
    }

    method HandleTimeout() returns (r: TimeoutResult)
      requires Valid()
      modifies this
      ensures Valid() && View() == Step(old(View()), Timeout)
      ensures r == TimeoutAnswer(old(View()))
      ensures old(state).Pending? && old(state).retries < 3 ==>
                && r == Retry(old(pendingPayload).value) && pendingPayload == old(pendingPayload)
                && state == Pending(old(state).retries + 1)
      ensures old(state) == Pending(3) ==> r == GaveUp && state == Failed && pendingPayload == None
      ensures !old(state).Pending? ==> r == Ignored && View() == old(View())
    {
      match state {
        case Pending(retries) =>
          if retries < MAX_RETRIES {
            state := Pending(retries + 1);
            // The unwrap cannot fail: a payload is stored.
            r := Retry(pendingPayload.value);
          } else {
            state := Failed;
            pendingPayload := None;
            r := GaveUp;
          }
        case _ =>
          r := Ignored;
      }
    }

    method ManualReset() returns (r: Result<(), RotationError>)
      requires Valid()
      modifies this
      ensures Valid() && View() == Step(old(View()), Reset)
      ensures old(state) == Failed ==> r == Ok(()) && state == Idle && pendingPayload == None
      ensures old(state) != Failed ==> r == Err(NotInFailedState) && View() == old(View())
    {
      match state {
        case Failed =>
          state := Idle;
          pendingPayload := None;
          r := Ok(());
        case _ =>
          r := Err(NotInFailedState);
      }
    }

    method CompleteRotation() returns (r: Result<(), RotationError>)
      requires Valid()
      modifies this
      ensures Valid() && View() == Step(old(View()), Complete)
      ensures old(state) == Rotated ==> r == Ok(()) && state == Idle && pendingPayload == old(pendingPayload)
      ensures old(state) != Rotated ==> r == Err(NotInRotatedState) && View() == old(View())
    {
      match state {
        case Rotated =>
          state := Idle;
          r := Ok(());
        case _ =>
          r := Err(NotInRotatedState);
      }
    }

    predicate ShouldRotate(seqCounter: U16)
      reads this
      ensures ShouldRotate(seqCounter) <==> View().Due(seqCounter)
    {
      state == Idle && seqCounter >= ROTATION_THRESHOLD
    }

    predicate CanSendData()
      reads this
      ensures CanSendData() <==> View().MaySend()
    {
      state != Failed
    }
  }

  const NEW_MACHINE: Machine := Machine(Idle, None)

  predicate Consistent(m: Machine) {
    && (m.pending.Some? <==> m.state.Pending?)
    && (m.state.Pending? ==> m.state.retries <= MAX_RETRIES)
  }

  // ----- calls and runs

  datatype Event = Start(payload: KeyRotationPayload) | Ack | Timeout | Reset | Complete

  function Step(m: Machine, e: Event): Machine {
    match e
    case Start(p) => if m.state == Idle then Machine(Pending(0), Some(p)) else m
    case Ack => if m.state.Pending? then Machine(Rotated, None) else m
    case Timeout =>
      if m.state.Pending? then
        if m.state.retries < MAX_RETRIES then m.(state := Pending(m.state.retries + 1)) else Machine(Failed, None)
      else m
    case Reset => if m.state == Failed then Machine(Idle, None) else m
    case Complete => if m.state == Rotated then m.(state := Idle) else m
  }

  function TimeoutAnswer(m: Machine): TimeoutResult
    requires Consistent(m)
  {
    if m.state.Pending? then
      if m.state.retries < MAX_RETRIES then Retry(m.pending.value) else GaveUp
    else Ignored
  }

  function RunFrom(m: Machine, events: seq<Event>): Machine {
    if events == [] then m else Step(RunFrom(m, events[..|events| - 1]), events[|events| - 1])
  }

  function Run(events: seq<Event>): Machine {
    RunFrom(NEW_MACHINE, events)
  }

  lemma {:induction false} RunConsistent(events: seq<Event>)
    ensures Consistent(Run(events))
  {
    if events == [] {
    } else {
      RunConsistent(events[..|events| - 1]);
    }
  }

  /** Rotation is due exactly at the threshold and in a state from which it can be started. */
  lemma DueExactly(m: Machine, seqCounter: U16, payload: KeyRotationPayload)
    requires Consistent(m)
    ensures m.Due(seqCounter) <==> seqCounter >= 65534 && Step(m, Start(payload)) != m
    ensures m.Due(seqCounter) ==> m.MaySend() && Step(m, Start(payload)) == Machine(Pending(0), Some(payload))
  {
  }

  // ----- the ledger

  /**
   Counts of the calls that had an effect; `latest` is the payload of the last successful start,
   `latestRetries` how often it was sent again.
   */
  datatype Ledger = Ledger(
    starts: nat, acks: nat, failures: nat, resets: nat, completions: nat, retries: nat,
    latest: Option<KeyRotationPayload>, latestRetries: nat)

  /** One more call, counted by what the caller is told. */
  function Count(l: Ledger, m: Machine, e: Event): Ledger
    requires Consistent(m)
  {
    match e
    case Start(p) => if m.state == Idle then l.(starts := l.starts + 1, latest := Some(p), latestRetries := 0) else l
    case Ack => if m.state.Pending? then l.(acks := l.acks + 1) else l
    case Timeout =>
      (match TimeoutAnswer(m)
       case Retry(_) => l.(retries := l.retries + 1, latestRetries := l.latestRetries + 1)
       case GaveUp => l.(failures := l.failures + 1)
       case Ignored => l)
    case Reset => if m.state == Failed then l.(resets := l.resets + 1) else l
    case Complete => if m.state == Rotated then l.(completions := l.completions + 1) else l
  }

  function Book(events: seq<Event>): Ledger {
    if events == [] then Ledger(0, 0, 0, 0, 0, 0, None, 0)
    else
      var front := events[..|events| - 1];
      RunConsistent(front);
      Count(Book(front), Run(front), events[|events| - 1])
  }

  function One(b: bool): nat {
    if b then 1 else 0
  }

  /**
   The rotation ledger of every run: successful starts are answered, given up or pending;
   acknowledgements are completed or waiting; failures are reset or waiting; the latest start,
   so every start while it is the latest, is sent again at most three times, and while an answer
   is awaited exactly as often as the machine counts; and then, and only then, a payload is
   stored, and it is the latest start's, so that is what every retry sends.
   */
  lemma {:induction false} RotationLedger(events: seq<Event>)
    ensures var m, l := Run(events), Book(events);
            && Consistent(m)
            && l.starts == l.acks + l.failures + One(m.state.Pending?)
            && l.acks == l.completions + One(m.state.Rotated?)
            && l.failures == l.resets + One(m.state.Failed?)
            && (m.state.Pending? ==> l.retries + 3 <= 3 * l.starts + m.state.retries)
            && (!m.state.Pending? ==> l.retries <= 3 * l.starts)
            && l.starts + l.retries <= 4 * l.starts
            && l.latestRetries <= 3
            && (m.state.Pending? ==> l.latestRetries == m.state.retries)
            && (m.pending.Some? <==> m.state.Pending?)
            && (m.state.Pending? ==> m.pending == l.latest)
            && (TimeoutAnswer(m).Retry? ==> l.latest == Some(TimeoutAnswer(m).payload))
  {
    if events == [] {
    } else {
      var front := events[..|events| - 1];
      RotationLedger(front);
      LedgerStep(Book(front), Run(front), events[|events| - 1]);
    }
  }

  predicate Balanced(l: Ledger, m: Machine) {
    && Consistent(m)
    && l.starts == l.acks + l.failures + One(m.state.Pending?)
    && l.acks == l.completions + One(m.state.Rotated?)
    && l.failures == l.resets + One(m.state.Failed?)
    && l.retries + (if m.state.Pending? then 3 else 0)
       <= 3 * l.starts + (if m.state.Pending? then m.state.retries else 0)
    && (m.state.Pending? ==> m.pending == l.latest && l.latestRetries == m.state.retries)
    && l.latestRetries <= MAX_RETRIES
  }

  lemma LedgerStep(l: Ledger, m: Machine, e: Event)
    requires Balanced(l, m)
    ensures Balanced(Count(l, m, e), Step(m, e))
  {
  }

  // ----- fail closed

  function Timeouts(events: seq<Event>): nat {
    if events == [] then 0 else Timeouts(events[..|events| - 1]) + One(events[|events| - 1] == Timeout)
  }

  /** The call at `i` starts a rotation. */
  predicate StartsAt(events: seq<Event>, i: nat) {
    i < |events| && events[i].Start? && Run(events[..i]).state == Idle
  }

  /** The rotation started at `i` dies at `p`: the fourth timeout, with no acknowledgement before it. */
  predicate DiesAt(events: seq<Event>, i: nat, p: nat) {
    && i < p < |events|
    && events[p] == Timeout
    && Timeouts(events[i + 1..p]) == MAX_RETRIES
    && Ack !in events[i + 1..p]
  }

  /** Some started rotation died, and no manual reset has followed. */
  ghost predicate FailedClosed(events: seq<Event>) {
    exists i: nat, p: nat :: StartsAt(events, i) && DiesAt(events, i, p) && Reset !in events[p + 1..]
  }

  /** A rotation is under way that has seen `r` timeouts and no acknowledgement. */
  ghost predicate UnderWay(events: seq<Event>, i: nat, r: nat) {
    StartsAt(events, i) && Timeouts(events[i + 1..]) == r && Ack !in events[i + 1..]
  }

  lemma RunTake(events: seq<Event>, i: nat)
    requires i < |events|
    ensures Run(events[..i + 1]) == Step(Run(events[..i]), events[i])
  {
    assert events[..i + 1][..i] == events[..i];
  }

  /** From a start on, the machine counts the timeouts. */
  lemma {:induction false} CountsTimeouts(events: seq<Event>, i: nat, k: nat)
    requires StartsAt(events, i) && i < k <= |events|
    requires Timeouts(events[i + 1..k]) <= MAX_RETRIES && Ack !in events[i + 1..k]
    ensures Run(events[..k]).state == Pending(Timeouts(events[i + 1..k]))
    decreases k
  {
    RunTake(events, k - 1);
    if k > i + 1 {
      assert events[i + 1..k][..k - 1 - (i + 1)] == events[i + 1..k - 1];
      assert events[i + 1..k][k - 1 - (i + 1)] == events[k - 1];
      CountsTimeouts(events, i, k - 1);
    }
  }

  lemma {:induction false} StaysFailed(events: seq<Event>, p: nat, k: nat)
    requires p < k <= |events| && Run(events[..p + 1]).state == Failed && Reset !in events[p + 1..k]
    ensures Run(events[..k]).state == Failed
    decreases k
  {
    if k > p + 1 {
      assert events[k - 1] in events[p + 1..k];
      assert events[p + 1..k - 1] <= events[p + 1..k];
      StaysFailed(events, p, k - 1);
      RunTake(events, k - 1);
    }
  }

  lemma FailsIf(events: seq<Event>)
    requires FailedClosed(events)
    ensures Run(events).state == Failed
  {
    var i: nat, p: nat :| StartsAt(events, i) && DiesAt(events, i, p) && Reset !in events[p + 1..];
    CountsTimeouts(events, i, p);
    RunTake(events, p);
    assert events[p + 1..|events|] == events[p + 1..] && events[..|events|] == events;
    StaysFailed(events, p, |events|);
  }

  /** Where the machine's state comes from. */
  lemma {:induction false} Origins(events: seq<Event>)
    ensures Run(events).state.Pending? ==> exists i: nat :: UnderWay(events, i, Run(events).state.retries)
    ensures Run(events).state == Failed ==> FailedClosed(events)
    ensures Run(events).state.Pending? ==> Run(events).state.retries <= MAX_RETRIES
  {
    if events == [] {
    } else {
      var k := |events| - 1;
      var front, e := events[..k], events[k];
      Origins(front);
      RunConsistent(front);
      var s := Run(front).state;
      if e.Start? && s == Idle {
        StartUnderWay(events);
      } else if s.Pending? && e != Ack {
        var i: nat :| UnderWay(front, i, s.retries);
        ExtendUnderWay(events, i, s.retries);
      } else if s == Failed && e != Reset {
        ExtendFailed(events);
      }
    }
  }

  lemma StartUnderWay(events: seq<Event>)
    requires events != [] && events[|events| - 1].Start? && Run(events[..|events| - 1]).state == Idle
    ensures UnderWay(events, |events| - 1, 0)
  {
    assert events[|events|..] == [];
  }

  lemma ExtendUnderWay(events: seq<Event>, i: nat, r: nat)
    requires events != [] && UnderWay(events[..|events| - 1], i, r) && events[|events| - 1] != Ack
    ensures events[|events| - 1] != Timeout ==> UnderWay(events, i, r)
    ensures events[|events| - 1] == Timeout ==> UnderWay(events, i, r + 1)
    ensures events[|events| - 1] == Timeout && r == MAX_RETRIES ==> FailedClosed(events)
  {
    var k := |events| - 1;
    assert events[..k][..i] == events[..i];
    var tail := events[i + 1..];
    assert tail[..|tail| - 1] == events[..k][i + 1..] == events[i + 1..k];
    assert tail == tail[..|tail| - 1] + [events[k]];
    if events[k] == Timeout && r == MAX_RETRIES {
      assert StartsAt(events, i) && DiesAt(events, i, k) && Reset !in events[k + 1..];
    }
  }

  lemma ExtendFailed(events: seq<Event>)
    requires events != [] && FailedClosed(events[..|events| - 1]) && events[|events| - 1] != Reset
    ensures FailedClosed(events)
  {
    var k := |events| - 1;
    var front := events[..k];
    var i: nat, p: nat :| StartsAt(front, i) && DiesAt(front, i, p) && Reset !in front[p + 1..];
    assert front[..i] == events[..i] && front[i + 1..p] == events[i + 1..p];
    assert events[p + 1..] == front[p + 1..] + [events[k]];
    assert StartsAt(events, i) && DiesAt(events, i, p) && Reset !in events[p + 1..];
  }

  /**
   Fail-closed trace theorem: the machine is Failed exactly when some successfully started
   rotation saw four timeouts before any acknowledgement and no manual reset has followed,
   and exactly then sending data is forbidden.
   */
  lemma FailClosed(events: seq<Event>)
    ensures Run(events).state == Failed <==> FailedClosed(events)
    ensures !Run(events).MaySend() <==> FailedClosed(events)
  {
    Origins(events);
    if FailedClosed(events) {
      FailsIf(events);
    }
  }

  function Repeat(e: Event, n: nat): seq<Event> {
    if n == 0 then [] else Repeat(e, n - 1) + [e]
  }

  /** From `Pending`, timeouts alone reach Failed after exactly four minus the retries so far. */
  lemma {:induction false} TimeoutsFail(m: Machine, n: nat)
    requires Consistent(m) && m.state.Pending?
    ensures RunFrom(m, Repeat(Timeout, n)).state
            == if n < 4 - m.state.retries then Pending(m.state.retries + n) else Failed
  {
    if n == 0 {
    } else {
      TimeoutsFail(m, n - 1);
      RunFromPush(m, Repeat(Timeout, n - 1), Timeout);
    }
  }

  lemma RunFromPush(m: Machine, events: seq<Event>, e: Event)
    ensures RunFrom(m, events + [e]) == Step(RunFrom(m, events), e)
  {
    assert (events + [e])[..|events|] == events;
  }

  lemma {:induction false} FailedStays(m: Machine, events: seq<Event>)
    requires m == Machine(Failed, None) && Reset !in events
    ensures RunFrom(m, events) == m
  {
    if events == [] {
    } else {
      FailedStays(m, events[..|events| - 1]);
    }
  }

  /** From Failed, a run leaves the machine where it is throughout exactly when it has no manual reset. */
  lemma OnlyResetLeavesFailed(m: Machine, events: seq<Event>)
    requires Consistent(m) && m.state == Failed
    ensures Reset !in events <==> forall k | 0 <= k <= |events| :: RunFrom(m, events[..k]) == m
  {
    if Reset !in events {
      forall k | 0 <= k <= |events|
        ensures RunFrom(m, events[..k]) == m
      {
        FailedStays(m, events[..k]);
      }
    } else {
      var i :| 0 <= i < |events| && events[i] == Reset;
      assert events[..i + 1] == events[..i] + [Reset];
      RunFromPush(m, events[..i], Reset);
    }
  }
}
