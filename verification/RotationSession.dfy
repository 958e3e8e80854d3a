/**
 The rotation lifecycle end to end (tests/integration_test.rs:113-173): a sender with its
 counter and rotation machine, a receiver with its processor and cleanup, and a channel that
 may drop, delay, repeat and reorder any frame ever sent, also across rotations. Frames travel
 as bytes. The sender stops at the threshold; on the acknowledgement the receiver forgets the
 source and the sender restarts at zero.
 */
module RotationSession {
  import opened Bytes
  import opened Wrappers
  import opened Frame
  import FrameCodec
  import Pfp
  import Sap
  import opened ReplayCache
  import Processor
  import Rotation

  /**
   What stays fixed: who talks to whom, the PFP layer of the data frames, the receiver's limits
   and the other sources it starts with.
   */
  datatype Link = Link(
    tenantId: U64, sourceId: U64, cap: nat, ttl: nat, pfp: Pfp.PfpHeader, others: Entries)

  predicate GoodLink(k: Link) {
    && k.pfp.replayEnable && k.pfp.reserved == 0
    && Key(k) !in k.others && |k.others| < k.cap
  }

  /** A data frame on the channel, and the number it was sent with. */
  datatype Packet = Packet(bytes: seq<Byte>, number: nat)

  datatype State = State(
    /** The SAP header the next data frame will carry. */
    header: Sap.SapHeader,
    machine: Rotation.Machine,
    /** Every data frame ever sent; those from `base` on belong to the current session. */
    sent: seq<Packet>,
    base: nat,
    receiver: Entries,
    /** The receiver without this source; a record only. */
    others: Entries,
    /** Numbers of this session received since the receiver last forgot the source; a record only. */
    own: set<nat>,
    /** Numbers of earlier sessions received since then; a record only. */
    stale: set<nat>)

  datatype Label =
    | Send(payload: seq<Byte>)
    | Rotate(key: Rotation.KeyRotationPayload)
    | Timeout
    | Acknowledge
    | Complete
    | Reset
    | Deliver(i: nat, now: nat)
    | Sweep(now: nat)

  function DataFrame(k: Link, h: Sap.SapHeader, payload: seq<Byte>): FrameResult {
    New(Data, 1, 0, Some(k.pfp), Some(h), payload)
  }

  /** What the receiver makes of the bytes it is handed. */
  function Receive(k: Link, m: Entries, bytes: seq<Byte>, now: nat): (Entries, Option<Processor.ProcessResult>) {
    match DecodeFrame(bytes)
    case Err(_) => (m, None)
    case Ok(f) =>
      var r := Processor.Process(m, k.cap, k.tenantId, f, k.sourceId, now);
      (r.0, Some(r.1))
  }

  function Key(k: Link): ReplayKey {
    ReplayKey(k.tenantId, k.sourceId)
  }

  function Next(k: Link, s: State, l: Label): State {
    match l
    case Send(payload) =>
      var f := DataFrame(k, s.header, payload);
      if s.machine.MaySend() && !s.header.NeedsKeyRotation() && f.Ok?
      then s.(sent := s.sent + [Packet(EncodeFrame(f.value), s.header.seqCounter)], header := s.header.Incremented())
      else s
    case Rotate(key) =>
      if s.machine.Due(s.header.seqCounter)
      then s.(machine := Rotation.Step(s.machine, Rotation.Start(key)))
      else s
    case Timeout => s.(machine := Rotation.Step(s.machine, Rotation.Timeout))
    case Reset => s.(machine := Rotation.Step(s.machine, Rotation.Reset))
    case Complete => s.(machine := Rotation.Step(s.machine, Rotation.Complete))
    case Acknowledge =>
      if s.machine.state.Pending?
      then s.(header := s.header.(seqCounter := 0), machine := Rotation.Step(s.machine, Rotation.Ack),
              base := |s.sent|, receiver := s.receiver - {Key(k)}, own := {}, stale := {})
      else s
    case Deliver(i, now) =>
      if i >= |s.sent| then s
      else
        var s' := s.(receiver := Receive(k, s.receiver, s.sent[i].bytes, now).0);
        if i >= s.base then s'.(own := s.own + {s.sent[i].number}) else s'.(stale := s.stale + {s.sent[i].number})
    case Sweep(now) =>
      var kept := Unexpired(s.receiver, k.ttl, now);
      var s' := s.(receiver := kept, others := Unexpired(s.others, k.ttl, now));
      if Key(k) in kept then s' else s'.(own := {}, stale := {})
  }

  function Init(k: Link, h: Sap.SapHeader): State {
    State(h.(seqCounter := 0, sapVersion := Sap.SAP_VERSION), Rotation.NEW_MACHINE, [], 0, k.others, k.others, {}, {})
  }

  function Run(k: Link, h: Sap.SapHeader, labels: seq<Label>): State {
    if labels == [] then Init(k, h) else Next(k, Run(k, h, labels[..|labels| - 1]), labels[|labels| - 1])
  }

  /** The bytes are a data frame with number `q`. */
  predicate Carries(k: Link, bytes: seq<Byte>, q: nat) {
    && DecodeFrame(bytes).Ok?
    && Processor.CheckedSeq(DecodeFrame(bytes).value) == Some(q)
  }

  function Without(m: Entries, key: ReplayKey): Entries {
    m - {key}
  }

  lemma StoreWithout(m: Entries, key: ReplayKey, e: Entry)
    ensures Without(m[key := e], key) == Without(m, key)
    ensures Without(Without(m, key), key) == Without(m, key)
    ensures key !in m ==> Without(m, key) == m
  {
  }

  predicate Exceeds(q: nat, received: set<nat>) {
    forall d | d in received :: d < q
  }

  /** The receiver stores the largest number received since it last forgot the source, and its other sources. */
  predicate ReceiverRight(k: Link, m: Entries, others: Entries, received: set<nat>) {
    && Without(m, Key(k)) == others
    && Key(k) !in others && |others| < k.cap
    && (Key(k) in m <==> received != {})
    && (received != {} ==> m[Key(k)].lastSeq in received && forall d | d in received :: d <= m[Key(k)].lastSeq)
  }

  /** The sender numbers its frames by their place in the session and stays below the threshold. */
  predicate SenderRight(k: Link, s: State) {
    && s.base <= |s.sent|
    && s.header.seqCounter == |s.sent| - s.base <= 65534
    && s.header.sapVersion < 16
    && (s.machine.state.Pending? ==> s.header.seqCounter == 65534)
    && (forall i | s.base <= i < |s.sent| :: s.sent[i].number == i - s.base)
    && (forall i | 0 <= i < |s.sent| :: s.sent[i].number < 65534 && Carries(k, s.sent[i].bytes, s.sent[i].number))
    && (forall d | d in s.own :: d < s.header.seqCounter)
  }

  /** A data frame survives the wire and is checked under the header's number. */
  lemma DataFrameArrives(k: Link, h: Sap.SapHeader, payload: seq<Byte>)
    requires k.pfp.replayEnable && k.pfp.reserved == 0 && h.sapVersion < 16
    ensures var f := DataFrame(k, h, payload);
            && (f.Ok? <==> |payload| <= MAX_PAYLOAD_SIZE)
            && (f.Ok? ==> DecodeFrame(EncodeFrame(f.value)) == f && Carries(k, EncodeFrame(f.value), h.seqCounter))
  {
    hide DecodeFrame, EncodeFrame;
    var f := DataFrame(k, h, payload);
    FrameCodec.NewRoundTrip(Data, 1, 0, Some(k.pfp), Some(h), payload, []);
    if f.Ok? {
      assert EncodeFrame(f.value) + [] == EncodeFrame(f.value);
    }
  }

  /** Checking number `i` keeps the record right; it is allowed exactly when it is the largest yet. */
  lemma CheckReceived(k: Link, m: Entries, others: Entries, received: set<nat>, i: U16, now: nat)
    requires ReceiverRight(k, m, others, received)
    ensures var r := Check(m, k.cap, Key(k), i, now);
            && ReceiverRight(k, r.0, others, received + {i})
            && r.1 == if Exceeds(i, received) then Allowed else Rejected
  {
    hide Key, Without;
    StoreWithout(m, Key(k), Entry(i, now));
    if Key(k) in m {
      assert m[Key(k)].lastSeq in received;
    }
  }

  /** One delivery: passed exactly when its number exceeds all received since the source was forgotten. */
  lemma DeliverOne(k: Link, m: Entries, others: Entries, received: set<nat>, bytes: seq<Byte>, i: nat, now: nat)
    requires ReceiverRight(k, m, others, received) && Carries(k, bytes, i) && i < 0x1_0000
    ensures var r := Receive(k, m, bytes, now);
            && ReceiverRight(k, r.0, others, received + {i})
            && r.1 == Some(if Exceeds(i, received) then Processor.Passed else Processor.RejectedReplay)
  {
    hide DecodeFrame, ReceiverRight, Check, Exceeds;
    CheckReceived(k, m, others, received, i, now);
  }

  /** Forgetting the source readies the receiver for the next session. */
  lemma ForgetSource(k: Link, m: Entries, others: Entries, received: set<nat>)
    requires ReceiverRight(k, m, others, received)
    ensures ReceiverRight(k, m - {Key(k)}, others, {})
  {
    StoreWithout(m, Key(k), Entry(0, 0));
  }

  lemma UnexpiredWithout(m: Entries, ttl: nat, now: nat, key: ReplayKey)
    ensures Without(Unexpired(m, ttl, now), key) == Unexpired(Without(m, key), ttl, now)
  {
  }

  /** A cleanup keeps the source's entry, or forgets it together with all that was received. */
  lemma SweepReceiver(k: Link, m: Entries, others: Entries, received: set<nat>, now: nat)
    requires ReceiverRight(k, m, others, received)
    ensures var kept := Unexpired(m, k.ttl, now);
            ReceiverRight(k, kept, Unexpired(others, k.ttl, now), if Key(k) in kept then received else {})
  {
    hide Without, Expired;
    UnexpiredWithout(m, k.ttl, now, Key(k));
    CleanupSize(others, k.ttl, now);
  }

  lemma SendKeeps(k: Link, s: State, payload: seq<Byte>)
    requires GoodLink(k) && SenderRight(k, s)
    ensures SenderRight(k, Next(k, s, Send(payload)))
  {
    hide DecodeFrame, EncodeFrame, DataFrame, Carries;
    DataFrameArrives(k, s.header, payload);
  }

  lemma SenderKeeps(k: Link, s: State, l: Label)
    requires GoodLink(k) && SenderRight(k, s)
    ensures SenderRight(k, Next(k, s, l))
  {
    hide Receive, DataFrame, EncodeFrame, Carries, GoodLink, Unexpired;
    match l {
      case Send(payload) => SendKeeps(k, s, payload);
      case _ =>
    }
  }

  lemma ReceiverKeeps(k: Link, s: State, l: Label)
    requires SenderRight(k, s) && ReceiverRight(k, s.receiver, s.others, s.own + s.stale)
    ensures var s' := Next(k, s, l); ReceiverRight(k, s'.receiver, s'.others, s'.own + s'.stale)
  {
    hide Receive, DataFrame, EncodeFrame, Carries, ReceiverRight, Unexpired;
    assert s.own - s.own == {} == {} + {};
    match l {
      case Deliver(i, now) =>
        if i < |s.sent| {
          var q := s.sent[i].number;
          DeliverOne(k, s.receiver, s.others, s.own + s.stale, s.sent[i].bytes, q, now);
          assert (s.own + {q}) + s.stale == s.own + s.stale + {q} == s.own + (s.stale + {q});
        }
      case Acknowledge => ForgetSource(k, s.receiver, s.others, s.own + s.stale);
      case Sweep(now) => SweepReceiver(k, s.receiver, s.others, s.own + s.stale, now);
      case _ =>
    }
  }

  predicate AllRight(k: Link, s: State) {
    SenderRight(k, s) && ReceiverRight(k, s.receiver, s.others, s.own + s.stale)
  }

  lemma {:induction false} RunAllRight(k: Link, h: Sap.SapHeader, labels: seq<Label>)
    requires GoodLink(k)
    ensures AllRight(k, Run(k, h, labels))
  {
    hide SenderRight, ReceiverRight, Next, GoodLink;
    if labels == [] {
      InitAllRight(k, h);
    } else {
      RunAllRight(k, h, labels[..|labels| - 1]);
      SenderKeeps(k, Run(k, h, labels[..|labels| - 1]), labels[|labels| - 1]);
      ReceiverKeeps(k, Run(k, h, labels[..|labels| - 1]), labels[|labels| - 1]);
    }
  }

  lemma InitAllRight(k: Link, h: Sap.SapHeader)
    requires GoodLink(k)
    ensures AllRight(k, Init(k, h))
  {
    StoreWithout(k.others, Key(k), Entry(0, 0));
  }

  lemma OthersUntouched(k: Link, m: Entries, others: Entries, received: set<nat>)
    requires ReceiverRight(k, m, others, received)
    ensures Without(m, Key(k)) == others
  {
  }

  /**
   The protocol, over every run and every schedule of the channel and of cleanup. The counter is
   the number of frames sent in the session and never passes the threshold, so incrementing it
   never wraps. Any frame ever sent passes exactly when its number exceeds every number received
   since the receiver last forgot the source, and is rejected otherwise. The receiver's other
   sources are as if this one did not exist.
   */
  lemma SessionProtocol(k: Link, h: Sap.SapHeader, labels: seq<Label>, i: nat, now: nat)
    requires GoodLink(k)
    ensures var s := Run(k, h, labels);
            && s.base <= |s.sent| && s.header.seqCounter == |s.sent| - s.base <= 65534
            && s.header.Incremented().seqCounter == s.header.seqCounter + 1
            && Without(s.receiver, Key(k)) == s.others
            && (s.base <= i < |s.sent| ==> s.sent[i].number == i - s.base)
            && (i < |s.sent| ==>
                  var answer := Receive(k, s.receiver, s.sent[i].bytes, now).1;
                  answer == Some(if Exceeds(s.sent[i].number, s.own + s.stale)
                                 then Processor.Passed else Processor.RejectedReplay))
  {
    hide Run, Receive, Carries, ReceiverRight, Exceeds;
    RunAllRight(k, h, labels);
    var s := Run(k, h, labels);
    OthersUntouched(k, s.receiver, s.others, s.own + s.stale);
    if i < |s.sent| {
      DeliverOne(k, s.receiver, s.others, s.own + s.stale, s.sent[i].bytes, s.sent[i].number, now);
    }
  }

  // ----- what has been received since the source was forgotten, told from the labels

  /** The step makes the receiver forget the source: an acknowledgement, or a sweep after its TTL. */
  predicate Forgets(k: Link, s: State, l: Label) {
    Key(k) in s.receiver && Key(k) !in Next(k, s, l).receiver
  }

  /** Label `l` delivers a frame with number `q`, of the current session or, if `late`, of an earlier one. */
  predicate Arrives(s: State, l: Label, q: nat, late: bool) {
    l.Deliver? && l.i < |s.sent| && s.sent[l.i].number == q && (late <==> l.i < s.base)
  }

  /** Label `p` does that, and no label after it makes the receiver forget the source. */
  predicate ArrivedAt(k: Link, h: Sap.SapHeader, labels: seq<Label>, p: nat, q: nat, late: bool) {
    && p < |labels| && Arrives(Run(k, h, labels[..p]), labels[p], q, late)
    && forall m | p < m < |labels| :: !Forgets(k, Run(k, h, labels[..m]), labels[m])
  }

  /** A frame with number `q` has arrived since the receiver last forgot the source. */
  ghost predicate Arrived(k: Link, h: Sap.SapHeader, labels: seq<Label>, q: nat, late: bool) {
    exists p: nat :: ArrivedAt(k, h, labels, p, q, late)
  }

  lemma ArrivedAtPush(k: Link, h: Sap.SapHeader, labels: seq<Label>, l: Label, p: nat, q: nat, late: bool)
    ensures ArrivedAt(k, h, labels + [l], p, q, late) <==>
            || (p == |labels| && Arrives(Run(k, h, labels), l, q, late))
            || (ArrivedAt(k, h, labels, p, q, late) && !Forgets(k, Run(k, h, labels), l))
  {
    hide Run, Arrives, Forgets;
    var all := labels + [l];
    assert all[..|labels|] == labels;
    assert forall m | 0 <= m < |labels| :: all[..m] == labels[..m] && all[m] == labels[m];
    if ArrivedAt(k, h, all, p, q, late) && p < |labels| {
      assert !Forgets(k, Run(k, h, all[..|labels|]), all[|labels|]);
      forall m | p < m < |labels|
        ensures !Forgets(k, Run(k, h, labels[..m]), labels[m])
      {
        assert !Forgets(k, Run(k, h, all[..m]), all[m]);
      }
    }
  }

  lemma ArrivedPush(k: Link, h: Sap.SapHeader, labels: seq<Label>, l: Label, q: nat, late: bool)
    ensures Arrived(k, h, labels + [l], q, late) <==>
            || Arrives(Run(k, h, labels), l, q, late)
            || (Arrived(k, h, labels, q, late) && !Forgets(k, Run(k, h, labels), l))
  {
    hide Run, Arrives, Forgets, ArrivedAt;
    forall p: nat
      ensures ArrivedAt(k, h, labels + [l], p, q, late) <==>
              || (p == |labels| && Arrives(Run(k, h, labels), l, q, late))
              || (ArrivedAt(k, h, labels, p, q, late) && !Forgets(k, Run(k, h, labels), l))
    {
      ArrivedAtPush(k, h, labels, l, p, q, late);
    }
    if Arrives(Run(k, h, labels), l, q, late) {
      assert ArrivedAt(k, h, labels + [l], |labels|, q, late);
    }
  }

  lemma RecordDelivery(k: Link, s: State, l: Label, q: nat)
    requires l.Deliver? && (l.i < |s.sent| ==> Key(k) in Next(k, s, l).receiver)
    ensures var s' := Next(k, s, l);
            && (q in s'.own <==> Arrives(s, l, q, false) || (q in s.own && !Forgets(k, s, l)))
            && (q in s'.stale <==> Arrives(s, l, q, true) || (q in s.stale && !Forgets(k, s, l)))
  {
    hide Receive;
  }

  lemma RecordOther(k: Link, s: State, l: Label, q: nat)
    requires !l.Deliver? && (Key(k) in s.receiver <==> s.own != {} || s.stale != {})
    ensures var s' := Next(k, s, l);
            && (q in s'.own <==> Arrives(s, l, q, false) || (q in s.own && !Forgets(k, s, l)))
            && (q in s'.stale <==> Arrives(s, l, q, true) || (q in s.stale && !Forgets(k, s, l)))
  {
    hide Receive, DataFrame, EncodeFrame, Unexpired;
  }

  lemma RecordStep(k: Link, s: State, l: Label, q: nat)
    requires AllRight(k, s)
    ensures var s' := Next(k, s, l);
            && (q in s'.own <==> Arrives(s, l, q, false) || (q in s.own && !Forgets(k, s, l)))
            && (q in s'.stale <==> Arrives(s, l, q, true) || (q in s.stale && !Forgets(k, s, l)))
  {
    hide Next, ReceiverRight, SenderRight, Arrives, Forgets;
    if l.Deliver? {
      if l.i < |s.sent| {
        ReceiverKeeps(k, s, l);
        SourceKnown(k, Next(k, s, l));
        Recorded(k, s, l);
      }
      RecordDelivery(k, s, l, q);
    } else {
      SourceKnown(k, s);
      RecordOther(k, s, l, q);
    }
  }

  lemma Recorded(k: Link, s: State, l: Label)
    requires l.Deliver? && l.i < |s.sent|
    ensures s.sent[l.i].number in Next(k, s, l).own || s.sent[l.i].number in Next(k, s, l).stale
  {
    hide Receive;
  }

  lemma SourceKnown(k: Link, s: State)
    requires ReceiverRight(k, s.receiver, s.others, s.own + s.stale)
    ensures Key(k) in s.receiver <==> s.own != {} || s.stale != {}
  {
    assert s.own <= s.own + s.stale && s.stale <= s.own + s.stale;
  }

  /**
   What the two records are, in terms of the labels alone: a number is in one of them exactly if
   a frame with it, of this session or of an earlier one, was delivered and no label since then
   made the receiver forget the source.
   */
  lemma {:induction false} RecordsAreArrivals(k: Link, h: Sap.SapHeader, labels: seq<Label>, q: nat)
    requires GoodLink(k)
    ensures q in Run(k, h, labels).own <==> Arrived(k, h, labels, q, false)
    ensures q in Run(k, h, labels).stale <==> Arrived(k, h, labels, q, true)
  {
    if labels == [] {
    } else {
      var front, l := labels[..|labels| - 1], labels[|labels| - 1];
      hide Next, AllRight, GoodLink, Arrived, Arrives, Forgets;
      RecordsAreArrivals(k, h, front, q);
      RunAllRight(k, h, front);
      RecordStep(k, Run(k, h, front), l, q);
      assert labels == front + [l];
      ArrivedPush(k, h, front, l, q, false);
      ArrivedPush(k, h, front, l, q, true);
    }
  }

  /**
   The receiver's answer to any frame ever sent, from the labels alone: it is rejected exactly if
   a number at least as large was delivered since the last label that made the receiver forget the
   source, and passes otherwise.
   */
  lemma RejectedExactly(k: Link, h: Sap.SapHeader, labels: seq<Label>, i: nat, now: nat)
    requires GoodLink(k) && i < |Run(k, h, labels).sent|
    ensures var s := Run(k, h, labels);
            var answer := Receive(k, s.receiver, s.sent[i].bytes, now).1;
            && (answer == Some(Processor.RejectedReplay) <==>
                exists q, late :: q >= s.sent[i].number && Arrived(k, h, labels, q, late))
            && (answer == Some(Processor.Passed) || answer == Some(Processor.RejectedReplay))
  {
    hide Run, Receive, GoodLink, Arrived;
    var s := Run(k, h, labels);
    SessionProtocol(k, h, labels, i, now);
    forall q: nat
      ensures q in s.own + s.stale <==> Arrived(k, h, labels, q, false) || Arrived(k, h, labels, q, true)
    {
      RecordsAreArrivals(k, h, labels, q);
    }
    if q: nat, late :| q >= s.sent[i].number && Arrived(k, h, labels, q, late) {
      assert q in s.own + s.stale;
      assert late == true || late == false;
    }
  }

  /**
   A duplicate passes again when a cleanup has forgotten the source in between, with no rotation
   and no late frame: send one frame, deliver it, let its TTL pass, sweep, deliver it again.
   */
  lemma DuplicateAfterSweep(k: Link, h: Sap.SapHeader, now: nat, later: nat)
    requires GoodLink(k) && later > now + k.ttl
    ensures var first := [Send([])];
            var labels := first + [Deliver(0, now)] + [Sweep(later)];
            var s0, s := Run(k, h, first), Run(k, h, labels);
            && |s0.sent| == 1 && s.sent == s0.sent && s.base == 0 && s.stale == {}
            && Receive(k, s0.receiver, s0.sent[0].bytes, now).1 == Some(Processor.Passed)
            && Receive(k, s.receiver, s.sent[0].bytes, later).1 == Some(Processor.Passed)
            && Forgets(k, Run(k, h, first + [Deliver(0, now)]), Sweep(later))
  {
    hide Run, Receive, Next, GoodLink, Exceeds, Forgets;
    var second := [Send([])] + [Deliver(0, now)];
    FirstSent(k, h);
    var s0 := Run(k, h, [Send([])]);
    RunPush(k, h, [Send([])], Deliver(0, now));
    FirstDelivered(k, s0, now);
    RunPush(k, h, second, Sweep(later));
    SweptAway(k, Run(k, h, second), now, later);
    SessionProtocol(k, h, [Send([])], 0, now);
    SessionProtocol(k, h, second + [Sweep(later)], 0, later);
    ExceedsOne(0, 0);
  }

  lemma FirstSent(k: Link, h: Sap.SapHeader)
    requires GoodLink(k)
    ensures var s := Run(k, h, [Send([])]);
            && |s.sent| == 1 && s.base == 0 && s.sent[0].number == 0 && Carries(k, s.sent[0].bytes, 0)
            && s.receiver == k.others && s.own == {} && s.stale == {}
  {
    hide Run, Next, GoodLink, Sends, Carries;
    FirstState(k, h);
    SendMany(k, h, [], 1);
    OneSend();
    SenderNumbers(k, h, [Send([])]);
  }

  lemma FirstDelivered(k: Link, s: State, now: nat)
    requires GoodLink(k) && |s.sent| == 1 && s.base == 0 && s.sent[0].number == 0 && Carries(k, s.sent[0].bytes, 0)
    requires s.receiver == k.others && s.own == {} && s.stale == {}
    ensures var s' := Next(k, s, Deliver(0, now));
            && s'.sent == s.sent && s'.base == 0 && s'.stale == {}
            && Key(k) in s'.receiver && s'.receiver[Key(k)] == Entry(0, now)
  {
    hide Receive, DataFrame, Carries, Unexpired;
    StoredNow(k, s.receiver, s.sent[0].bytes, 0, now);
  }

  lemma SweptAway(k: Link, s: State, now: nat, later: nat)
    requires Key(k) in s.receiver && s.receiver[Key(k)] == Entry(0, now) && later > now + k.ttl && s.stale == {}
    ensures var s' := Next(k, s, Sweep(later));
            && s'.sent == s.sent && s'.base == s.base && s'.own == {} && s'.stale == {}
            && Forgets(k, s, Sweep(later))
  {
    hide Receive, DataFrame;
  }

  lemma OneSend()
    ensures [] + Sends(1) == [Send([])]
  {
  }

  lemma StoredNow(k: Link, m: Entries, bytes: seq<Byte>, q: nat, now: nat)
    requires Carries(k, bytes, q) && Key(k) !in m && |m| < k.cap
    ensures Receive(k, m, bytes, now).0 == m[Key(k) := Entry(q, now)]
  {
    hide DecodeFrame;
  }

  // ----- when late frames spoil a session

  /**
   What a session is promised: its frames are judged by those of its own frames alone that were
   received since the receiver last forgot the source. So in-order first deliveries pass, and a
   duplicate is rejected unless a cleanup has forgotten the source in between.
   */
  ghost predicate Undisturbed(k: Link, s: State) {
    forall i, now: nat | s.base <= i < |s.sent| ::
      Receive(k, s.receiver, s.sent[i].bytes, now).1
      == Some(if Exceeds(i - s.base, s.own) then Processor.Passed else Processor.RejectedReplay)
  }

  /** Every late frame received was overtaken by one of this session that was received too. */
  predicate LateOvertaken(s: State) {
    forall d | d in s.stale :: exists f | f in s.own :: d <= f
  }

  /** The newest frame of the session has been received, if any was sent. */
  predicate CaughtUp(s: State) {
    s.header.seqCounter == 0 || s.header.seqCounter - 1 in s.own
  }

  /**
   Exactly when the promise holds, in every reachable state: all late frames received since the
   source was forgotten are overtaken, or no newer frame of the session is outstanding.
   */
  lemma UndisturbedExactly(k: Link, h: Sap.SapHeader, labels: seq<Label>)
    requires GoodLink(k)
    ensures var s := Run(k, h, labels); Undisturbed(k, s) <==> LateOvertaken(s) || CaughtUp(s)
  {
    hide Run, Receive, Carries, ReceiverRight;
    var s := Run(k, h, labels);
    RunAllRight(k, h, labels);
    forall i, now: nat | s.base <= i < |s.sent|
      ensures Receive(k, s.receiver, s.sent[i].bytes, now).1
              == Some(if Exceeds(i - s.base, s.own + s.stale) then Processor.Passed else Processor.RejectedReplay)
    {
      SessionProtocol(k, h, labels, i, now);
    }
    if LateOvertaken(s) || CaughtUp(s) {
      forall q | 0 <= q < s.header.seqCounter
        ensures Exceeds(q, s.own + s.stale) <==> Exceeds(q, s.own)
      {
        if CaughtUp(s) {
          assert s.header.seqCounter - 1 in s.own;
        }
      }
    } else {
      var d :| d in s.stale && forall f | f in s.own :: f < d;
      // A frame of this session that is newer than its own but not than the late one.
      var q := if d < s.header.seqCounter then d else s.header.seqCounter - 1;
      assert Exceeds(q, s.own) && d in s.own + s.stale && !Exceeds(q, s.own + s.stale);
      var i := s.base + q;
      assert Receive(k, s.receiver, s.sent[i].bytes, 0).1 == Some(Processor.RejectedReplay);
    }
  }

  /** Label `l` delivers a frame of an earlier session. */
  predicate DeliversLate(s: State, l: Label) {
    l.Deliver? && l.i < |s.sent| && l.i < s.base
  }

  lemma StaleStep(k: Link, s: State, l: Label)
    requires s.stale == {} && !DeliversLate(s, l)
    ensures Next(k, s, l).stale == {}
  {
    hide Receive, DataFrame, EncodeFrame, Unexpired;
  }

  lemma {:induction false} NoLateNoStale(k: Link, h: Sap.SapHeader, labels: seq<Label>)
    requires forall p | 0 <= p < |labels| :: !DeliversLate(Run(k, h, labels[..p]), labels[p])
    ensures Run(k, h, labels).stale == {}
  {
    if labels == [] {
    } else {
      hide Next, DeliversLate;
      var front := labels[..|labels| - 1];
      forall p | 0 <= p < |front|
        ensures !DeliversLate(Run(k, h, front[..p]), front[p])
      {
        assert front[..p] == labels[..p];
        assert !DeliversLate(Run(k, h, labels[..p]), labels[p]);
      }
      NoLateNoStale(k, h, front);
      assert !DeliversLate(Run(k, h, labels[..|labels| - 1]), labels[|labels| - 1]);
      StaleStep(k, Run(k, h, front), labels[|labels| - 1]);
    }
  }

  /** So if no frame crosses a rotation, no session is ever disturbed. */
  lemma NoCrossingUndisturbed(k: Link, h: Sap.SapHeader, labels: seq<Label>)
    requires GoodLink(k)
    requires forall p | 0 <= p < |labels| :: !DeliversLate(Run(k, h, labels[..p]), labels[p])
    ensures Undisturbed(k, Run(k, h, labels))
  {
    hide Run, Undisturbed;
    NoLateNoStale(k, h, labels);
    UndisturbedExactly(k, h, labels);
  }

  // ----- a run in which one does

  function Sends(n: nat): seq<Label> {
    if n == 0 then [] else Sends(n - 1) + [Send([])]
  }

  lemma RunPush(k: Link, h: Sap.SapHeader, labels: seq<Label>, l: Label)
    ensures Run(k, h, labels + [l]) == Next(k, Run(k, h, labels), l)
  {
    assert (labels + [l])[..|labels|] == labels;
  }

  lemma SendOne(k: Link, s: State)
    requires GoodLink(k) && s.header.sapVersion < 16 && s.machine.MaySend() && s.header.seqCounter < 65534
    ensures var s' := Next(k, s, Send([]));
            && s' == s.(sent := s'.sent, header := s'.header) && s.sent <= s'.sent && |s'.sent| == |s.sent| + 1
            && s'.header.seqCounter == s.header.seqCounter + 1
  {
    hide EncodeFrame, DecodeFrame, DataFrame, Carries;
    DataFrameArrives(k, s.header, []);
  }

  lemma {:induction false} SendMany(k: Link, h: Sap.SapHeader, labels: seq<Label>, n: nat)
    requires GoodLink(k)
    requires Run(k, h, labels).machine.MaySend() && Run(k, h, labels).header.seqCounter + n <= 65534
    ensures var s, s' := Run(k, h, labels), Run(k, h, labels + Sends(n));
            && s' == s.(sent := s'.sent, header := s'.header) && s.sent <= s'.sent && |s'.sent| == |s.sent| + n
            && s'.header.seqCounter == s.header.seqCounter + n
  {
    hide Run, Next, AllRight, GoodLink;
    if n == 0 {
      assert labels + Sends(0) == labels;
    } else {
      SendMany(k, h, labels, n - 1);
      var s' := Run(k, h, labels + Sends(n - 1));
      VersionRight(k, h, labels + Sends(n - 1));
      SendOne(k, s');
      assert labels + Sends(n) == labels + Sends(n - 1) + [Send([])];
      RunPush(k, h, labels + Sends(n - 1), Send([]));
    }
  }

  lemma VersionRight(k: Link, h: Sap.SapHeader, labels: seq<Label>)
    requires GoodLink(k)
    ensures Run(k, h, labels).header.sapVersion < 16
  {
    hide Run, Carries, ReceiverRight;
    RunAllRight(k, h, labels);
  }

  /** A whole session of 65534 frames, a rotation, and the acknowledgement. */
  function FullSession(key: Rotation.KeyRotationPayload): seq<Label> {
    [] + Sends(65534) + [Rotate(key)] + [Acknowledge]
  }

  lemma AfterFullSession(k: Link, h: Sap.SapHeader, key: Rotation.KeyRotationPayload)
    requires GoodLink(k)
    ensures var s := Run(k, h, FullSession(key));
            && |s.sent| == s.base == 65534 && s.header.seqCounter == 0 && s.machine.MaySend()
            && s.own == {} && s.stale == {}
            && forall i | 0 <= i < 65534 :: s.sent[i].number == i
  {
    hide Run, Sends, AllRight, GoodLink;
    FirstState(k, h);
    SendMany(k, h, [], 65534);
    var l1 := [] + Sends(65534);
    SenderNumbers(k, h, l1);
    RunPush(k, h, l1, Rotate(key));
    RunPush(k, h, l1 + [Rotate(key)], Acknowledge);
  }

  lemma FirstState(k: Link, h: Sap.SapHeader)
    ensures Run(k, h, []) == Init(k, h)
  {
  }

  lemma SenderNumbers(k: Link, h: Sap.SapHeader, labels: seq<Label>)
    requires GoodLink(k)
    ensures var s := Run(k, h, labels);
            && s.base <= |s.sent|
            && forall i | s.base <= i < |s.sent| ::
                 s.sent[i].number == i - s.base && Carries(k, s.sent[i].bytes, i - s.base)
  {
    hide Run, Carries, ReceiverRight;
    RunAllRight(k, h, labels);
  }

  /** One full session, `m` frames of the next, then a late delivery of frame `q` of the first. */
  function LateRun(key: Rotation.KeyRotationPayload, m: nat, q: nat, now: nat): seq<Label> {
    FullSession(key) + Sends(m) + [Deliver(q, now)]
  }

  /**
   Such a run for every frame `q`: the late frame passes, and after it frame `i` of the new
   session passes exactly if i > q and is rejected exactly if i <= q.
   */
  lemma StaleFrameBlocksSession(
      k: Link, h: Sap.SapHeader, key: Rotation.KeyRotationPayload, m: nat, q: nat, i: nat, now: nat)
    requires GoodLink(k) && q < 65534 && i < m <= 65534
    ensures var before := Run(k, h, FullSession(key) + Sends(m));
            var s := Run(k, h, LateRun(key, m, q, now));
            && q < before.base == s.base == 65534 && |s.sent| == |before.sent| == 65534 + m
            && Receive(k, before.receiver, before.sent[q].bytes, now).1 == Some(Processor.Passed)
            && Receive(k, s.receiver, s.sent[65534 + i].bytes, now).1
               == Some(if i > q then Processor.Passed else Processor.RejectedReplay)
            && s.stale == {q} && s.own == {}
  {
    hide Run, Sends, FullSession, Receive, GoodLink, Exceeds;
    AfterFullSession(k, h, key);
    SendMany(k, h, FullSession(key), m);
    var l := FullSession(key) + Sends(m);
    RunPush(k, h, l, Deliver(q, now));
    var before, s := Run(k, h, l), Run(k, h, LateRun(key, m, q, now));
    assert before.sent[q] == Run(k, h, FullSession(key)).sent[q];
    assert s.stale == {q} && s.own == {};
    SessionProtocol(k, h, l, q, now);
    SessionProtocol(k, h, LateRun(key, m, q, now), 65534 + i, now);
    ExceedsOne(q, i);
  }

  lemma ExceedsOne(q: nat, i: nat)
    ensures Exceeds(q, {} + {})
    ensures Exceeds(i, {} + {q}) <==> i > q
  {
    assert q in {} + {q};
  }

  // ----- the sender and the rotation frame

  /** The calls a run makes on the rotation machine. */
  function MachineCalls(k: Link, h: Sap.SapHeader, labels: seq<Label>): seq<Rotation.Event> {
    if labels == [] then []
    else
      var front, l := labels[..|labels| - 1], labels[|labels| - 1];
      MachineCalls(k, h, front) + match l
                                  case Rotate(key) =>
                                    if Run(k, h, front).header.seqCounter >= 65534 then [Rotation.Start(key)] else []
                                  case Timeout => [Rotation.Timeout]
                                  case Acknowledge => [Rotation.Ack]
                                  case Complete => [Rotation.Complete]
                                  case Reset => [Rotation.Reset]
                                  case _ => []
  }

  /** So all that is proved of the machine's runs holds of its state in every session. */
  lemma {:induction false} MachineRuns(k: Link, h: Sap.SapHeader, labels: seq<Label>)
    ensures Run(k, h, labels).machine == Rotation.Run(MachineCalls(k, h, labels))
  {
    if labels == [] {
    } else {
      hide Receive, DataFrame, EncodeFrame, Unexpired, Rotation.Step;
      var front, l := labels[..|labels| - 1], labels[|labels| - 1];
      MachineRuns(k, h, front);
      var calls, all := MachineCalls(k, h, front), MachineCalls(k, h, labels);
      MachineStep(k, Run(k, h, front), l);
      if |all| > |calls| {
        Rotation.RunFromPush(Rotation.NEW_MACHINE, calls, all[|calls|]);
        assert all == calls + [all[|calls|]];
      } else {
        assert all == calls;
      }
    }
  }

  lemma MachineStep(k: Link, s: State, l: Label)
    ensures var m, m' := s.machine, Next(k, s, l).machine;
            match l
            case Rotate(key) => m' == if s.header.seqCounter >= 65534 then Rotation.Step(m, Rotation.Start(key)) else m
            case Timeout => m' == Rotation.Step(m, Rotation.Timeout)
            case Acknowledge => m' == Rotation.Step(m, Rotation.Ack)
            case Complete => m' == Rotation.Step(m, Rotation.Complete)
            case Reset => m' == Rotation.Step(m, Rotation.Reset)
            case _ => m' == m
  {
    hide Receive, DataFrame, EncodeFrame, Unexpired;
  }

  /**
   When a data frame leaves, in every run: unless the machine has failed, the threshold is
   reached or the payload is too long. The machine itself lets data out while it awaits an answer;
   what stops the sender then is its own threshold rule, since rotation starts only there.
   */
  lemma SenderPauses(k: Link, h: Sap.SapHeader, labels: seq<Label>, payload: seq<Byte>)
    requires GoodLink(k)
    ensures var s := Run(k, h, labels);
            && (Next(k, s, Send(payload)) == s <==>
                !s.machine.MaySend() || s.header.seqCounter == 65534 || |payload| > MAX_PAYLOAD_SIZE)
            && (s.machine.state.Pending? ==> s.machine.MaySend() && s.header.seqCounter == 65534)
  {
    hide Run, DataFrame, EncodeFrame, DecodeFrame, Carries, ReceiverRight;
    RunAllRight(k, h, labels);
    DataFrameArrives(k, Run(k, h, labels).header, payload);
  }

  /** The rotation frame brings the key payload across unchanged. */
  lemma RotationFrameArrives(key: Rotation.KeyRotationPayload, rest: seq<Byte>)
    requires |key.newKeyEncrypted| + 12 <= MAX_PAYLOAD_SIZE
    ensures var f := New(KeyRotation, 1, 0, None, None, Rotation.EncodePayload(key));
            && f.Ok? && DecodeFrame(EncodeFrame(f.value) + rest) == f
            && Rotation.DecodePayload(f.value.payload) == Ok(key)
            && Processor.CheckedSeq(f.value) == None
  {
    hide DecodeFrame, EncodeFrame;
    FrameCodec.NewRoundTrip(KeyRotation, 1, 0, None, None, Rotation.EncodePayload(key), rest);
    Rotation.PayloadRoundTrip(key, []);
  }
}
