/**
 Bus order against log order. Sending and appending are separate accesses, so across threads
 the two orders can differ; they agree in exactly the runs in which every append is made by
 the thread whose event has waited longest.
 */
module BusOrder {
  import opened Bytes
  import opened Wrappers
  import opened AuditLog
  import opened CatastrophicManager
  import Pfp

  /** The label appends an event to the log. */
  predicate Logs(s: State, l: Label) {
    l.Go? && l.t < |s.threads| && s.threads[l.t].Sent?
  }

  /** The label sends an event on the bus. */
  predicate Sends(s: State, l: Label) {
    l.Go? && l.t < |s.threads| && s.threads[l.t].Made?
  }

  /** Where the note of thread `t` is in `w`, or its length if there is none. */
  function Position(w: seq<Note>, t: nat): (p: nat)
    ensures p <= |w| && (p < |w| ==> w[p].t == t)
    ensures forall i | 0 <= i < p :: w[i].t != t
  {
    if w == [] || w[0].t == t then 0 else 1 + Position(w[1..], t)
  }

  /** `w` without the note of thread `t`. */
  function Without(w: seq<Note>, t: nat): seq<Note> {
    var p := Position(w, t);
    if p < |w| then w[..p] + w[p + 1..] else w
  }

  function WaitingNext(s: State, l: Label, w: seq<Note>): seq<Note> {
    if Sends(s, l) then w + [Note(l.t, s.threads[l.t].event)] else if Logs(s, l) then Without(w, l.t) else w
  }

  /** The notes sent and not yet logged, the longest waiting first. */
  function Waiting(H: HashFn, cap: nat, n: nat, labels: seq<Label>): seq<Note> {
    if labels == [] then []
    else
      var front, l := labels[..|labels| - 1], labels[|labels| - 1];
      var s, w := Run(H, cap, n, front), Waiting(H, cap, n, front);
      WaitingNext(s, l, w)
  }

  predicate LongestWaiting(w: seq<Note>, t: nat) {
    w != [] && w[0].t == t
  }

  /** Every append is made by the thread that has waited longest. */
  predicate InOrder(H: HashFn, cap: nat, n: nat, labels: seq<Label>) {
    labels == []
    || (var front, l := labels[..|labels| - 1], labels[|labels| - 1];
        && InOrder(H, cap, n, front)
        && (Logs(Run(H, cap, n, front), l) ==> LongestWaiting(Waiting(H, cap, n, front), l.t)))
  }

  // ----- who is waiting

  ghost predicate Waits(w: seq<Note>, t: nat) {
    exists i :: 0 <= i < |w| && w[i].t == t
  }

  /** The queue holds each thread between send and append, with its event, once. */
  ghost predicate Queued(s: State, w: seq<Note>) {
    && (forall i | 0 <= i < |w| :: w[i].t < |s.threads| && s.threads[w[i].t] == Sent(w[i].event))
    && (forall i, j | 0 <= i < j < |w| :: w[i].t != w[j].t)
    && (forall t: nat | t < |s.threads| && s.threads[t].Sent? :: Waits(w, t))
    && |s.bus| == |s.appended| + |w|
  }

  lemma WithoutShape(w: seq<Note>, t: nat)
    requires Waits(w, t) && forall i, j | 0 <= i < j < |w| :: w[i].t != w[j].t
    ensures |Without(w, t)| == |w| - 1
    ensures forall i | 0 <= i < |Without(w, t)| :: Without(w, t)[i] in w && Without(w, t)[i].t != t
    ensures forall i, j | 0 <= i < j < |Without(w, t)| :: Without(w, t)[i].t != Without(w, t)[j].t
    ensures forall u: nat | u != t && Waits(w, u) :: Waits(Without(w, t), u)
  {
    var p, v := Position(w, t), Without(w, t);
    forall u: nat | u != t && Waits(w, u)
      ensures Waits(v, u)
    {
      var i :| 0 <= i < |w| && w[i].t == u;
      assert v[if i < p then i else i - 1].t == u;
    }
  }

  lemma QueuedSend(H: HashFn, cap: nat, s: State, l: Label, w: seq<Note>)
    requires Queued(s, w) && Sends(s, l)
    ensures Queued(Next(H, cap, s, l), w + [Note(l.t, s.threads[l.t].event)])
  {
    hide Pfp.IsCatastrophicBytes, Appended;
    var s', w' := Next(H, cap, s, l), w + [Note(l.t, s.threads[l.t].event)];
    forall t: nat | t < |s'.threads| && s'.threads[t].Sent?
      ensures Waits(w', t)
    {
      if t == l.t {
        assert w'[|w|].t == t;
      } else {
        var i :| 0 <= i < |w| && w[i].t == t;
        assert w'[i].t == t;
      }
    }
  }

  lemma QueuedLog(H: HashFn, cap: nat, s: State, l: Label, w: seq<Note>)
    requires Queued(s, w) && Logs(s, l)
    ensures Queued(Next(H, cap, s, l), Without(w, l.t))
  {
    hide Pfp.IsCatastrophicBytes, Appended, Without;
    WithoutShape(w, l.t);
  }

  lemma QueuedOther(H: HashFn, cap: nat, s: State, l: Label, w: seq<Note>)
    requires Queued(s, w) && !Sends(s, l) && !Logs(s, l)
    ensures Queued(Next(H, cap, s, l), w)
    ensures Next(H, cap, s, l).bus == s.bus && Next(H, cap, s, l).appended == s.appended
  {
    hide Pfp.IsCatastrophicBytes, Appended, EventOf, Waits;
  }

  lemma {:induction false} RunQueued(H: HashFn, cap: nat, n: nat, labels: seq<Label>)
    ensures Queued(Run(H, cap, n, labels), Waiting(H, cap, n, labels))
  {
    if labels == [] {
    } else {
      hide Next, Queued, Sends, Logs;
      var front, l := labels[..|labels| - 1], labels[|labels| - 1];
      var s, w := Run(H, cap, n, front), Waiting(H, cap, n, front);
      RunQueued(H, cap, n, front);
      if Sends(s, l) {
        QueuedSend(H, cap, s, l, w);
      } else if Logs(s, l) {
        QueuedLog(H, cap, s, l, w);
      } else {
        QueuedOther(H, cap, s, l, w);
      }
    }
  }

  // ----- when the orders agree

  /** Logging `x` keeps the orders in agreement exactly when it is next in the queue. */
  lemma LogNext(a: seq<Note>, bus: seq<Note>, w: seq<Note>, x: Note)
    requires w != [] && (a <= bus ==> bus == a + w) && (w[0].t == x.t ==> w[0] == x) && |a| < |bus|
    ensures a + [x] <= bus <==> a <= bus && w[0].t == x.t
    ensures a + [x] <= bus ==> bus == a + [x] + w[1..]
  {
    var k := |a|;
    assert (a + [x])[..k] == a && (a + [x])[k] == x;
    if a <= bus {
      assert bus[k] == w[0];
      assert a + w == a + [w[0]] + w[1..];
    }
  }

  lemma FirstLeaves(w: seq<Note>)
    requires w != []
    ensures Without(w, w[0].t) == w[1..]
  {
  }

  /** One step: the orders stay as they are, except that an append out of turn breaks them for good. */
  lemma OrderStep(H: HashFn, cap: nat, s: State, l: Label, w: seq<Note>)
    requires Queued(s, w) && (s.appended <= s.bus ==> s.bus == s.appended + w)
    ensures var s' := Next(H, cap, s, l);
            && (s'.appended <= s'.bus <==> s.appended <= s.bus && (Logs(s, l) ==> LongestWaiting(w, l.t)))
            && (s'.appended <= s'.bus ==> s'.bus == s'.appended + WaitingNext(s, l, w))
  {
    if Sends(s, l) {
      SendStep(H, cap, s, l, w);
    } else if Logs(s, l) {
      LogStep(H, cap, s, l, w);
    } else {
      QueuedOther(H, cap, s, l, w);
      hide Next, Queued;
    }
  }

  lemma SendStep(H: HashFn, cap: nat, s: State, l: Label, w: seq<Note>)
    requires Queued(s, w) && Sends(s, l) && (s.appended <= s.bus ==> s.bus == s.appended + w)
    ensures var s' := Next(H, cap, s, l);
            && (s'.appended <= s'.bus <==> s.appended <= s.bus)
            && (s'.appended <= s'.bus ==> s'.bus == s'.appended + (w + [Note(l.t, s.threads[l.t].event)]))
  {
    hide Waits;
    var x := [Note(l.t, s.threads[l.t].event)];
    assert s.appended + w + x == s.appended + (w + x);
  }

  lemma LogStep(H: HashFn, cap: nat, s: State, l: Label, w: seq<Note>)
    requires Queued(s, w) && Logs(s, l) && (s.appended <= s.bus ==> s.bus == s.appended + w)
    ensures var s' := Next(H, cap, s, l);
            && (s'.appended <= s'.bus <==> s.appended <= s.bus && LongestWaiting(w, l.t))
            && (s'.appended <= s'.bus ==> s'.bus == s'.appended + Without(w, l.t))
  {
    hide Appended, Without;
    assert Waits(w, l.t);
    LogNext(s.appended, s.bus, w, Note(l.t, s.threads[l.t].event));
    FirstLeaves(w);
  }

  /**
   Exactly when the orders agree, for every run: the log's order is a prefix of the bus's if and
   only if every append was made by the thread that had waited longest. What the bus has beyond
   the log is then what stands between send and append, longest waiting first.
   */
  lemma {:induction false} OrdersAgreeExactly(H: HashFn, cap: nat, n: nat, labels: seq<Label>)
    ensures var s := Run(H, cap, n, labels);
            && (s.appended <= s.bus <==> InOrder(H, cap, n, labels))
            && (s.appended <= s.bus ==> s.bus == s.appended + Waiting(H, cap, n, labels))
  {
    if labels == [] {
    } else {
      hide Next, Queued, Sends, Logs, Without, LongestWaiting;
      var front, l := labels[..|labels| - 1], labels[|labels| - 1];
      OrdersAgreeExactly(H, cap, n, front);
      RunQueued(H, cap, n, front);
      OrderStep(H, cap, Run(H, cap, n, front), l, Waiting(H, cap, n, front));
    }
  }

  lemma {:induction false} EventsConcat(a: seq<Note>, b: seq<Note>)
    ensures Events(a + b) == Events(a) + Events(b)
  {
    if b == [] {
      assert a + b == a;
    } else {
      var k := |b| - 1;
      assert (a + b)[..|a + b| - 1] == a + b[..k];
      EventsConcat(a, b[..k]);
    }
  }

  /** No two threads stand between send and append at once. */
  predicate OneAtATime(s: State) {
    forall t, u | 0 <= t < |s.threads| && 0 <= u < |s.threads| ::
      s.threads[t].Sent? && s.threads[u].Sent? ==> t == u
  }

  lemma {:induction false} DisjointInOrder(H: HashFn, cap: nat, n: nat, labels: seq<Label>)
    requires forall i | 0 <= i < |labels| :: OneAtATime(Run(H, cap, n, labels[..i]))
    ensures InOrder(H, cap, n, labels)
  {
    if labels == [] {
    } else {
      var front, l := labels[..|labels| - 1], labels[|labels| - 1];
      forall i | 0 <= i < |front|
        ensures OneAtATime(Run(H, cap, n, front[..i]))
      {
        assert front[..i] == labels[..i];
      }
      hide Next, Run, Waiting;
      DisjointInOrder(H, cap, n, front);
      RunQueued(H, cap, n, front);
      var s, w := Run(H, cap, n, front), Waiting(H, cap, n, front);
      assert OneAtATime(s);
      if Logs(s, l) {
        assert Waits(w, l.t);
        assert s.threads[w[0].t].Sent?;
      }
    }
  }

  lemma OneWaits(s: State, w: seq<Note>)
    requires Queued(s, w) && OneAtATime(s)
    ensures |w| <= 1
  {
    if |w| > 1 {
      TwoWait(s, w);
    }
  }

  lemma TwoWait(s: State, w: seq<Note>)
    requires Queued(s, w) && |w| > 1
    ensures !OneAtATime(s)
  {
    assert w[0].t != w[1].t;
  }

  /**
   While send and append of different threads do not overlap, the log is the bus, but for at
   most the one event between the two.
   */
  lemma DisjointOrdersAgree(H: HashFn, cap: nat, n: nat, labels: seq<Label>)
    requires forall i | 0 <= i <= |labels| :: OneAtATime(Run(H, cap, n, labels[..i]))
    ensures var s, w := Run(H, cap, n, labels), Waiting(H, cap, n, labels);
            s.bus == s.appended + w && |w| <= 1 && Events(s.bus) == Events(s.appended) + Events(w)
  {
    hide Run, Waiting, Events;
    DisjointInOrder(H, cap, n, labels);
    OrdersAgreeExactly(H, cap, n, labels);
    RunQueued(H, cap, n, labels);
    var s, w := Run(H, cap, n, labels), Waiting(H, cap, n, labels);
    assert labels[..|labels|] == labels;
    OneWaits(s, w);
    EventsConcat(s.appended, w);
  }

  // ----- when they do not

  function Crossing(a: Trigger, b: Trigger): seq<Label> {
    [] + [Handle(0, a)] + [Handle(1, b)] + [Go(0)] + [Go(1)] + [Go(1)] + [Go(0)]
  }

  /** With two or more threads the first event on the bus can be the second in the log. */
  lemma OrdersCanDiffer(H: HashFn, cap: nat, n: nat, a: Trigger, b: Trigger)
    requires n >= 2 && Pfp.IsCatastrophicBytes(a.pfpBytes) && Pfp.IsCatastrophicBytes(b.pfpBytes)
    ensures var s := Run(H, cap, n, Crossing(a, b));
            Events(s.bus) == [EventOf(a), EventOf(b)] && Events(s.appended) == [EventOf(b), EventOf(a)]
  {
    hide Pfp.IsCatastrophicBytes, Run, Events, EventOf, Next;
    var p2 := [] + [Handle(0, a)] + [Handle(1, b)];
    TwoCalls(H, cap, n, a, b);
    TwoThreads(H, cap, Run(H, cap, n, p2), EventOf(a), EventOf(b));
    RunPush(H, cap, n, p2, Go(0));
    RunPush(H, cap, n, p2 + [Go(0)], Go(1));
    RunPush(H, cap, n, p2 + [Go(0)] + [Go(1)], Go(1));
    RunPush(H, cap, n, p2 + [Go(0)] + [Go(1)] + [Go(1)], Go(0));
  }

  lemma TwoCalls(H: HashFn, cap: nat, n: nat, a: Trigger, b: Trigger)
    requires n >= 2 && Pfp.IsCatastrophicBytes(a.pfpBytes) && Pfp.IsCatastrophicBytes(b.pfpBytes)
    ensures var s := Run(H, cap, n, [] + [Handle(0, a)] + [Handle(1, b)]);
            && |s.threads| == n && s.threads[0] == Made(EventOf(a)) && s.threads[1] == Made(EventOf(b))
            && s.bus == [] && s.appended == []
  {
    assert Run(H, cap, n, []) == Init(n);
    hide Pfp.IsCatastrophicBytes, Run, EventOf;
    RunPush(H, cap, n, [], Handle(0, a));
    RunPush(H, cap, n, [] + [Handle(0, a)], Handle(1, b));
  }

  lemma TwoThreads(H: HashFn, cap: nat, s: State, x: CatastrophicEvent, y: CatastrophicEvent)
    requires |s.threads| >= 2 && s.threads[0] == Made(x) && s.threads[1] == Made(y)
    requires s.bus == [] && s.appended == []
    ensures var s4 := Next(H, cap, Next(H, cap, s, Go(0)), Go(1));
            var s6 := Next(H, cap, Next(H, cap, s4, Go(1)), Go(0));
            Events(s6.bus) == [x, y] && Events(s6.appended) == [y, x]
  {
    hide Appended, Events;
    TwoEvents(Note(0, x), Note(1, y));
    TwoEvents(Note(1, y), Note(0, x));
    var s3 := Next(H, cap, s, Go(0));
    var s4 := Next(H, cap, s3, Go(1));
    assert s4.threads[0] == Sent(x) && s4.threads[1] == Sent(y) && s4.bus == [Note(0, x), Note(1, y)];
    var s5 := Next(H, cap, s4, Go(1));
    assert s5.threads[0] == Sent(x) && s5.appended == [Note(1, y)] && s5.bus == s4.bus;
    var s6 := Next(H, cap, s5, Go(0));
    assert s6.appended == [Note(1, y), Note(0, x)] && s6.bus == s4.bus;
  }

  lemma TwoEvents(a: Note, b: Note)
    ensures Events([a, b]) == [a.event, b.event]
  {
    OfPush([], a, 0);
    OfPush([a], b, 0);
    assert [] + [a] == [a] && [a] + [b] == [a, b];
  }

  function Alarm(timestamp: U64): Trigger {
    Trigger([0xCF, 0x14, 0x0C, 0x02], None, None, [], timestamp, 0)
  }

  /** So the log's order follows the bus's in every run exactly when there is at most one thread. */
  lemma OrdersAlwaysAgree(H: HashFn, cap: nat, n: nat)
    ensures (forall labels :: Events(Run(H, cap, n, labels).appended) <= Events(Run(H, cap, n, labels).bus)) <==> n <= 1
  {
    hide Run, Events;
    if n <= 1 {
      forall labels
        ensures Events(Run(H, cap, n, labels).appended) <= Events(Run(H, cap, n, labels).bus)
      {
        forall i | 0 <= i <= |labels|
          ensures OneAtATime(Run(H, cap, n, labels[..i]))
        {
          RunThreads(H, cap, n, labels[..i]);
        }
        DisjointOrdersAgree(H, cap, n, labels);
      }
    } else {
      OrdersCanDiffer(H, cap, n, Alarm(0), Alarm(1));
      var s := Run(H, cap, n, Crossing(Alarm(0), Alarm(1)));
      assert Events(s.appended)[0].timestamp == 1 && Events(s.bus)[0].timestamp == 0;
    }
  }

  lemma {:induction false} RunThreads(H: HashFn, cap: nat, n: nat, labels: seq<Label>)
    ensures |Run(H, cap, n, labels).threads| == n
  {
    hide Pfp.IsCatastrophicBytes, Appended;
    if labels == [] {
    } else {
      RunThreads(H, cap, n, labels[..|labels| - 1]);
    }
  }
}
