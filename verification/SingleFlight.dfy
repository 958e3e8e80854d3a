/**
 The interleavings against the sequential cache: exactly which steps are explained by an atomic
 call, exactly which lower a stored number, and that with at most one `check_and_update` or
 `remove` in flight per key every step is explained and none lowers a number.
 */
module SingleFlight {
  import opened Wrappers
  import opened ReplayCache
  import opened ReplaySteps
  import opened ReplayVerdicts
  import R = ReplayRuns

  function KeyOf(th: Thread): Option<ReplayKey> {
    if th.Idle? then None else if th.Removing? then Some(th.key) else Some(th.call.key)
  }

  /** No two threads work on one key. Cleanup and clear may run at any time. */
  predicate OnePerKey(s: State) {
    forall t, u | 0 <= t < |s.threads| && 0 <= u < |s.threads| && t != u ::
      KeyOf(s.threads[t]).Some? ==> KeyOf(s.threads[t]) != KeyOf(s.threads[u])
  }

  predicate SingleFlightRun(cap: nat, n: nat, labels: seq<Label>) {
    forall i | 0 <= i <= |labels| :: OnePerKey(Run(cap, n, labels[..i]))
  }

  /** What a thread has read still holds. */
  predicate UpToDate(e: map<ReplayKey, Cell>, th: Thread) {
    && (th.Loaded? ==> th.call.key in e && e[th.call.key] == th.seen)
    && (th.Missed? || th.Roomy? ==> th.call.key !in e)
    && !th.Restoring?
  }

  predicate Settled(s: State) {
    forall t | 0 <= t < |s.threads| :: UpToDate(s.entries, s.threads[t])
  }

  /** An access by one thread touches no entry but its key's. */
  lemma AccessLocal(cap: nat, s: State, th: Thread)
    requires Access(cap, s, th).Some? && UpToDate(s.entries, th)
    ensures var a := Access(cap, s, th).value;
            && UpToDate(a.0, a.1)
            && (forall k | Some(k) != KeyOf(th) ::
                  (k in a.0 <==> k in s.entries) && (k in a.0 ==> a.0[k] == s.entries[k]))
  {
  }

  lemma SettledGo(cap: nat, s: State, t: nat)
    requires Settled(s) && OnePerKey(s) && t < |s.threads| && Access(cap, s, s.threads[t]).Some?
    ensures Settled(Next(cap, s, Go(t)))
  {
    hide Access;
    AccessLocal(cap, s, s.threads[t]);
    var s' := Next(cap, s, Go(t));
    forall u | 0 <= u < |s.threads|
      ensures UpToDate(s'.entries, s'.threads[u])
    {
      assert UpToDate(s.entries, s.threads[u]);
      if u != t && KeyOf(s.threads[u]).Some? {
        assert KeyOf(s.threads[u]) != KeyOf(s.threads[t]);
      }
    }
  }

  lemma SettledNext(cap: nat, s: State, l: Label)
    requires Settled(s) && OnePerKey(s)
    ensures Settled(Next(cap, s, l))
  {
    hide Access;
    if l.Go? && l.t < |s.threads| && Access(cap, s, s.threads[l.t]).Some? {
      SettledGo(cap, s, l.t);
    } else {
      var s' := Next(cap, s, l);
      forall u | 0 <= u < |s.threads|
        ensures UpToDate(s'.entries, s'.threads[u])
      {
        assert UpToDate(s.entries, s.threads[u]);
      }
    }
  }

  /** The cache content as the sequential model sees it; times play no part here. */
  function Abs(s: State): Entries {
    map k | k in s.entries :: Entry(s.entries[k].seqNo, 0)
  }

  /** The sequential call that takes effect at this step. Calls answered "full" have none. */
  function Effect(cap: nat, s: State, l: Label): Option<R.Op> {
    match l
    case Go(t) =>
      if t < |s.threads| && Access(cap, s, s.threads[t]).Some? then
        var f := Finished(cap, s, l);
        if f.Some? then
          if f.value.verdict == CacheFull then None else Some(R.Submit(f.value.call.key, f.value.call.seqNo))
        else if s.threads[t].Removing? then Some(R.Remove(s.threads[t].key))
        else None
      else None
    case Drop(key) => if Unguarded(s, key) then Some(R.Remove(key)) else None
    case Submit(_, _, _) => None
    case Remove(_, _) => None
  }

  /** What the caller of that sequential call is told. */
  function Told(cap: nat, s: State, l: Label): R.Outcome
    requires Effect(cap, s, l).Some?
  {
    match Effect(cap, s, l).value
    case Submit(_, _) => R.Judged(Finished(cap, s, l).value.verdict)
    case Remove(key) => R.Removed(key in s.entries)
    case _ => R.Cleared
  }

  lemma AbsSize(s: State)
    ensures |Abs(s)| == |s.entries|
  {
    assert Abs(s).Keys == s.entries.Keys;
    assert |Abs(s).Keys| == |Abs(s)| && |s.entries.Keys| == |s.entries|;
  }

  /**
   What the acting thread has read still decides as the cache does now: a loaded number compares
   alike, a missed key is still missing (or was registered with no more than the call carries, so
   that inserting over it is a hit), and a displaced number to be put back is the stored one.
   A thread blocked by a guard does nothing.
   */
  predicate Timely(cap: nat, s: State, l: Label) {
    l.Go? && l.t < |s.threads| ==>
      var e := s.entries;
      match s.threads[l.t]
      case Loaded(_, c, seen) => c.key in e && (c.seqNo <= seen.seqNo <==> c.seqNo <= e[c.key].seqNo)
      case Missed(_, c) => |e| >= cap ==> c.key !in e
      case Roomy(_, c) => Unguarded(s, c.key) && c.key in e ==> c.seqNo >= e[c.key].seqNo
      case Restoring(_, c, back) =>
        Unguarded(s, c.key) ==> c.key in e && e[c.key].seqNo == back.seqNo && c.seqNo <= back.seqNo
      case _ => true
  }

  /** The step is a stutter or one sequential call with the same answer, "full" included. */
  predicate Explained(cap: nat, s: State, l: Label) {
    var c := R.Config(cap + |s.threads|, 0);
    var s', op, done := Next(cap, s, l), Effect(cap, s, l), Finished(cap, s, l);
    && (if op.None? then Abs(s') == Abs(s)
        else
          && Abs(s') == R.Next(c, Abs(s), R.At(0, op.value))
          && Told(cap, s, l) == R.Answer(c, Abs(s), R.At(0, op.value)))
    && (done.Some? && done.value.verdict == CacheFull ==>
          Check(Abs(s), cap, done.value.call.key, done.value.call.seqNo, 0).1 == CacheFull)
  }

  lemma SettledTimely(cap: nat, s: State, l: Label)
    requires Settled(s)
    ensures Timely(cap, s, l)
  {
    hide Unguarded;
    if l.Go? && l.t < |s.threads| {
      assert UpToDate(s.entries, s.threads[l.t]);
    }
  }

  /** The access of a call that finishes, seen as one sequential call. */
  lemma FinishIsAtomic(cap: nat, s: State, t: nat)
    requires t < |s.threads| && Finished(cap, s, Go(t)).Some?
    requires Timely(cap, s, Go(t)) && WithinBound(cap, s)
    ensures var r := Finished(cap, s, Go(t)).value;
            var key, q := r.call.key, r.call.seqNo;
            var room := cap + |s.threads|;
            && (r.verdict != CacheFull ==> Check(Abs(s), room, key, q, 0) == (Abs(Next(cap, s, Go(t))), r.verdict))
            && (r.verdict == CacheFull ==>
                  && Next(cap, s, Go(t)).entries == s.entries
                  && Check(Abs(s), cap, key, q, 0) == (Abs(s), CacheFull))
            && (r.verdict == Check(Abs(s), cap, key, q, 0).1
                || (r.verdict == Allowed && key !in Abs(s) && cap <= |Abs(s)| < cap - 1 + |s.threads|))
  {
    hide Unguarded, WithinBound;
    AbsSize(s);
    var th := s.threads[t];
    if th.Roomy? { RoomyRoom(cap, s, t); }
    assert Abs(Next(cap, s, Go(t))) == Abs(s)
           || Abs(Next(cap, s, Go(t))) == Abs(s)[th.call.key := Entry(th.call.seqNo, 0)];
  }

  lemma RoomyRoom(cap: nat, s: State, t: nat)
    requires t < |s.threads| && s.threads[t].Roomy? && WithinBound(cap, s)
    ensures |s.entries| + 1 < cap + |s.threads|
  {
    InsertingUpdate(s.threads, t, Idle);
  }

  /** A timely step is explained by the sequential cache. */
  lemma StepRefines(cap: nat, s: State, l: Label)
    requires Timely(cap, s, l) && WithinBound(cap, s)
    ensures Explained(cap, s, l)
  {
    if Finished(cap, s, l).Some? {
      FinishIsAtomic(cap, s, l.t);
      hide Access, Next, Abs, Check, Timely, WithinBound;
    } else {
      QuietRefines(cap, s, l);
    }
  }

  lemma QuietRefines(cap: nat, s: State, l: Label)
    requires Timely(cap, s, l) && Finished(cap, s, l).None?
    ensures Explained(cap, s, l)
  {
    QuietEntries(cap, s, l);
    var s', op := Next(cap, s, l), Effect(cap, s, l);
    hide Access, Next, Timely, Effect;
    if op.Some? {
      assert Told(cap, s, l) == R.Removed(op.value.key in s.entries);
      hide Told;
      RemoveRefines(R.Config(cap + |s.threads|, 0), s, s', op.value.key);
    } else {
      SameAbs(s, s');
    }
  }

  lemma RemoveRefines(c: R.Config, s: State, s': State, key: ReplayKey)
    requires s'.entries == s.entries - {key}
    ensures Abs(s') == R.Next(c, Abs(s), R.At(0, R.Remove(key)))
    ensures R.Removed(key in s.entries) == R.Answer(c, Abs(s), R.At(0, R.Remove(key)))
  {
    assert Abs(s') == Abs(s) - {key};
  }

  lemma SameAbs(s: State, s': State)
    requires s'.entries.Keys == s.entries.Keys
    requires forall k | k in s.entries :: s'.entries[k].seqNo == s.entries[k].seqNo
    ensures Abs(s') == Abs(s)
  {
  }

  /** A timely step that finishes no call deletes at most the key of its effect and changes no number. */
  lemma QuietEntries(cap: nat, s: State, l: Label)
    requires Timely(cap, s, l) && Finished(cap, s, l).None?
    ensures var op, e, e' := Effect(cap, s, l), s.entries, Next(cap, s, l).entries;
            && (op.Some? ==> op.value.Remove? && e' == e - {op.value.key})
            && (op.None? ==> e'.Keys == e.Keys && forall k | k in e :: e'[k].seqNo == e[k].seqNo)
  {
    hide Unguarded;
    if l.Go? && l.t < |s.threads| && s.threads[l.t].Roomy? {
      var c := s.threads[l.t].call;
      assert c.key in s.entries ==> s.entries[c.key := Cell(c.seqNo, s.threads[l.t].id)].Keys == s.entries.Keys;
    }
  }

  /** An untimely step is not: it changes a number, or answers, as no sequential call would. */
  lemma UntimelyUnexplained(cap: nat, s: State, l: Label)
    requires !Timely(cap, s, l) && GuardsHold(s)
    ensures !Explained(cap, s, l)
  {
    hide Unguarded;
    var th, s' := s.threads[l.t], Next(cap, s, l);
    var key := th.call.key;
    AbsSize(s);
    assert key in s.entries ==> Abs(s)[key].lastSeq == s.entries[key].seqNo;
    assert key in s'.entries ==> Abs(s')[key].lastSeq == s'.entries[key].seqNo;
  }

  /** Exactly when a step of a run is explained by the sequential cache: when it is timely. */
  lemma ExplainedExactly(cap: nat, n: nat, labels: seq<Label>, l: Label)
    requires cap >= 1
    ensures Explained(cap, Run(cap, n, labels), l) <==> Timely(cap, Run(cap, n, labels), l)
  {
    hide Run, Explained, Timely;
    BoundRun(cap, n, labels);
    if Timely(cap, Run(cap, n, labels), l) {
      StepRefines(cap, Run(cap, n, labels), l);
    } else {
      UntimelyUnexplained(cap, Run(cap, n, labels), l);
    }
  }

  /** The sequential run: the calls that took effect, in the order they did. */
  function Linear(cap: nat, n: nat, labels: seq<Label>): seq<R.Timed> {
    if labels == [] then []
    else
      var front, l := labels[..|labels| - 1], labels[|labels| - 1];
      var op := Effect(cap, Run(cap, n, front), l);
      Linear(cap, n, front) + if op.Some? then [R.At(0, op.value)] else []
  }

  function AllTold(cap: nat, n: nat, labels: seq<Label>): seq<R.Outcome> {
    if labels == [] then []
    else
      var front, l := labels[..|labels| - 1], labels[|labels| - 1];
      var s := Run(cap, n, front);
      AllTold(cap, n, front) + if Effect(cap, s, l).Some? then [Told(cap, s, l)] else []
  }

  const EVERY_KEY: R.KeySet := (_: ReplayKey) => true

  lemma {:induction false} SettledRun(cap: nat, n: nat, labels: seq<Label>)
    requires SingleFlightRun(cap, n, labels)
    ensures Settled(Run(cap, n, labels))
  {
    if labels == [] {
    } else {
      var front := labels[..|labels| - 1];
      FlightPrefix(cap, n, labels);
      SettledRun(cap, n, front);
      SettledNext(cap, Run(cap, n, front), labels[|labels| - 1]);
    }
  }

  lemma FlightPrefix(cap: nat, n: nat, labels: seq<Label>)
    requires SingleFlightRun(cap, n, labels) && labels != []
    ensures SingleFlightRun(cap, n, labels[..|labels| - 1])
    ensures OnePerKey(Run(cap, n, labels[..|labels| - 1]))
  {
    var front := labels[..|labels| - 1];
    forall i | 0 <= i <= |front|
      ensures OnePerKey(Run(cap, n, front[..i]))
    {
      assert front[..i] == labels[..i];
    }
    assert front[..|front|] == front;
  }

  /** Every step of the run is timely. */
  predicate TimelyRun(cap: nat, n: nat, labels: seq<Label>) {
    forall i | 0 <= i < |labels| :: Timely(cap, StateAt(cap, n, labels, i), labels[i])
  }

  lemma TimelyFront(cap: nat, n: nat, labels: seq<Label>)
    requires TimelyRun(cap, n, labels) && labels != []
    ensures TimelyRun(cap, n, labels[..|labels| - 1])
    ensures Timely(cap, Run(cap, n, labels[..|labels| - 1]), labels[|labels| - 1])
  {
    hide Run, Timely;
    var front := labels[..|labels| - 1];
    assert Timely(cap, StateAt(cap, n, labels, |front|), labels[|front|]);
    forall i | 0 <= i < |front|
      ensures Timely(cap, StateAt(cap, n, front, i), front[i])
    {
      assert front[..i] == labels[..i];
      assert Timely(cap, StateAt(cap, n, labels, i), labels[i]);
    }
  }

  /**
   Refinement: in a run of timely steps the calls that took effect, replayed one after the other
   on the sequential cache (with room for the n threads past the limit), get the same answers
   and leave the same content. Only calls answered "full" are left out.
   */
  lemma {:induction false} TimelyLinearizable(cap: nat, n: nat, labels: seq<Label>)
    requires cap >= 1 && TimelyRun(cap, n, labels)
    ensures var c := R.Config(cap + n, 0);
            && R.Run(c, Linear(cap, n, labels)) == Abs(Run(cap, n, labels))
            && R.AnswersFor(c, Linear(cap, n, labels), EVERY_KEY) == AllTold(cap, n, labels)
  {
    hide Effect, Told, Next, Timely, TimelyRun, WithinBound, R.Next, R.Answer;
    if labels == [] {
    } else {
      var front, l := labels[..|labels| - 1], labels[|labels| - 1];
      var s := Run(cap, n, front);
      TimelyFront(cap, n, labels);
      TimelyLinearizable(cap, n, front);
      BoundRun(cap, n, front);
      RunShape(cap, n, front);
      StepRefines(cap, s, l);
      EffectKinds(cap, s, l);
      var ops := Linear(cap, n, front);
      if Effect(cap, s, l).Some? {
        var t := R.At(0, Effect(cap, s, l).value);
        assert Linear(cap, n, labels) == ops + [t];
        assert (ops + [t])[..|ops|] == ops;
      } else {
        assert Linear(cap, n, labels) == ops;
        assert AllTold(cap, n, labels) == AllTold(cap, n, front);
      }
    }
  }

  lemma EffectKinds(cap: nat, s: State, l: Label)
    ensures Effect(cap, s, l).Some? ==> Effect(cap, s, l).value.Submit? || Effect(cap, s, l).value.Remove?
  {
    hide Access;
  }

  lemma FlightTake(cap: nat, n: nat, labels: seq<Label>, m: nat)
    requires SingleFlightRun(cap, n, labels) && m <= |labels|
    ensures SingleFlightRun(cap, n, labels[..m])
  {
    hide Run, OnePerKey;
    forall i | 0 <= i <= m
      ensures OnePerKey(Run(cap, n, labels[..m][..i]))
    {
      assert labels[..m][..i] == labels[..i];
    }
  }

  lemma SettledAt(cap: nat, n: nat, labels: seq<Label>, m: nat)
    requires SingleFlightRun(cap, n, labels) && m <= |labels|
    ensures Settled(StateAt(cap, n, labels, m))
  {
    hide Run, Settled, SingleFlightRun;
    FlightTake(cap, n, labels, m);
    SettledRun(cap, n, labels[..m]);
  }

  lemma FlightIsTimely(cap: nat, n: nat, labels: seq<Label>)
    requires SingleFlightRun(cap, n, labels)
    ensures TimelyRun(cap, n, labels)
  {
    hide Run, Timely, SingleFlightRun;
    forall i | 0 <= i < |labels|
      ensures Timely(cap, StateAt(cap, n, labels, i), labels[i])
    {
      SettledAt(cap, n, labels, i);
      SettledTimely(cap, StateAt(cap, n, labels, i), labels[i]);
    }
  }

  /** Single-flight refinement: one call per key in flight makes every step timely. */
  lemma Linearizable(cap: nat, n: nat, labels: seq<Label>)
    requires cap >= 1 && SingleFlightRun(cap, n, labels)
    ensures var c := R.Config(cap + n, 0);
            && R.Run(c, Linear(cap, n, labels)) == Abs(Run(cap, n, labels))
            && R.AnswersFor(c, Linear(cap, n, labels), EVERY_KEY) == AllTold(cap, n, labels)
  {
    FlightIsTimely(cap, n, labels);
    TimelyLinearizable(cap, n, labels);
  }

  lemma {:induction false} LinearTimes(cap: nat, n: nat, labels: seq<Label>)
    ensures forall i | 0 <= i < |Linear(cap, n, labels)| :: Linear(cap, n, labels)[i].now == 0
  {
    hide Effect, Next;
    if labels == [] {
    } else {
      LinearTimes(cap, n, labels[..|labels| - 1]);
    }
  }

  /**
   So with single flight the reference history of the sequential run strictly increases per
   key, and the cache holds the last of it.
   */
  lemma LinearHistory(cap: nat, n: nat, labels: seq<Label>, key: ReplayKey)
    requires cap >= 1 && SingleFlightRun(cap, n, labels)
    ensures var a := R.Accepted(R.RefRun(R.Config(cap + n, 0), Linear(cap, n, labels)), key);
            var e := Run(cap, n, labels).entries;
            && (forall i, j | 0 <= i < j < |a| :: a[i].seqNo < a[j].seqNo)
            && (key in e <==> a != [])
            && (key in e ==> e[key].seqNo == a[|a| - 1].seqNo)
  {
    hide R.Run, R.RefRun, Linear, Run, OnePerKey, SingleFlightRun;
    var c, ops := R.Config(cap + n, 0), Linear(cap, n, labels);
    Linearizable(cap, n, labels);
    LinearTimes(cap, n, labels);
    assert R.MonotoneClock(ops);
    hide R.MonotoneClock;
    R.ReplaySafety(c, ops, key);
    assert key in Abs(Run(cap, n, labels)) <==> key in Run(cap, n, labels).entries;
  }

  // ----- the stored number

  /** The step lowers the number stored for `key`. */
  predicate Lowers(cap: nat, s: State, l: Label, key: ReplayKey) {
    var e, e' := s.entries, Next(cap, s, l).entries;
    key in e && key in e' && e'[key].seqNo < e[key].seqNo
  }

  /** The thread about to act stores, or puts back, less than is there: what it has read is out of date. */
  predicate ActsOnStale(s: State, l: Label, key: ReplayKey) {
    && l.Go? && l.t < |s.threads| && key in s.entries
    && var th, now := s.threads[l.t], s.entries[key].seqNo;
    && KeyOf(th) == Some(key)
    && (
       || (th.Loaded? && th.seen.seqNo < th.call.seqNo < now)
       || (th.Roomy? && Unguarded(s, key) && th.call.seqNo < now)
       || (th.Restoring? && Unguarded(s, key) && th.displaced.seqNo < now))
  }

  /**
   Exactly when a stored number goes down, from any state: a store over a number that grew since
   it was loaded, an insertion over a larger number that came in since the key was missed, or a
   restoration over a number that grew since the displacement.
   */
  lemma LowersExactly(cap: nat, s: State, l: Label, key: ReplayKey)
    ensures Lowers(cap, s, l, key) <==> ActsOnStale(s, l, key)
  {
    hide Unguarded;
    if l.Go? && l.t < |s.threads| {
      match s.threads[l.t] {
        case Loaded(_, _, _) =>
        case Roomy(_, _) =>
        case Restoring(_, _, _) =>
        case _ =>
      }
    }
  }

  /** With one call per key in flight, none of this happens. */
  lemma FlightNeverLowers(cap: nat, n: nat, labels: seq<Label>, l: Label, key: ReplayKey)
    requires SingleFlightRun(cap, n, labels)
    ensures !Lowers(cap, Run(cap, n, labels), l, key)
  {
    var s := Run(cap, n, labels);
    SettledRun(cap, n, labels);
    LowersExactly(cap, s, l, key);
    hide Run, Lowers, SingleFlightRun;
    if l.Go? && l.t < |s.threads| {
      assert UpToDate(s.entries, s.threads[l.t]);
    }
  }
}
