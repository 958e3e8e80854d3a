/**
 Two calls in flight on one key. The guard of DashMap's `get` is shared, and the test for a new
 key and its insertion are separate, so the stored number can go down, and a number can pass
 twice while its key stays registered. With at most one thread, and only then, no run does either.
 */
module Overlap {
  import opened Bytes
  import opened Wrappers
  import opened ReplayCache
  import opened ReplaySteps
  import opened ReplayVerdicts
  import opened Replays
  import opened SingleFlight

  /** Threads 0 and 1 are where `a` and `b` say; all others are idle. */
  predicate Duo(s: State, e: map<ReplayKey, Cell>, a: Thread, b: Thread, clock: nat) {
    && |s.threads| >= 2 && s.threads[0] == a && s.threads[1] == b
    && (forall t | 2 <= t < |s.threads| :: s.threads[t] == Idle)
    && s.entries == e && s.clock == clock
  }

  /** What the thread `th` of a pair does next, if it is not blocked by the guard of the other, `other`. */
  function Act(cap: nat, e: map<ReplayKey, Cell>, th: Thread, other: Thread)
    : Option<(map<ReplayKey, Cell>, Thread, Option<Return>)>
  {
    Access(cap, State(e, [th, other], map[], 0), th)
  }

  predicate Guards(th: Thread, key: ReplayKey) {
    th.Loaded? && th.call.key == key
  }

  lemma DuoGuards(s: State, e: map<ReplayKey, Cell>, a: Thread, b: Thread, clock: nat, key: ReplayKey)
    requires Duo(s, e, a, b, clock)
    ensures Unguarded(s, key) <==> !Guards(a, key) && !Guards(b, key)
  {
    assert s.threads[0] == a && s.threads[1] == b;
  }

  lemma SameAccess(cap: nat, s: State, e: map<ReplayKey, Cell>, a: Thread, b: Thread, clock: nat)
    requires Duo(s, e, a, b, clock)
    ensures Access(cap, s, a) == Act(cap, e, a, b) && Access(cap, s, b) == Act(cap, e, b, a)
  {
    forall key
      ensures Unguarded(s, key) <==> Unguarded(State(e, [a, b], map[], 0), key)
      ensures Unguarded(s, key) <==> Unguarded(State(e, [b, a], map[], 0), key)
    {
      hide Unguarded;
      DuoGuards(s, e, a, b, clock, key);
      DuoGuards(State(e, [a, b], map[], 0), e, a, b, 0, key);
      DuoGuards(State(e, [b, a], map[], 0), e, b, a, 0, key);
    }
    hide Unguarded;
  }

  /** After `i` labels of the run, the pair stands at `a` and `b`. */
  predicate At(cap: nat, n: nat, ls: seq<Label>, i: nat, e: map<ReplayKey, Cell>, a: Thread, b: Thread) {
    i <= |ls| && Duo(StateAt(cap, n, ls, i), e, a, b, i)
  }

  lemma Step0(cap: nat, n: nat, ls: seq<Label>, i: nat, e: map<ReplayKey, Cell>, a: Thread, b: Thread)
    requires i < |ls| && ls[i] == Go(0) && At(cap, n, ls, i, e, a, b) && Act(cap, e, a, b).Some?
    ensures var r := Act(cap, e, a, b).value;
            At(cap, n, ls, i + 1, r.0, r.1, b) && Finished(cap, StateAt(cap, n, ls, i), ls[i]) == r.2
  {
    hide Access, Act, StateAt;
    StateStep(cap, n, ls, i);
    SameAccess(cap, StateAt(cap, n, ls, i), e, a, b, i);
  }

  lemma Step1(cap: nat, n: nat, ls: seq<Label>, i: nat, e: map<ReplayKey, Cell>, a: Thread, b: Thread)
    requires i < |ls| && ls[i] == Go(1) && At(cap, n, ls, i, e, a, b) && Act(cap, e, b, a).Some?
    ensures var r := Act(cap, e, b, a).value;
            At(cap, n, ls, i + 1, r.0, a, r.1) && Finished(cap, StateAt(cap, n, ls, i), ls[i]) == r.2
  {
    hide Access, Act, StateAt;
    StateStep(cap, n, ls, i);
    SameAccess(cap, StateAt(cap, n, ls, i), e, a, b, i);
  }

  lemma Call0(cap: nat, n: nat, ls: seq<Label>, i: nat, e: map<ReplayKey, Cell>, b: Thread, c: Call)
    requires i < |ls| && ls[i] == Submit(0, c.key, c.seqNo) && At(cap, n, ls, i, e, Idle, b)
    ensures At(cap, n, ls, i + 1, e, Entered(i, c), b)
  {
    hide Access, StateAt;
    StateStep(cap, n, ls, i);
  }

  lemma Call1(cap: nat, n: nat, ls: seq<Label>, i: nat, e: map<ReplayKey, Cell>, a: Thread, c: Call)
    requires i < |ls| && ls[i] == Submit(1, c.key, c.seqNo) && At(cap, n, ls, i, e, a, Idle)
    ensures At(cap, n, ls, i + 1, e, a, Entered(i, c))
  {
    hide Access, StateAt;
    StateStep(cap, n, ls, i);
  }

  lemma Begin(cap: nat, n: nat, ls: seq<Label>)
    requires n >= 2
    ensures At(cap, n, ls, 0, map[], Idle, Idle)
  {
    assert ls[..0] == [];
  }

  lemma EntriesAt(cap: nat, n: nat, ls: seq<Label>, i: nat, e: map<ReplayKey, Cell>, a: Thread, b: Thread)
    requires At(cap, n, ls, i, e, a, b)
    ensures StateAt(cap, n, ls, i).entries == e
  {
  }

  /** One thread, alone on the cache, calls for a registered key. */
  lemma CallAlone(cap: nat, n: nat, ls: seq<Label>, i: nat, was: Cell, c: Call)
    requires i + 3 <= |ls| && ls[i] == Submit(0, c.key, c.seqNo) && ls[i + 1] == ls[i + 2] == Go(0)
    requires At(cap, n, ls, i, map[c.key := was], Idle, Idle)
    ensures Finished(cap, StateAt(cap, n, ls, i + 2), ls[i + 2])
            == Some(Return(i, c, if c.seqNo > was.seqNo then Allowed else Rejected))
  {
    hide StateAt, At, Finished, Unguarded;
    var e := map[c.key := was];
    Call0(cap, n, ls, i, e, Idle, c);
    Step0(cap, n, ls, i + 1, e, Entered(i, c), Idle);
    Step0(cap, n, ls, i + 2, e, Loaded(i, c, was), Idle);
  }

  // ----- on a registered key

  /**
   Thread 0 registers `key` with v. Threads 0 and 1 call with q1 and q2, both load v, and store
   in the other order. Then thread 0 calls with q.
   */
  function LoadLoadStoreStore(key: ReplayKey, v: U16, q1: U16, q2: U16, q: U16): seq<Label> {
    [Submit(0, key, v), Go(0), Go(0), Go(0),
     Submit(0, key, q1), Submit(1, key, q2), Go(0), Go(1), Go(1), Go(0),
     Submit(0, key, q), Go(0), Go(0)]
  }

  /**
   Two overlapping calls on a registered key are both allowed, the larger number stored first
   and the smaller one over it; afterwards exactly the numbers above the smaller one pass, so
   every number in (q1, q2] passes again.
   */
  lemma OverlappingCalls(cap: nat, n: nat, key: ReplayKey, v: U16, q1: U16, q2: U16, q: U16)
    requires cap >= 1 && n >= 2 && v < q1 <= q2
    ensures var ls := LoadLoadStoreStore(key, v, q1, q2, q);
            && Finished(cap, StateAt(cap, n, ls, 8), ls[8]) == Some(Return(5, Call(key, q2), Allowed))
            && StateAt(cap, n, ls, 9).entries == map[key := Cell(q2, 5)]
            && Finished(cap, StateAt(cap, n, ls, 9), ls[9]) == Some(Return(4, Call(key, q1), Allowed))
            && StateAt(cap, n, ls, 10).entries == map[key := Cell(q1, 4)]
            && Finished(cap, StateAt(cap, n, ls, 12), ls[12])
               == Some(Return(10, Call(key, q), if q > q1 then Allowed else Rejected))
            && !SingleFlightRun(cap, n, ls)
  {
    var ls := LoadLoadStoreStore(key, v, q1, q2, q);
    var c1, c2 := Call(key, q1), Call(key, q2);
    OverlapLabels(key, v, q1, q2, q);
    hide *;
    Registered(cap, n, ls, key, v);
    BothLoad(cap, n, ls, c1, c2, Cell(v, 0));
    BothStore(cap, n, ls, c1, c2, Cell(v, 0));
    CallAlone(cap, n, ls, 10, Cell(q1, 4), Call(key, q));
  }

  lemma OverlapLabels(key: ReplayKey, v: U16, q1: U16, q2: U16, q: U16)
    ensures var ls := LoadLoadStoreStore(key, v, q1, q2, q);
            && |ls| == 13 && ls[0] == Submit(0, key, v) && ls[1] == ls[2] == ls[3] == Go(0)
            && ls[4] == Submit(0, key, q1) && ls[5] == Submit(1, key, q2)
            && ls[6] == Go(0) && ls[7] == ls[8] == Go(1) && ls[9] == Go(0)
            && ls[10] == Submit(0, key, q) && ls[11] == ls[12] == Go(0)
  {
  }

  lemma Registered(cap: nat, n: nat, ls: seq<Label>, key: ReplayKey, v: U16)
    requires cap >= 1 && n >= 2 && |ls| >= 4
    requires ls[0] == Submit(0, key, v) && ls[1] == ls[2] == ls[3] == Go(0)
    ensures At(cap, n, ls, 4, map[key := Cell(v, 0)], Idle, Idle)
  {
    hide StateAt, At, Finished, Unguarded;
    var c := Call(key, v);
    Begin(cap, n, ls);
    Call0(cap, n, ls, 0, map[], Idle, c);
    Step0(cap, n, ls, 1, map[], Entered(0, c), Idle);
    Step0(cap, n, ls, 2, map[], Missed(0, c), Idle);
    NoGuard(map[], Roomy(0, c), Idle, key);
    Step0(cap, n, ls, 3, map[], Roomy(0, c), Idle);
  }

  lemma NoGuard(e: map<ReplayKey, Cell>, a: Thread, b: Thread, key: ReplayKey)
    requires !a.Loaded? && !b.Loaded?
    ensures Unguarded(State(e, [a, b], map[], 0), key)
  {
  }

  lemma BothLoad(cap: nat, n: nat, ls: seq<Label>, c1: Call, c2: Call, was: Cell)
    requires |ls| >= 8 && c1.key == c2.key && At(cap, n, ls, 4, map[c1.key := was], Idle, Idle)
    requires ls[4] == Submit(0, c1.key, c1.seqNo) && ls[5] == Submit(1, c2.key, c2.seqNo)
    requires ls[6] == Go(0) && ls[7] == Go(1)
    ensures At(cap, n, ls, 8, map[c1.key := was], Loaded(4, c1, was), Loaded(5, c2, was))
    ensures !SingleFlightRun(cap, n, ls)
  {
    hide StateAt, At, Finished, Unguarded, SingleFlightRun;
    var e := map[c1.key := was];
    Call0(cap, n, ls, 4, e, Idle, c1);
    Call1(cap, n, ls, 5, e, Entered(4, c1), c2);
    Step0(cap, n, ls, 6, e, Entered(4, c1), Entered(5, c2));
    Step1(cap, n, ls, 7, e, Loaded(4, c1, was), Entered(5, c2));
    SharedKey(cap, n, ls, 8, e, Loaded(4, c1, was), Loaded(5, c2, was));
  }

  lemma SharedKey(cap: nat, n: nat, ls: seq<Label>, i: nat, e: map<ReplayKey, Cell>, a: Thread, b: Thread)
    requires At(cap, n, ls, i, e, a, b) && KeyOf(a).Some? && KeyOf(a) == KeyOf(b)
    ensures !SingleFlightRun(cap, n, ls)
  {
    var s := Run(cap, n, ls[..i]);
    hide Run;
    assert s.threads[0] == a && s.threads[1] == b;
    assert !OnePerKey(s);
  }

  lemma BothStore(cap: nat, n: nat, ls: seq<Label>, c1: Call, c2: Call, was: Cell)
    requires |ls| >= 10 && c1.key == c2.key && was.seqNo < c1.seqNo <= c2.seqNo && ls[8] == Go(1) && ls[9] == Go(0)
    requires At(cap, n, ls, 8, map[c1.key := was], Loaded(4, c1, was), Loaded(5, c2, was))
    ensures Finished(cap, StateAt(cap, n, ls, 8), ls[8]) == Some(Return(5, c2, Allowed))
    ensures StateAt(cap, n, ls, 9).entries == map[c1.key := Cell(c2.seqNo, 5)]
    ensures Finished(cap, StateAt(cap, n, ls, 9), ls[9]) == Some(Return(4, c1, Allowed))
    ensures StateAt(cap, n, ls, 10).entries == map[c1.key := Cell(c1.seqNo, 4)]
    ensures At(cap, n, ls, 10, map[c1.key := Cell(c1.seqNo, 4)], Idle, Idle)
  {
    hide StateAt, At, Finished, Unguarded;
    var e8, e9, e10 := map[c1.key := was], map[c1.key := Cell(c2.seqNo, 5)], map[c1.key := Cell(c1.seqNo, 4)];
    Step1(cap, n, ls, 8, e8, Loaded(4, c1, was), Loaded(5, c2, was));
    assert e8[c1.key := Cell(c2.seqNo, 5)] == e9 && e9[c1.key := Cell(c1.seqNo, 4)] == e10;
    EntriesAt(cap, n, ls, 9, e9, Loaded(4, c1, was), Idle);
    Step0(cap, n, ls, 9, e9, Loaded(4, c1, was), Idle);
    EntriesAt(cap, n, ls, 10, e10, Idle, Idle);
  }

  // ----- on a key that is being registered

  /**
   Threads 0 and 1 call with hi and lo for an absent key and both find room. Thread 0 inserts and
   returns; thread 1 inserts over it. Thread 0 calls again, with q. Then thread 1 restores, and
   thread 0 calls with r.
   */
  function Race(key: ReplayKey, hi: U16, lo: U16, q: U16, r: U16): seq<Label> {
    [Submit(0, key, hi), Submit(1, key, lo), Go(0), Go(1), Go(0), Go(1),
     Go(0), Go(1),
     Submit(0, key, q), Go(0), Go(0),
     Go(1),
     Submit(0, key, r), Go(0), Go(0)]
  }

  /**
   The registration race: the call with hi has returned Allowed, and the call with lo will be
   Rejected and put hi back, but a call made in between is measured against lo. So any number in
   (lo, hi] passes, also hi itself, which replays a completed call. And a larger number that
   passed in between is erased by the restoration: afterwards exactly the numbers above hi pass,
   so those in (hi, q] pass again.
   */
  lemma RestoreReplay(cap: nat, n: nat, key: ReplayKey, hi: U16, lo: U16, q: U16, r: U16)
    requires cap >= 1 && n >= 2 && lo <= hi
    ensures var ls := Race(key, hi, lo, q, r);
            && Finished(cap, StateAt(cap, n, ls, 6), ls[6]) == Some(Return(0, Call(key, hi), Allowed))
            && Finished(cap, StateAt(cap, n, ls, 10), ls[10])
               == Some(Return(8, Call(key, q), if q > lo then Allowed else Rejected))
            && Finished(cap, StateAt(cap, n, ls, 11), ls[11]) == Some(Return(1, Call(key, lo), Rejected))
            && StateAt(cap, n, ls, 12).entries == map[key := Cell(hi, 0)]
            && Finished(cap, StateAt(cap, n, ls, 14), ls[14])
               == Some(Return(12, Call(key, r), if r > hi then Allowed else Rejected))
  {
    var ls := Race(key, hi, lo, q, r);
    RaceLabels(key, hi, lo, q, r);
    hide *;
    BothRoomy(cap, n, ls, Call(key, hi), Call(key, lo));
    InsertOver(cap, n, ls, Call(key, hi), Call(key, lo));
    BetweenAndRestore(cap, n, ls, Call(key, q), map[key := Cell(lo, 1)], Call(key, lo), Cell(hi, 0));
    CallAlone(cap, n, ls, 12, Cell(hi, 0), Call(key, r));
  }

  lemma RaceLabels(key: ReplayKey, hi: U16, lo: U16, q: U16, r: U16)
    ensures var ls := Race(key, hi, lo, q, r);
            && |ls| == 15 && ls[0] == Submit(0, key, hi) && ls[1] == Submit(1, key, lo)
            && ls[2] == Go(0) && ls[3] == Go(1) && ls[4] == Go(0) && ls[5] == Go(1) && ls[6] == Go(0) && ls[7] == Go(1)
            && ls[8] == Submit(0, key, q) && ls[9] == ls[10] == Go(0) && ls[11] == Go(1)
            && ls[12] == Submit(0, key, r) && ls[13] == ls[14] == Go(0)
    ensures var ls := RaceWithLoss(key, hi, lo);
            && |ls| == 10 && ls[0] == Submit(0, key, hi) && ls[1] == Submit(1, key, lo)
            && ls[2] == Go(0) && ls[3] == Go(1) && ls[4] == Go(0) && ls[5] == Go(1) && ls[6] == Go(0) && ls[7] == Go(1)
            && ls[8] == Drop(key) && ls[9] == Go(1)
  {
  }

  lemma BothRoomy(cap: nat, n: nat, ls: seq<Label>, c1: Call, c2: Call)
    requires cap >= 1 && n >= 2 && |ls| >= 6 && c1.key == c2.key
    requires ls[0] == Submit(0, c1.key, c1.seqNo) && ls[1] == Submit(1, c2.key, c2.seqNo)
    requires ls[2] == ls[4] == Go(0) && ls[3] == ls[5] == Go(1)
    ensures At(cap, n, ls, 6, map[], Roomy(0, c1), Roomy(1, c2))
  {
    hide StateAt, At, Finished, Unguarded;
    Begin(cap, n, ls);
    Call0(cap, n, ls, 0, map[], Idle, c1);
    Call1(cap, n, ls, 1, map[], Entered(0, c1), c2);
    Step0(cap, n, ls, 2, map[], Entered(0, c1), Entered(1, c2));
    Step1(cap, n, ls, 3, map[], Missed(0, c1), Entered(1, c2));
    Step0(cap, n, ls, 4, map[], Missed(0, c1), Missed(1, c2));
    Step1(cap, n, ls, 5, map[], Roomy(0, c1), Missed(1, c2));
  }

  lemma InsertOver(cap: nat, n: nat, ls: seq<Label>, c1: Call, c2: Call)
    requires |ls| >= 8 && c1.key == c2.key && c2.seqNo <= c1.seqNo && ls[6] == Go(0) && ls[7] == Go(1)
    requires At(cap, n, ls, 6, map[], Roomy(0, c1), Roomy(1, c2))
    ensures Finished(cap, StateAt(cap, n, ls, 6), ls[6]) == Some(Return(0, c1, Allowed))
    ensures At(cap, n, ls, 8, map[c1.key := Cell(c2.seqNo, 1)], Idle, Restoring(1, c2, Cell(c1.seqNo, 0)))
  {
    hide StateAt, At, Finished, Unguarded;
    var e7 := map[c1.key := Cell(c1.seqNo, 0)];
    NoGuard(map[], Roomy(0, c1), Roomy(1, c2), c1.key);
    Step0(cap, n, ls, 6, map[], Roomy(0, c1), Roomy(1, c2));
    NoGuard(e7, Roomy(1, c2), Idle, c1.key);
    Step1(cap, n, ls, 7, e7, Idle, Roomy(1, c2));
    assert e7[c1.key := Cell(c2.seqNo, 1)] == map[c1.key := Cell(c2.seqNo, 1)];
  }

  lemma BetweenAndRestore(cap: nat, n: nat, ls: seq<Label>, c: Call, e8: map<ReplayKey, Cell>, c2: Call, back: Cell)
    requires |ls| >= 12 && c.key == c2.key && e8 == map[c.key := Cell(c2.seqNo, 1)]
    requires ls[8] == Submit(0, c.key, c.seqNo) && ls[9] == ls[10] == Go(0) && ls[11] == Go(1)
    requires At(cap, n, ls, 8, e8, Idle, Restoring(1, c2, back))
    ensures Finished(cap, StateAt(cap, n, ls, 10), ls[10])
            == Some(Return(8, c, if c.seqNo > c2.seqNo then Allowed else Rejected))
    ensures Finished(cap, StateAt(cap, n, ls, 11), ls[11]) == Some(Return(1, c2, Rejected))
    ensures StateAt(cap, n, ls, 12).entries == map[c.key := back]
    ensures At(cap, n, ls, 12, map[c.key := back], Idle, Idle)
  {
    hide StateAt, At, Finished, Unguarded;
    var b := Restoring(1, c2, back);
    Call0(cap, n, ls, 8, e8, b, c);
    Step0(cap, n, ls, 9, e8, Entered(8, c), b);
    Step0(cap, n, ls, 10, e8, Loaded(8, c, Cell(c2.seqNo, 1)), b);
    var e11 := if c.seqNo > c2.seqNo then e8[c.key := Cell(c.seqNo, 8)] else e8;
    NoGuard(e11, b, Idle, c.key);
    Step1(cap, n, ls, 11, e11, Idle, b);
    assert e11[c.key := back] == map[c.key := back];
    EntriesAt(cap, n, ls, 12, map[c.key := back], Idle, Idle);
  }

  /** The same race, the key lost to cleanup or clear just before the restoration. */
  function RaceWithLoss(key: ReplayKey, hi: U16, lo: U16): seq<Label> {
    [Submit(0, key, hi), Submit(1, key, lo), Go(0), Go(1), Go(0), Go(1),
     Go(0), Go(1),
     Drop(key), Go(1)]
  }

  /** The restoration undoes the loss: it registers the key again, with the number it had. */
  lemma RestoreUndoesLoss(cap: nat, n: nat, key: ReplayKey, hi: U16, lo: U16)
    requires cap >= 1 && n >= 2 && lo <= hi
    ensures var ls := RaceWithLoss(key, hi, lo);
            && StateAt(cap, n, ls, 9).entries == map[]
            && StateAt(cap, n, ls, 10).entries == map[key := Cell(hi, 0)]
            && Finished(cap, StateAt(cap, n, ls, 9), ls[9]) == Some(Return(1, Call(key, lo), Rejected))
  {
    var ls := RaceWithLoss(key, hi, lo);
    RaceLabels(key, hi, lo, 0, 0);
    hide *;
    BothRoomy(cap, n, ls, Call(key, hi), Call(key, lo));
    InsertOver(cap, n, ls, Call(key, hi), Call(key, lo));
    LoseAndRestore(cap, n, ls, map[key := Cell(lo, 1)], Call(key, lo), Cell(hi, 0));
  }

  lemma LoseAndRestore(cap: nat, n: nat, ls: seq<Label>, e8: map<ReplayKey, Cell>, c2: Call, back: Cell)
    requires |ls| >= 10 && e8 == map[c2.key := Cell(c2.seqNo, 1)] && ls[8] == Drop(c2.key) && ls[9] == Go(1)
    requires At(cap, n, ls, 8, e8, Idle, Restoring(1, c2, back))
    ensures StateAt(cap, n, ls, 9).entries == map[] && StateAt(cap, n, ls, 10).entries == map[c2.key := back]
    ensures Finished(cap, StateAt(cap, n, ls, 9), ls[9]) == Some(Return(1, c2, Rejected))
  {
    hide StateAt, At, Finished, Unguarded;
    var b := Restoring(1, c2, back);
    Lose(cap, n, ls, 8, e8, Idle, b, c2.key);
    assert e8 - {c2.key} == map[];
    EntriesAt(cap, n, ls, 9, map[], Idle, b);
    NoGuard(map[], b, Idle, c2.key);
    Step1(cap, n, ls, 9, map[], Idle, b);
    EntriesAt(cap, n, ls, 10, map[c2.key := back], Idle, Idle);
  }

  lemma Lose(cap: nat, n: nat, ls: seq<Label>, i: nat, e: map<ReplayKey, Cell>, a: Thread, b: Thread, key: ReplayKey)
    requires i < |ls| && ls[i] == Drop(key) && At(cap, n, ls, i, e, a, b) && !Guards(a, key) && !Guards(b, key)
    ensures At(cap, n, ls, i + 1, e - {key}, a, b)
  {
    hide Access, StateAt, Unguarded;
    StateStep(cap, n, ls, i);
    DuoGuards(StateAt(cap, n, ls, i), e, a, b, i, key);
  }

  // ----- exactly when no run does this

  lemma AloneIsSingleFlight(cap: nat, n: nat, labels: seq<Label>)
    requires n <= 1
    ensures SingleFlightRun(cap, n, labels)
  {
    forall i | 0 <= i <= |labels|
      ensures OnePerKey(Run(cap, n, labels[..i]))
    {
      hide Run;
      RunShape(cap, n, labels[..i]);
    }
  }

  lemma TwoThreadsLower(cap: nat, n: nat) returns (labels: seq<Label>, l: Label, key: ReplayKey)
    requires cap >= 1 && n >= 2
    ensures Lowers(cap, Run(cap, n, labels), l, key)
  {
    key := ReplayKey(0, 0);
    var ls := LoadLoadStoreStore(key, 0, 1, 2, 0);
    OverlappingCalls(cap, n, key, 0, 1, 2, 0);
    StateStep(cap, n, ls, 9);
    labels, l := ls[..9], ls[9];
    hide Run, Next, Finished, SingleFlightRun;
    assert Run(cap, n, labels).entries[key].seqNo == 2 && Next(cap, Run(cap, n, labels), l).entries[key].seqNo == 1;
  }

  /** No step of any run of `n` threads lowers a stored number. */
  ghost predicate NeverFalls(cap: nat, n: nat) {
    forall labels, l, key :: !Lowers(cap, Run(cap, n, labels), l, key)
  }

  /** That holds exactly when there is at most one thread. */
  lemma NumbersNeverFall(cap: nat, n: nat)
    requires cap >= 1
    ensures NeverFalls(cap, n) <==> n <= 1
  {
    hide Run, Lowers, SingleFlightRun;
    if n <= 1 {
      forall labels, l, key
        ensures !Lowers(cap, Run(cap, n, labels), l, key)
      {
        AloneIsSingleFlight(cap, n, labels);
        FlightNeverLowers(cap, n, labels, l, key);
      }
    } else {
      var labels, l, key := TwoThreadsLower(cap, n);
      assert Lowers(cap, Run(cap, n, labels), l, key);
    }
  }

  /** No number passes twice in any run of `n` threads while its key stays registered. */
  ghost predicate NeverPassesAgain(cap: nat, n: nat) {
    forall labels, i, j, key, q, q' :: !PassesAgain(cap, n, labels, i, j, key, q, q')
  }

  /** That too holds exactly when there is at most one thread. */
  lemma NoNumberPassesTwice(cap: nat, n: nat)
    requires cap >= 1
    ensures NeverPassesAgain(cap, n) <==> n <= 1
  {
    hide StateAt, Timely, Finished, SingleFlightRun, Forgets;
    if n <= 1 {
      forall labels, i: nat, j: nat, key, q: U16, q': U16 | i < j < |labels|
        ensures !PassesAgain(cap, n, labels, i, j, key, q, q')
      {
        AloneIsSingleFlight(cap, n, labels);
        FlightIsTimely(cap, n, labels);
        forall m | i < m <= j
          ensures TimelyAt(cap, n, labels, m)
        {
        }
        TimelyIncrease(cap, n, labels, i, j, key, q, q');
      }
    } else {
      var key := ReplayKey(0, 0);
      OverlappingCalls(cap, n, key, 0, 1, 1, 0);
      assert PassesAgain(cap, n, LoadLoadStoreStore(key, 0, 1, 1, 0), 8, 9, key, 1, 1);
    }
  }
}
