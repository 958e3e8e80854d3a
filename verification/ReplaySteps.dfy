/**
 `check_and_update`, `remove`, `clear` and `cleanup_expired` interleaved by `n` threads, one
 atomic access at a time (src/replay_cache.rs:155-193, 220-235).

 - `get` takes a shared guard that is kept while the found entry is loaded and stored to,
   so two calls that hit the same key may interleave their loads and stores.
 - `insert`, `remove` and each deletion by `retain` or `clear` need the key unguarded.
 - `len()` is one atomic read.
 - Cleanup and `clear` delete entry by entry, whenever they like: `Drop`. That covers every
   set of entries they may find expired, and passes that are not atomic.

 A label that is not enabled changes nothing, so every label sequence is a run.
 */
module ReplaySteps {
  import opened Bytes
  import opened Collections
  import opened Wrappers
  import opened ReplayCache

  /** A stored number, and the call that stored it. No step looks at `writer`. */
  datatype Cell = Cell(seqNo: U16, writer: nat)

  datatype Call = Call(key: ReplayKey, seqNo: U16)

  datatype Thread =
    | Idle
    | Entered(id: nat, call: Call)
      /** `get` found an entry; its guard is held and its number has been loaded. */
    | Loaded(id: nat, call: Call, seen: Cell)
      /** `get` found nothing. */
    | Missed(id: nat, call: Call)
      /** `len()` was below the capacity. */
    | Roomy(id: nat, call: Call)
      /** `insert` displaced an entry at least as new: it will be put back. */
    | Restoring(id: nat, call: Call, displaced: Cell)
    | Removing(key: ReplayKey)
  {
    /** In a `check_and_update` call, which has the number `id`. */
    predicate InCall() {
      !Idle? && !Removing?
    }
  }

  datatype State = State(
    entries: map<ReplayKey, Cell>,
    threads: seq<Thread>,
    /** The `check_and_update` calls begun so far, by number; a record only. */
    calls: map<nat, Call>,
    /** How many labels have been taken; a call is numbered by its first label. */
    clock: nat)

  datatype Label =
    | Submit(t: nat, key: ReplayKey, seqNo: U16)
    | Remove(t: nat, key: ReplayKey)
    | Go(t: nat)
    | Drop(key: ReplayKey)

  datatype Return = Return(id: nat, call: Call, verdict: Verdict)

  predicate Unguarded(s: State, key: ReplayKey) {
    forall t | 0 <= t < |s.threads| :: s.threads[t].Loaded? ==> s.threads[t].call.key != key
  }

  function Init(n: nat): State {
    State(map[], seq(n, _ => Idle), map[], 0)
  }

  /** What one access of thread `t` does, if it is enabled: new entries, new thread state, value returned. */
  function Access(cap: nat, s: State, th: Thread): Option<(map<ReplayKey, Cell>, Thread, Option<Return>)> {
    var e := s.entries;
    match th
    case Idle => None
    case Entered(id, c) =>
      if c.key in e then Some((e, Loaded(id, c, e[c.key]), None)) else Some((e, Missed(id, c), None))
    case Loaded(id, c, seen) =>
      if c.seqNo <= seen.seqNo
      then Some((e, Idle, Some(Return(id, c, Rejected))))
      else Some((e[c.key := Cell(c.seqNo, id)], Idle, Some(Return(id, c, Allowed))))
    case Missed(id, c) =>
      if |e| >= cap then Some((e, Idle, Some(Return(id, c, CacheFull)))) else Some((e, Roomy(id, c), None))
    case Roomy(id, c) =>
      if !Unguarded(s, c.key) then None
      else
        var inserted := e[c.key := Cell(c.seqNo, id)];
        if c.key in e && c.seqNo <= e[c.key].seqNo
        then Some((inserted, Restoring(id, c, e[c.key]), None))
        else Some((inserted, Idle, Some(Return(id, c, Allowed))))
    case Restoring(id, c, displaced) =>
      if !Unguarded(s, c.key) then None
      else Some((e[c.key := displaced], Idle, Some(Return(id, c, Rejected))))
    case Removing(key) =>
      if !Unguarded(s, key) then None else Some((e - {key}, Idle, None))
  }

  function Next(cap: nat, s: State, l: Label): State {
    var s1 := s.(clock := s.clock + 1);
    match l
    case Submit(t, key, seqNo) =>
      if t < |s.threads| && s.threads[t].Idle?
      then s1.(threads := s.threads[t := Entered(s.clock, Call(key, seqNo))],
               calls := s.calls[s.clock := Call(key, seqNo)])
      else s1
    case Remove(t, key) =>
      if t < |s.threads| && s.threads[t].Idle? then s1.(threads := s.threads[t := Removing(key)]) else s1
    case Go(t) =>
      if t < |s.threads| && Access(cap, s, s.threads[t]).Some?
      then
        var a := Access(cap, s, s.threads[t]).value;
        s1.(entries := a.0, threads := s.threads[t := a.1])
      else s1
    case Drop(key) =>
      if Unguarded(s, key) then s1.(entries := s.entries - {key}) else s1
  }

  /** The call that label `l` finishes, with its verdict. */
  function Finished(cap: nat, s: State, l: Label): Option<Return> {
    if l.Go? && l.t < |s.threads| && Access(cap, s, s.threads[l.t]).Some?
    then Access(cap, s, s.threads[l.t]).value.2
    else None
  }

  /**
   What the shared guard does: while some thread holds it on `key`, nothing but the store of a
   guard holder changes the entry; inserting, restoring, removing and dropping wait.
   */
  lemma GuardProtects(cap: nat, s: State, l: Label, key: ReplayKey)
    requires !Unguarded(s, key)
    ensures var e, e' := s.entries, Next(cap, s, l).entries;
            || ((key in e <==> key in e') && (key in e ==> e[key] == e'[key]))
            || (l.Go? && l.t < |s.threads| && s.threads[l.t].Loaded? && s.threads[l.t].call.key == key)
  {
    hide Unguarded;
    if l.Go? && l.t < |s.threads| && Access(cap, s, s.threads[l.t]).Some? {
      GuardedAccess(cap, s, s.threads[l.t], key);
      hide Access;
    } else {
      hide Access;
    }
  }

  lemma GuardedAccess(cap: nat, s: State, th: Thread, key: ReplayKey)
    requires !Unguarded(s, key) && Access(cap, s, th).Some?
    ensures var e, e' := s.entries, Access(cap, s, th).value.0;
            ((key in e <==> key in e') && (key in e ==> e[key] == e'[key])) || (th.Loaded? && th.call.key == key)
  {
    hide Unguarded;
  }

  /** A thread is blocked exactly if it is idle, or needs its key exclusively while a guard is held on it. */
  lemma BlockedExactly(cap: nat, s: State, th: Thread)
    ensures Access(cap, s, th).None? <==>
            || th.Idle?
            || ((th.Roomy? || th.Restoring?) && !Unguarded(s, th.call.key))
            || (th.Removing? && !Unguarded(s, th.key))
  {
    hide Unguarded;
  }

  /**
   Which access ends a `check_and_update`: the compare of a hit, the full answer, an insertion that
   is not undone, and the restoration. Looking up the key and reading the size change nothing, the
   other accesses at most the call's key.
   */
  lemma CallEnds(cap: nat, s: State, th: Thread)
    requires th.InCall() && Access(cap, s, th).Some?
    ensures var a, e, q := Access(cap, s, th).value, s.entries, th.call.seqNo;
            && (a.2.Some? <==>
                || th.Loaded? || (th.Missed? && |e| >= cap) || th.Restoring?
                || (th.Roomy? && (th.call.key in e ==> q > e[th.call.key].seqNo)))
            && (a.2.Some? <==> a.1 == Idle)
            && (a.2.Some? ==> a.2.value.id == th.id && a.2.value.call == th.call)
            && (th.Entered? || th.Missed? ==> a.0 == e)
            && (forall k | k != th.call.key :: (k in a.0 <==> k in e) && (k in e ==> a.0[k] == e[k]))
  {
    hide Unguarded;
  }

  /**
   What a removal does when no guard stands against it: the key goes and nothing else. Likewise
   for the loss of one entry to cleanup or clear.
   */
  lemma RemovalRemoves(cap: nat, s: State, t: nat, key: ReplayKey)
    requires t < |s.threads| && s.threads[t].Idle? && Unguarded(s, key)
    ensures var s2 := Next(cap, Next(cap, s, Remove(t, key)), Go(t));
            s2.entries == s.entries - {key} && s2.threads == s.threads && s2.calls == s.calls
    ensures var s1 := Next(cap, s, Drop(key));
            s1.entries == s.entries - {key} && s1.threads == s.threads && s1.calls == s.calls
  {
    var s1 := Next(cap, s, Remove(t, key));
    assert s1.threads[t] == Removing(key) && Unguarded(s1, key);
    hide Unguarded;
    assert Next(cap, s1, Go(t)).threads == s.threads;
  }

  function Run(cap: nat, n: nat, labels: seq<Label>): State {
    if labels == [] then Init(n) else Next(cap, Run(cap, n, labels[..|labels| - 1]), labels[|labels| - 1])
  }

  lemma RunAppend(cap: nat, n: nat, labels: seq<Label>, l: Label)
    ensures Run(cap, n, labels + [l]) == Next(cap, Run(cap, n, labels), l)
  {
    assert (labels + [l])[..|labels|] == labels;
  }

  lemma {:induction false} RunShape(cap: nat, n: nat, labels: seq<Label>)
    ensures |Run(cap, n, labels).threads| == n
    ensures Run(cap, n, labels).clock == |labels|
  {
    if labels == [] {
    } else {
      RunShape(cap, n, labels[..|labels| - 1]);
    }
  }

  // ----- how many entries there can be

  /** One insertion is still due. */
  function Weight(th: Thread): nat {
    if th.Roomy? || th.Restoring? then 1 else 0
  }

  /** Threads that have passed the capacity test and not yet made their last insertion. */
  function Inserting(threads: seq<Thread>): (c: nat)
    ensures c <= |threads|
  {
    if threads == [] then 0 else Inserting(threads[..|threads| - 1]) + Weight(threads[|threads| - 1])
  }

  lemma {:induction false} InsertingUpdate(threads: seq<Thread>, t: nat, th: Thread)
    requires t < |threads|
    ensures Inserting(threads[t := th]) == Inserting(threads) - Weight(threads[t]) + Weight(th)
  {
    var k := |threads| - 1;
    if t < k {
      assert threads[t := th][..k] == threads[..k][t := th];
      InsertingUpdate(threads[..k], t, th);
    } else {
      assert threads[t := th][..k] == threads[..k];
    }
  }

  predicate WithinBound(cap: nat, s: State) {
    |s.entries| + Inserting(s.threads) < cap + |s.threads|
  }

  /** A guard holder's entry is in the cache. */
  predicate GuardsHold(s: State) {
    forall t | 0 <= t < |s.threads| :: s.threads[t].Loaded? ==> s.threads[t].call.key in s.entries
  }

  lemma GuardsHoldGo(cap: nat, s: State, t: nat)
    requires GuardsHold(s) && t < |s.threads| && Access(cap, s, s.threads[t]).Some?
    ensures GuardsHold(Next(cap, s, Go(t)))
  {
    var a := Access(cap, s, s.threads[t]).value;
    var s' := Next(cap, s, Go(t));
    forall u | 0 <= u < |s.threads| && s'.threads[u].Loaded?
      ensures s'.threads[u].call.key in s'.entries
    {
      if u != t {
        assert s.threads[u].Loaded? && s.threads[u].call.key in s.entries;
      }
    }
  }

  lemma GuardsHoldNext(cap: nat, s: State, l: Label)
    requires GuardsHold(s)
    ensures GuardsHold(Next(cap, s, l))
  {
    hide Access;
    if l.Go? && l.t < |s.threads| && Access(cap, s, s.threads[l.t]).Some? {
      GuardsHoldGo(cap, s, l.t);
    } else {
      var s' := Next(cap, s, l);
      forall u | 0 <= u < |s.threads| && s'.threads[u].Loaded?
        ensures s'.threads[u].call.key in s'.entries
      {
        assert s.threads[u].Loaded? && s.threads[u].call.key in s.entries;
      }
    }
  }

  /** The entries and the thread's weight after an access, within what they were before. */
  predicate KeepsSize(cap: nat, s: State, th: Thread) {
    Access(cap, s, th).Some? ==>
      var a := Access(cap, s, th).value;
      |a.0| + Weight(a.1) <= |s.entries| + Weight(th) || (th.Missed? && |a.0| < cap && Weight(a.1) == 1)
  }

  lemma LookSize(cap: nat, s: State, th: Thread)
    requires th.Idle? || th.Entered? || th.Missed?
    ensures KeepsSize(cap, s, th)
  {
    hide Unguarded;
  }

  lemma StoreSize(cap: nat, s: State, th: Thread)
    requires th.Loaded? && th.call.key in s.entries
    ensures KeepsSize(cap, s, th)
  {
    hide Unguarded;
    UpdateSize(s.entries, th.call.key, Cell(th.call.seqNo, th.id));
  }

  lemma InsertSize(cap: nat, s: State, th: Thread)
    requires th.Roomy?
    ensures KeepsSize(cap, s, th)
  {
    hide Unguarded;
    UpdateSize(s.entries, th.call.key, Cell(th.call.seqNo, th.id));
  }

  lemma RestoreSize(cap: nat, s: State, th: Thread)
    requires th.Restoring?
    ensures KeepsSize(cap, s, th)
  {
    hide Unguarded;
    UpdateSize(s.entries, th.call.key, th.displaced);
  }

  lemma DeleteSize(cap: nat, s: State, th: Thread)
    requires th.Removing?
    ensures KeepsSize(cap, s, th)
  {
    hide Unguarded;
    RemoveSize(s.entries, th.key);
  }

  /** No access both stores an entry and keeps its claim to store another. */
  lemma AccessSize(cap: nat, s: State, th: Thread)
    requires th.Loaded? ==> th.call.key in s.entries
    ensures KeepsSize(cap, s, th)
  {
    hide KeepsSize;
    match th {
      case Loaded(_, _, _) => StoreSize(cap, s, th);
      case Roomy(_, _) => InsertSize(cap, s, th);
      case Restoring(_, _, _) => RestoreSize(cap, s, th);
      case Removing(_) => DeleteSize(cap, s, th);
      case _ => LookSize(cap, s, th);
    }
  }

  lemma BoundAccess(cap: nat, s: State, t: nat)
    requires t < |s.threads| && WithinBound(cap, s) && GuardsHold(s) && Access(cap, s, s.threads[t]).Some?
    ensures WithinBound(cap, Next(cap, s, Go(t)))
  {
    hide Access, Inserting;
    var a := Access(cap, s, s.threads[t]).value;
    AccessSize(cap, s, s.threads[t]);
    InsertingUpdate(s.threads, t, a.1);
    if s.threads[t].Missed? { InsertingRoom(s.threads, t); }
  }

  /** A thread that is not inserting leaves room in the count. */
  lemma InsertingRoom(threads: seq<Thread>, t: nat)
    requires t < |threads| && Weight(threads[t]) == 0
    ensures Inserting(threads) < |threads|
  {
    InsertingUpdate(threads, t, Roomy(0, Call(ReplayKey(0, 0), 0)));
  }

  /** An idle thread starts on something. */
  lemma BoundStart(cap: nat, s: State, s': State, t: nat, th: Thread)
    requires WithinBound(cap, s) && t < |s.threads| && s.threads[t].Idle? && (th.Entered? || th.Removing?)
    requires s'.entries == s.entries && s'.threads == s.threads[t := th]
    ensures WithinBound(cap, s')
  {
    hide Inserting;
    InsertingUpdate(s.threads, t, th);
  }

  /** Nothing is stored and no thread moves. */
  lemma BoundQuiet(cap: nat, s: State, s': State)
    requires WithinBound(cap, s) && s'.threads == s.threads && |s'.entries| <= |s.entries|
    ensures WithinBound(cap, s')
  {
    hide Inserting;
  }

  lemma BoundSubmit(cap: nat, s: State, t: nat, key: ReplayKey, q: U16)
    requires WithinBound(cap, s)
    ensures WithinBound(cap, Next(cap, s, Submit(t, key, q)))
  {
    hide WithinBound;
    var s' := Next(cap, s, Submit(t, key, q));
    if t < |s.threads| && s.threads[t].Idle? {
      BoundStart(cap, s, s', t, Entered(s.clock, Call(key, q)));
    } else {
      BoundQuiet(cap, s, s');
    }
  }

  lemma BoundRemove(cap: nat, s: State, t: nat, key: ReplayKey)
    requires WithinBound(cap, s)
    ensures WithinBound(cap, Next(cap, s, Remove(t, key)))
  {
    hide WithinBound;
    var s' := Next(cap, s, Remove(t, key));
    if t < |s.threads| && s.threads[t].Idle? {
      BoundStart(cap, s, s', t, Removing(key));
    } else {
      BoundQuiet(cap, s, s');
    }
  }

  lemma BoundGo(cap: nat, s: State, t: nat)
    requires WithinBound(cap, s) && GuardsHold(s)
    ensures WithinBound(cap, Next(cap, s, Go(t)))
  {
    hide WithinBound, GuardsHold, Access;
    if t < |s.threads| && Access(cap, s, s.threads[t]).Some? {
      BoundAccess(cap, s, t);
    } else {
      BoundQuiet(cap, s, Next(cap, s, Go(t)));
    }
  }

  lemma BoundDrop(cap: nat, s: State, key: ReplayKey)
    requires WithinBound(cap, s)
    ensures WithinBound(cap, Next(cap, s, Drop(key)))
  {
    hide WithinBound, Unguarded;
    RemoveSize(s.entries, key);
    BoundQuiet(cap, s, Next(cap, s, Drop(key)));
  }

  lemma BoundNext(cap: nat, s: State, l: Label)
    requires WithinBound(cap, s) && GuardsHold(s)
    ensures WithinBound(cap, Next(cap, s, l))
  {
    hide *;
    match l {
      case Submit(t, key, q) => BoundSubmit(cap, s, t, key, q);
      case Remove(t, key) => BoundRemove(cap, s, t, key);
      case Go(t) => BoundGo(cap, s, t);
      case Drop(key) => BoundDrop(cap, s, key);
    }
  }

  lemma {:induction false} InitInserting(n: nat)
    ensures Inserting(seq(n, _ => Idle)) == 0
  {
    if n == 0 {
    } else {
      assert seq<Thread>(n, _ => Idle)[..n - 1] == seq<Thread>(n - 1, _ => Idle);
      InitInserting(n - 1);
    }
  }

  lemma {:induction false} BoundRun(cap: nat, n: nat, labels: seq<Label>)
    requires cap >= 1
    ensures WithinBound(cap, Run(cap, n, labels)) && GuardsHold(Run(cap, n, labels))
  {
    if labels == [] {
      InitInserting(n);
    } else {
      var front, l := labels[..|labels| - 1], labels[|labels| - 1];
      BoundRun(cap, n, front);
      BoundNext(cap, Run(cap, n, front), l);
      GuardsHoldNext(cap, Run(cap, n, front), l);
    }
  }

  /**
   Concurrent capacity bound: the capacity test and the insertion are separate accesses, yet
   no interleaving of `n` threads stores more than capacity - 1 + n entries; one thread
   never exceeds the capacity.
   */
  lemma ConcurrentCapacity(n: nat, labels: seq<Label>)
    ensures |Run(REPLAY_CACHE_MAX_CAPACITY, n, labels).entries| <= 100_000 - 1 + n
    ensures n == 1 ==> |Run(REPLAY_CACHE_MAX_CAPACITY, n, labels).entries| <= 100_000
  {
    BoundRun(REPLAY_CACHE_MAX_CAPACITY, n, labels);
    RunShape(REPLAY_CACHE_MAX_CAPACITY, n, labels);
  }

  // ----- the bound is reached

  function NumberedKey(i: nat): ReplayKey
    requires i < 0x1_0000_0000_0000_0000
  {
    ReplayKey(0, i)
  }

  /** The cache holds exactly the first `j` keys. */
  predicate Holds(s: State, j: nat) {
    && |s.entries| == j
    && forall key | key in s.entries :: key.tenantId == 0 && key.sourceId < j
  }

  /** Thread 0 registers the first `j` keys. */
  function Fill(j: nat): seq<Label>
    requires j <= 0x1_0000_0000_0000_0000
  {
    if j == 0 then [] else Fill(j - 1) + [Submit(0, NumberedKey(j - 1), 0)] + [Go(0)] + [Go(0)] + [Go(0)]
  }

  lemma {:induction false} FillState(cap: nat, n: nat, j: nat)
    requires n >= 1 && j < cap && j <= 0x1_0000_0000_0000_0000
    ensures var s := Run(cap, n, Fill(j)); Holds(s, j) && s.threads == seq(n, _ => Idle)
  {
    hide Run, Next, Holds;
    if j == 0 {
      NothingFilled(cap, n);
    } else {
      FillState(cap, n, j - 1);
      var l0 := Fill(j - 1);
      var c := Submit(0, NumberedKey(j - 1), 0);
      RunAppend(cap, n, l0, c);
      RunAppend(cap, n, l0 + [c], Go(0));
      RunAppend(cap, n, l0 + [c] + [Go(0)], Go(0));
      RunAppend(cap, n, l0 + [c] + [Go(0)] + [Go(0)], Go(0));
      FillOne(cap, Run(cap, n, l0), j - 1);
    }
  }

  lemma NothingFilled(cap: nat, n: nat)
    ensures Holds(Run(cap, n, []), 0) && Run(cap, n, []).threads == seq(n, _ => Idle)
  {
  }

  lemma FillOne(cap: nat, s: State, j: nat)
    requires j < 0x1_0000_0000_0000_0000 && j < cap && s.threads != []
    requires Holds(s, j) && forall t | 0 <= t < |s.threads| :: s.threads[t] == Idle
    ensures var s1 := Next(cap, s, Submit(0, NumberedKey(j), 0));
            var s4 := Next(cap, Next(cap, Next(cap, s1, Go(0)), Go(0)), Go(0));
            Holds(s4, j + 1) && s4.threads == s.threads
  {
    hide Next;
    assert NumberedKey(j) !in s.entries;
    RegisterOne(cap, s, 0, NumberedKey(j));
  }

  /** One thread alone registers an absent key, if there is room. */
  lemma RegisterOne(cap: nat, s: State, t: nat, key: ReplayKey)
    requires t < |s.threads| && s.threads[t] == Idle && (forall i | 0 <= i < |s.threads| :: !s.threads[i].Loaded?)
    requires key !in s.entries && |s.entries| < cap
    ensures var s1 := Next(cap, s, Submit(t, key, 0));
            var s2 := Next(cap, s1, Go(t));
            var s3 := Next(cap, s2, Go(t));
            var s4 := Next(cap, s3, Go(t));
            && s3.entries == s.entries && s3.threads == s.threads[t := Roomy(s.clock, Call(key, 0))]
            && s4.threads == s.threads
            && s4.entries == s.entries[key := Cell(0, s.clock)] && |s4.entries| == |s.entries| + 1
  {
    UpdateSize(s.entries, key, Cell(0, s.clock));
    var s1 := Next(cap, s, Submit(t, key, 0));
    assert s1.threads[t] == Entered(s.clock, Call(key, 0));
    var s2 := Next(cap, s1, Go(t));
    assert s2.threads[t] == Missed(s.clock, Call(key, 0));
    var s3 := Next(cap, s2, Go(t));
    assert s3.threads[t] == Roomy(s.clock, Call(key, 0));
    assert Unguarded(s3, key);
  }

  /** Threads `lo..hi` have passed the capacity test with new keys of their own; the rest are idle. */
  predicate Queued(cap: nat, s: State, lo: nat, hi: nat) {
    forall t | 0 <= t < |s.threads| ::
      if lo <= t < hi
      then s.threads[t].Roomy? && s.threads[t].call.key.tenantId == 0 && s.threads[t].call.key.sourceId == cap - 1 + t
      else s.threads[t] == Idle
  }

  function Queue(cap: nat, m: nat): seq<Label>
    requires 1 <= cap && cap + m <= 0x1_0000_0000_0000_0000
  {
    if m == 0 then Fill(cap - 1)
    else Queue(cap, m - 1) + [Submit(m - 1, NumberedKey(cap - 1 + m - 1), 0)] + [Go(m - 1)] + [Go(m - 1)]
  }

  lemma {:induction false} QueueState(cap: nat, n: nat, m: nat)
    requires 1 <= cap && 1 <= n && m <= n && cap + n <= 0x1_0000_0000_0000_0000
    ensures var s := Run(cap, n, Queue(cap, m)); Holds(s, cap - 1) && Queued(cap, s, 0, m) && |s.threads| == n
  {
    hide Run, Next, Holds, Fill;
    RunShape(cap, n, Queue(cap, m));
    if m == 0 {
      FillState(cap, n, cap - 1);
    } else {
      hide Queued;
      QueueState(cap, n, m - 1);
      var l0 := Queue(cap, m - 1);
      var t, key := m - 1, NumberedKey(cap - 1 + m - 1);
      var c := Submit(t, key, 0);
      RunAppend(cap, n, l0, c);
      RunAppend(cap, n, l0 + [c], Go(t));
      RunAppend(cap, n, l0 + [c] + [Go(t)], Go(t));
      var s := Run(cap, n, l0);
      RoomForOne(cap, s, t);
      RegisterOne(cap, s, t, key);
      QueueOne(cap, s, Run(cap, n, Queue(cap, m)), t);
    }
  }

  lemma RoomForOne(cap: nat, s: State, t: nat)
    requires 1 <= cap && t < |s.threads| && cap + t <= 0x1_0000_0000_0000_0000
    requires Holds(s, cap - 1) && Queued(cap, s, 0, t)
    ensures s.threads[t] == Idle && forall i | 0 <= i < |s.threads| :: !s.threads[i].Loaded?
    ensures NumberedKey(cap - 1 + t) !in s.entries && |s.entries| < cap
  {
  }

  lemma QueueOne(cap: nat, s: State, s': State, t: nat)
    requires 1 <= cap && t < |s.threads| && cap + t <= 0x1_0000_0000_0000_0000
    requires Holds(s, cap - 1) && Queued(cap, s, 0, t)
    requires s'.entries == s.entries && s'.threads == s.threads[t := Roomy(s.clock, Call(NumberedKey(cap - 1 + t), 0))]
    ensures Holds(s', cap - 1) && Queued(cap, s', 0, t + 1)
  {
  }

  function Burst(cap: nat, n: nat, m: nat): seq<Label>
    requires 1 <= cap && cap + n <= 0x1_0000_0000_0000_0000 && m <= n
  {
    if m == 0 then Queue(cap, n) else Burst(cap, n, m - 1) + [Go(m - 1)]
  }

  lemma {:induction false} BurstState(cap: nat, n: nat, m: nat)
    requires 1 <= cap && 1 <= n && cap + n <= 0x1_0000_0000_0000_0000 && m <= n
    ensures var s := Run(cap, n, Burst(cap, n, m)); Holds(s, cap - 1 + m) && Queued(cap, s, m, n) && |s.threads| == n
  {
    hide Access, Next;
    RunShape(cap, n, Burst(cap, n, m));
    if m == 0 {
      QueueState(cap, n, n);
    } else {
      BurstState(cap, n, m - 1);
      var s := Run(cap, n, Burst(cap, n, m - 1));
      RunAppend(cap, n, Burst(cap, n, m - 1), Go(m - 1));
      BurstOne(cap, s, m - 1);
    }
  }

  lemma BurstOne(cap: nat, s: State, t: nat)
    requires 1 <= cap && t < |s.threads| && Holds(s, cap - 1 + t) && Queued(cap, s, t, |s.threads|)
    ensures var s' := Next(cap, s, Go(t)); Holds(s', cap + t) && Queued(cap, s', t + 1, |s.threads|)
  {
    var th := s.threads[t];
    assert th.Roomy? && th.call.key.sourceId == cap - 1 + t;
    assert th.call.key !in s.entries;
    UpdateSize(s.entries, th.call.key, Cell(th.call.seqNo, th.id));
    assert Unguarded(s, th.call.key);
  }

  /** The bound is sharp: some interleaving of `n` threads stores capacity - 1 + n entries. */
  lemma CapacityBoundReached(cap: nat, n: nat)
    requires 1 <= cap && 1 <= n && cap + n <= 0x1_0000_0000_0000_0000
    ensures exists labels :: |Run(cap, n, labels).entries| == cap - 1 + n
  {
    BurstState(cap, n, n);
    assert |Run(cap, n, Burst(cap, n, n)).entries| == cap - 1 + n;
  }
}
