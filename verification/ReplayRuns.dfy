/**
 Whole runs of the sequential cache. The stored maximum is compared with a reference cache
 that keeps every accepted sequence number; verdicts of one tenant or key are shown not to
 depend on the others; and a sequence number stays refused for the full TTL.
 */
module ReplayRuns {
  import opened Bytes
  import opened Collections
  import opened ReplayCache

  datatype Op =
    | Submit(key: ReplayKey, seqNo: U16)
    | Peek(key: ReplayKey, seqNo: U16)
    | Remove(key: ReplayKey)
    | Clear
    | Cleanup

  /** A call and the clock reading it sees. */
  datatype Timed = At(now: nat, op: Op)

  datatype Outcome = Judged(verdict: Verdict) | Removed(found: bool) | Cleared | Cleaned(count: nat)

  datatype Config = Config(cap: nat, ttl: nat)

  function Next(c: Config, m: Entries, t: Timed): Entries {
    match t.op
    case Submit(key, s) => Check(m, c.cap, key, s, t.now).0
    case Peek(_, _) => m
    case Remove(key) => m - {key}
    case Clear => map[]
    case Cleanup => Unexpired(m, c.ttl, t.now)
  }

  function Answer(c: Config, m: Entries, t: Timed): Outcome {
    match t.op
    case Submit(key, s) => Judged(Check(m, c.cap, key, s, t.now).1)
    case Peek(key, s) => Judged(Preview(m, c.cap, key, s))
    case Remove(key) => Removed(key in m)
    case Clear => Cleared
    case Cleanup =>
      CleanupSize(m, c.ttl, t.now);
      Cleaned(|m| - |Unexpired(m, c.ttl, t.now)|)
  }

  /** The cache after a run from empty. */
  function Run(c: Config, ops: seq<Timed>): Entries {
    if ops == [] then map[] else Next(c, Run(c, ops[..|ops| - 1]), ops[|ops| - 1])
  }

  /** The answer to call `i` of a run. */
  function AnswerAt(c: Config, ops: seq<Timed>, i: nat): Outcome
    requires i < |ops|
  {
    Answer(c, Run(c, ops[..i]), ops[i])
  }

  predicate MonotoneClock(ops: seq<Timed>) {
    forall i, j | 0 <= i <= j < |ops| :: ops[i].now <= ops[j].now
  }

  lemma RunStep(c: Config, ops: seq<Timed>, i: nat)
    requires i < |ops|
    ensures Run(c, ops[..i + 1]) == Next(c, Run(c, ops[..i]), ops[i])
  {
    assert ops[..i + 1][..i] == ops[..i];
  }

  lemma RunAppend(c: Config, ops: seq<Timed>, more: seq<Timed>)
    requires |more| <= 1
    ensures Run(c, ops + more) == if more == [] then Run(c, ops) else Next(c, Run(c, ops), more[0])
  {
    if more == [] {
      assert ops + more == ops;
    } else {
      assert (ops + more)[..|ops|] == ops;
    }
  }

  // ----- the reference cache: every acceptance is remembered

  datatype Acceptance = Acceptance(seqNo: U16, time: nat)

  /** Per registered key, everything accepted since it was registered, oldest first. */
  type History = map<ReplayKey, seq<Acceptance>>

  predicate Seen(accepted: seq<Acceptance>, s: U16) {
    exists i | 0 <= i < |accepted| :: accepted[i].seqNo >= s
  }

  predicate Recent(accepted: seq<Acceptance>, ttl: nat, now: nat) {
    exists i | 0 <= i < |accepted| :: now <= accepted[i].time + ttl
  }

  function Accepted(h: History, key: ReplayKey): seq<Acceptance> {
    if key in h then h[key] else []
  }

  function RefVerdict(cap: nat, h: History, key: ReplayKey, s: U16): Verdict {
    if Seen(Accepted(h, key), s) then Rejected
    else if key !in h && |h| >= cap then CacheFull
    else Allowed
  }

  function RefNext(c: Config, h: History, t: Timed): History {
    match t.op
    case Submit(key, s) =>
      if RefVerdict(c.cap, h, key, s) == Allowed
      then h[key := Accepted(h, key) + [Acceptance(s, t.now)]]
      else h
    case Peek(_, _) => h
    case Remove(key) => h - {key}
    case Clear => map[]
    case Cleanup => map k | k in h && Recent(h[k], c.ttl, t.now) :: h[k]
  }

  function RefAnswer(c: Config, h: History, t: Timed): Outcome {
    match t.op
    case Submit(key, s) => Judged(RefVerdict(c.cap, h, key, s))
    case Peek(key, s) => Judged(RefVerdict(c.cap, h, key, s))
    case Remove(key) => Removed(key in h)
    case Clear => Cleared
    case Cleanup => Cleaned(|set k | k in h && !Recent(h[k], c.ttl, t.now)|)
  }

  function RefRun(c: Config, ops: seq<Timed>): History {
    if ops == [] then map[] else RefNext(c, RefRun(c, ops[..|ops| - 1]), ops[|ops| - 1])
  }

  lemma RefRunStep(c: Config, ops: seq<Timed>, t: Timed)
    ensures RefRun(c, ops + [t]) == RefNext(c, RefRun(c, ops), t)
  {
    assert (ops + [t])[..|ops|] == ops;
  }

  predicate Increasing(a: seq<Acceptance>) {
    forall i, j | 0 <= i < j < |a| :: a[i].seqNo < a[j].seqNo && a[i].time <= a[j].time
  }

  /** The entry is the newest acceptance of a growing list, none of it later than `now`. */
  predicate Newest(e: Entry, a: seq<Acceptance>, now: nat) {
    && a != []
    && Increasing(a)
    && a[|a| - 1] == Acceptance(e.lastSeq, e.lastUpdate)
    && e.lastUpdate <= now
  }

  predicate Summarises(m: Entries, h: History, now: nat) {
    && m.Keys == h.Keys
    && forall k | k in m :: Newest(m[k], h[k], now)
  }

  lemma SeenIsNewest(e: Entry, a: seq<Acceptance>, s: U16, now: nat)
    requires Newest(e, a, now)
    ensures Seen(a, s) <==> s <= e.lastSeq
  {
    assert a[|a| - 1].seqNo == e.lastSeq;
  }

  lemma RecentIsUnexpired(e: Entry, a: seq<Acceptance>, ttl: nat, was: nat, now: nat)
    requires Newest(e, a, was)
    ensures Recent(a, ttl, now) <==> !Expired(e, ttl, now)
  {
    assert a[|a| - 1].time == e.lastUpdate;
  }

  lemma SameVerdict(c: Config, m: Entries, h: History, key: ReplayKey, s: U16, was: nat, now: nat)
    requires Summarises(m, h, was)
    ensures Check(m, c.cap, key, s, now).1 == RefVerdict(c.cap, h, key, s)
    ensures Preview(m, c.cap, key, s) == RefVerdict(c.cap, h, key, s)
  {
    assert |m.Keys| == |m| && |h.Keys| == |h|;
    if key in m {
      SeenIsNewest(m[key], h[key], s, was);
    }
  }

  lemma SameAnswer(c: Config, m: Entries, h: History, t: Timed, was: nat)
    requires Summarises(m, h, was)
    ensures Answer(c, m, t) == RefAnswer(c, h, t)
  {
    match t.op {
      case Submit(key, s) => SameVerdict(c, m, h, key, s, was, t.now);
      case Peek(key, s) => SameVerdict(c, m, h, key, s, was, t.now);
      case Cleanup =>
        CleanupSize(m, c.ttl, t.now);
        forall k | k in m
          ensures Recent(h[k], c.ttl, t.now) <==> !Expired(m[k], c.ttl, t.now)
        {
          RecentIsUnexpired(m[k], h[k], c.ttl, was, t.now);
        }
        assert (set k | k in h && !Recent(h[k], c.ttl, t.now)) == (set k | k in m && Expired(m[k], c.ttl, t.now));
      case Remove(_) =>
      case Clear =>
    }
  }

  lemma SameNext(c: Config, m: Entries, h: History, t: Timed, was: nat)
    requires Summarises(m, h, was) && was <= t.now
    ensures Summarises(Next(c, m, t), RefNext(c, h, t), t.now)
  {
    match t.op {
      case Submit(key, s) =>
        SameVerdict(c, m, h, key, s, was, t.now);
        if key in m {
          SeenIsNewest(m[key], h[key], s, was);
          if !Seen(h[key], s) { Extended(m[key], h[key], s, was, t.now); }
        }
      case Peek(_, _) =>
      case Remove(_) =>
      case Clear =>
      case Cleanup =>
        forall k | k in m
          ensures Recent(h[k], c.ttl, t.now) <==> !Expired(m[k], c.ttl, t.now)
        {
          RecentIsUnexpired(m[k], h[k], c.ttl, was, t.now);
        }
    }
  }

  lemma Extended(e: Entry, a: seq<Acceptance>, s: U16, was: nat, now: nat)
    requires Newest(e, a, was) && was <= now && s > e.lastSeq
    ensures Newest(Entry(s, now), a + [Acceptance(s, now)], now)
  {
    var b := a + [Acceptance(s, now)];
    forall i, j | 0 <= i < j < |b|
      ensures b[i].seqNo < b[j].seqNo && b[i].time <= b[j].time
    {
      if j == |a| {
        assert a[i].seqNo <= a[|a| - 1].seqNo && a[i].time <= a[|a| - 1].time;
      }
    }
  }

  lemma EmptySummary()
    ensures Summarises(map[], map[], 0)
  {
  }

  function LastTime(ops: seq<Timed>): nat {
    if ops == [] then 0 else ops[|ops| - 1].now
  }

  /**
   The cache that keeps only the last number and time answers every call of every run as the
   reference cache does, and holds exactly the newest acceptance of each registered key.
   So a call is rejected exactly when an equal or higher number was accepted since the key
   was registered, and accepted numbers strictly increase until then.
   */
  lemma {:induction false} RefinesHistory(c: Config, ops: seq<Timed>)
    requires MonotoneClock(ops)
    ensures Summarises(Run(c, ops), RefRun(c, ops), LastTime(ops))
    ensures forall i | 0 <= i < |ops| ::
      AnswerAt(c, ops, i) == RefAnswer(c, RefRun(c, ops[..i]), ops[i])
  {
    hide Answer, RefAnswer, Next, RefNext, Summarises;
    if ops == [] {
      EmptySummary();
    } else {
      var front, t := ops[..|ops| - 1], ops[|ops| - 1];
      assert MonotoneClock(front);
      RefinesHistory(c, front);
      assert LastTime(front) <= t.now;
      SameNext(c, Run(c, front), RefRun(c, front), t, LastTime(front));
      SameAnswer(c, Run(c, front), RefRun(c, front), t, LastTime(front));
      forall i | 0 <= i < |ops|
        ensures AnswerAt(c, ops, i) == RefAnswer(c, RefRun(c, ops[..i]), ops[i])
      {
        if i < |front| {
          assert front[..i] == ops[..i] && front[i] == ops[i];
          assert AnswerAt(c, front, i) == AnswerAt(c, ops, i);
        }
      }
    }
  }

  /** No more numbers are accepted than lie between the first and the last. */
  lemma {:induction false} IncreasingCount(a: seq<Acceptance>)
    requires Increasing(a) && a != []
    ensures |a| <= a[|a| - 1].seqNo - a[0].seqNo + 1
  {
    if |a| == 1 {
    } else {
      IncreasingCount(a[..|a| - 1]);
      assert a[|a| - 2].seqNo < a[|a| - 1].seqNo;
    }
  }

  lemma NewestIsMax(e: Entry, a: seq<Acceptance>, now: nat)
    requires Newest(e, a, now)
    ensures forall i | 0 <= i < |a| :: a[i].seqNo <= e.lastSeq
  {
    forall i | 0 <= i < |a|
      ensures a[i].seqNo <= e.lastSeq
    {
      assert i == |a| - 1 || a[i].seqNo < a[|a| - 1].seqNo;
    }
  }

  /**
   Replay safety: whatever is still registered after a run was accepted in strictly
   increasing order, at most 65536 times, and the cache reports the largest of it.
   */
  lemma ReplaySafety(c: Config, ops: seq<Timed>, key: ReplayKey)
    requires MonotoneClock(ops)
    ensures var a := Accepted(RefRun(c, ops), key);
            && Increasing(a)
            && (key in Run(c, ops) <==> a != [])
            && (a != [] ==>
                  && |a| <= a[|a| - 1].seqNo - a[0].seqNo + 1 <= 0x1_0000
                  && Run(c, ops)[key].lastSeq == a[|a| - 1].seqNo
                  && forall i | 0 <= i < |a| :: a[i].seqNo <= Run(c, ops)[key].lastSeq)
  {
    hide RefNext, Next, MonotoneClock, Run, RefRun, AnswerAt, RefAnswer;
    RefinesHistory(c, ops);
    var h := RefRun(c, ops);
    if key in h {
      assert Newest(Run(c, ops)[key], h[key], LastTime(ops));
      IncreasingCount(h[key]);
      NewestIsMax(Run(c, ops)[key], h[key], LastTime(ops));
    }
  }

  // ----- acceptance at one call, refusal at a later one

  predicate AcceptedAt(c: Config, ops: seq<Timed>, i: nat, key: ReplayKey, s: U16) {
    i < |ops| && ops[i].op == Submit(key, s) && AnswerAt(c, ops, i) == Judged(Allowed)
  }

  /** `key` stays registered from just after call `i` until just before call `j`. */
  predicate Registered(c: Config, ops: seq<Timed>, key: ReplayKey, i: nat, j: nat)
    requires i < j <= |ops|
  {
    forall n {:trigger ops[..n]} | i < n <= j :: key in Run(c, ops[..n])
  }

  lemma StoredOnAccept(c: Config, ops: seq<Timed>, i: nat, key: ReplayKey, s: U16)
    requires AcceptedAt(c, ops, i, key, s)
    ensures key in Run(c, ops[..i + 1]) && Run(c, ops[..i + 1])[key] == Entry(s, ops[i].now)
  {
    RunStep(c, ops, i);
  }

  lemma {:induction false} Floor(c: Config, ops: seq<Timed>, key: ReplayKey, s: U16, i: nat, j: nat)
    requires i < j <= |ops| && AcceptedAt(c, ops, i, key, s) && Registered(c, ops, key, i, j)
    ensures key in Run(c, ops[..j]) && Run(c, ops[..j])[key].lastSeq >= s
    decreases j
  {
    hide Run, Next, AcceptedAt;
    if j == i + 1 {
      StoredOnAccept(c, ops, i, key, s);
    } else {
      RunStep(c, ops, j - 1);
      Floor(c, ops, key, s, i, j - 1);
      assert key in Run(c, ops[..j]);
      NextKeepsFloor(c, Run(c, ops[..j - 1]), ops[j - 1], key, s);
    }
  }

  lemma NextKeepsFloor(c: Config, m: Entries, t: Timed, key: ReplayKey, s: U16)
    requires key in m && m[key].lastSeq >= s && key in Next(c, m, t)
    ensures Next(c, m, t)[key].lastSeq >= s
  {
  }

  /** While a key stays registered, a number at most an accepted one is refused, so none is accepted twice. */
  lemma EpochIncreases(c: Config, ops: seq<Timed>, key: ReplayKey, s: U16, s': U16, i: nat, j: nat)
    requires i < j < |ops| && AcceptedAt(c, ops, i, key, s) && Registered(c, ops, key, i, j)
    requires ops[j].op == Submit(key, s') || ops[j].op == Peek(key, s')
    ensures s' <= s ==> AnswerAt(c, ops, j) == Judged(Rejected)
    ensures AcceptedAt(c, ops, j, key, s') ==> s < s'
  {
    Floor(c, ops, key, s, i, j);
  }

  predicate Erases(op: Op, key: ReplayKey) {
    op == Remove(key) || op == Clear
  }

  lemma {:induction false} KeptWithinTtl(c: Config, ops: seq<Timed>, key: ReplayKey, s: U16, i: nat, j: nat)
    requires MonotoneClock(ops) && i < j <= |ops| && AcceptedAt(c, ops, i, key, s)
    requires forall n | i < n < j :: !Erases(ops[n].op, key)
    requires ops[j - 1].now <= ops[i].now + c.ttl
    ensures key in Run(c, ops[..j])
    ensures Run(c, ops[..j])[key].lastSeq >= s
    ensures Run(c, ops[..j])[key].lastUpdate >= ops[i].now
    decreases j
  {
    hide Run, Next, AcceptedAt, Erases;
    if j == i + 1 {
      StoredOnAccept(c, ops, i, key, s);
    } else {
      assert ops[i].now <= ops[j - 2].now <= ops[j - 1].now;
      RunStep(c, ops, j - 1);
      KeptWithinTtl(c, ops, key, s, i, j - 1);
      FloorStep(c, Run(c, ops[..j - 1]), ops[j - 1], key, s, ops[i].now);
    }
  }

  lemma FloorStep(c: Config, m: Entries, t: Timed, key: ReplayKey, s: U16, since: nat)
    requires key in m && m[key].lastSeq >= s && m[key].lastUpdate >= since
    requires !Erases(t.op, key) && since <= t.now <= since + c.ttl
    ensures var n := Next(c, m, t); key in n && n[key].lastSeq >= s && n[key].lastUpdate >= since
  {
  }

  /**
   TTL guarantee: unless the key is removed or the cache cleared, a number at most an
   accepted one is refused until `ttl` has passed, however often cleanup runs.
   */
  lemma RefusedForTtl(c: Config, ops: seq<Timed>, key: ReplayKey, s: U16, s': U16, i: nat, j: nat)
    requires MonotoneClock(ops) && i < j < |ops| && AcceptedAt(c, ops, i, key, s)
    requires forall n | i < n < j :: !Erases(ops[n].op, key)
    requires s' <= s && (ops[j].op == Submit(key, s') || ops[j].op == Peek(key, s'))
    requires ops[j].now <= ops[i].now + c.ttl
    ensures AnswerAt(c, ops, j) == Judged(Rejected)
  {
    assert ops[j - 1].now <= ops[j].now;
    KeptWithinTtl(c, ops, key, s, i, j);
  }

  /** Cleanup forgets a key exactly when nothing was accepted for it during the last `ttl`. */
  lemma CleanupExact(c: Config, ops: seq<Timed>, now: nat, key: ReplayKey)
    requires MonotoneClock(ops + [At(now, Cleanup)])
    ensures key in Run(c, ops + [At(now, Cleanup)]) <==> Recent(Accepted(RefRun(c, ops), key), c.ttl, now)
  {
    var all := ops + [At(now, Cleanup)];
    assert all[..|ops|] == ops;
    RefinesHistory(c, all);
  }

  // ----- tenants and keys do not disturb each other

  /** A set of keys, such as those of one tenant. */
  type KeySet = ReplayKey -> bool

  /** The calls that concern `ks`: its own, and the ones that touch the whole cache. */
  predicate Concerns(op: Op, ks: KeySet) {
    match op
    case Submit(key, _) => ks(key)
    case Peek(key, _) => ks(key)
    case Remove(key) => ks(key)
    case Clear => true
    case Cleanup => true
  }

  function Only(ops: seq<Timed>, ks: KeySet): seq<Timed> {
    if ops == [] then []
    else
      var t := ops[|ops| - 1];
      Only(ops[..|ops| - 1], ks) + if Concerns(t.op, ks) then [t] else []
  }

  function Restrict(m: Entries, ks: KeySet): Entries {
    map k | k in m && ks(k) :: m[k]
  }

  /** The answers given to the calls that name a key of `ks`, in order. */
  function AnswersFor(c: Config, ops: seq<Timed>, ks: KeySet): seq<Outcome> {
    if ops == [] then []
    else
      var front, t := ops[..|ops| - 1], ops[|ops| - 1];
      AnswersFor(c, front, ks)
      + if Concerns(t.op, ks) && t.op != Clear && t.op != Cleanup then [Answer(c, Run(c, front), t)] else []
  }

  predicate NeverFull(c: Config, ops: seq<Timed>) {
    forall i | 0 <= i < |ops| :: AnswerAt(c, ops, i) != Judged(CacheFull)
  }

  /** No call for a key of `ks` is answered "full"; other keys' calls may be. */
  predicate NeverFullFor(c: Config, ops: seq<Timed>, ks: KeySet) {
    forall i | 0 <= i < |ops| && Concerns(ops[i].op, ks) :: AnswerAt(c, ops, i) != Judged(CacheFull)
  }

  /** The guard of the "full" answer never holds for `ks`: its keys are stored, or there is room. */
  predicate RoomFor(c: Config, ops: seq<Timed>, ks: KeySet) {
    forall i | 0 <= i < |ops| && Concerns(ops[i].op, ks) && (ops[i].op.Submit? || ops[i].op.Peek?) ::
      ops[i].op.key in Run(c, ops[..i]) || |Run(c, ops[..i])| < c.cap
  }

  lemma FullAtGuard(c: Config, m: Entries, t: Timed)
    ensures Answer(c, m, t) == Judged(CacheFull) <==>
            (t.op.Submit? || t.op.Peek?) && t.op.key !in m && |m| >= c.cap
  {
  }

  lemma RoomIsNeverFull(c: Config, ops: seq<Timed>, ks: KeySet)
    ensures RoomFor(c, ops, ks) <==> NeverFullFor(c, ops, ks)
  {
    hide Run, Answer, Concerns;
    forall i | 0 <= i < |ops|
      ensures AnswerAt(c, ops, i) == Judged(CacheFull) <==>
              && (ops[i].op.Submit? || ops[i].op.Peek?)
              && ops[i].op.key !in Run(c, ops[..i]) && |Run(c, ops[..i])| >= c.cap
    {
      FullAtGuard(c, Run(c, ops[..i]), ops[i]);
    }
  }

  lemma RestrictSize(m: Entries, ks: KeySet)
    ensures |Restrict(m, ks)| <= |m|
  {
    assert Restrict(m, ks).Keys <= m.Keys;
    SubsetSize(Restrict(m, ks).Keys, m.Keys);
  }

  /** A call that concerns `ks` and is not answered "full" does the same to the entries of `ks` alone. */
  lemma RestrictedStep(c: Config, m: Entries, ks: KeySet, t: Timed)
    requires Answer(c, m, t) != Judged(CacheFull) && Concerns(t.op, ks)
    ensures Next(c, Restrict(m, ks), t) == Restrict(Next(c, m, t), ks)
    ensures t.op != Clear && t.op != Cleanup ==> Answer(c, Restrict(m, ks), t) == Answer(c, m, t)
  {
    match t.op {
      case Submit(key, q) => RestrictedSubmit(c, m, ks, key, q, t.now);
      case Peek(_, _) => RestrictSize(m, ks);
      case Remove(key) => RestrictedRemove(m, ks, key);
      case Clear =>
      case Cleanup => RestrictedCleanup(m, c.ttl, t.now, ks);
    }
  }

  lemma RestrictedSubmit(c: Config, m: Entries, ks: KeySet, key: ReplayKey, q: U16, now: nat)
    requires Check(m, c.cap, key, q, now).1 != CacheFull && ks(key)
    ensures Check(Restrict(m, ks), c.cap, key, q, now).0 == Restrict(Check(m, c.cap, key, q, now).0, ks)
    ensures Check(Restrict(m, ks), c.cap, key, q, now).1 == Check(m, c.cap, key, q, now).1
  {
    RestrictSize(m, ks);
    assert Restrict(m[key := Entry(q, now)], ks) == Restrict(m, ks)[key := Entry(q, now)];
  }

  lemma RestrictedRemove(m: Entries, ks: KeySet, key: ReplayKey)
    ensures Restrict(m - {key}, ks) == Restrict(m, ks) - {key}
  {
  }

  lemma RestrictedCleanup(m: Entries, ttl: nat, now: nat, ks: KeySet)
    ensures Restrict(Unexpired(m, ttl, now), ks) == Unexpired(Restrict(m, ks), ttl, now)
  {
  }

  /** A call for another key, whatever its answer, leaves the entries of `ks` alone. */
  lemma ForeignStep(c: Config, m: Entries, ks: KeySet, t: Timed)
    requires !Concerns(t.op, ks)
    ensures Restrict(Next(c, m, t), ks) == Restrict(m, ks)
  {
    match t.op {
      case Submit(key, q) => assert Restrict(m[key := Entry(q, t.now)], ks) == Restrict(m, ks);
      case Peek(_, _) =>
      case Remove(key) => assert Restrict(m - {key}, ks) == Restrict(m, ks);
      case Clear => assert false;
      case Cleanup => assert false;
    }
  }

  /**
   Non-interference: in a run that never tells `ks` that the cache is full, the answers for
   the keys in `ks`, and what is stored for them, are those of the run with every other key's
   calls deleted. How often other keys are refused does not matter.
   */
  lemma {:induction false} NonInterference(c: Config, ops: seq<Timed>, ks: KeySet)
    requires NeverFullFor(c, ops, ks)
    ensures Run(c, Only(ops, ks)) == Restrict(Run(c, ops), ks)
    ensures AnswersFor(c, Only(ops, ks), ks) == AnswersFor(c, ops, ks)
  {
    if ops == [] {
    } else {
      hide Next, Answer, NeverFullFor;
      var front, t := ops[..|ops| - 1], ops[|ops| - 1];
      NeverFullPrefix(c, ops, ks);
      NonInterference(c, front, ks);
      if Concerns(t.op, ks) {
        RestrictedStep(c, Run(c, front), ks, t);
        assert Only(ops, ks)[..|Only(front, ks)|] == Only(front, ks);
      } else {
        ForeignStep(c, Run(c, front), ks, t);
        assert Only(ops, ks) == Only(front, ks);
      }
    }
  }

  lemma NeverFullPrefix(c: Config, ops: seq<Timed>, ks: KeySet)
    requires NeverFullFor(c, ops, ks) && ops != []
    ensures NeverFullFor(c, ops[..|ops| - 1], ks)
    ensures Concerns(ops[|ops| - 1].op, ks) ==>
              Answer(c, Run(c, ops[..|ops| - 1]), ops[|ops| - 1]) != Judged(CacheFull)
  {
    hide Answer, Run;
    var front := ops[..|ops| - 1];
    forall i | 0 <= i < |front| && Concerns(front[i].op, ks)
      ensures AnswerAt(c, front, i) != Judged(CacheFull)
    {
      assert front[..i] == ops[..i];
      assert AnswerAt(c, ops, i) != Judged(CacheFull);
    }
    if Concerns(ops[|ops| - 1].op, ks) {
      assert AnswerAt(c, ops, |ops| - 1) != Judged(CacheFull);
    }
  }

  /** "Full" shows in the answers of `ks` exactly when some call for `ks` was answered so. */
  lemma {:induction false} FullShows(c: Config, ops: seq<Timed>, ks: KeySet)
    ensures Judged(CacheFull) in AnswersFor(c, ops, ks) <==> !NeverFullFor(c, ops, ks)
  {
    if ops == [] {
    } else {
      hide Run, Next, NeverFullFor;
      var front, t := ops[..|ops| - 1], ops[|ops| - 1];
      FullShows(c, front, ks);
      NeverFullPush(c, ops, ks);
    }
  }

  lemma NeverFullPush(c: Config, ops: seq<Timed>, ks: KeySet)
    requires ops != []
    ensures var front, t := ops[..|ops| - 1], ops[|ops| - 1];
            NeverFullFor(c, ops, ks) <==>
            NeverFullFor(c, front, ks) && (Concerns(t.op, ks) ==> Answer(c, Run(c, front), t) != Judged(CacheFull))
  {
    hide Answer, Run;
    var front, t := ops[..|ops| - 1], ops[|ops| - 1];
    if NeverFullFor(c, ops, ks) {
      NeverFullPrefix(c, ops, ks);
    } else {
      var i :| 0 <= i < |ops| && Concerns(ops[i].op, ks) && AnswerAt(c, ops, i) == Judged(CacheFull);
      if i < |front| {
        assert front[..i] == ops[..i];
        assert AnswerAt(c, front, i) == Judged(CacheFull);
      }
    }
  }

  /**
   Exact isolation: when `ks` has room alone, its answers are those it would get alone exactly
   when it has room in company too: each of its calls finds its key stored or the cache not full.
   */
  lemma IsolationExact(c: Config, ops: seq<Timed>, ks: KeySet)
    requires RoomFor(c, Only(ops, ks), ks)
    ensures AnswersFor(c, Only(ops, ks), ks) == AnswersFor(c, ops, ks) <==> RoomFor(c, ops, ks)
  {
    hide AnswersFor, NeverFullFor, RoomFor;
    RoomIsNeverFull(c, ops, ks);
    RoomIsNeverFull(c, Only(ops, ks), ks);
    FullShows(c, ops, ks);
    FullShows(c, Only(ops, ks), ks);
    if NeverFullFor(c, ops, ks) {
      NonInterference(c, ops, ks);
    }
  }

  /** The keys a run names. */
  function Named(ops: seq<Timed>): set<ReplayKey> {
    set i | 0 <= i < |ops| && (ops[i].op.Submit? || ops[i].op.Peek?) :: ops[i].op.key
  }

  lemma {:induction false} StoredAreNamed(c: Config, ops: seq<Timed>)
    ensures Run(c, ops).Keys <= Named(ops)
  {
    if ops == [] {
    } else {
      var front, t := ops[..|ops| - 1], ops[|ops| - 1];
      StoredAreNamed(c, front);
      forall k | k in Named(front)
        ensures k in Named(ops)
      {
        var i :| 0 <= i < |front| && (front[i].op.Submit? || front[i].op.Peek?) && front[i].op.key == k;
        assert ops[i] == front[i];
      }
      assert t.op.Submit? ==> t.op.key in Named(ops);
    }
  }

  /** A run that names no more keys than the capacity never reports a full cache. */
  lemma FewKeysNeverFull(c: Config, ops: seq<Timed>)
    requires |Named(ops)| <= c.cap
    ensures NeverFull(c, ops)
  {
    forall i | 0 <= i < |ops|
      ensures AnswerAt(c, ops, i) != Judged(CacheFull)
    {
      var m := Run(c, ops[..i]);
      StoredAreNamed(c, ops[..i]);
      NamedPrefix(ops, i);
      if (ops[i].op.Submit? || ops[i].op.Peek?) && ops[i].op.key !in m {
        var key := ops[i].op.key;
        assert key in Named(ops);
        SubsetSize(m.Keys + {key}, Named(ops));
        assert |m.Keys| == |m|;
      }
    }
  }

  lemma NamedPrefix(ops: seq<Timed>, n: nat)
    requires n <= |ops|
    ensures Named(ops[..n]) <= Named(ops)
  {
    forall k | k in Named(ops[..n])
      ensures k in Named(ops)
    {
      var i :| 0 <= i < n && (ops[..n][i].op.Submit? || ops[..n][i].op.Peek?) && ops[..n][i].op.key == k;
      assert ops[..n][i] == ops[i];
    }
  }

  /** Which of the answers are "full". */
  function Fulls(answers: seq<Outcome>): (r: seq<bool>)
    ensures |r| == |answers|
  {
    seq(|answers|, i requires 0 <= i < |answers| => answers[i] == Judged(CacheFull))
  }

  lemma FullsPush(a: seq<Outcome>, x: Outcome)
    ensures Fulls(a + [x]) == Fulls(a) + [x == Judged(CacheFull)]
  {
  }

  lemma FullsFront(a: seq<Outcome>, x: Outcome, b: seq<Outcome>, y: Outcome)
    requires Fulls(a + [x]) == Fulls(b + [y])
    ensures Fulls(a) == Fulls(b) && (x == Judged(CacheFull) <==> y == Judged(CacheFull))
  {
    hide Fulls;
    FullsPush(a, x);
    FullsPush(b, y);
    assert (Fulls(a) + [x == Judged(CacheFull)])[..|a|] == Fulls(a);
    assert (Fulls(b) + [y == Judged(CacheFull)])[..|b|] == Fulls(b);
  }

  lemma FullChangesNothing(c: Config, m: Entries, t: Timed)
    requires Answer(c, m, t) == Judged(CacheFull)
    ensures Next(c, m, t) == m
  {
  }

  /** One more call, in the restricted run and in the answers. */
  lemma PushCall(c: Config, front: seq<Timed>, t: Timed, ks: KeySet)
    ensures Only(front + [t], ks) == if Concerns(t.op, ks) then Only(front, ks) + [t] else Only(front, ks)
    ensures Run(c, front + [t]) == Next(c, Run(c, front), t)
    ensures AnswersFor(c, front + [t], ks)
            == if Concerns(t.op, ks) && t.op != Clear && t.op != Cleanup
               then AnswersFor(c, front, ks) + [Answer(c, Run(c, front), t)]
               else AnswersFor(c, front, ks)
  {
    hide Next, Answer, Concerns;
    assert (front + [t])[..|front|] == front;
  }

  lemma {:induction false} SameFulls(c: Config, ops: seq<Timed>, ks: KeySet)
    requires Fulls(AnswersFor(c, Only(ops, ks), ks)) == Fulls(AnswersFor(c, ops, ks))
    ensures Run(c, Only(ops, ks)) == Restrict(Run(c, ops), ks)
    ensures AnswersFor(c, Only(ops, ks), ks) == AnswersFor(c, ops, ks)
  {
    if ops == [] {
      assert Run(c, Only([], ks)) == Restrict(Run(c, []), ks);
    } else {
      hide *;
      var front, t := ops[..|ops| - 1], ops[|ops| - 1];
      assert ops == front + [t];
      PushCall(c, front, t, ks);
      if Concerns(t.op, ks) {
        PushCall(c, Only(front, ks), t, ks);
        if t.op != Clear && t.op != Cleanup {
          FullsFront(AnswersFor(c, Only(front, ks), ks), Answer(c, Run(c, Only(front, ks)), t),
                     AnswersFor(c, front, ks), Answer(c, Run(c, front), t));
        }
        SameFulls(c, front, ks);
        StepUnlessFull(c, Run(c, front), ks, t);
      } else {
        SameFulls(c, front, ks);
        ForeignStep(c, Run(c, front), ks, t);
      }
    }
  }

  lemma StepUnlessFull(c: Config, m: Entries, ks: KeySet, t: Timed)
    requires Concerns(t.op, ks)
    requires t.op != Clear && t.op != Cleanup ==>
               (Answer(c, Restrict(m, ks), t) == Judged(CacheFull) <==> Answer(c, m, t) == Judged(CacheFull))
    ensures Next(c, Restrict(m, ks), t) == Restrict(Next(c, m, t), ks)
    ensures t.op != Clear && t.op != Cleanup ==> Answer(c, Restrict(m, ks), t) == Answer(c, m, t)
  {
    hide Next, Restrict;
    if Answer(c, m, t) == Judged(CacheFull) {
      FullChangesNothing(c, m, t);
      FullChangesNothing(c, Restrict(m, ks), t);
    } else {
      RestrictedStep(c, m, ks, t);
    }
  }

  /**
   Isolation in general, with no bound on anyone's keys: the answers of `ks` are those it would
   get alone exactly when the same calls are answered "full". Capacity is all that tenants share.
   */
  lemma OnlyCapacityIsShared(c: Config, ops: seq<Timed>, ks: KeySet)
    ensures AnswersFor(c, Only(ops, ks), ks) == AnswersFor(c, ops, ks) <==>
            Fulls(AnswersFor(c, Only(ops, ks), ks)) == Fulls(AnswersFor(c, ops, ks))
  {
    if Fulls(AnswersFor(c, Only(ops, ks), ks)) == Fulls(AnswersFor(c, ops, ks)) {
      SameFulls(c, ops, ks);
    }
  }

  lemma FewKeysRoom(c: Config, ops: seq<Timed>, ks: KeySet)
    requires |Named(ops)| <= c.cap
    ensures RoomFor(c, ops, ks)
  {
    hide Run, AnswerAt, Named, RoomFor;
    FewKeysNeverFull(c, ops);
    RoomIsNeverFull(c, ops, ks);
  }

  /**
   Tenant isolation at the real capacity, for a tenant with at most 100000 sources and any
   traffic of the others: its answers are those it would get alone exactly when each of its
   calls finds its key stored or the cache not full. The same for a single key.
   */
  lemma TenantIsolation(ttl: nat, ops: seq<Timed>, tenant: U64, key: ReplayKey)
    ensures var c := Config(REPLAY_CACHE_MAX_CAPACITY, ttl);
            var mine := (k: ReplayKey) => k.tenantId == tenant;
            var one := (k: ReplayKey) => k == key;
            && (|Named(Only(ops, mine))| <= 100_000 ==>
                  (AnswersFor(c, Only(ops, mine), mine) == AnswersFor(c, ops, mine) <==> RoomFor(c, ops, mine)))
            && (AnswersFor(c, Only(ops, one), one) == AnswersFor(c, ops, one) <==> RoomFor(c, ops, one))
            && (|Named(ops)| <= 100_000 ==> RoomFor(c, ops, mine) && RoomFor(c, ops, one))
  {
    var c := Config(REPLAY_CACHE_MAX_CAPACITY, ttl);
    var mine := (k: ReplayKey) => k.tenantId == tenant;
    var one := (k: ReplayKey) => k == key;
    hide AnswersFor, Run, AnswerAt, Named, RoomFor;
    if |Named(Only(ops, mine))| <= 100_000 {
      FewKeysRoom(c, Only(ops, mine), mine);
      IsolationExact(c, ops, mine);
    }
    OneKeyNamed(ops, key);
    FewKeysRoom(c, Only(ops, one), one);
    IsolationExact(c, ops, one);
    if |Named(ops)| <= 100_000 {
      FewKeysRoom(c, ops, mine);
      FewKeysRoom(c, ops, one);
    }
  }

  lemma OneKeyNamed(ops: seq<Timed>, key: ReplayKey)
    ensures |Named(Only(ops, (k: ReplayKey) => k == key))| <= 1
  {
    var one := (k: ReplayKey) => k == key;
    OnlyConcerned(ops, one);
    assert Named(Only(ops, one)) <= {key};
    SubsetSize(Named(Only(ops, one)), {key});
  }

  lemma {:induction false} OnlyConcerned(ops: seq<Timed>, ks: KeySet)
    ensures forall i | 0 <= i < |Only(ops, ks)| :: Concerns(Only(ops, ks)[i].op, ks)
  {
    if ops == [] {
    } else {
      OnlyConcerned(ops[..|ops| - 1], ks);
    }
  }

  /**
   Past the capacity isolation does fail: a new key is told "full", which it never would be
   alone, so its answers are not those it would get alone.
   */
  lemma FullCacheInterferes(c: Config, ops: seq<Timed>, key: ReplayKey, s: U16, now: nat)
    requires |Run(c, ops)| >= c.cap >= 1 && key !in Run(c, ops)
    ensures var one := (k: ReplayKey) => k == key;
            var all := ops + [At(now, Submit(key, s))];
            && AnswerAt(c, all, |ops|) == Judged(CacheFull)
            && AnswerAt(c, [At(now, Submit(key, s))], 0) == Judged(Allowed)
            && NeverFullFor(c, Only(all, one), one) && !NeverFullFor(c, all, one)
            && AnswersFor(c, Only(all, one), one) != AnswersFor(c, all, one)
  {
    var one := (k: ReplayKey) => k == key;
    var all := ops + [At(now, Submit(key, s))];
    hide Named, AnswersFor, NeverFull, RoomFor;
    assert all[..|ops|] == ops;
    assert [At(now, Submit(key, s))][..0] == [];
    assert AnswerAt(c, all, |ops|) == Judged(CacheFull) && Concerns(all[|ops|].op, one);
    OneKeyNamed(all, key);
    FewKeysRoom(c, Only(all, one), one);
    RoomIsNeverFull(c, Only(all, one), one);
    RoomIsNeverFull(c, all, one);
    IsolationExact(c, all, one);
  }

  /** The cache never holds more than its capacity in a sequential run. */
  lemma {:induction false} CapacityBound(c: Config, ops: seq<Timed>)
    ensures |Run(c, ops)| <= c.cap
  {
    if ops == [] {
    } else {
      var front := ops[..|ops| - 1];
      CapacityBound(c, front);
      StepSize(c, Run(c, front), ops[|ops| - 1]);
    }
  }

  lemma StepSize(c: Config, m: Entries, t: Timed)
    requires |m| <= c.cap
    ensures |Next(c, m, t)| <= c.cap
  {
    match t.op {
      case Submit(key, s) =>
        UpdateSize(m, key, Entry(s, t.now));
      case Peek(_, _) =>
      case Remove(key) => RemoveSize(m, key);
      case Clear =>
      case Cleanup => CleanupSize(m, c.ttl, t.now);
    }
  }
}
