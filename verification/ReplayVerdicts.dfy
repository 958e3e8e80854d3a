/**
 What a verdict means under any interleaving: no call is turned away without a competing
 call that justifies it, and every verdict was true at some moment while the call ran.
 */
module ReplayVerdicts {
  import opened Bytes
  import opened ReplayCache
  import opened ReplaySteps

  /** The cell was stored by the call it names, under that call's key and number. */
  predicate Backed(s: State, key: ReplayKey, c: Cell) {
    c.writer in s.calls && s.calls[c.writer] == Call(key, c.seqNo)
  }

  /** The thread's call is on record, and what it has read came from other calls. */
  predicate SoundThread(s: State, th: Thread) {
    && (th.InCall() ==> th.id in s.calls && s.calls[th.id] == th.call)
    && (th.Loaded? ==> Backed(s, th.call.key, th.seen) && th.seen.writer != th.id)
    && (th.Restoring? ==>
          && Backed(s, th.call.key, th.displaced)
          && th.displaced.writer != th.id && th.call.seqNo <= th.displaced.seqNo)
  }

  /** The call `id` has stored nothing yet. */
  predicate Unwritten(s: State, id: nat) {
    && (forall k | k in s.entries :: s.entries[k].writer != id)
    && (forall t | 0 <= t < |s.threads| ::
          && (s.threads[t].Loaded? ==> s.threads[t].seen.writer != id)
          && (s.threads[t].Restoring? ==> s.threads[t].displaced.writer != id))
  }

  predicate Sound(s: State) {
    && (forall id | id in s.calls :: id < s.clock)
    && (forall k | k in s.entries :: Backed(s, k, s.entries[k]))
    && (forall t | 0 <= t < |s.threads| :: SoundThread(s, s.threads[t]))
    && (forall t | 0 <= t < |s.threads| ::
          s.threads[t].InCall() && !s.threads[t].Restoring? ==> Unwritten(s, s.threads[t].id))
    && (forall t, u | 0 <= t < u < |s.threads| ::
          s.threads[t].InCall() && s.threads[u].InCall() ==> s.threads[t].id != s.threads[u].id)
  }

  /** What an access leaves in the map: an old cell, its own new cell, or the cell it puts back. */
  predicate FromAccess(s: State, th: Thread, k: ReplayKey, c: Cell) {
    || (k in s.entries && c == s.entries[k])
    || (th.InCall() && !th.Restoring? && k == th.call.key && c == Cell(th.call.seqNo, th.id))
    || (th.Restoring? && k == th.call.key && c == th.displaced)
  }

  /** The shape of one access: where cells come from and how the call goes on. */
  lemma AccessShape(cap: nat, s: State, th: Thread)
    requires Access(cap, s, th).Some?
    ensures var a := Access(cap, s, th).value;
            && (forall k | k in a.0 :: FromAccess(s, th, k, a.0[k]))
            && (a.1 == Idle || (a.1.InCall() && th.InCall() && a.1.id == th.id && a.1.call == th.call))
            && (a.1.Loaded? ==> th.call.key in s.entries && a.1.seen == s.entries[th.call.key])
            && (a.1.Restoring? ==>
                  && th.Roomy? && th.call.key in s.entries
                  && a.1.displaced == s.entries[th.call.key] && th.call.seqNo <= a.1.displaced.seqNo)
            && (a.1.InCall() && !a.1.Restoring? ==> a.0 == s.entries && !th.Restoring?)
  {
  }

  lemma SoundCells(cap: nat, s: State, t: nat)
    requires Sound(s) && t < |s.threads| && Access(cap, s, s.threads[t]).Some?
    ensures var s' := Next(cap, s, Go(t)); forall k | k in s'.entries :: Backed(s', k, s'.entries[k])
  {
    hide Access;
    AccessShape(cap, s, s.threads[t]);
    var s' := Next(cap, s, Go(t));
    forall k | k in s'.entries
      ensures Backed(s', k, s'.entries[k])
    {
      assert FromAccess(s, s.threads[t], k, s'.entries[k]);
      assert SoundThread(s, s.threads[t]);
    }
  }

  lemma SoundThreads(cap: nat, s: State, t: nat)
    requires Sound(s) && t < |s.threads| && Access(cap, s, s.threads[t]).Some?
    ensures var s' := Next(cap, s, Go(t)); forall u | 0 <= u < |s.threads| :: SoundThread(s', s'.threads[u])
  {
    hide Access;
    AccessShape(cap, s, s.threads[t]);
    var s' := Next(cap, s, Go(t));
    forall u | 0 <= u < |s.threads|
      ensures SoundThread(s', s'.threads[u])
    {
      assert SoundThread(s, s.threads[u]) && SoundThread(s, s.threads[t]);
      if u == t && s.threads[t].InCall() && !s.threads[t].Restoring? {
        assert Unwritten(s, s.threads[t].id);
      }
    }
  }

  lemma SoundUnwritten(cap: nat, s: State, t: nat, u: nat)
    requires Sound(s) && t < |s.threads| && u < |s.threads| && Access(cap, s, s.threads[t]).Some?
    requires var th := Next(cap, s, Go(t)).threads[u]; th.InCall() && !th.Restoring?
    ensures var s' := Next(cap, s, Go(t)); Unwritten(s', s'.threads[u].id)
  {
    hide Access;
    var th := s.threads[t];
    AccessShape(cap, s, th);
    var s' := Next(cap, s, Go(t));
    var id := s'.threads[u].id;
    assert Unwritten(s, id);
    assert u != t && th.InCall() ==> th.id != id;
    forall k | k in s'.entries
      ensures s'.entries[k].writer != id
    {
      assert FromAccess(s, th, k, s'.entries[k]);
    }
  }

  lemma SoundGo(cap: nat, s: State, t: nat)
    requires Sound(s) && t < |s.threads| && Access(cap, s, s.threads[t]).Some?
    ensures Sound(Next(cap, s, Go(t)))
  {
    SoundCells(cap, s, t);
    SoundThreads(cap, s, t);
    hide Access;
    AccessShape(cap, s, s.threads[t]);
    hide SoundThread, Backed, Unwritten;
    var s' := Next(cap, s, Go(t));
    forall u | 0 <= u < |s.threads| && s'.threads[u].InCall() && !s'.threads[u].Restoring?
      ensures Unwritten(s', s'.threads[u].id)
    {
      SoundUnwritten(cap, s, t, u);
    }
  }

  lemma SoundSubmit(cap: nat, s: State, t: nat, key: ReplayKey, seqNo: U16)
    requires Sound(s) && t < |s.threads| && s.threads[t].Idle?
    ensures Sound(Next(cap, s, Submit(t, key, seqNo)))
  {
    var s' := Next(cap, s, Submit(t, key, seqNo));
    assert s.clock !in s.calls;
    forall u | 0 <= u < |s.threads|
      ensures SoundThread(s', s'.threads[u])
    {
      assert SoundThread(s, s.threads[u]);
    }
    forall k | k in s'.entries
      ensures Backed(s', k, s'.entries[k]) && s'.entries[k].writer != s.clock
    {
      assert Backed(s, k, s.entries[k]);
    }
    forall u | 0 <= u < |s.threads| && s'.threads[u].InCall() && !s'.threads[u].Restoring?
      ensures Unwritten(s', s'.threads[u].id)
    {
      forall v | 0 <= v < |s.threads|
        ensures s'.threads[v].Loaded? ==> s'.threads[v].seen.writer != s'.threads[u].id
        ensures s'.threads[v].Restoring? ==> s'.threads[v].displaced.writer != s'.threads[u].id
      {
        assert SoundThread(s, s.threads[v]);
        if u != t { assert Unwritten(s, s.threads[u].id); }
      }
    }
  }

  lemma SoundNext(cap: nat, s: State, l: Label)
    requires Sound(s)
    ensures Sound(Next(cap, s, l))
  {
    hide Access;
    if l.Go? && l.t < |s.threads| && Access(cap, s, s.threads[l.t]).Some? {
      SoundGo(cap, s, l.t);
    } else if l.Submit? && l.t < |s.threads| && s.threads[l.t].Idle? {
      SoundSubmit(cap, s, l.t, l.key, l.seqNo);
    } else {
      SoundOther(cap, s, Next(cap, s, l));
    }
  }

  /** Losing entries and starting a removal keep the record sound. */
  lemma SoundOther(cap: nat, s: State, s': State)
    requires Sound(s) && s'.calls == s.calls && s'.clock == s.clock + 1 && |s'.threads| == |s.threads|
    requires forall k | k in s'.entries :: k in s.entries && s'.entries[k] == s.entries[k]
    requires forall t | 0 <= t < |s.threads| :: s'.threads[t] == s.threads[t] || s'.threads[t].Removing?
    ensures Sound(s')
  {
    forall t | 0 <= t < |s.threads|
      ensures SoundThread(s', s'.threads[t])
    {
      assert SoundThread(s, s.threads[t]);
    }
    forall k | k in s'.entries
      ensures Backed(s', k, s'.entries[k])
    {
      assert Backed(s, k, s.entries[k]);
    }
    forall t | 0 <= t < |s.threads| && s'.threads[t].InCall() && !s'.threads[t].Restoring?
      ensures Unwritten(s', s'.threads[t].id)
    {
      assert Unwritten(s, s.threads[t].id);
    }
  }

  lemma {:induction false} SoundRun(cap: nat, n: nat, labels: seq<Label>)
    ensures Sound(Run(cap, n, labels))
  {
    if labels == [] {
    } else {
      var front := labels[..|labels| - 1];
      SoundRun(cap, n, front);
      SoundNext(cap, Run(cap, n, front), labels[|labels| - 1]);
    }
  }

  // ----- calls by position in the run

  /** The state after the first `i` labels. */
  function StateAt(cap: nat, n: nat, labels: seq<Label>, i: nat): State
    requires i <= |labels|
  {
    Run(cap, n, labels[..i])
  }

  /** Label `i` begins the call `c`: some idle thread takes it up. */
  predicate Begins(cap: nat, n: nat, labels: seq<Label>, i: nat, c: Call) {
    && i < |labels|
    && labels[i].Submit? && Call(labels[i].key, labels[i].seqNo) == c
    && labels[i].t < |StateAt(cap, n, labels, i).threads|
    && StateAt(cap, n, labels, i).threads[labels[i].t].Idle?
  }

  lemma {:induction false} CallsBegan(cap: nat, n: nat, labels: seq<Label>, id: nat)
    requires id in Run(cap, n, labels).calls
    ensures Begins(cap, n, labels, id, Run(cap, n, labels).calls[id])
  {
    hide Next;
    var k := |labels| - 1;
    var front, l := labels[..k], labels[k];
    var s := Run(cap, n, front);
    RunShape(cap, n, front);
    SoundRun(cap, n, front);
    CallsStep(cap, s, l, id);
    if id in s.calls {
      CallsBegan(cap, n, front, id);
      BeginsExtends(cap, n, front, labels, id, s.calls[id]);
    }
  }

  lemma CallsStep(cap: nat, s: State, l: Label, id: nat)
    requires Sound(s) && id in Next(cap, s, l).calls
    ensures var c := Next(cap, s, l).calls[id];
            if id in s.calls then c == s.calls[id]
            else id == s.clock && l.Submit? && l.t < |s.threads| && s.threads[l.t].Idle? && c == Call(l.key, l.seqNo)
  {
    hide Access;
  }

  lemma BeginsExtends(cap: nat, n: nat, front: seq<Label>, labels: seq<Label>, id: nat, c: Call)
    requires front <= labels && Begins(cap, n, front, id, c)
    ensures Begins(cap, n, labels, id, c)
  {
    assert front[..id] == labels[..id] && front[id] == labels[id];
  }

  // ----- moments during a call

  predicate HoldsAtLeast(s: State, key: ReplayKey, q: U16) {
    key in s.entries && s.entries[key].seqNo >= q
  }

  predicate HoldsLess(s: State, key: ReplayKey, q: U16) {
    key in s.entries ==> s.entries[key].seqNo < q
  }

  /** At some moment after the call began, and no later than state `i`, the cell was stored under `key`. */
  predicate Saw(cap: nat, n: nat, labels: seq<Label>, id: nat, i: nat, key: ReplayKey, c: Cell)
    requires i <= |labels|
  {
    exists m | id < m <= i ::
      key in StateAt(cap, n, labels, m).entries && StateAt(cap, n, labels, m).entries[key] == c
  }

  predicate SawAbsent(cap: nat, n: nat, labels: seq<Label>, id: nat, i: nat, key: ReplayKey)
    requires i <= |labels|
  {
    exists m | id < m <= i :: key !in StateAt(cap, n, labels, m).entries
  }

  /** What the thread remembers was true at some moment of its call. */
  predicate Witnessed(cap: nat, n: nat, labels: seq<Label>, i: nat, th: Thread)
    requires i <= |labels|
  {
    match th
    case Idle => true
    case Entered(id, _) => id < i
    case Loaded(id, c, seen) => id < i && Saw(cap, n, labels, id, i, c.key, seen)
    case Missed(id, c) => id < i && SawAbsent(cap, n, labels, id, i, c.key)
    case Roomy(id, c) => id < i && SawAbsent(cap, n, labels, id, i, c.key)
    case Restoring(id, c, displaced) => id < i && Saw(cap, n, labels, id, i, c.key, displaced)
    case Removing(_) => true
  }

  lemma WitnessLater(cap: nat, n: nat, labels: seq<Label>, i: nat, th: Thread)
    requires i < |labels| && Witnessed(cap, n, labels, i, th)
    ensures Witnessed(cap, n, labels, i + 1, th)
  {
  }

  lemma WitnessAccess(cap: nat, n: nat, labels: seq<Label>, i: nat, th: Thread)
    requires i < |labels| && Witnessed(cap, n, labels, i, th)
    requires Access(cap, StateAt(cap, n, labels, i), th).Some?
    ensures Witnessed(cap, n, labels, i + 1, Access(cap, StateAt(cap, n, labels, i), th).value.1)
  {
    var e := StateAt(cap, n, labels, i).entries;
    match th {
      case Entered(id, c) =>
        if c.key in e {
          assert Saw(cap, n, labels, id, i + 1, c.key, e[c.key]);
        } else {
          assert SawAbsent(cap, n, labels, id, i + 1, c.key);
        }
      case Roomy(id, c) =>
        if c.key in e {
          assert Saw(cap, n, labels, id, i + 1, c.key, e[c.key]);
        }
      case Missed(id, c) =>
        assert SawAbsent(cap, n, labels, id, i + 1, c.key);
      case Idle =>
      case Loaded(_, _, _) =>
      case Restoring(_, _, _) =>
      case Removing(_) =>
    }
  }

  lemma {:induction false} AllWitnessed(cap: nat, n: nat, labels: seq<Label>, i: nat, t: nat)
    requires i <= |labels| && t < n
    ensures |StateAt(cap, n, labels, i).threads| == n
    ensures Witnessed(cap, n, labels, i, StateAt(cap, n, labels, i).threads[t])
    decreases i
  {
    hide Next, Access, Witnessed;
    RunShape(cap, n, labels[..i]);
    if i == 0 {
      IdleWitnessed(cap, n, labels);
    } else {
      AllWitnessed(cap, n, labels, i - 1, t);
      StateStep(cap, n, labels, i - 1);
      var s, l := StateAt(cap, n, labels, i - 1), labels[i - 1];
      RunShape(cap, n, labels[..i - 1]);
      ThreadStep(cap, s, l, t);
      var th' := Next(cap, s, l).threads[t];
      if th' == s.threads[t] {
        WitnessLater(cap, n, labels, i - 1, s.threads[t]);
      } else if l == Go(t) {
        WitnessAccess(cap, n, labels, i - 1, s.threads[t]);
      } else {
        FreshWitnessed(cap, n, labels, i, th');
      }
    }
  }

  lemma IdleWitnessed(cap: nat, n: nat, labels: seq<Label>)
    ensures Witnessed(cap, n, labels, 0, Idle)
  {
  }

  lemma FreshWitnessed(cap: nat, n: nat, labels: seq<Label>, i: nat, th: Thread)
    requires i <= |labels| && ((th.Entered? && th.id < i) || th.Removing?)
    ensures Witnessed(cap, n, labels, i, th)
  {
  }

  /** A step leaves a thread alone, makes its access, or starts it on something. */
  lemma ThreadStep(cap: nat, s: State, l: Label, t: nat)
    requires t < |s.threads|
    ensures var th := Next(cap, s, l).threads[t];
            || th == s.threads[t]
            || (l == Go(t) && Access(cap, s, s.threads[t]).Some? && th == Access(cap, s, s.threads[t]).value.1)
            || (!l.Go? && ((th.Entered? && th.id == s.clock) || th.Removing?))
  {
    hide Access;
  }

  lemma StateStep(cap: nat, n: nat, labels: seq<Label>, i: nat)
    requires i < |labels|
    ensures StateAt(cap, n, labels, i + 1) == Next(cap, StateAt(cap, n, labels, i), labels[i])
  {
    assert labels[..i + 1][..i] == labels[..i];
  }

  // ----- the theorem

  /** Another call for the same key with a number at least as large had begun before step `i`. */
  predicate Competitor(cap: nat, n: nat, labels: seq<Label>, i: nat, r: Return) {
    exists j, q: U16 | 0 <= j < i ::
      j != r.id && q >= r.call.seqNo && Begins(cap, n, labels, j, Call(r.call.key, q))
  }

  lemma RejectedHasCompetitor(cap: nat, n: nat, labels: seq<Label>, i: nat, th: Thread, c: Cell)
    requires i <= |labels| && th.InCall() && c.writer != th.id && c.seqNo >= th.call.seqNo
    requires Backed(StateAt(cap, n, labels, i), th.call.key, c)
    ensures Competitor(cap, n, labels, i, Return(th.id, th.call, Rejected))
  {
    CallsBegan(cap, n, labels[..i], c.writer);
    BeginsExtends(cap, n, labels[..i], labels, c.writer, Call(th.call.key, c.seqNo));
    assert c.writer < i;
  }

  /**
   Verdicts under any interleaving, with the displace-and-restore path included.
   - A rejection has a reason: another call for the key, with a number at least as large, had
     already been made; and at some moment of the call the key held such a number.
   - An acceptance is real: at some moment of the call the key was absent or held less.
   - A full-cache answer is real: the key was absent at some moment, and the cache is full now.
   */
  lemma VerdictsJustified(cap: nat, n: nat, labels: seq<Label>, i: nat)
    requires i < |labels| && Finished(cap, StateAt(cap, n, labels, i), labels[i]).Some?
    ensures var r := Finished(cap, StateAt(cap, n, labels, i), labels[i]).value;
            var key, q := r.call.key, r.call.seqNo;
            && r.id < i && Begins(cap, n, labels, r.id, r.call)
            && (r.verdict == Rejected ==>
                  && Competitor(cap, n, labels, i, r)
                  && exists m | r.id < m <= i :: HoldsAtLeast(StateAt(cap, n, labels, m), key, q))
            && (r.verdict == Allowed ==>
                  exists m | r.id < m <= i :: HoldsLess(StateAt(cap, n, labels, m), key, q))
            && (r.verdict == CacheFull ==>
                  && |StateAt(cap, n, labels, i).entries| >= cap
                  && exists m | r.id < m <= i :: key !in StateAt(cap, n, labels, m).entries)
  {
    var s, t := StateAt(cap, n, labels, i), labels[i].t;
    var th := s.threads[t];
    var r := Finished(cap, s, labels[i]).value;
    var key, q := r.call.key, r.call.seqNo;
    RunShape(cap, n, labels[..i]);
    SoundRun(cap, n, labels[..i]);
    AllWitnessed(cap, n, labels, i, t);
    assert SoundThread(s, th);
    CallsBegan(cap, n, labels[..i], th.id);
    BeginsExtends(cap, n, labels[..i], labels, th.id, th.call);
    match th {
      case Loaded(id, c, seen) =>
        var m :| id < m <= i && key in StateAt(cap, n, labels, m).entries
                 && StateAt(cap, n, labels, m).entries[key] == seen;
        if q <= seen.seqNo {
          RejectedHasCompetitor(cap, n, labels, i, th, seen);
          assert HoldsAtLeast(StateAt(cap, n, labels, m), key, q);
        } else {
          assert HoldsLess(StateAt(cap, n, labels, m), key, q);
        }
      case Missed(id, c) =>
      case Roomy(id, c) =>
        assert HoldsLess(StateAt(cap, n, labels, i), key, q);
      case Restoring(id, c, displaced) =>
        var m :| id < m <= i && key in StateAt(cap, n, labels, m).entries
                 && StateAt(cap, n, labels, m).entries[key] == displaced;
        RejectedHasCompetitor(cap, n, labels, i, th, displaced);
        assert HoldsAtLeast(StateAt(cap, n, labels, m), key, q);
    }
  }
}
