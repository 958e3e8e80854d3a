/**
 When the interleaving itself lets a number pass twice while its key stays registered: never as
 long as all steps are timely, and at the first allowed call that is not. A removal, cleanup or
 clear of the key starts it afresh, for one thread as for many.
 */
module Replays {
  import opened Bytes
  import opened Wrappers
  import opened ReplayCache
  import opened ReplaySteps
  import opened ReplayVerdicts
  import opened SingleFlight

  /** The step makes the cache forget `key`, by removal, cleanup or clear. */
  predicate Forgets(cap: nat, s: State, l: Label, key: ReplayKey) {
    key in s.entries && key !in Next(cap, s, l).entries
  }

  /** Label `i` finishes an allowed call for `key` with number `q`. */
  predicate Passes(cap: nat, n: nat, labels: seq<Label>, i: nat, key: ReplayKey, q: U16) {
    && i < |labels|
    && var done := Finished(cap, StateAt(cap, n, labels, i), labels[i]);
    && done.Some? && done.value.verdict == Allowed && done.value.call == Call(key, q)
  }

  /** `key` is not forgotten strictly between labels `i` and `j`. */
  predicate Kept(cap: nat, n: nat, labels: seq<Label>, key: ReplayKey, i: nat, j: nat)
    requires j <= |labels|
  {
    forall m | i < m < j :: !Forgets(cap, StateAt(cap, n, labels, m), labels[m], key)
  }

  /** Labels `i` and `j` both let a number pass for `key`, the second no larger, with the key kept in between. */
  predicate PassesAgain(cap: nat, n: nat, labels: seq<Label>, i: nat, j: nat, key: ReplayKey, q: U16, q': U16) {
    && i < j < |labels|
    && Passes(cap, n, labels, i, key, q) && Passes(cap, n, labels, j, key, q')
    && q' <= q && Kept(cap, n, labels, key, i, j)
  }

  predicate TimelyAt(cap: nat, n: nat, labels: seq<Label>, m: nat)
    requires m < |labels|
  {
    Timely(cap, StateAt(cap, n, labels, m), labels[m])
  }

  // ----- timely steps

  lemma TimelyNeverLowers(cap: nat, s: State, l: Label, key: ReplayKey)
    requires Timely(cap, s, l)
    ensures !Lowers(cap, s, l, key)
  {
    LowersExactly(cap, s, l, key);
    hide Lowers, Unguarded;
  }

  lemma StaysOne(cap: nat, s: State, l: Label, key: ReplayKey, q: U16)
    requires HoldsAtLeast(s, key, q) && !Lowers(cap, s, l, key) && !Forgets(cap, s, l, key)
    ensures HoldsAtLeast(Next(cap, s, l), key, q)
  {
    hide Next;
  }

  lemma {:induction false} StaysAtLeast(cap: nat, n: nat, labels: seq<Label>, key: ReplayKey, q: U16, i: nat, j: nat)
    requires i < j <= |labels| && HoldsAtLeast(StateAt(cap, n, labels, i + 1), key, q)
    requires (forall m | i < m < j :: TimelyAt(cap, n, labels, m)) && Kept(cap, n, labels, key, i, j)
    ensures HoldsAtLeast(StateAt(cap, n, labels, j), key, q)
    decreases j
  {
    hide StateAt, Next, Timely, HoldsAtLeast, Forgets, Lowers;
    if j == i + 1 {
    } else {
      var s, l := StateAt(cap, n, labels, j - 1), labels[j - 1];
      StaysAtLeast(cap, n, labels, key, q, i, j - 1);
      assert TimelyAt(cap, n, labels, j - 1) && !Forgets(cap, s, l, key);
      TimelyNeverLowers(cap, s, l, key);
      StaysOne(cap, s, l, key, q);
      StateStep(cap, n, labels, j - 1);
    }
  }

  /** An allowed call leaves its number stored. */
  lemma AllowedStores(cap: nat, s: State, l: Label, r: Return)
    requires Finished(cap, s, l) == Some(r) && r.verdict == Allowed
    ensures HoldsAtLeast(Next(cap, s, l), r.call.key, r.call.seqNo)
  {
    hide Unguarded;
  }

  /** Exactly when an allowed call is timely: it replaced a smaller number or none. */
  lemma AllowedTimely(cap: nat, s: State, l: Label, r: Return)
    requires Finished(cap, s, l) == Some(r) && r.verdict == Allowed && GuardsHold(s)
    ensures Timely(cap, s, l) <==> r.call.key in s.entries ==> s.entries[r.call.key].seqNo < r.call.seqNo
  {
    hide Unguarded;
  }

  lemma {:induction false} ReachableGuards(cap: nat, n: nat, labels: seq<Label>)
    ensures GuardsHold(Run(cap, n, labels))
  {
    if labels == [] {
    } else {
      hide Next, GuardsHold;
      ReachableGuards(cap, n, labels[..|labels| - 1]);
      GuardsHoldNext(cap, Run(cap, n, labels[..|labels| - 1]), labels[|labels| - 1]);
    }
  }

  /** Timely steps let no number pass twice while its key is kept. */
  lemma TimelyIncrease(cap: nat, n: nat, labels: seq<Label>, i: nat, j: nat, key: ReplayKey, q: U16, q': U16)
    requires i < j < |labels| && forall m | i < m <= j :: TimelyAt(cap, n, labels, m)
    ensures !PassesAgain(cap, n, labels, i, j, key, q, q')
  {
    hide Run, Next, Timely, Finished, GuardsHold, Forgets, Kept;
    if Passes(cap, n, labels, i, key, q) && Passes(cap, n, labels, j, key, q') && Kept(cap, n, labels, key, i, j) {
      var s, s' := StateAt(cap, n, labels, i), StateAt(cap, n, labels, j);
      AllowedStores(cap, s, labels[i], Finished(cap, s, labels[i]).value);
      StateStep(cap, n, labels, i);
      StaysAtLeast(cap, n, labels, key, q, i, j);
      ReachableGuards(cap, n, labels[..j]);
      assert s' == Run(cap, n, labels[..j]);
      assert TimelyAt(cap, n, labels, j);
      AllowedTimely(cap, s', labels[j], Finished(cap, s', labels[j]).value);
    }
  }

  /**
   With one call per key in flight, of two calls for one key that the interleaving itself allows,
   with no removal of the key taking effect in between, the later-finishing has the larger number.
   */
  lemma AcceptedIncrease(cap: nat, n: nat, labels: seq<Label>, i: nat, j: nat, a: Return, b: Return)
    requires SingleFlightRun(cap, n, labels) && i < j < |labels|
    requires Finished(cap, StateAt(cap, n, labels, i), labels[i]) == Some(a) && a.verdict == Allowed
    requires Finished(cap, StateAt(cap, n, labels, j), labels[j]) == Some(b) && b.verdict == Allowed
    requires a.call.key == b.call.key
    requires forall m | i < m < j :: !Forgets(cap, StateAt(cap, n, labels, m), labels[m], a.call.key)
    ensures a.call.seqNo < b.call.seqNo
  {
    hide StateAt, Timely, SingleFlightRun, Finished, Forgets;
    FlightIsTimely(cap, n, labels);
    forall m | i < m <= j
      ensures TimelyAt(cap, n, labels, m)
    {
    }
    TimelyIncrease(cap, n, labels, i, j, a.call.key, a.call.seqNo, b.call.seqNo);
  }

  // ----- the first replay

  /** A timely step leaves a key's number as it was, or stores the number of the call it allows. */
  lemma TimelySource(cap: nat, s: State, l: Label, key: ReplayKey)
    requires Timely(cap, s, l) && key in Next(cap, s, l).entries
    ensures var now := Next(cap, s, l).entries[key].seqNo;
            || (key in s.entries && s.entries[key].seqNo == now)
            || (var done := Finished(cap, s, l);
                done.Some? && done.value.verdict == Allowed && done.value.call == Call(key, now))
  {
    hide Unguarded;
  }

  /** So what is stored was let pass, and the key has been kept since. */
  lemma {:induction false} StoredHasPassed(cap: nat, n: nat, labels: seq<Label>, j: nat, key: ReplayKey)
    returns (i: nat)
    requires j <= |labels| && key in StateAt(cap, n, labels, j).entries
    requires forall m | 0 <= m < j :: TimelyAt(cap, n, labels, m)
    ensures i < j && Kept(cap, n, labels, key, i, j)
    ensures Passes(cap, n, labels, i, key, StateAt(cap, n, labels, j).entries[key].seqNo)
    decreases j
  {
    if j == 0 {
      NothingStored(cap, n, labels);
      assert false;
    } else {
      hide StateAt, Next, Timely, Finished;
      var s, l := StateAt(cap, n, labels, j - 1), labels[j - 1];
      StateStep(cap, n, labels, j - 1);
      assert TimelyAt(cap, n, labels, j - 1);
      TimelySource(cap, s, l, key);
      if key in s.entries && s.entries[key].seqNo == Next(cap, s, l).entries[key].seqNo {
        hide Kept, Passes, TimelyAt;
        i := StoredHasPassed(cap, n, labels, j - 1, key);
        KeptLonger(cap, n, labels, key, i, j - 1);
      } else {
        hide TimelyAt;
        i := j - 1;
      }
    }
  }

  lemma KeptLonger(cap: nat, n: nat, labels: seq<Label>, key: ReplayKey, i: nat, j: nat)
    requires i < j < |labels| && Kept(cap, n, labels, key, i, j)
    requires !Forgets(cap, StateAt(cap, n, labels, j), labels[j], key)
    ensures Kept(cap, n, labels, key, i, j + 1)
  {
    hide StateAt, Forgets;
  }

  lemma NothingStored(cap: nat, n: nat, labels: seq<Label>)
    ensures StateAt(cap, n, labels, 0).entries == map[]
  {
    assert labels[..0] == [];
  }

  /**
   The first replay, exactly: after timely steps only, an allowed call lets a number pass again
   if and only if its own step is not timely, that is, if it loaded a number below its own while
   one at least as large is stored now.
   */
  lemma FirstReplayExactly(cap: nat, n: nat, labels: seq<Label>, j: nat, key: ReplayKey, q: U16)
    requires Passes(cap, n, labels, j, key, q)
    requires forall m | 0 <= m < j :: TimelyAt(cap, n, labels, m)
    ensures (exists i, p :: PassesAgain(cap, n, labels, i, j, key, p, q)) <==> !TimelyAt(cap, n, labels, j)
    ensures !TimelyAt(cap, n, labels, j) <==>
            var s := StateAt(cap, n, labels, j); key in s.entries && q <= s.entries[key].seqNo
  {
    hide Run, Timely, Finished, GuardsHold;
    var s := StateAt(cap, n, labels, j);
    ReachableGuards(cap, n, labels[..j]);
    AllowedTimely(cap, s, labels[j], Finished(cap, s, labels[j]).value);
    if TimelyAt(cap, n, labels, j) {
      forall i: nat, p: U16 | i < j
        ensures !PassesAgain(cap, n, labels, i, j, key, p, q)
      {
        TimelyIncrease(cap, n, labels, i, j, key, p, q);
      }
    } else {
      var i := StoredHasPassed(cap, n, labels, j, key);
      assert PassesAgain(cap, n, labels, i, j, key, s.entries[key].seqNo, q);
    }
  }
}
