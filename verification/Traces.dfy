/** The states a run goes through, and where the answers in its caches come from. */
module Traces {
  import opened Domain
  import opened Circulation
  import opened Views
  import opened Library
  import opened CacheCoherence

  // Consecutive states follow from one another by the steps.
  ghost predicate IsRun(ws: seq<World>, steps: seq<Step>) {
    && |ws| == |steps| + 1
    && forall i {:trigger Next(ws[i], steps[i])} | 0 <= i < |steps| :: ws[i + 1] == Next(ws[i], steps[i])
  }

  // State `i` is the library after the first `i` steps.
  ghost function States(start: Time, steps: seq<Step>): (ws: seq<World>)
    ensures IsRun(ws, steps) && ws[0] == Opening(start) && ws[|steps|] == Run(Opening(start), steps)
  {
    if steps == [] then [Opening(start)]
    else
      var earlier := States(start, steps[..|steps| - 1]);
      earlier + [Next(earlier[|steps| - 1], steps[|steps| - 1])]
  }

  lemma {:induction false} StatesAreRuns(start: Time, steps: seq<Step>, i: nat)
    requires i <= |steps|
    ensures States(start, steps)[i] == Run(Opening(start), steps[..i])
  {
    if i == |steps| {
      assert steps[..i] == steps;
    } else {
      StatesAreRuns(start, steps[..|steps| - 1], i);
      assert steps[..|steps| - 1][..i] == steps[..i];
    }
  }

  lemma StateNext(ws: seq<World>, steps: seq<Step>, i: nat)
    requires IsRun(ws, steps) && i < |steps|
    ensures ws[i + 1] == Next(ws[i], steps[i])
  {
  }

  // ---------- where a cached answer comes from ----------

  // What step `i` puts into the cache under `key`.
  ghost predicate Made(w: World, step: Step, key: string, entry: Entry) {
    && IsRead(step) && KeyOf(step) == key && Uncached(w, step).Ok?
    && entry == Entry(Json(Uncached(w, step).value), w.now + LifetimeOf(step))
  }

  // The key is in the cache all the way from after step `i` to state `k`.
  ghost predicate Kept(ws: seq<World>, steps: seq<Step>, key: string, i: nat, k: nat)
    requires k <= |steps| && |ws| == |steps| + 1
  {
    forall j | i < j <= k :: key in ws[j].cache
  }

  // Step `i` computed the entry under `key`, and it has not been deleted since.
  ghost predicate Origin(ws: seq<World>, steps: seq<Step>, key: string, entry: Entry, i: nat, k: nat)
    requires k <= |steps| && |ws| == |steps| + 1
  {
    i < k && Made(ws[i], steps[i], key, entry) && Kept(ws, steps, key, i, k)
  }

  predicate SameEntry(before: Store, after: Store, key: string)
    requires key in after
  {
    key in before && after[key] == before[key]
  }

  lemma DeletionKeeps(cache: Store, op: Op, db: Db, key: string)
    requires key in Invalidated(cache, op, db)
    ensures SameEntry(cache, Invalidated(cache, op, db), key)
  {
  }

  lemma ReadMakesOrKeeps(w: World, step: Step, key: string)
    requires IsRead(step) && key in Answered(w, step).0.cache
    ensures var after := Answered(w, step).0;
            SameEntry(w.cache, after.cache, key) || Made(w, step, key, after.cache[key])
  {
  }

  lemma StepMakesOrKeeps(w: World, step: Step, key: string)
    requires key in Next(w, step).cache
    ensures SameEntry(w.cache, Next(w, step).cache, key) || Made(w, step, key, Next(w, step).cache[key])
  {
    if IsRead(step) {
      assert Next(w, step) == Answered(w, step).0;
      ReadMakesOrKeeps(w, step, key);
    } else if step.Write? && Perform(w.db, w.now, step.op).Committed? {
      DeletionKeeps(w.cache, step.op, Perform(w.db, w.now, step.op).db, key);
    }
  }

  lemma StateMakesOrKeeps(ws: seq<World>, steps: seq<Step>, i: nat, key: string)
    requires IsRun(ws, steps) && i < |steps| && key in ws[i + 1].cache
    ensures var before, after := ws[i], ws[i + 1];
            SameEntry(before.cache, after.cache, key) || Made(before, steps[i], key, after.cache[key])
  {
    StateNext(ws, steps, i);
    StepMakesOrKeeps(ws[i], steps[i], key);
  }

  /** Every entry of every cache of every run was computed by an earlier read under its key, as its
      uncached answer at that moment. */
  lemma {:induction false} EveryEntryHasAnOrigin(ws: seq<World>, steps: seq<Step>, key: string, k: nat) returns (i: nat)
    requires IsRun(ws, steps) && ws[0].cache == map[] && k <= |steps| && key in ws[k].cache
    ensures Origin(ws, steps, key, ws[k].cache[key], i, k)
  {
    StateMakesOrKeeps(ws, steps, k - 1, key);
    if Made(ws[k - 1], steps[k - 1], key, ws[k].cache[key]) {
      i := k - 1;
    } else {
      i := EveryEntryHasAnOrigin(ws, steps, key, k - 1);
    }
  }

  lemma ClockAdvancesOnce(ws: seq<World>, steps: seq<Step>, i: nat)
    requires IsRun(ws, steps) && i < |steps|
    ensures ws[i].now <= ws[i + 1].now
  {
    StateNext(ws, steps, i);
  }

  lemma {:induction false} ClockAdvances(ws: seq<World>, steps: seq<Step>, i: nat, k: nat)
    requires IsRun(ws, steps) && i <= k <= |steps|
    ensures ws[i].now <= ws[k].now
  {
    if i < k {
      ClockAdvances(ws, steps, i, k - 1);
      ClockAdvancesOnce(ws, steps, k - 1);
    }
  }

  /** Every answer of a cached read, in every run, is the uncached answer to a read under the same key at
      some state of that run within the lifetime of that kind of read. */
  lemma {:induction false} AnswersHaveAnOrigin(ws: seq<World>, steps: seq<Step>, read: Step)
    returns (i: nat, past: Step)
    requires IsRun(ws, steps) && ws[0].cache == map[] && IsRead(read)
    ensures i <= |steps| && IsRead(past) && KeyOf(past) == KeyOf(read)
    ensures var w := ws[|steps|];
            && w.now - LifetimeOf(past) < ws[i].now <= w.now
            && SameAnswer(Answered(w, read).1, Uncached(ws[i], past))
            && Kept(ws, steps, KeyOf(read), i, |steps|)
            && if Live(w.cache, KeyOf(read), w.now).Some? then i < |steps| && past == steps[i]
               else i == |steps| && past == read
  {
    var w := ws[|steps|];
    if Live(w.cache, KeyOf(read), w.now).Some? {
      i := EveryEntryHasAnOrigin(ws, steps, KeyOf(read), |steps|);
      past := steps[i];
      ClockAdvances(ws, steps, i, |steps|);
      JsonTwice(Uncached(ws[i], past).value);
    } else {
      i, past := |steps|, read;
    }
  }

  // ---------- one step of a run, by its effect on the database ----------

  // A state differs from the one before by a committed transaction and its deletions, or not at all.
  lemma StateCommits(ws: seq<World>, steps: seq<Step>, i: nat)
    requires IsRun(ws, steps) && i < |steps|
    ensures var before, after := ws[i], ws[i + 1];
            || after.db == before.db
            || (steps[i].Write? && Perform(before.db, before.now, steps[i].op) == Committed(after.db)
                && after.cache == Invalidated(before.cache, steps[i].op, after.db))
  {
    StateNext(ws, steps, i);
  }
}
