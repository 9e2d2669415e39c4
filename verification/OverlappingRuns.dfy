/** Runs of the reminder job that overlap: each send is a look at the table and, later, an insertion, and the
    steps of all runs interleave freely. */
module OverlappingRuns {
  import opened Domain
  import opened Notifications
  import opened DueLoans

  // One call of `send_once_per_day`.
  datatype Ask = Ask(user: Id, loan: Id, kind: Kind)

  // Between two calls or before a look; after a look that found nothing; ended by an error.
  datatype Phase = Looking | Sending | Stopped

  // The first `done` calls are over.
  datatype JobRun = JobRun(asks: seq<Ask>, done: nat, phase: Phase)

  datatype Jobs = Jobs(rows: seq<Notification>, runs: map<nat, JobRun>)

  datatype Turn = Turn(run: nat, now: Time)

  predicate CanMove(s: Jobs, t: nat) {
    t in s.runs && s.runs[t].done < |s.runs[t].asks| && !s.runs[t].phase.Stopped?
  }

  function Current(run: JobRun): Ask
    requires run.done < |run.asks|
  {
    run.asks[run.done]
  }

  // One step of a run: a look, or the insertion after it.
  function Moved(s: Jobs, t: nat, now: Time): Jobs
    requires CanMove(s, t)
  {
    var run, ask := s.runs[t], Current(s.runs[t]);
    var after := run.(done := run.done + 1, phase := Looking);
    if run.phase.Sending? then
      Jobs(s.rows + [LoanNotice(ask.user, ask.loan, ask.kind, now)], s.runs[t := after])
    else if SentTwiceOn(s.rows, ask.loan, ask.kind, DayOf(now)) then s.(runs := s.runs[t := run.(phase := Stopped)])
    else if SentOn(s.rows, ask.loan, ask.kind, DayOf(now)) then s.(runs := s.runs[t := after])
    else s.(runs := s.runs[t := run.(phase := Sending)])
  }

  predicate IsRow(rows: seq<Notification>, ask: Ask, now: Time, i: int)
    requires 0 <= i < |rows|
  {
    rows[i].loanId == Some(ask.loan) && rows[i].kind == ask.kind && DayOf(rows[i].createdAt) == DayOf(now)
  }

  /** A look passes over a reminder that today has once, stops the run at one that today has twice, and leads to
      an insertion exactly for one that today does not have: a row for that user and loan, stamped with its own
      moment. */
  lemma LookExactly(s: Jobs, t: nat, now: Time)
    requires CanMove(s, t)
    ensures var run, ask, after := s.runs[t], Current(s.runs[t]), Moved(s, t, now);
            var once := exists i | 0 <= i < |s.rows| :: IsRow(s.rows, ask, now, i);
            var twice := exists i, j | 0 <= i < j < |s.rows| ::
                           IsRow(s.rows, ask, now, i) && IsRow(s.rows, ask, now, j);
            if run.phase.Sending?
            then && after.rows == s.rows + [Notification(ask.user, Some(ask.loan), None, ask.kind, now)]
                 && after.runs == s.runs[t := JobRun(run.asks, run.done + 1, Looking)]
            else && after.rows == s.rows && after.runs.Keys == s.runs.Keys
                 && (forall u | u in s.runs && u != t :: after.runs[u] == s.runs[u])
                 && after.runs[t] == (if twice then JobRun(run.asks, run.done, Stopped)
                                      else if once then JobRun(run.asks, run.done + 1, Looking)
                                      else JobRun(run.asks, run.done, Sending))
  {
    var ask := Current(s.runs[t]);
    assert forall i | 0 <= i < |s.rows| ::
        IsRow(s.rows, ask, now, i) <==> Matches(s.rows[i], ask.loan, ask.kind, DayOf(now));
  }

  // Any sequence of turns is a schedule; a run that is over passes.
  function Played(s: Jobs, turns: seq<Turn>): Jobs {
    if turns == [] then s
    else
      var before, turn := Played(s, turns[..|turns| - 1]), turns[|turns| - 1];
      if CanMove(before, turn.run) then Moved(before, turn.run, turn.now) else before
  }

  predicate Within(turns: seq<Turn>, day: int) {
    forall i | 0 <= i < |turns| :: DayOf(turns[i].now) == day
  }

  ghost predicate AllLooking(s: Jobs) {
    forall t | t in s.runs :: s.runs[t].done == 0 && s.runs[t].phase == Looking
  }

  predicate About(ask: Ask, loan: Id, kind: Kind) {
    ask.loan == loan && ask.kind == kind
  }

  predicate AsksFor(run: JobRun, loan: Id, kind: Kind) {
    exists i | 0 <= i < |run.asks| :: About(run.asks[i], loan, kind)
  }

  // The runs that ask for the reminder, and those of them about to insert it.
  function Askers(s: Jobs, loan: Id, kind: Kind): set<nat> {
    set t | t in s.runs && AsksFor(s.runs[t], loan, kind)
  }

  function Senders(s: Jobs, loan: Id, kind: Kind): set<nat> {
    set t | t in s.runs && s.runs[t].phase.Sending? && s.runs[t].done < |s.runs[t].asks|
            && About(Current(s.runs[t]), loan, kind)
  }

  // ---------- one asker at most ----------

  // Today has the reminder, or at most one run asks for it.
  ghost predicate Covered(s: Jobs, loan: Id, kind: Kind, day: int) {
    SentOn(s.rows, loan, kind, day)
    || forall t, u | t in Askers(s, loan, kind) && u in Askers(s, loan, kind) :: t == u
  }

  ghost predicate Safe(s: Jobs, loan: Id, kind: Kind, day: int) {
    && !SentTwiceOn(s.rows, loan, kind, day)
    && (SentOn(s.rows, loan, kind, day) ==> Senders(s, loan, kind) == {})
    && Covered(s, loan, kind, day)
  }

  lemma SendersAsk(s: Jobs, loan: Id, kind: Kind)
    ensures Senders(s, loan, kind) <= Askers(s, loan, kind)
  {
    forall t | t in Senders(s, loan, kind)
      ensures t in Askers(s, loan, kind)
    {
      assert About(s.runs[t].asks[s.runs[t].done], loan, kind);
    }
  }

  lemma AskersStay(s: Jobs, t: nat, now: Time, loan: Id, kind: Kind)
    requires CanMove(s, t)
    ensures Askers(Moved(s, t, now), loan, kind) == Askers(s, loan, kind)
  {
    assert forall u | u in s.runs :: Moved(s, t, now).runs[u].asks == s.runs[u].asks;
  }

  lemma InsertionStaysSafe(s: Jobs, t: nat, now: Time, loan: Id, kind: Kind)
    requires CanMove(s, t) && s.runs[t].phase.Sending? && Safe(s, loan, kind, DayOf(now))
    ensures Safe(Moved(s, t, now), loan, kind, DayOf(now))
  {
    var ask, after := Current(s.runs[t]), Moved(s, t, now);
    SendersAsk(s, loan, kind);
    AskersStay(s, t, now, loan, kind);
    OneRowMore(s.rows, LoanNotice(ask.user, ask.loan, ask.kind, now), loan, kind, DayOf(now));
    assert Senders(after, loan, kind) == Senders(s, loan, kind) - {t};
    if About(ask, loan, kind) {
      assert t in Senders(s, loan, kind);
      assert Senders(s, loan, kind) == {t};
    }
  }

  lemma LookStaysSafe(s: Jobs, t: nat, now: Time, loan: Id, kind: Kind)
    requires CanMove(s, t) && s.runs[t].phase.Looking? && Safe(s, loan, kind, DayOf(now))
    ensures Safe(Moved(s, t, now), loan, kind, DayOf(now))
  {
    var ask, after := Current(s.runs[t]), Moved(s, t, now);
    AskersStay(s, t, now, loan, kind);
    if SentOn(s.rows, loan, kind, DayOf(now)) {
      assert Senders(after, loan, kind) == {};
    }
  }

  lemma {:induction false} AlwaysSafe(s: Jobs, turns: seq<Turn>, loan: Id, kind: Kind, day: int)
    requires Safe(s, loan, kind, day) && Within(turns, day)
    ensures Safe(Played(s, turns), loan, kind, day)
  {
    if turns != [] {
      var before, turn := Played(s, turns[..|turns| - 1]), turns[|turns| - 1];
      AlwaysSafe(s, turns[..|turns| - 1], loan, kind, day);
      if CanMove(before, turn.run) {
        if before.runs[turn.run].phase.Sending? {
          InsertionStaysSafe(before, turn.run, turn.now, loan, kind);
        } else {
          LookStaysSafe(before, turn.run, turn.now, loan, kind);
        }
      }
    }
  }

  // ---------- two askers of a missing reminder ----------

  // None of the reminders of the run stands twice.
  ghost predicate Unrepeated(rows: seq<Notification>, asks: seq<Ask>, day: int) {
    forall i | 0 <= i < |asks| :: !SentTwiceOn(rows, asks[i].loan, asks[i].kind, day)
  }

  ghost predicate NothingRepeated(s: Jobs, day: int) {
    forall t | t in s.runs :: Unrepeated(s.rows, s.runs[t].asks, day)
  }

  lemma {:induction false} PlayedInTwo(s: Jobs, first: seq<Turn>, second: seq<Turn>)
    ensures Played(s, first + second) == Played(Played(s, first), second)
  {
    if second == [] {
      assert first + second == first;
    } else {
      PlayedInTwo(s, first, second[..|second| - 1]);
      assert (first + second)[..|first + second| - 1] == first + second[..|second| - 1];
    }
  }

  lemma PlayedOnce(s: Jobs, turn: Turn)
    ensures Played(s, [turn]) == if CanMove(s, turn.run) then Moved(s, turn.run, turn.now) else s
  {
    assert [turn][..0] == [];
  }

  // One call by itself is `send_once_per_day`.
  lemma OneCall(s: Jobs, t: nat, now: Time) returns (turns: seq<Turn>)
    requires CanMove(s, t) && s.runs[t].phase.Looking?
    requires !SentTwiceOn(s.rows, Current(s.runs[t]).loan, Current(s.runs[t]).kind, DayOf(now))
    ensures forall i | 0 <= i < |turns| :: turns[i] == Turn(t, now)
    ensures var ask := Current(s.runs[t]);
            Played(s, turns) == Jobs(SendOnce(s.rows, ask.user, ask.loan, ask.kind, now),
                                     s.runs[t := s.runs[t].(done := s.runs[t].done + 1)])
  {
    turns := [Turn(t, now)];
    PlayedOnce(s, Turn(t, now));
    if !SentOn(s.rows, Current(s.runs[t]).loan, Current(s.runs[t]).kind, DayOf(now)) {
      PlayedInTwo(s, turns, turns);
      PlayedOnce(Moved(s, t, now), Turn(t, now));
      turns := turns + turns;
      assert Played(s, turns).runs == s.runs[t := s.runs[t].(done := s.runs[t].done + 1)];
    }
  }

  lemma OneCallRepeatsNothing(rows: seq<Notification>, ask: Ask, now: Time, asks: seq<Ask>)
    requires Unrepeated(rows, asks, DayOf(now))
    ensures Unrepeated(SendOnce(rows, ask.user, ask.loan, ask.kind, now), asks, DayOf(now))
  {
    forall i | 0 <= i < |asks|
      ensures !SentTwiceOn(SendOnce(rows, ask.user, ask.loan, ask.kind, now), asks[i].loan, asks[i].kind, DayOf(now))
    {
      SendOnceKeepsPairs(rows, ask.user, ask.loan, ask.kind, now, asks[i].loan, asks[i].kind);
    }
  }

  lemma OtherCallSendsNot(rows: seq<Notification>, ask: Ask, now: Time, loan: Id, kind: Kind)
    requires !About(ask, loan, kind) && !SentOn(rows, loan, kind, DayOf(now))
    ensures !SentOn(SendOnce(rows, ask.user, ask.loan, ask.kind, now), loan, kind, DayOf(now))
  {
    OneRowMore(rows, LoanNotice(ask.user, ask.loan, ask.kind, now), loan, kind, DayOf(now));
  }

  // Run `t` stands before inserting the reminder, and nothing about it has been sent.
  ghost predicate Poised(before: Jobs, after: Jobs, t: nat, loan: Id, kind: Kind, day: int) {
    && t in Senders(after, loan, kind) && !SentOn(after.rows, loan, kind, day)
    && after.runs.Keys == before.runs.Keys
    && (forall u | u in before.runs && u != t :: after.runs[u] == before.runs[u])
    && (forall u | u in before.runs :: after.runs[u].asks == before.runs[u].asks)
    && NothingRepeated(after, day)
  }

  // Alone, a run gets to its first call for a missing reminder and finds nothing.
  lemma {:induction false} RunGetsPoised(s: Jobs, t: nat, p: nat, loan: Id, kind: Kind, now: Time)
    returns (turns: seq<Turn>)
    requires t in s.runs && s.runs[t].phase.Looking? && s.runs[t].done <= p < |s.runs[t].asks|
    requires About(s.runs[t].asks[p], loan, kind)
    requires forall i | s.runs[t].done <= i < p :: !About(s.runs[t].asks[i], loan, kind)
    requires NothingRepeated(s, DayOf(now)) && !SentOn(s.rows, loan, kind, DayOf(now))
    ensures Within(turns, DayOf(now)) && Poised(s, Played(s, turns), t, loan, kind, DayOf(now))
    decreases p - s.runs[t].done
  {
    var ask := Current(s.runs[t]);
    assert !SentTwiceOn(s.rows, ask.loan, ask.kind, DayOf(now));
    if s.runs[t].done == p {
      turns := [Turn(t, now)];
      PlayedOnce(s, Turn(t, now));
    } else {
      var first := OneCall(s, t, now);
      var next := Played(s, first);
      forall u | u in next.runs
        ensures Unrepeated(next.rows, next.runs[u].asks, DayOf(now))
      {
        OneCallRepeatsNothing(s.rows, ask, now, s.runs[u].asks);
      }
      OtherCallSendsNot(s.rows, ask, now, loan, kind);
      var rest := RunGetsPoised(next, t, p, loan, kind, now);
      turns := first + rest;
      PlayedInTwo(s, first, rest);
    }
  }

  lemma {:induction false} FirstAsk(asks: seq<Ask>, loan: Id, kind: Kind) returns (p: nat)
    requires exists i | 0 <= i < |asks| :: About(asks[i], loan, kind)
    ensures p < |asks| && About(asks[p], loan, kind) && forall i | 0 <= i < p :: !About(asks[i], loan, kind)
  {
    p := 0;
    while !About(asks[p], loan, kind)
      invariant p < |asks| && forall i | 0 <= i < p :: !About(asks[i], loan, kind)
      decreases |asks| - p
    {
      p := p + 1;
    }
  }

  lemma BothInsert(s: Jobs, a: nat, b: nat, loan: Id, kind: Kind, now: Time)
    requires a != b && a in Senders(s, loan, kind) && b in Senders(s, loan, kind)
    ensures SentTwiceOn(Played(s, [Turn(a, now)] + [Turn(b, now)]).rows, loan, kind, DayOf(now))
  {
    PlayedInTwo(s, [Turn(a, now)], [Turn(b, now)]);
    PlayedOnce(s, Turn(a, now));
    var middle := Moved(s, a, now);
    PlayedOnce(middle, Turn(b, now));
    assert middle.runs[b] == s.runs[b];
    var first, second := Current(s.runs[a]), Current(s.runs[b]);
    OneRowMore(s.rows, LoanNotice(first.user, loan, kind, now), loan, kind, DayOf(now));
    OneRowMore(middle.rows, LoanNotice(second.user, loan, kind, now), loan, kind, DayOf(now));
  }

  /** Two runs that ask for a reminder that today does not have yet: some schedule sends it twice. */
  lemma TwoAskersRepeat(s: Jobs, a: nat, b: nat, loan: Id, kind: Kind, now: Time) returns (turns: seq<Turn>)
    requires AllLooking(s) && NothingRepeated(s, DayOf(now)) && !SentOn(s.rows, loan, kind, DayOf(now))
    requires a != b && a in Askers(s, loan, kind) && b in Askers(s, loan, kind)
    ensures Within(turns, DayOf(now)) && SentTwiceOn(Played(s, turns).rows, loan, kind, DayOf(now))
  {
    var p := FirstAsk(s.runs[a].asks, loan, kind);
    var first := RunGetsPoised(s, a, p, loan, kind, now);
    var middle := Played(s, first);
    var q := FirstAsk(s.runs[b].asks, loan, kind);
    var second := RunGetsPoised(middle, b, q, loan, kind, now);
    var poised := Played(middle, second);
    assert poised.runs[a] == middle.runs[a];
    var last := [Turn(a, now)] + [Turn(b, now)];
    BothInsert(poised, a, b, loan, kind, now);
    PlayedInTwo(s, first, second);
    PlayedInTwo(s, first + second, last);
    turns := first + second + last;
  }

  // ---------- exactly when no schedule repeats a reminder ----------

  ghost predicate EveryScheduleSendsOnce(s: Jobs, day: int) {
    forall turns | Within(turns, day) :: NothingRepeated(Played(s, turns), day)
  }

  ghost predicate AllCovered(s: Jobs, day: int) {
    forall t, i | t in s.runs && 0 <= i < |s.runs[t].asks| ::
      Covered(s, s.runs[t].asks[i].loan, s.runs[t].asks[i].kind, day)
  }

  lemma {:induction false} AsksStay(s: Jobs, turns: seq<Turn>)
    ensures Played(s, turns).runs.Keys == s.runs.Keys
    ensures forall t | t in s.runs :: Played(s, turns).runs[t].asks == s.runs[t].asks
  {
    if turns != [] {
      AsksStay(s, turns[..|turns| - 1]);
    }
  }

  lemma CoveredSendsOnce(s: Jobs, turns: seq<Turn>, day: int)
    requires AllLooking(s) && NothingRepeated(s, day) && AllCovered(s, day) && Within(turns, day)
    ensures NothingRepeated(Played(s, turns), day)
  {
    AsksStay(s, turns);
    forall t, i | t in s.runs && 0 <= i < |s.runs[t].asks|
      ensures !SentTwiceOn(Played(s, turns).rows, s.runs[t].asks[i].loan, s.runs[t].asks[i].kind, day)
    {
      var ask := s.runs[t].asks[i];
      assert Unrepeated(s.rows, s.runs[t].asks, day) && Covered(s, ask.loan, ask.kind, day);
      assert Senders(s, ask.loan, ask.kind) == {};
      AlwaysSafe(s, turns, ask.loan, ask.kind, day);
    }
  }

  /** Any number of overlapping runs, each asking for any reminders in any order, none of which stands twice
      yet: every schedule within the day leaves each of them at most once if and only if each is there already
      or is asked for by at most one run. */
  lemma {:induction false} OverlapSendsOnceExactly(s: Jobs, day: int)
    requires AllLooking(s) && NothingRepeated(s, day)
    ensures EveryScheduleSendsOnce(s, day) <==> AllCovered(s, day)
  {
    if AllCovered(s, day) {
      forall turns | Within(turns, day)
        ensures NothingRepeated(Played(s, turns), day)
      {
        CoveredSendsOnce(s, turns, day);
      }
    } else {
      var t, i :| t in s.runs && 0 <= i < |s.runs[t].asks|
                  && !Covered(s, s.runs[t].asks[i].loan, s.runs[t].asks[i].kind, day);
      var ask := s.runs[t].asks[i];
      var a, b :| a in Askers(s, ask.loan, ask.kind) && b in Askers(s, ask.loan, ask.kind) && a != b;
      assert DayOf(day * DAY) == day;
      var turns := TwoAskersRepeat(s, a, b, ask.loan, ask.kind, day * DAY);
      AsksStay(s, turns);
      assert !Unrepeated(Played(s, turns).rows, s.runs[t].asks, day);
      assert !NothingRepeated(Played(s, turns), day);
    }
  }

  // ---------- runs of the job ----------

  function AsksOf(loans: map<Id, Loan>, ids: seq<Id>, kind: Kind): seq<Ask>
    requires forall l | l in ids :: l in loans
  {
    seq(|ids|, i requires 0 <= i < |ids| => Ask(loans[ids[i]].userId, ids[i], kind))
  }

  // The calls of one loop of the job that queries at `now`.
  function LoopAsks(db: Db, kind: Kind, now: Time): seq<Ask> {
    SelectedExactly(db.loans, db.loanOrder, kind, now);
    AsksOf(db.loans, Selected(db.loans, db.loanOrder, kind, now), kind)
  }

  function JobAsks(db: Db, now: Time): seq<Ask> {
    LoopAsks(db, DueSoonNotice, now) + LoopAsks(db, DueTodayNotice, now) + LoopAsks(db, OverdueNotice, now)
  }

  // Runs of the job; run `t` queries at `at[t]`.
  function JobsAt(db: Db, rows: seq<Notification>, at: seq<Time>): Jobs {
    Jobs(rows, map t: nat | t < |at| :: JobRun(JobAsks(db, at[t]), 0, Looking))
  }

  lemma LoopAsksExactly(db: Db, kind: Kind, now: Time, ask: Ask)
    ensures ask in LoopAsks(db, kind, now) <==>
            && ask.loan in db.loanOrder && ask.loan in db.loans && Warrants(db.loans[ask.loan], kind, now)
            && ask == Ask(db.loans[ask.loan].userId, ask.loan, kind)
  {
    SelectedExactly(db.loans, db.loanOrder, kind, now);
    var ids := Selected(db.loans, db.loanOrder, kind, now);
    if ask.loan in ids {
      var i :| 0 <= i < |ids| && ids[i] == ask.loan;
      assert LoopAsks(db, kind, now)[i] == Ask(db.loans[ask.loan].userId, ask.loan, kind);
    }
  }

  // The job asks about the reminder when it queries at `now`.
  predicate IsDue(db: Db, l: Id, kind: Kind, now: Time) {
    DueKind(kind) && l in db.loanOrder && l in db.loans && Warrants(db.loans[l], kind, now)
  }

  /** The calls of the job are the warranted reminders. */
  lemma JobAsksExactly(db: Db, now: Time, ask: Ask)
    ensures ask in JobAsks(db, now) <==>
            IsDue(db, ask.loan, ask.kind, now) && ask.user == db.loans[ask.loan].userId
  {
    LoopAsksExactly(db, DueSoonNotice, now, ask);
    LoopAsksExactly(db, DueTodayNotice, now, ask);
    LoopAsksExactly(db, OverdueNotice, now, ask);
  }

  lemma AskersAreDue(db: Db, rows: seq<Notification>, at: seq<Time>, l: Id, kind: Kind, t: nat)
    ensures t in Askers(JobsAt(db, rows, at), l, kind) <==> t < |at| && IsDue(db, l, kind, at[t])
  {
    if t < |at| {
      var asks := JobAsks(db, at[t]);
      if i :| 0 <= i < |asks| && About(asks[i], l, kind) {
        JobAsksExactly(db, at[t], asks[i]);
      }
      if IsDue(db, l, kind, at[t]) {
        var ask := Ask(db.loans[l].userId, l, kind);
        JobAsksExactly(db, at[t], ask);
        var i :| 0 <= i < |asks| && asks[i] == ask;
        assert About(asks[i], l, kind);
      }
    }
  }

  ghost predicate NoneStops(db: Db, rows: seq<Notification>, at: seq<Time>, day: int) {
    forall t | 0 <= t < |at| :: DayOf(at[t]) == day && !JobStops(db, rows, at[t])
  }

  // Today already has every reminder that two of the runs are due to send.
  ghost predicate NothingShared(db: Db, rows: seq<Notification>, at: seq<Time>, day: int) {
    forall t, u, l, kind | 0 <= t < u < |at| && IsDue(db, l, kind, at[t]) && IsDue(db, l, kind, at[u]) ::
      SentOn(rows, l, kind, day)
  }

  lemma NotStoppingRepeatsNothing(db: Db, rows: seq<Notification>, at: seq<Time>, day: int)
    requires NoneStops(db, rows, at, day)
    ensures NothingRepeated(JobsAt(db, rows, at), day)
  {
    forall t: nat, i | t < |at| && 0 <= i < |JobAsks(db, at[t])|
      ensures !SentTwiceOn(rows, JobAsks(db, at[t])[i].loan, JobAsks(db, at[t])[i].kind, day)
    {
      var ask := JobAsks(db, at[t])[i];
      JobAsksExactly(db, at[t], ask);
      assert !RoundStops(db, rows, ask.kind, at[t]);
      assert !Trips(db.loans, rows, ask.loan, ask.kind, at[t]);
    }
  }

  lemma SharedIsCovered(db: Db, rows: seq<Notification>, at: seq<Time>, day: int, t: nat, u: nat, l: Id, kind: Kind)
    requires t < u < |at| && IsDue(db, l, kind, at[t]) && IsDue(db, l, kind, at[u])
    requires AllCovered(JobsAt(db, rows, at), day)
    ensures SentOn(rows, l, kind, day)
  {
    var s, ask := JobsAt(db, rows, at), Ask(db.loans[l].userId, l, kind);
    JobAsksExactly(db, at[t], ask);
    var i :| 0 <= i < |s.runs[t].asks| && s.runs[t].asks[i] == ask;
    assert Covered(s, s.runs[t].asks[i].loan, s.runs[t].asks[i].kind, day);
    AskersAreDue(db, rows, at, l, kind, t);
    AskersAreDue(db, rows, at, l, kind, u);
  }

  lemma CoveredIffNothingShared(db: Db, rows: seq<Notification>, at: seq<Time>, day: int)
    ensures AllCovered(JobsAt(db, rows, at), day) <==> NothingShared(db, rows, at, day)
  {
    var s := JobsAt(db, rows, at);
    if AllCovered(s, day) {
      forall t, u, l, kind | 0 <= t < u < |at| && IsDue(db, l, kind, at[t]) && IsDue(db, l, kind, at[u])
        ensures SentOn(rows, l, kind, day)
      {
        SharedIsCovered(db, rows, at, day, t, u, l, kind);
      }
    }
    if NothingShared(db, rows, at, day) {
      forall t, i | t in s.runs && 0 <= i < |s.runs[t].asks|
        ensures Covered(s, s.runs[t].asks[i].loan, s.runs[t].asks[i].kind, day)
      {
        var l, kind := s.runs[t].asks[i].loan, s.runs[t].asks[i].kind;
        forall a, b | a in Askers(s, l, kind) && b in Askers(s, l, kind) && a < b
          ensures SentOn(rows, l, kind, day)
        {
          AskersAreDue(db, rows, at, l, kind, a);
          AskersAreDue(db, rows, at, l, kind, b);
        }
      }
    }
  }

  /** For any number of overlapping runs of the job, each querying at its own instant of the day, on a table that
      stops none of them: no schedule within the day repeats a reminder if and only if today already has every
      reminder that two of them are due to send. */
  lemma {:induction false} JobsSendOnceExactly(db: Db, rows: seq<Notification>, at: seq<Time>, day: int)
    requires NoneStops(db, rows, at, day)
    ensures EveryScheduleSendsOnce(JobsAt(db, rows, at), day) <==> NothingShared(db, rows, at, day)
  {
    NotStoppingRepeatsNothing(db, rows, at, day);
    OverlapSendsOnceExactly(JobsAt(db, rows, at), day);
    CoveredIffNothingShared(db, rows, at, day);
  }

  lemma SentIffIdle(db: Db, rows: seq<Notification>, now: Time)
    ensures JobRows(db, rows, now) == rows <==> forall kind | DueKind(kind) :: AllSent(db, rows, kind, now)
  {
    JobExactly(db, rows, now);
    if forall kind | DueKind(kind) :: AllSent(db, rows, kind, now) {
      RoundIdle(db, rows, DueSoonNotice, now);
      RoundIdle(db, rows, DueTodayNotice, now);
      RoundIdle(db, rows, OverdueNotice, now);
    }
  }

  lemma NothingSharedAtOnce(db: Db, rows: seq<Notification>, now: Time, n: nat)
    ensures NothingShared(db, rows, seq(n, _ => now), DayOf(now)) <==> n <= 1 || JobRows(db, rows, now) == rows
  {
    var at := seq(n, _ => now);
    SentIffIdle(db, rows, now);
    if NothingShared(db, rows, at, DayOf(now)) && n >= 2 {
      forall kind, l | DueKind(kind) && l in db.loanOrder && l in db.loans && Warrants(db.loans[l], kind, now)
        ensures SentOn(rows, l, kind, DayOf(now))
      {
        assert IsDue(db, l, kind, at[0]) && IsDue(db, l, kind, at[1]);
      }
    }
    if n >= 2 && JobRows(db, rows, now) == rows {
      forall t, u, l, kind | 0 <= t < u < |at| && IsDue(db, l, kind, at[t]) && IsDue(db, l, kind, at[u])
        ensures SentOn(rows, l, kind, DayOf(now))
      {
        assert AllSent(db, rows, kind, now);
      }
    }
  }

  /** In particular for `n` runs that query at the same instant: if and only if `n <= 1` or the job has nothing left
      to send. */
  lemma {:induction false} JobsAtOnceExactly(db: Db, rows: seq<Notification>, now: Time, n: nat)
    requires !JobStops(db, rows, now)
    ensures EveryScheduleSendsOnce(JobsAt(db, rows, seq(n, _ => now)), DayOf(now)) <==>
            n <= 1 || JobRows(db, rows, now) == rows
  {
    JobsSendOnceExactly(db, rows, seq(n, _ => now), DayOf(now));
    NothingSharedAtOnce(db, rows, now, n);
  }

  /** And when two runs are due to send a missing reminder, some schedule is followed by failure: every run of that
      day stops with an error while the loan warrants the reminder, whatever is appended meanwhile. */
  lemma {:induction false} OverlapStopsTheJob(db: Db, rows: seq<Notification>, at: seq<Time>, day: int,
                                              t: nat, u: nat, l: Id, kind: Kind)
    returns (turns: seq<Turn>)
    requires NoneStops(db, rows, at, day) && t < u < |at| && IsDue(db, l, kind, at[t]) && IsDue(db, l, kind, at[u])
    requires !SentOn(rows, l, kind, day)
    ensures Within(turns, day)
    ensures forall longer, later | Played(JobsAt(db, rows, at), turns).rows <= longer && DayOf(later) == day
              && IsDue(db, l, kind, later) :: JobStops(db, longer, later)
  {
    var s := JobsAt(db, rows, at);
    NotStoppingRepeatsNothing(db, rows, at, day);
    AskersAreDue(db, rows, at, l, kind, t);
    AskersAreDue(db, rows, at, l, kind, u);
    turns := TwoAskersRepeat(s, t, u, l, kind, at[t]);
    forall longer, later | Played(s, turns).rows <= longer && DayOf(later) == day && IsDue(db, l, kind, later)
      ensures JobStops(db, longer, later)
    {
      RepeatStopsTheJob(db, Played(s, turns).rows, longer, l, kind, later);
    }
  }

  // ---------- a run alone is the job ----------

  // The calls made one after the other, each as a whole.
  function Asked(rows: seq<Notification>, asks: seq<Ask>, now: Time): seq<Notification> {
    if asks == [] then rows
    else
      var ask := asks[|asks| - 1];
      SendOnce(Asked(rows, asks[..|asks| - 1], now), ask.user, ask.loan, ask.kind, now)
  }

  lemma {:induction false} AskedInTwo(rows: seq<Notification>, first: seq<Ask>, second: seq<Ask>, now: Time)
    ensures Asked(rows, first + second, now) == Asked(Asked(rows, first, now), second, now)
  {
    if second == [] {
      assert first + second == first;
    } else {
      AskedInTwo(rows, first, second[..|second| - 1], now);
      assert (first + second)[..|first + second| - 1] == first + second[..|second| - 1];
    }
  }

  lemma {:induction false} AskedIsNotified(rows: seq<Notification>, loans: map<Id, Loan>, ids: seq<Id>, kind: Kind,
                                           now: Time)
    requires forall l | l in ids :: l in loans
    ensures Asked(rows, AsksOf(loans, ids, kind), now) == NotifyAll(rows, loans, ids, kind, now)
  {
    if ids != [] {
      AskedIsNotified(rows, loans, ids[..|ids| - 1], kind, now);
      assert AsksOf(loans, ids, kind)[..|ids| - 1] == AsksOf(loans, ids[..|ids| - 1], kind);
    }
  }

  lemma AskedIsJob(db: Db, rows: seq<Notification>, now: Time)
    ensures Asked(rows, JobAsks(db, now), now) == JobRows(db, rows, now)
  {
    var soon, today, over := LoopAsks(db, DueSoonNotice, now), LoopAsks(db, DueTodayNotice, now),
                             LoopAsks(db, OverdueNotice, now);
    AskedInTwo(rows, soon + today, over, now);
    AskedInTwo(rows, soon, today, now);
    LoopIsRound(db, rows, DueSoonNotice, now);
    LoopIsRound(db, Round(db, rows, DueSoonNotice, now), DueTodayNotice, now);
    LoopIsRound(db, Round(db, Round(db, rows, DueSoonNotice, now), DueTodayNotice, now), OverdueNotice, now);
  }

  lemma LoopIsRound(db: Db, rows: seq<Notification>, kind: Kind, now: Time)
    ensures Asked(rows, LoopAsks(db, kind, now), now) == Round(db, rows, kind, now)
  {
    SelectedExactly(db.loans, db.loanOrder, kind, now);
    AskedIsNotified(rows, db.loans, Selected(db.loans, db.loanOrder, kind, now), kind, now);
  }

  // A run alone has sent what its finished calls send, and inserts only what is missing.
  ghost predicate OnItsOwn(s: Jobs, rows: seq<Notification>, asks: seq<Ask>, now: Time) {
    && s.runs.Keys == {0} && s.runs[0].asks == asks && s.runs[0].done <= |asks|
    && s.rows == Asked(rows, asks[..s.runs[0].done], now)
    && (s.runs[0].phase.Sending? ==>
        s.runs[0].done < |asks| && !SentOn(s.rows, Current(s.runs[0]).loan, Current(s.runs[0]).kind, DayOf(now)))
  }

  lemma MoveOnItsOwn(s: Jobs, rows: seq<Notification>, asks: seq<Ask>, now: Time)
    requires OnItsOwn(s, rows, asks, now) && CanMove(s, 0)
    ensures OnItsOwn(Moved(s, 0, now), rows, asks, now)
  {
    var n := s.runs[0].done;
    assert asks[..n + 1][..n] == asks[..n];
  }

  lemma {:induction false} AlwaysOnItsOwn(s: Jobs, turns: seq<Turn>, rows: seq<Notification>, asks: seq<Ask>,
                                          now: Time)
    requires OnItsOwn(s, rows, asks, now) && forall i | 0 <= i < |turns| :: turns[i].now == now
    ensures OnItsOwn(Played(s, turns), rows, asks, now)
  {
    if turns != [] {
      AlwaysOnItsOwn(s, turns[..|turns| - 1], rows, asks, now);
      if CanMove(Played(s, turns[..|turns| - 1]), turns[|turns| - 1].run) {
        MoveOnItsOwn(Played(s, turns[..|turns| - 1]), rows, asks, now);
      }
    }
  }

  /** A single run that finishes leaves exactly the table of the job: the split into steps is the same program. */
  lemma {:induction false} OneRunIsTheJob(db: Db, rows: seq<Notification>, now: Time, turns: seq<Turn>)
    requires forall i | 0 <= i < |turns| :: turns[i].now == now
    ensures var after := Played(JobsAt(db, rows, [now]), turns);
            0 in after.runs && (after.runs[0].done == |JobAsks(db, now)| ==> after.rows == JobRows(db, rows, now))
  {
    var s, asks := JobsAt(db, rows, [now]), JobAsks(db, now);
    assert asks[..0] == [];
    assert OnItsOwn(s, rows, asks, now);
    AlwaysOnItsOwn(s, turns, rows, asks, now);
    assert asks[..|asks|] == asks;
    AskedIsJob(db, rows, now);
  }
}
