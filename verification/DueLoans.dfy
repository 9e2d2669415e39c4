/** The due-date reminders: which are warranted at an instant, and what one run of the job adds. */
module DueLoans {
  import opened Domain
  import opened Notifications

  // The condition under which each of the job's three queries selects a loan.
  predicate Warrants(loan: Loan, kind: Kind, now: Time) {
    && loan.status.Active?
    && match kind
       case DueSoonNotice => DayOf(loan.dueDate) == DayOf(now) + 2
       case DueTodayNotice => DayOf(loan.dueDate) == DayOf(now)
       case OverdueNotice => loan.dueDate < now
       case _ => false
  }

  function Selected(loans: map<Id, Loan>, order: seq<Id>, kind: Kind, now: Time): seq<Id> {
    if order == [] then []
    else
      var rest := Selected(loans, order[..|order| - 1], kind, now);
      var l := order[|order| - 1];
      if l in loans && Warrants(loans[l], kind, now) then rest + [l] else rest
  }

  function NotifyAll(rows: seq<Notification>, loans: map<Id, Loan>, ids: seq<Id>, kind: Kind, now: Time):
      seq<Notification>
    requires forall l | l in ids :: l in loans
  {
    if ids == [] then rows
    else
      var l := ids[|ids| - 1];
      SendOnce(NotifyAll(rows, loans, ids[..|ids| - 1], kind, now), loans[l].userId, l, kind, now)
  }

  lemma {:induction false} SelectedExactly(loans: map<Id, Loan>, order: seq<Id>, kind: Kind, now: Time)
    ensures forall l :: l in Selected(loans, order, kind, now) <==>
                        l in order && l in loans && Warrants(loans[l], kind, now)
  {
    if order != [] {
      SelectedExactly(loans, order[..|order| - 1], kind, now);
      assert order == order[..|order| - 1] + [order[|order| - 1]];
    }
  }

  function Round(db: Db, rows: seq<Notification>, kind: Kind, now: Time): seq<Notification> {
    SelectedExactly(db.loans, db.loanOrder, kind, now);
    NotifyAll(rows, db.loans, Selected(db.loans, db.loanOrder, kind, now), kind, now)
  }

  // The table after one run of the job at one instant.
  function JobRows(db: Db, rows: seq<Notification>, now: Time): seq<Notification> {
    Round(db, Round(db, Round(db, rows, DueSoonNotice, now), DueTodayNotice, now), OverdueNotice, now)
  }

  // ---------- what a run adds ----------

  // Row `i` is a reminder some active loan warrants now, and no earlier row is the same reminder today.
  ghost predicate NewReminder(rows: seq<Notification>, i: nat, loans: map<Id, Loan>, now: Time)
    requires i < |rows|
  {
    exists l | l in loans :: IsReminder(rows, i, loans, l, now)
  }

  ghost predicate IsReminder(rows: seq<Notification>, i: nat, loans: map<Id, Loan>, l: Id, now: Time)
    requires i < |rows| && l in loans
  {
    && DueKind(rows[i].kind) && Warrants(loans[l], rows[i].kind, now)
    && rows[i] == LoanNotice(loans[l].userId, l, rows[i].kind, now)
    && !SentOn(rows[..i], l, rows[i].kind, DayOf(now))
  }

  ghost predicate OnlyAdds(before: seq<Notification>, after: seq<Notification>, loans: map<Id, Loan>, now: Time) {
    && before <= after
    && forall i | |before| <= i < |after| :: NewReminder(after, i, loans, now)
  }

  lemma ReminderInLonger(rows: seq<Notification>, longer: seq<Notification>, i: nat, loans: map<Id, Loan>, now: Time)
    requires i < |rows| && rows <= longer && NewReminder(rows, i, loans, now)
    ensures NewReminder(longer, i, loans, now)
  {
    var l :| l in loans && IsReminder(rows, i, loans, l, now);
    assert longer[..i] == rows[..i];
    assert IsReminder(longer, i, loans, l, now);
  }

  lemma OnlyAddsInSequence(a: seq<Notification>, b: seq<Notification>, c: seq<Notification>,
                           loans: map<Id, Loan>, now: Time)
    requires OnlyAdds(a, b, loans, now) && OnlyAdds(b, c, loans, now)
    ensures OnlyAdds(a, c, loans, now)
  {
    forall i | |a| <= i < |c|
      ensures NewReminder(c, i, loans, now)
    {
      if i < |b| {
        ReminderInLonger(b, c, i, loans, now);
      }
    }
  }

  lemma SentStaysSent(rows: seq<Notification>, longer: seq<Notification>, l: Id, kind: Kind, day: int)
    requires rows <= longer && SentOn(rows, l, kind, day)
    ensures SentOn(longer, l, kind, day)
  {
    var i :| 0 <= i < |rows| && Matches(rows[i], l, kind, day);
    assert Matches(longer[i], l, kind, day);
  }

  lemma {:induction false} NotifyAllExactly(rows: seq<Notification>, loans: map<Id, Loan>, ids: seq<Id>,
                                            kind: Kind, now: Time)
    requires DueKind(kind)
    requires forall l | l in ids :: l in loans && Warrants(loans[l], kind, now)
    ensures OnlyAdds(rows, NotifyAll(rows, loans, ids, kind, now), loans, now)
    ensures forall l | l in ids :: SentOn(NotifyAll(rows, loans, ids, kind, now), l, kind, DayOf(now))
  {
    if ids != [] {
      var shorter := ids[..|ids| - 1];
      var l := ids[|ids| - 1];
      assert ids == shorter + [l];
      NotifyAllExactly(rows, loans, shorter, kind, now);
      var middle := NotifyAll(rows, loans, shorter, kind, now);
      var after := NotifyAll(rows, loans, ids, kind, now);
      if !SentOn(middle, l, kind, DayOf(now)) {
        assert after[..|middle|] == middle;
        assert Matches(after[|middle|], l, kind, DayOf(now));
        assert IsReminder(after, |middle|, loans, l, now);
      }
      assert OnlyAdds(middle, after, loans, now);
      OnlyAddsInSequence(rows, middle, after, loans, now);
      forall k | k in ids
        ensures SentOn(after, k, kind, DayOf(now))
      {
        if k in shorter {
          SentStaysSent(middle, after, k, kind, DayOf(now));
        }
      }
    }
  }

  ghost predicate AllSent(db: Db, rows: seq<Notification>, kind: Kind, now: Time) {
    forall l | l in db.loanOrder && l in db.loans && Warrants(db.loans[l], kind, now) ::
      SentOn(rows, l, kind, DayOf(now))
  }

  lemma RoundExactly(db: Db, rows: seq<Notification>, kind: Kind, now: Time)
    requires DueKind(kind)
    ensures OnlyAdds(rows, Round(db, rows, kind, now), db.loans, now)
    ensures AllSent(db, Round(db, rows, kind, now), kind, now)
  {
    SelectedExactly(db.loans, db.loanOrder, kind, now);
    NotifyAllExactly(rows, db.loans, Selected(db.loans, db.loanOrder, kind, now), kind, now);
  }

  lemma AllSentInLonger(db: Db, rows: seq<Notification>, longer: seq<Notification>, kind: Kind, now: Time)
    requires rows <= longer && AllSent(db, rows, kind, now)
    ensures AllSent(db, longer, kind, now)
  {
    forall l | l in db.loanOrder && l in db.loans && Warrants(db.loans[l], kind, now)
      ensures SentOn(longer, l, kind, DayOf(now))
    {
      SentStaysSent(rows, longer, l, kind, DayOf(now));
    }
  }

  /** One run of the job is sound and complete: it only appends, every appended row is a reminder that
      an active loan warrants and that today did not have yet, and afterwards every warranted reminder
      of today is there. */
  lemma JobExactly(db: Db, rows: seq<Notification>, now: Time)
    ensures OnlyAdds(rows, JobRows(db, rows, now), db.loans, now)
    ensures forall kind | DueKind(kind) :: AllSent(db, JobRows(db, rows, now), kind, now)
  {
    var first := Round(db, rows, DueSoonNotice, now);
    var second := Round(db, first, DueTodayNotice, now);
    var third := Round(db, second, OverdueNotice, now);
    RoundExactly(db, rows, DueSoonNotice, now);
    RoundExactly(db, first, DueTodayNotice, now);
    RoundExactly(db, second, OverdueNotice, now);
    OnlyAddsInSequence(rows, first, second, db.loans, now);
    OnlyAddsInSequence(rows, second, third, db.loans, now);
    AllSentInLonger(db, first, second, DueSoonNotice, now);
    AllSentInLonger(db, second, third, DueSoonNotice, now);
    AllSentInLonger(db, second, third, DueTodayNotice, now);
  }

  /** Appending reminders never produces a second row for a loan, a kind and a day. */
  lemma OnlyAddsKeepsOncePerDay(before: seq<Notification>, after: seq<Notification>, loans: map<Id, Loan>, now: Time)
    requires OncePerDay(before) && OnlyAdds(before, after, loans, now)
    ensures OncePerDay(after)
  {
    forall i, j | 0 <= i < j < |after| && DueKind(after[i].kind) && after[i].loanId.Some?
      ensures !Matches(after[j], after[i].loanId.value, after[i].kind, DayOf(after[i].createdAt))
    {
      if j < |before| {
        assert after[i] == before[i] && after[j] == before[j];
      } else {
        assert NewReminder(after, j, loans, now);
        var l :| l in loans && IsReminder(after, j, loans, l, now);
        assert after[..j][i] == after[i] && !Matches(after[..j][i], l, after[j].kind, DayOf(now));
      }
    }
  }

  lemma {:induction false} NothingLeftToSend(rows: seq<Notification>, loans: map<Id, Loan>, ids: seq<Id>,
                                             kind: Kind, now: Time)
    requires forall l | l in ids :: l in loans && SentOn(rows, l, kind, DayOf(now))
    ensures NotifyAll(rows, loans, ids, kind, now) == rows
  {
    if ids != [] {
      NothingLeftToSend(rows, loans, ids[..|ids| - 1], kind, now);
    }
  }

  lemma RoundIdle(db: Db, rows: seq<Notification>, kind: Kind, now: Time)
    requires AllSent(db, rows, kind, now)
    ensures Round(db, rows, kind, now) == rows
  {
    SelectedExactly(db.loans, db.loanOrder, kind, now);
    NothingLeftToSend(rows, db.loans, Selected(db.loans, db.loanOrder, kind, now), kind, now);
  }

  /** A second run at the same instant adds nothing. */
  lemma JobIdempotent(db: Db, rows: seq<Notification>, now: Time)
    ensures JobRows(db, JobRows(db, rows, now), now) == JobRows(db, rows, now)
  {
    JobExactly(db, rows, now);
    var done := JobRows(db, rows, now);
    RoundIdle(db, done, DueSoonNotice, now);
    RoundIdle(db, done, DueTodayNotice, now);
    RoundIdle(db, done, OverdueNotice, now);
  }

  ghost predicate SentOnceOn(rows: seq<Notification>, l: Id, kind: Kind, day: int) {
    exists i: nat :: i < |rows| && Matches(rows[i], l, kind, day)
                     && forall j: nat | j < |rows| && Matches(rows[j], l, kind, day) :: j == i
  }

  lemma SentIsSentOnce(rows: seq<Notification>, l: Id, kind: Kind, day: int)
    requires DueKind(kind) && OncePerDay(rows) && SentOn(rows, l, kind, day)
    ensures SentOnceOn(rows, l, kind, day)
  {
    var i: nat :| i < |rows| && Matches(rows[i], l, kind, day);
    forall j: nat | j < |rows| && Matches(rows[j], l, kind, day)
      ensures j == i
    {
      AtMostOneMatch(rows, l, kind, day, i, j);
    }
  }

  lemma JobSendsOnce(db: Db, rows: seq<Notification>, now: Time, l: Id, kind: Kind)
    requires DueKind(kind) && l in db.loanOrder && l in db.loans && Warrants(db.loans[l], kind, now)
    requires OncePerDay(rows)
    ensures SentOnceOn(JobRows(db, rows, now), l, kind, DayOf(now))
  {
    JobExactly(db, rows, now);
    OnlyAddsKeepsOncePerDay(rows, JobRows(db, rows, now), db.loans, now);
    SentIsSentOnce(JobRows(db, rows, now), l, kind, DayOf(now));
  }

  // ---------- when a run stops with an error ----------

  // A loan the round asks about already has its reminder of today twice.
  predicate RoundStops(db: Db, rows: seq<Notification>, kind: Kind, now: Time) {
    exists l | l in db.loanOrder :: Trips(db.loans, rows, l, kind, now)
  }

  predicate Trips(loans: map<Id, Loan>, rows: seq<Notification>, l: Id, kind: Kind, now: Time) {
    l in loans && Warrants(loans[l], kind, now) && SentTwiceOn(rows, l, kind, DayOf(now))
  }

  predicate JobStops(db: Db, rows: seq<Notification>, now: Time) {
    RoundStops(db, rows, DueSoonNotice, now) || RoundStops(db, rows, DueTodayNotice, now)
    || RoundStops(db, rows, OverdueNotice, now)
  }

  lemma {:induction false} PairsKept(rows: seq<Notification>, loans: map<Id, Loan>, ids: seq<Id>, kind: Kind, now: Time,
                                     l: Id, k: Kind)
    requires forall id | id in ids :: id in loans
    ensures SentTwiceOn(NotifyAll(rows, loans, ids, kind, now), l, k, DayOf(now))
       <==> SentTwiceOn(rows, l, k, DayOf(now))
  {
    if ids != [] {
      var shorter, last := ids[..|ids| - 1], ids[|ids| - 1];
      PairsKept(rows, loans, shorter, kind, now, l, k);
      SendOnceKeepsPairs(NotifyAll(rows, loans, shorter, kind, now), loans[last].userId, last, kind, now, l, k);
    }
  }

  lemma RoundKeepsStops(db: Db, rows: seq<Notification>, kind: Kind, k: Kind, now: Time)
    ensures RoundStops(db, Round(db, rows, kind, now), k, now) <==> RoundStops(db, rows, k, now)
  {
    SelectedExactly(db.loans, db.loanOrder, kind, now);
    forall l
      ensures Trips(db.loans, Round(db, rows, kind, now), l, k, now) <==> Trips(db.loans, rows, l, k, now)
    {
      PairsKept(rows, db.loans, Selected(db.loans, db.loanOrder, kind, now), kind, now, l, k);
    }
  }

  /** A table without repeated reminders never stops the job. */
  lemma OncePerDayNeverStops(db: Db, rows: seq<Notification>, now: Time)
    requires OncePerDay(rows)
    ensures !JobStops(db, rows, now)
  {
  }

  /** Once a reminder stands twice in the table, every later run of that day stops with an error while the loan
      warrants it, whatever was appended in between. */
  lemma RepeatStopsTheJob(db: Db, rows: seq<Notification>, longer: seq<Notification>, l: Id, kind: Kind, now: Time)
    requires DueKind(kind) && l in db.loanOrder && l in db.loans && Warrants(db.loans[l], kind, now)
    requires SentTwiceOn(rows, l, kind, DayOf(now)) && rows <= longer
    ensures JobStops(db, longer, now)
  {
    PairInLonger(rows, longer, l, kind, DayOf(now));
    assert Trips(db.loans, longer, l, kind, now);
    assert RoundStops(db, longer, kind, now);
  }

  // ---------- the days of the reminders ----------

  predicate Reminded(rows: seq<Notification>, l: Id, kind: Kind, day: int) {
    exists i | 0 <= i < |rows| ::
      rows[i].loanId == Some(l) && rows[i].kind == kind && DayOf(rows[i].createdAt) == day
  }

  lemma RemindedIsSent(rows: seq<Notification>, l: Id, kind: Kind, day: int)
    ensures Reminded(rows, l, kind, day) <==> SentOn(rows, l, kind, day)
  {
    if Reminded(rows, l, kind, day) {
      var i :| 0 <= i < |rows| && rows[i].loanId == Some(l) && rows[i].kind == kind && DayOf(rows[i].createdAt) == day;
      assert Matches(rows[i], l, kind, day);
    }
    if SentOn(rows, l, kind, day) {
      var i :| 0 <= i < |rows| && Matches(rows[i], l, kind, day);
      assert rows[i].loanId == Some(l) && rows[i].kind == kind && DayOf(rows[i].createdAt) == day;
    }
  }

  lemma SentExactly(db: Db, rows: seq<Notification>, now: Time, l: Id, kind: Kind)
    requires l in db.loanOrder && l in db.loans && DueKind(kind)
    ensures SentOn(JobRows(db, rows, now), l, kind, DayOf(now)) <==>
            SentOn(rows, l, kind, DayOf(now)) || Warrants(db.loans[l], kind, now)
  {
    var after := JobRows(db, rows, now);
    JobExactly(db, rows, now);
    if SentOn(rows, l, kind, DayOf(now)) {
      SentStaysSent(rows, after, l, kind, DayOf(now));
    }
    if Warrants(db.loans[l], kind, now) {
      assert AllSent(db, after, kind, now);
    }
    if SentOn(after, l, kind, DayOf(now)) && !SentOn(rows, l, kind, DayOf(now)) {
      var i :| 0 <= i < |after| && Matches(after[i], l, kind, DayOf(now));
      assert i >= |rows|;
      assert NewReminder(after, i, db.loans, now);
    }
  }

  lemma RemindedExactly(db: Db, rows: seq<Notification>, now: Time, l: Id, kind: Kind)
    requires l in db.loanOrder && l in db.loans && DueKind(kind)
    ensures Reminded(JobRows(db, rows, now), l, kind, DayOf(now)) <==>
            Reminded(rows, l, kind, DayOf(now)) || Warrants(db.loans[l], kind, now)
  {
    SentExactly(db, rows, now, l, kind);
    RemindedIsSent(rows, l, kind, DayOf(now));
    RemindedIsSent(JobRows(db, rows, now), l, kind, DayOf(now));
  }

  // Today has a reminder of the loan in `after` if and only if it had one in `rows`, or the loan is active and due
  // in exactly two days, due today, or past its due moment.
  predicate ByTheCalendar(rows: seq<Notification>, after: seq<Notification>, l: Id, loan: Loan, now: Time) {
    var today := DayOf(now);
    && (Reminded(after, l, DueSoonNotice, today) <==>
        Reminded(rows, l, DueSoonNotice, today) || (loan.status == Active && DayOf(loan.dueDate) == today + 2))
    && (Reminded(after, l, DueTodayNotice, today) <==>
        Reminded(rows, l, DueTodayNotice, today) || (loan.status == Active && DayOf(loan.dueDate) == today))
    && (Reminded(after, l, OverdueNotice, today) <==>
        Reminded(rows, l, OverdueNotice, today) || (loan.status == Active && loan.dueDate < now))
  }

  /** After a run of the job today's reminders of every loan are those the calendar asks for. */
  lemma RemindersByTheCalendar(db: Db, rows: seq<Notification>, now: Time, l: Id)
    requires l in db.loanOrder && l in db.loans
    ensures ByTheCalendar(rows, JobRows(db, rows, now), l, db.loans[l], now)
  {
    RemindedExactly(db, rows, now, l, DueSoonNotice);
    RemindedExactly(db, rows, now, l, DueTodayNotice);
    RemindedExactly(db, rows, now, l, OverdueNotice);
  }

  /** Every row the job adds is addressed to the borrower, about that loan alone, and stamped with the run. */
  lemma ReminderRows(db: Db, rows: seq<Notification>, now: Time, i: nat)
    requires |rows| <= i < |JobRows(db, rows, now)|
    ensures var after := JobRows(db, rows, now);
            && after[..|rows|] == rows && DueKind(after[i].kind)
            && exists l | l in db.loans ::
                 after[i] == Notification(db.loans[l].userId, Some(l), None, after[i].kind, now)
  {
    JobExactly(db, rows, now);
    assert NewReminder(JobRows(db, rows, now), i, db.loans, now);
  }
}
