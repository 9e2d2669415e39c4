/** Every lifecycle event leaves exactly one notification. */
module Lifecycle {
  import opened Domain
  import opened Circulation
  import opened Notifications
  import opened Events
  import opened DueLoans
  import opened Library

  // What a notification is about.
  datatype Tag = Tag(kind: Kind, loanId: Option<Id>, reservationId: Option<Id>)

  function TagOf(row: Notification): Tag {
    Tag(row.kind, row.loanId, row.reservationId)
  }

  function Tags(rows: seq<Notification>): seq<Tag> {
    seq(|rows|, i requires 0 <= i < |rows| => TagOf(rows[i]))
  }

  function Copies(rows: seq<Notification>, tag: Tag): nat {
    multiset(Tags(rows))[tag]
  }

  function LoanTag(kind: Kind, loan: Id): Tag { Tag(kind, Some(loan), None) }

  function ReservationTag(kind: Kind, reservation: Id): Tag { Tag(kind, None, Some(reservation)) }

  function Once(happened: bool): nat { if happened then 1 else 0 }

  ghost predicate LoanToldOnce(db: Db, rows: seq<Notification>, l: Id) {
    && Copies(rows, LoanTag(LoanCreatedNotice, l)) == Once(l in db.loans)
    && Copies(rows, LoanTag(LoanReturnedNotice, l)) == Once(l in db.loans && db.loans[l].status.Returned?)
    && Copies(rows, LoanTag(LoanCancelledNotice, l)) == Once(l in db.loans && db.loans[l].status.Cancelled?)
  }

  ghost predicate ReservationToldOnce(db: Db, rows: seq<Notification>, r: Id) {
    && Copies(rows, ReservationTag(ReservationCreatedNotice, r)) == Once(r in db.reservations)
    && Copies(rows, ReservationTag(ReservationCancelledNotice, r))
       == Once(r in db.reservations && !db.reservations[r].status.ReservationActive?)
  }

  lemma OneMoreRow(rows: seq<Notification>, row: Notification, tag: Tag)
    ensures Copies(rows + [row], tag) == Copies(rows, tag) + Once(TagOf(row) == tag)
  {
    assert Tags(rows + [row]) == Tags(rows) + [TagOf(row)];
  }

  lemma {:induction false} RemindersTellNoEvent(before: seq<Notification>, after: seq<Notification>,
                                                loans: map<Id, Loan>, now: Time, tag: Tag)
    requires OnlyAdds(before, after, loans, now) && !DueKind(tag.kind)
    ensures Copies(after, tag) == Copies(before, tag)
    decreases |after|
  {
    if |before| == |after| {
      assert before == after;
    } else {
      var last := |after| - 1;
      var shorter := after[..last];
      assert NewReminder(after, last, loans, now);
      forall i | |before| <= i < |shorter|
        ensures NewReminder(shorter, i, loans, now)
      {
        assert NewReminder(after, i, loans, now);
        var l :| l in loans && IsReminder(after, i, loans, l, now);
        assert shorter[..i] == after[..i];
        assert IsReminder(shorter, i, loans, l, now);
      }
      RemindersTellNoEvent(before, shorter, loans, now, tag);
      OneMoreRow(shorter, after[last], tag);
      assert after == shorter + [after[last]];
    }
  }

  // The tag a committed transaction adds, if any.
  function Told(op: Op, db: Db): Option<Tag> {
    match op
    case Borrow(loan, _, _) => Some(LoanTag(LoanCreatedNotice, loan))
    case GiveBack(loan) => Some(LoanTag(LoanReturnedNotice, loan))
    case Cancel(loan) => Some(LoanTag(LoanCancelledNotice, loan))
    case Reserve(reservation, _, _) => Some(ReservationTag(ReservationCreatedNotice, reservation))
    case Unreserve(reservation) => Some(ReservationTag(ReservationCancelledNotice, reservation))
    case _ => None
  }

  lemma TransactionTells(w: World, op: Op, db: Db, tag: Tag)
    requires Perform(w.db, w.now, op) == Committed(db)
    ensures Copies(Transact(w, op).rows, tag) == Copies(w.rows, tag) + Once(Told(op, db) == Some(tag))
  {
    var event := Published(op, db);
    if event.Some? {
      OneMoreRow(w.rows, RowOf(OwnHandler(event.value.eventType), event.value, w.now), tag);
    }
  }

  lemma LoanChanges(db: Db, now: Time, op: Op, after: Db, l: Id)
    requires Perform(db, now, op) == Committed(after)
    ensures Once(l in after.loans) == Once(l in db.loans) + Once(Told(op, after) == Some(LoanTag(LoanCreatedNotice, l)))
    ensures Once(l in after.loans && after.loans[l].status.Returned?)
         == Once(l in db.loans && db.loans[l].status.Returned?)
            + Once(Told(op, after) == Some(LoanTag(LoanReturnedNotice, l)))
    ensures Once(l in after.loans && after.loans[l].status.Cancelled?)
         == Once(l in db.loans && db.loans[l].status.Cancelled?)
            + Once(Told(op, after) == Some(LoanTag(LoanCancelledNotice, l)))
  {
  }

  lemma ReservationChanges(db: Db, now: Time, op: Op, after: Db, r: Id)
    requires Perform(db, now, op) == Committed(after)
    ensures Once(r in after.reservations)
         == Once(r in db.reservations) + Once(Told(op, after) == Some(ReservationTag(ReservationCreatedNotice, r)))
    ensures Once(r in after.reservations && !after.reservations[r].status.ReservationActive?)
         == Once(r in db.reservations && !db.reservations[r].status.ReservationActive?)
            + Once(Told(op, after) == Some(ReservationTag(ReservationCancelledNotice, r)))
  {
  }

  lemma CommitTellsOnce(w: World, op: Op, db: Db, l: Id, r: Id)
    requires Perform(w.db, w.now, op) == Committed(db)
    requires LoanToldOnce(w.db, w.rows, l) && ReservationToldOnce(w.db, w.rows, r)
    ensures LoanToldOnce(db, Transact(w, op).rows, l) && ReservationToldOnce(db, Transact(w, op).rows, r)
  {
    TransactionTells(w, op, db, LoanTag(LoanCreatedNotice, l));
    TransactionTells(w, op, db, LoanTag(LoanReturnedNotice, l));
    TransactionTells(w, op, db, LoanTag(LoanCancelledNotice, l));
    TransactionTells(w, op, db, ReservationTag(ReservationCreatedNotice, r));
    TransactionTells(w, op, db, ReservationTag(ReservationCancelledNotice, r));
    LoanChanges(w.db, w.now, op, db, l);
    ReservationChanges(w.db, w.now, op, db, r);
  }

  lemma JobTellsNothing(db: Db, rows: seq<Notification>, now: Time, l: Id, r: Id)
    requires LoanToldOnce(db, rows, l) && ReservationToldOnce(db, rows, r)
    ensures LoanToldOnce(db, JobRows(db, rows, now), l) && ReservationToldOnce(db, JobRows(db, rows, now), r)
  {
    JobExactly(db, rows, now);
    var after := JobRows(db, rows, now);
    RemindersTellNoEvent(rows, after, db.loans, now, LoanTag(LoanCreatedNotice, l));
    RemindersTellNoEvent(rows, after, db.loans, now, LoanTag(LoanReturnedNotice, l));
    RemindersTellNoEvent(rows, after, db.loans, now, LoanTag(LoanCancelledNotice, l));
    RemindersTellNoEvent(rows, after, db.loans, now, ReservationTag(ReservationCreatedNotice, r));
    RemindersTellNoEvent(rows, after, db.loans, now, ReservationTag(ReservationCancelledNotice, r));
  }

  lemma StepTellsOnce(w: World, step: Step, l: Id, r: Id)
    requires LoanToldOnce(w.db, w.rows, l) && ReservationToldOnce(w.db, w.rows, r)
    ensures LoanToldOnce(Next(w, step).db, Next(w, step).rows, l)
    ensures ReservationToldOnce(Next(w, step).db, Next(w, step).rows, r)
  {
    if step.RunDueJob? {
      JobTellsNothing(w.db, w.rows, w.now, l, r);
    } else if step.Write? && Perform(w.db, w.now, step.op).Committed? {
      CommitTellsOnce(w, step.op, Perform(w.db, w.now, step.op).db, l, r);
    } else {
      assert Next(w, step).db == w.db && Next(w, step).rows == w.rows;
    }
  }

  /** In every run each loan has exactly one creation notice, one return notice iff it is returned and
      one cancellation notice iff it is cancelled; a reservation likewise; and unknown ids have none. */
  lemma {:induction false} EveryEventToldOnce(start: Time, steps: seq<Step>, l: Id, r: Id)
    ensures var w := Run(Opening(start), steps);
            LoanToldOnce(w.db, w.rows, l) && ReservationToldOnce(w.db, w.rows, r)
  {
    if steps != [] {
      EveryEventToldOnce(start, steps[..|steps| - 1], l, r);
      StepTellsOnce(Run(Opening(start), steps[..|steps| - 1]), steps[|steps| - 1], l, r);
    }
  }
}
