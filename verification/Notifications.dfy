/** The notification table and the service that writes it. */
module Notifications {
  import opened Domain

  datatype Kind =
    | LoanCreatedNotice | LoanReturnedNotice | LoanCancelledNotice
    | DueSoonNotice | DueTodayNotice | OverdueNotice
    | ReservationCreatedNotice | ReservationCancelledNotice

  // The message, the status and the channel of a row are fixed by its kind.
  datatype Notification = Notification(
    userId: Id, loanId: Option<Id>, reservationId: Option<Id>, kind: Kind, createdAt: Time)

  predicate DueKind(kind: Kind) {
    kind.DueSoonNotice? || kind.DueTodayNotice? || kind.OverdueNotice?
  }

  function LoanNotice(user: Id, loan: Id, kind: Kind, now: Time): Notification {
    Notification(user, Some(loan), None, kind, now)
  }

  function ReservationNotice(user: Id, reservation: Id, kind: Kind, now: Time): Notification {
    Notification(user, None, Some(reservation), kind, now)
  }

  // The condition of `exists_for_loan_today` on one row.
  predicate Matches(row: Notification, loan: Id, kind: Kind, day: int) {
    row.loanId == Some(loan) && row.kind == kind && DayOf(row.createdAt) == day
  }

  predicate SentOn(rows: seq<Notification>, loan: Id, kind: Kind, day: int) {
    exists i | 0 <= i < |rows| :: Matches(rows[i], loan, kind, day)
  }

  predicate SentTwiceOn(rows: seq<Notification>, loan: Id, kind: Kind, day: int) {
    exists i, j | 0 <= i < j < |rows| :: Matches(rows[i], loan, kind, day) && Matches(rows[j], loan, kind, day)
  }

  function SendOnce(rows: seq<Notification>, user: Id, loan: Id, kind: Kind, now: Time): seq<Notification> {
    if SentOn(rows, loan, kind, DayOf(now)) then rows else rows + [LoanNotice(user, loan, kind, now)]
  }

  // The job's rows never repeat a loan, a kind and a day.
  ghost predicate OncePerDay(rows: seq<Notification>) {
    forall i, j | 0 <= i < j < |rows| && DueKind(rows[i].kind) && rows[i].loanId.Some? ::
      !Matches(rows[j], rows[i].loanId.value, rows[i].kind, DayOf(rows[i].createdAt))
  }

  /** The query behind `exists_for_loan_today` finds at most one row, so asking it for one row or
      none never fails. */
  lemma AtMostOneMatch(rows: seq<Notification>, loan: Id, kind: Kind, day: int, i: nat, j: nat)
    requires OncePerDay(rows) && DueKind(kind) && i < |rows| && j < |rows|
    requires Matches(rows[i], loan, kind, day) && Matches(rows[j], loan, kind, day)
    ensures i == j
  {
  }

  lemma SendOnceKeepsOncePerDay(rows: seq<Notification>, user: Id, loan: Id, kind: Kind, now: Time)
    requires OncePerDay(rows)
    ensures OncePerDay(SendOnce(rows, user, loan, kind, now))
    ensures SentOn(SendOnce(rows, user, loan, kind, now), loan, kind, DayOf(now))
  {
    var after := SendOnce(rows, user, loan, kind, now);
    if !SentOn(rows, loan, kind, DayOf(now)) {
      assert Matches(after[|rows|], loan, kind, DayOf(now));
    }
  }

  // Sending once makes no pair of equal reminders, and removes none.
  lemma SendOnceKeepsPairs(rows: seq<Notification>, user: Id, loan: Id, kind: Kind, now: Time, l: Id, k: Kind)
    ensures SentTwiceOn(SendOnce(rows, user, loan, kind, now), l, k, DayOf(now))
       <==> SentTwiceOn(rows, l, k, DayOf(now))
  {
    if !SentOn(rows, loan, kind, DayOf(now)) {
      OneRowMore(rows, LoanNotice(user, loan, kind, now), l, k, DayOf(now));
    }
  }

  lemma OneRowMore(rows: seq<Notification>, row: Notification, loan: Id, kind: Kind, day: int)
    ensures var longer, more := rows + [row], Matches(row, loan, kind, day);
            && (SentOn(longer, loan, kind, day) <==> SentOn(rows, loan, kind, day) || more)
            && (SentTwiceOn(longer, loan, kind, day) <==>
                SentTwiceOn(rows, loan, kind, day) || (SentOn(rows, loan, kind, day) && more))
  {
    var longer := rows + [row];
    assert forall i | 0 <= i < |rows| :: longer[i] == rows[i];
    assert longer[|rows|] == row;
  }

  lemma PairInLonger(rows: seq<Notification>, longer: seq<Notification>, loan: Id, kind: Kind, day: int)
    requires rows <= longer && SentTwiceOn(rows, loan, kind, day)
    ensures SentTwiceOn(longer, loan, kind, day)
  {
    var i, j :| 0 <= i < j < |rows| && Matches(rows[i], loan, kind, day) && Matches(rows[j], loan, kind, day);
    assert Matches(longer[i], loan, kind, day) && Matches(longer[j], loan, kind, day);
  }

  class NotificationRepository {
    var rows: seq<Notification>

    constructor ()
      ensures rows == []
    {
      rows := [];
    }

    method Create(row: Notification)
      modifies this
      ensures rows == old(rows) + [row]
    {
      rows := rows + [row];
    }

    // Asks for one row or none: a second one is an error.
    method ExistsForLoanToday(loan: Id, kind: Kind, now: Time) returns (r: Result<bool>)
      ensures r.Err? <==> SentTwiceOn(rows, loan, kind, DayOf(now))
      ensures match r
              case Ok(found) => found <==> SentOn(rows, loan, kind, DayOf(now))
              case Err(e) => e == MultipleRows
      ensures OncePerDay(rows) && DueKind(kind) ==> r.Ok?
    {
      var found, day := false, DayOf(now);
      for i := 0 to |rows|
        invariant found <==> SentOn(rows[..i], loan, kind, day)
        invariant !SentTwiceOn(rows[..i], loan, kind, day)
      {
        assert rows[..i + 1] == rows[..i] + [rows[i]];
        OneRowMore(rows[..i], rows[i], loan, kind, day);
        if Matches(rows[i], loan, kind, day) {
          if found {
            PairInLonger(rows[..i + 1], rows, loan, kind, day);
            return Err(MultipleRows);
          }
          found := true;
        }
      }
      assert rows[..|rows|] == rows;
      r := Ok(found);
    }
  }

  class NotificationService {
    const repository: NotificationRepository

    constructor (repository: NotificationRepository)
      ensures this.repository == repository
    {
      this.repository := repository;
    }

    method SendNotification(user: Id, kind: Kind, loan: Option<Id>, reservation: Option<Id>, now: Time)
      returns (row: Notification)
      modifies repository
      ensures row == Notification(user, loan, reservation, kind, now)
      ensures repository.rows == old(repository.rows) + [row]
    {
      row := Notification(user, loan, reservation, kind, now);
      repository.Create(row);
    }

    // Answers the row it sent, or none.
    method SendOncePerDay(user: Id, kind: Kind, loan: Option<Id>, reservation: Option<Id>, now: Time)
      returns (r: Result<Option<Notification>>)
      modifies repository
      ensures r.Err? <==> loan.Some? && SentTwiceOn(old(repository.rows), loan.value, kind, DayOf(now))
      ensures match r
              case Err(e) => e == MultipleRows && repository.rows == old(repository.rows)
              case Ok(None) => loan.Some? && SentOn(old(repository.rows), loan.value, kind, DayOf(now))
                               && repository.rows == old(repository.rows)
              case Ok(Some(row)) => row == Notification(user, loan, reservation, kind, now)
                                    && (loan.Some? ==> !SentOn(old(repository.rows), loan.value, kind, DayOf(now)))
                                    && repository.rows == old(repository.rows) + [row]
      ensures OncePerDay(old(repository.rows)) && loan.Some? ==> OncePerDay(repository.rows)
    {
      ghost var before := repository.rows;
      if loan.Some? {
        var alreadySent := repository.ExistsForLoanToday(loan.value, kind, now);
        if alreadySent.Err? {
          return Err(alreadySent.error);
        }
        if alreadySent.value {
          return Ok(None);
        }
      }
      var row := SendNotification(user, kind, loan, reservation, now);
      if OncePerDay(before) && loan.Some? {
        SendOnceKeepsOncePerDay(before, user, loan.value, kind, now);
      }
      r := Ok(Some(row));
    }
  }
}
