/** Late days and fines, and what the calendar arithmetic guarantees. */
module Fines {
  import opened Domain

  const DAILY_FINE: int := 2

  function DaysLate(due: Time, reference: Time): int {
    if reference <= due then 0 else DayOf(reference) - DayOf(due)
  }

  function Amount(due: Time, reference: Time): int {
    DaysLate(due, reference) * DAILY_FINE
  }

  // `return_loan` refuses while this holds.
  predicate FineUnpaid(loan: Loan, now: Time) {
    var fine := Amount(loan.dueDate, now);
    fine > 0 && loan.finePaidAmount < fine
  }

  // What `pay_fine` would charge now.
  function Owed(loan: Loan, now: Time): int {
    Amount(loan.dueDate, now) - loan.finePaidAmount
  }

  lemma DayMonotone(a: Time, b: Time)
    requires a <= b
    ensures DayOf(a) <= DayOf(b)
  {
  }

  lemma DayShift(t: Time, days: int)
    ensures DayOf(t + days * DAY) == DayOf(t) + days
  {
    assert t + days * DAY == t + days * 86_400_000_000;
  }

  /** Late days are the distance between the two dates, never negative: the guard on the full
      timestamps and the subtraction of dates agree. */
  lemma DaysLateIsDateDistance(due: Time, reference: Time)
    ensures DaysLate(due, reference) == if DayOf(reference) > DayOf(due) then DayOf(reference) - DayOf(due) else 0
    ensures Amount(due, reference) >= 0
  {
    if reference <= due {
      DayMonotone(reference, due);
    } else {
      DayMonotone(due, reference);
    }
  }

  /** After a payment at `paid`, the loan may be handed back for the rest of that day, and `k` days
      later exactly `k` daily fines are open. */
  lemma PaidUntilMidnight(loan: Loan, paid: Time, later: Time)
    requires Amount(loan.dueDate, paid) > 0
    requires loan.finePaidAmount == Amount(loan.dueDate, paid)
    requires DayOf(later) >= DayOf(paid)
    ensures Owed(loan, later) == DAILY_FINE * (DayOf(later) - DayOf(paid))
    ensures FineUnpaid(loan, later) <==> DayOf(later) > DayOf(paid)
  {
    DaysLateIsDateDistance(loan.dueDate, paid);
    DaysLateIsDateDistance(loan.dueDate, later);
  }

  /** A loan that is not late at `t` and gets seven more days owes nothing until the end of the
      seventh day after `t`, whatever hour it was due at. */
  lemma RenewalGrace(due: Time, t: Time, later: Time)
    requires DaysLate(due, t) <= 0
    requires DayOf(later) <= DayOf(t) + 7
    ensures Amount(due + 7 * DAY, later) == 0
  {
    DaysLateIsDateDistance(due, t);
    DayShift(due, 7);
    DaysLateIsDateDistance(due + 7 * DAY, later);
  }
}
