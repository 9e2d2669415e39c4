/** How old an answer of `get_loan` can be, what can be out of date in it, and exactly when it is current. */
module LoanStaleness {
  import opened Domain
  import opened Fines
  import opened Circulation
  import opened Integrity
  import opened CacheKeys
  import opened Views
  import opened Library
  import opened SerialRuns
  import opened CacheCoherence
  import opened Traces
  import opened Scenes

  // ---------- what can change under a cached loan ----------

  // The same loan, renewed zero or more times in between.
  predicate OnlyRenewed(before: Loan, loan: Loan) {
    && loan.renewalCount >= before.renewalCount
    && loan == before.(dueDate := before.dueDate + (loan.renewalCount - before.renewalCount) * (RENEWAL_DAYS * DAY),
                     renewalCount := loan.renewalCount)
  }

  // The transactions that rewrite loan `id` and delete its cached answer. Renewing is not one of them.
  predicate RewritesLoan(op: Op, id: Id) {
    (op.GiveBack? || op.Cancel? || op.Pay? || op.Redate?) && op.loan == id
  }

  lemma LoanSurvivor(cache: Store, op: Op, db: Db, id: Id)
    requires LoanKey(id) in Invalidated(cache, op, db) && id in db.loans
    ensures !RewritesLoan(op, id)
  {
  }

  lemma LoanOnlyRenewed(db: Db, now: Time, op: Op, after: Db, id: Id)
    requires Perform(db, now, op) == Committed(after) && id in db.loans && !RewritesLoan(op, id)
    ensures id in after.loans && OnlyRenewed(db.loans[id], after.loans[id])
  {
  }

  lemma LoansStay(db: Db, now: Time, op: Op, after: Db, id: Id)
    requires Perform(db, now, op) == Committed(after) && id in db.loans
    ensures id in after.loans
  {
  }

  lemma RenewedTwice(a: Loan, b: Loan, c: Loan)
    requires OnlyRenewed(a, b) && OnlyRenewed(b, c)
    ensures OnlyRenewed(a, c)
  {
    var k, m := b.renewalCount - a.renewalCount, c.renewalCount - b.renewalCount;
    assert (k + m) * (RENEWAL_DAYS * DAY) == k * (RENEWAL_DAYS * DAY) + m * (RENEWAL_DAYS * DAY);
  }

  lemma StepOnlyRenews(w: World, step: Step, id: Id)
    requires id in w.db.loans && LoanKey(id) in Next(w, step).cache
    ensures id in Next(w, step).db.loans && OnlyRenewed(w.db.loans[id], Next(w, step).db.loans[id])
  {
    if step.Write? && Perform(w.db, w.now, step.op).Committed? {
      var db := Perform(w.db, w.now, step.op).db;
      LoansStay(w.db, w.now, step.op, db, id);
      LoanSurvivor(w.cache, step.op, db, id);
      LoanOnlyRenewed(w.db, w.now, step.op, db, id);
    }
  }

  lemma StateOnlyRenews(ws: seq<World>, steps: seq<Step>, i: nat, id: Id)
    requires IsRun(ws, steps) && i < |steps| && id in ws[i].db.loans && LoanKey(id) in ws[i + 1].cache
    ensures id in ws[i + 1].db.loans
    ensures OnlyRenewed(ws[i].db.loans[id], ws[i + 1].db.loans[id])
  {
    StateNext(ws, steps, i);
    StepOnlyRenews(ws[i], steps[i], id);
  }

  lemma LoanRenewedFurther(ws: seq<World>, steps: seq<Step>, id: Id, loan: Loan, k: nat)
    requires IsRun(ws, steps) && k < |steps| && LoanKey(id) in ws[k + 1].cache
    requires id in ws[k].db.loans && OnlyRenewed(loan, ws[k].db.loans[id])
    ensures id in ws[k + 1].db.loans && OnlyRenewed(loan, ws[k + 1].db.loans[id])
  {
    StateOnlyRenews(ws, steps, k, id);
    RenewedTwice(loan, ws[k].db.loans[id], ws[k + 1].db.loans[id]);
  }

  // While its answer stays cached, a loan is at most renewed.
  lemma {:induction false} CachedLoanOnlyRenewed(ws: seq<World>, steps: seq<Step>, id: Id, i: nat, k: nat)
    requires IsRun(ws, steps) && i <= k <= |steps| && id in ws[i].db.loans && Kept(ws, steps, LoanKey(id), i, k)
    ensures id in ws[k].db.loans
    ensures OnlyRenewed(ws[i].db.loans[id], ws[k].db.loans[id])
  {
    if i < k {
      CachedLoanOnlyRenewed(ws, steps, id, i, k - 1);
      LoanRenewedFurther(ws, steps, id, ws[i].db.loans[id], k - 1);
    }
  }

  lemma LoanReadsAre(read: Step, id: Id)
    requires IsRead(read) && KeyOf(read) == LoanKey(id)
    ensures read == ReadLoan(id)
  {
    KindsApart(read, ReadLoan(id));
    KeysOfOneFamily(read.loan, id);
  }

  /** Every answer of `get_loan`, in any run, is the uncached answer of some state of that run less than
      30 seconds ago; and since that state the loan has at most been renewed. */
  lemma {:induction false} AnswersAreRecent(start: Time, steps: seq<Step>, id: Id) returns (i: nat)
    ensures i <= |steps|
    ensures var w, past := Run(Opening(start), steps), States(start, steps)[i];
            && w.now - LOAN_TTL < past.now <= w.now
            && SameAnswer(GetLoan(w, id).1, UncachedLoan(past.db, id, past.now))
            && (GetLoan(w, id).1.Ok? ==> id in past.db.loans && id in w.db.loans
                                         && OnlyRenewed(past.db.loans[id], w.db.loans[id]))
  {
    var read;
    var ws := States(start, steps);
    i, read := AnswersHaveAnOrigin(ws, steps, ReadLoan(id));
    LoanReadsAre(read, id);
    if id in ws[i].db.loans {
      CachedLoanOnlyRenewed(ws, steps, id, i, |steps|);
    }
  }

  // ---------- exactly when an answer is current ----------

  predicate Renews(w: World, step: Step, id: Id) {
    step == Write(Renew(id)) && Perform(w.db, w.now, step.op).Committed?
  }

  // No step from `i` to `k` renewed the loan.
  ghost predicate NotRenewed(ws: seq<World>, steps: seq<Step>, id: Id, i: nat, k: nat)
    requires k <= |steps| && |ws| == |steps| + 1
  {
    forall j: nat | i <= j < k :: !Renews(ws[j], steps[j], id)
  }

  // A new day makes an open loan later once its due day is over.
  predicate SameDaysLate(loan: Loan, read: Time, now: Time) {
    loan.status.Returned? || DayOf(read) == DayOf(now) || DayOf(now) <= DayOf(loan.dueDate)
  }

  lemma OnlyRenewingCounts(db: Db, now: Time, op: Op, after: Db, id: Id)
    requires Perform(db, now, op) == Committed(after) && id in db.loans
    ensures id in after.loans
    ensures after.loans[id].renewalCount == db.loans[id].renewalCount + One(op == Renew(id))
  {
  }

  lemma StateRenews(ws: seq<World>, steps: seq<Step>, i: nat, id: Id)
    requires IsRun(ws, steps) && i < |steps| && id in ws[i].db.loans
    ensures var before, after := ws[i], ws[i + 1];
            && id in after.db.loans
            && after.db.loans[id].renewalCount == before.db.loans[id].renewalCount + One(Renews(before, steps[i], id))
  {
    var w := ws[i];
    StateNext(ws, steps, i);
    if steps[i].Write? && Perform(w.db, w.now, steps[i].op).Committed? {
      OnlyRenewingCounts(w.db, w.now, steps[i].op, Perform(w.db, w.now, steps[i].op).db, id);
    }
  }

  lemma NotRenewedLonger(ws: seq<World>, steps: seq<Step>, id: Id, i: nat, k: nat)
    requires IsRun(ws, steps) && i < k <= |steps|
    ensures NotRenewed(ws, steps, id, i, k) <==>
            NotRenewed(ws, steps, id, i, k - 1) && One(Renews(ws[k - 1], steps[k - 1], id)) == 0
  {
  }

  // The loan has been renewed since it had `count` renewals exactly if some step from `i` on renewed it.
  ghost predicate Counted(ws: seq<World>, steps: seq<Step>, id: Id, count: int, i: nat, k: nat)
    requires k <= |steps| && |ws| == |steps| + 1
  {
    && id in ws[k].db.loans && count <= ws[k].db.loans[id].renewalCount
    && (count == ws[k].db.loans[id].renewalCount <==> NotRenewed(ws, steps, id, i, k))
  }

  lemma CountedFurther(ws: seq<World>, steps: seq<Step>, id: Id, count: int, i: nat, k: nat)
    requires IsRun(ws, steps) && i <= k < |steps| && Counted(ws, steps, id, count, i, k)
    ensures Counted(ws, steps, id, count, i, k + 1)
  {
    StateRenews(ws, steps, k, id);
    NotRenewedLonger(ws, steps, id, i, k + 1);
  }

  lemma {:induction false} CountedOn(ws: seq<World>, steps: seq<Step>, id: Id, count: int, i: nat, j: nat, k: nat)
    requires IsRun(ws, steps) && i <= j <= k <= |steps| && Counted(ws, steps, id, count, i, j)
    ensures Counted(ws, steps, id, count, i, k)
    decreases k - j
  {
    if j < k {
      CountedFurther(ws, steps, id, count, i, j);
      CountedOn(ws, steps, id, count, i, j + 1, k);
    }
  }

  lemma RenewalsAreCounted(ws: seq<World>, steps: seq<Step>, id: Id, i: nat, k: nat)
    requires IsRun(ws, steps) && i <= k <= |steps| && id in ws[i].db.loans
    ensures Counted(ws, steps, id, ws[i].db.loans[id].renewalCount, i, k)
  {
    CountedOn(ws, steps, id, ws[i].db.loans[id].renewalCount, i, i, k);
  }

  lemma SameDaysLateExactly(loan: Loan, read: Time, now: Time)
    requires read <= now && LedgerHolds(loan)
    ensures SameDaysLate(loan, read, now) <==>
            DaysLate(loan.dueDate, ReferenceDate(loan, read)) == DaysLate(loan.dueDate, ReferenceDate(loan, now))
  {
    DaysLateIsDateDistance(loan.dueDate, read);
    DaysLateIsDateDistance(loan.dueDate, now);
    DayMonotone(read, now);
  }

  lemma ViewsAgreeExactly(id: Id, before: Loan, read: Time, loan: Loan, now: Time)
    requires OnlyRenewed(before, loan) && read <= now && LedgerHolds(loan)
    ensures LoanJson(ViewLoan(id, before, read)) == LoanJson(ViewLoan(id, loan, now)) <==>
            before.renewalCount == loan.renewalCount && SameDaysLate(loan, read, now)
  {
    if before.renewalCount == loan.renewalCount {
      assert before == loan;
      SameDaysLateExactly(loan, read, now);
    }
  }

  /** A cached answer of `get_loan`, in any run, was computed by a certain earlier read, less than 30 seconds
      ago. It is the current answer exactly when no renewal of the loan was committed since that read and,
      unless the loan is returned, no midnight after its due day has passed since then. */
  lemma {:induction false} CurrentExactly(start: Time, steps: seq<Step>, id: Id) returns (i: nat)
    requires var w := Run(Opening(start), steps); Live(w.cache, LoanKey(id), w.now).Some?
    ensures i < |steps| && steps[i] == ReadLoan(id)
    ensures var w, past := Run(Opening(start), steps), States(start, steps)[i];
            && id in w.db.loans && w.now - LOAN_TTL < past.now <= w.now
            && (SameAnswer(GetLoan(w, id).1, UncachedLoan(w.db, id, w.now)) <==>
                && NotRenewed(States(start, steps), steps, id, i, |steps|)
                && SameDaysLate(w.db.loans[id], past.now, w.now))
  {
    var w, ws, read := Run(Opening(start), steps), States(start, steps), ReadLoan(id);
    i, read := AnswersHaveAnOrigin(ws, steps, ReadLoan(id));
    LoanReadsAre(read, id);
    var past := ws[i];
    CachedLoanOnlyRenewed(ws, steps, id, i, |steps|);
    RenewalsAreCounted(ws, steps, id, i, |steps|);
    LedgerInEveryRun(start, steps, id);
    ViewsAgreeExactly(id, past.db.loans[id], past.now, w.db.loans[id], w.now);
    JsonTwice(LoanAnswer(ViewLoan(id, past.db.loans[id], past.now)));
  }

  /** A renewal right after a read makes the next answer wrong about the due date. */
  lemma RenewalLeavesStaleDueDate(w: World, id: Id)
    requires Perform(w.db, w.now, Renew(id)).Committed? && Live(w.cache, LoanKey(id), w.now).None?
    ensures var renewed := Next(Next(w, ReadLoan(id)), Write(Renew(id)));
            !SameAnswer(GetLoan(renewed, id).1, UncachedLoan(renewed.db, id, renewed.now))
  {
    var read := Next(w, ReadLoan(id));
    var renewed := Next(read, Write(Renew(id)));
    assert read.db == w.db && read.now == w.now;
    var served := GetLoan(renewed, id).1.value.loan;
    assert served.dueDate == Rendered(w.db.loans[id].dueDate);
    assert UncachedLoan(renewed.db, id, renewed.now).value.loan.dueDate
        == Instant(w.db.loans[id].dueDate + RENEWAL_DAYS * DAY);
  }

  /** Without any write, the midnight that ends the due day does the same: a loan read just before it is
      still answered as owing nothing just after it. */
  lemma MidnightLeavesStaleFine(w: World, id: Id, duration: nat)
    requires LoanActive(w.db.loans, id) && Live(w.cache, LoanKey(id), w.now).None? && duration < LOAN_TTL
    requires DayOf(w.now) <= DayOf(w.db.loans[id].dueDate) < DayOf(w.now + duration)
    ensures var later := Next(Next(w, ReadLoan(id)), Wait(duration));
            var served, current := GetLoan(later, id).1, UncachedLoan(later.db, id, later.now);
            && served.Ok? && current.Ok?
            && served.value.loan.daysLate == 0 && served.value.loan.currentFineAmount == 0
            && current.value.loan.daysLate > 0 && current.value.loan.isOverdue
  {
    DaysLateIsDateDistance(w.db.loans[id].dueDate, w.now);
    DaysLateIsDateDistance(w.db.loans[id].dueDate, w.now + duration);
  }

  const UNTIL_MIDNIGHT := Lending("u", "b") + [Wait((LOAN_DAYS + 1) * DAY - SECOND)]

  lemma WaitingUntilMidnight()
    ensures var w := Run(Opening(0), UNTIL_MIDNIGHT);
            && w.now == 15 * DAY - SECOND && w.cache == map[]
            && LoanActive(w.db.loans, "l") && w.db.loans["l"].dueDate == 14 * DAY
  {
    LendingRuns(0, "u", "b");
    OneMore(Opening(0), Lending("u", "b"), Wait((LOAN_DAYS + 1) * DAY - SECOND));
  }

  /** So a run without any renewal answers a late loan as not late. */
  lemma MidnightStaleInARun()
    ensures var w := Run(Opening(0), UNTIL_MIDNIGHT + [ReadLoan("l")] + [Wait(2 * SECOND)]);
            !SameAnswer(GetLoan(w, "l").1, UncachedLoan(w.db, "l", w.now))
  {
    WaitingUntilMidnight();
    var w := Run(Opening(0), UNTIL_MIDNIGHT);
    OneMore(Opening(0), UNTIL_MIDNIGHT, ReadLoan("l"));
    OneMore(Opening(0), UNTIL_MIDNIGHT + [ReadLoan("l")], Wait(2 * SECOND));
    MidnightLeavesStaleFine(w, "l", 2 * SECOND);
  }

  /** And a run that answers the old due date after a renewal. */
  lemma RenewalStaleInARun()
    ensures var w := Run(Opening(0), Lending("u", "b") + [ReadLoan("l")] + [Write(Renew("l"))]);
            !SameAnswer(GetLoan(w, "l").1, UncachedLoan(w.db, "l", w.now))
  {
    LendingRuns(0, "u", "b");
    var w := Run(Opening(0), Lending("u", "b"));
    OneMore(Opening(0), Lending("u", "b"), ReadLoan("l"));
    OneMore(Opening(0), Lending("u", "b") + [ReadLoan("l")], Write(Renew("l")));
    assert !Reserved(w.db.reservations, "b");
    assert Perform(w.db, 0, Renew("l")).Committed?;
    RenewalLeavesStaleDueDate(w, "l");
  }
}
