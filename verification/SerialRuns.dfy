/** What holds in every state of every serial run. */
module SerialRuns {
  import opened Domain
  import opened Fines
  import opened Circulation
  import opened Integrity
  import opened Notifications
  import opened DueLoans
  import opened Library

  // The database changes by committed transactions only.
  lemma StepOnDb(w: World, step: Step)
    ensures var db := Next(w, step).db;
            db == w.db || (step.Write? && Perform(w.db, w.now, step.op) == Committed(db))
  {
  }

  lemma StepKeepsSound(w: World, step: Step)
    requires Sound(w.db)
    ensures Sound(Next(w, step).db)
  {
    StepOnDb(w, step);
    if Next(w, step).db != w.db {
      SoundKept(w.db, w.now, step.op, Next(w, step).db);
    }
  }

  lemma {:induction false} RunKeepsSound(w: World, steps: seq<Step>)
    requires Sound(w.db)
    ensures Sound(Run(w, steps).db)
  {
    if steps != [] {
      RunKeepsSound(w, steps[..|steps| - 1]);
      StepKeepsSound(Run(w, steps[..|steps| - 1]), steps[|steps| - 1]);
    }
  }

  lemma {:induction false} EveryRunSound(start: Time, steps: seq<Step>)
    ensures Sound(Run(Opening(start), steps).db)
  {
    SoundInitially();
    RunKeepsSound(Opening(start), steps);
  }

  // ---------- copies ----------

  /** The counter kept by hand agrees with the table of loans, for active and deleted books alike;
      and it is non-negative exactly for the books whose total is. */
  lemma {:induction false} CopiesInEveryRun(start: Time, steps: seq<Step>, b: Id)
    requires b in Run(Opening(start), steps).db.books
    ensures var db := Run(Opening(start), steps).db;
            && db.books[b].totalCopies - db.books[b].availableCopies == |ActiveOfBook(db.loans, b)|
            && db.books[b].availableCopies <= db.books[b].totalCopies
            && (db.books[b].availableCopies >= 0 <==> db.books[b].totalCopies >= 0)
  {
    EveryRunSound(start, steps);
  }

  /** `total_copies` is not validated: a library can show a negative stock. */
  lemma NegativeStockReachable(start: Time)
    ensures var steps := [Write(AddAuthor("a", "Ana", None)), Write(AddBook("b", "T", "1", "C", -1, "a"))];
            var books := Run(Opening(start), steps).db.books;
            "b" in books && books["b"].availableCopies == -1
  {
    var w0 := Opening(start);
    var s1, s2 := Write(AddAuthor("a", "Ana", None)), Write(AddBook("b", "T", "1", "C", -1, "a"));
    assert [s1, s2][..1] == [s1] && [s1][..0] == [];
    var w1 := Next(w0, s1);
    assert Run(w0, [s1]) == w1;
    assert Run(w0, [s1, s2]) == Next(w1, s2);
  }

  lemma TotalsKeptNonNegative(db: Db, now: Time, op: Op, after: Db, b: Id)
    requires b in db.books && db.books[b].availableCopies <= db.books[b].totalCopies
    requires db.books[b].totalCopies >= 0 && Perform(db, now, op) == Committed(after)
    ensures b in after.books && after.books[b].totalCopies >= 0
  {
  }

  /** From a non-negative total on, no run takes the stock below zero or above the total. */
  lemma {:induction false} StockStaysInRange(w: World, steps: seq<Step>, b: Id)
    requires Sound(w.db) && b in w.db.books && w.db.books[b].totalCopies >= 0
    ensures var books := Run(w, steps).db.books;
            b in books && 0 <= books[b].availableCopies <= books[b].totalCopies
  {
    RunKeepsSound(w, steps);
    if steps != [] {
      StockStaysInRange(w, steps[..|steps| - 1], b);
      var v, step := Run(w, steps[..|steps| - 1]), steps[|steps| - 1];
      StepOnDb(v, step);
      if Next(v, step).db != v.db {
        TotalsKeptNonNegative(v.db, v.now, step.op, Next(v, step).db, b);
      }
    }
    var db := Run(w, steps).db;
    assert db.books[b].totalCopies - db.books[b].availableCopies == |ActiveOfBook(db.loans, b)|;
  }

  /** `update_book` accepts exactly the totals that cover the copies on loan, and then the stock is the rest. */
  lemma RestockAcceptedExactly(db: Db, now: Time, b: Id, title: Option<string>, category: Option<string>, total: int)
    requires Sound(db) && BookVisible(db, b)
    ensures var outcome := Perform(db, now, EditBook(b, title, category, Some(total)));
            && (outcome.Committed? <==> total >= |ActiveOfBook(db.loans, b)|)
            && (outcome.Committed? ==> outcome.db.books[b].totalCopies == total
                                       && outcome.db.books[b].availableCopies == total - |ActiveOfBook(db.loans, b)|)
  {
    assert db.books[b].totalCopies - db.books[b].availableCopies == |ActiveOfBook(db.loans, b)|;
  }

  // ---------- borrowing and giving back ----------

  /** `create_loan` succeeds exactly for an active user with fewer than three loans and a shown book with a
      copy that is not on loan. */
  lemma BorrowingExactly(db: Db, now: Time, l: Id, user: Id, book: Id)
    requires Sound(db) && l !in db.loans
    ensures Perform(db, now, Borrow(l, user, book)).Committed? <==>
            && UserVisible(db, user) && |ActiveOfUser(db.loans, user)| < 3
            && BookVisible(db, book) && |ActiveOfBook(db.loans, book)| < db.books[book].totalCopies
  {
    if book in db.books {
      assert db.books[book].totalCopies - db.books[book].availableCopies == |ActiveOfBook(db.loans, book)|;
    }
  }

  /** Cancelling a fresh loan undoes it: the books are as they were, and no other loan moved. Returning it
      does the same as long as its due day is not over, and costs nothing. */
  lemma ClosingUndoesBorrowing(db: Db, now: Time, later: Time, l: Id, user: Id, book: Id)
    requires Perform(db, now, Borrow(l, user, book)).Committed? && DayOf(later) <= DayOf(now) + LOAN_DAYS
    ensures var lent := Perform(db, now, Borrow(l, user, book)).db;
            var cancelled, returned := Perform(lent, later, Cancel(l)), Perform(lent, later, GiveBack(l));
            && cancelled.Committed? && returned.Committed?
            && cancelled.db.books == db.books && returned.db.books == db.books
            && cancelled.db.loans - {l} == db.loans && returned.db.loans - {l} == db.loans
            && returned.db.loans[l].fineAmount == 0
  {
    var lent := Perform(db, now, Borrow(l, user, book)).db;
    DayShift(now, LOAN_DAYS);
    DaysLateIsDateDistance(lent.loans[l].dueDate, later);
    assert lent.books[book := lent.books[book].(availableCopies := lent.books[book].availableCopies + 1)] == db.books;
    assert l !in db.loans;
  }

  /** `renew_loan` succeeds exactly for an active loan that is not late, was renewed less than twice and
      whose book nobody waits for; it moves the due date and the count, and nothing else. */
  lemma RenewingExactly(db: Db, now: Time, l: Id)
    requires l in db.loans
    ensures var loan, outcome := db.loans[l], Perform(db, now, Renew(l));
            && (outcome.Committed? <==>
                && loan.status.Active? && DayOf(now) <= DayOf(loan.dueDate) && loan.renewalCount < 2
                && forall u :: ActiveReservationsOf(db.reservations, u, loan.bookId) == {})
            && (outcome.Committed? ==>
                outcome.db == db.(loans := db.loans[l := loan.(dueDate := loan.dueDate + 7 * DAY,
                                                               renewalCount := loan.renewalCount + 1)]))
  {
    var book := db.loans[l].bookId;
    DaysLateIsDateDistance(db.loans[l].dueDate, now);
    if Reserved(db.reservations, book) {
      var r :| r in db.reservations && db.reservations[r].bookId == book
               && db.reservations[r].status.ReservationActive?;
      assert r in ActiveReservationsOf(db.reservations, db.reservations[r].userId, book);
    } else {
      forall u
        ensures ActiveReservationsOf(db.reservations, u, book) == {}
      {
        if r :| r in ActiveReservationsOf(db.reservations, u, book) {
          assert Reserved(db.reservations, book);
        }
      }
    }
  }

  // ---------- deleted books ----------

  /** A loan can be cancelled exactly while it is active and its book is not deleted; to return it,
      its fine must be paid too. */
  lemma ClosingExactly(db: Db, now: Time, l: Id)
    requires l in db.loans
    ensures Perform(db, now, Cancel(l)).Committed? <==>
            db.loans[l].status.Active? && BookLockable(db.books, db.loans[l].bookId)
    ensures Perform(db, now, GiveBack(l)).Committed? <==>
            db.loans[l].status.Active? && BookLockable(db.books, db.loans[l].bookId) && !FineUnpaid(db.loans[l], now)
  {
  }

  // An active loan of a deleted book.
  predicate Stranded(db: Db, l: Id) {
    LoanActive(db.loans, l) && db.loans[l].bookId in db.books && !db.books[db.loans[l].bookId].active
  }

  lemma DeletedStaysDeleted(db: Db, now: Time, op: Op, after: Db, b: Id)
    requires b in db.books && !db.books[b].active && Perform(db, now, op) == Committed(after)
    ensures b in after.books && !after.books[b].active
  {
  }

  // The transactions on one existing loan.
  predicate LoanOp(op: Op) {
    op.GiveBack? || op.Pay? || op.Cancel? || op.Renew? || op.Redate?
  }

  lemma LoanOpsKeepStranded(db: Db, now: Time, op: Op, after: Db, l: Id)
    requires LoanOp(op) && Stranded(db, l) && Perform(db, now, op) == Committed(after)
    ensures LoanActive(after.loans, l) && after.loans[l].bookId == db.loans[l].bookId
    ensures after.loans[l].userId == db.loans[l].userId
  {
  }

  lemma OtherOpsKeepLoan(db: Db, now: Time, op: Op, after: Db, l: Id)
    requires !LoanOp(op) && l in db.loans && Perform(db, now, op) == Committed(after)
    ensures l in after.loans && after.loans[l] == db.loans[l]
  {
  }

  lemma StrandedKept(db: Db, now: Time, op: Op, after: Db, l: Id)
    requires Stranded(db, l) && Perform(db, now, op) == Committed(after)
    ensures LoanActive(after.loans, l) && after.loans[l].bookId == db.loans[l].bookId
    ensures after.loans[l].userId == db.loans[l].userId
  {
    if LoanOp(op) {
      LoanOpsKeepStranded(db, now, op, after, l);
    } else {
      OtherOpsKeepLoan(db, now, op, after, l);
    }
  }

  /** A stranded loan stays stranded: no later step ever closes it, so it counts against its borrower for good. */
  lemma {:induction false} StrandedLoansStayActive(w: World, steps: seq<Step>, l: Id)
    requires Stranded(w.db, l)
    ensures Stranded(Run(w, steps).db, l)
    ensures l in ActiveOfUser(Run(w, steps).db.loans, w.db.loans[l].userId)
  {
    if steps != [] {
      var v, step := Run(w, steps[..|steps| - 1]), steps[|steps| - 1];
      StrandedLoansStayActive(w, steps[..|steps| - 1], l);
      StepOnDb(v, step);
      if Next(v, step).db != v.db {
        StrandedKept(v.db, v.now, step.op, Next(v, step).db, l);
        DeletedStaysDeleted(v.db, v.now, step.op, Next(v, step).db, v.db.loans[l].bookId);
      }
    }
  }

  // The step deletes the book of the loan, or the author of that book.
  predicate DeletesBookOf(db: Db, op: Op, l: Id) {
    && LoanActive(db.loans, l) && db.loans[l].bookId in db.books
    && (op == RemoveBook(db.loans[l].bookId) || op == RemoveAuthor(db.books[db.loans[l].bookId].authorId))
  }

  lemma DeletingStrands(db: Db, now: Time, op: Op, after: Db, l: Id)
    requires DeletesBookOf(db, op, l) && Perform(db, now, op) == Committed(after)
    ensures Stranded(after, l) && after.loans == db.loans
  {
  }

  /** Deleting a book, or its author, leaves each of its active loans active in every continuation of the run. */
  lemma {:induction false} DeletedLoansStayActive(w: World, op: Op, steps: seq<Step>, l: Id)
    requires DeletesBookOf(w.db, op, l) && Perform(w.db, w.now, op).Committed?
    ensures Stranded(Run(Next(w, Write(op)), steps).db, l)
    ensures l in ActiveOfUser(Run(Next(w, Write(op)), steps).db.loans, w.db.loans[l].userId)
  {
    var after := Next(w, Write(op));
    DeletingStrands(w.db, w.now, op, after.db, l);
    StrandedLoansStayActive(after, steps, l);
  }

  ghost predicate CanBecome(w: World, l: Id, status: LoanStatus) {
    exists steps :: HasStatus(Run(w, steps).db.loans, l, status)
  }

  predicate HasStatus(loans: map<Id, Loan>, l: Id, status: LoanStatus) {
    l in loans && loans[l].status == status
  }

  lemma OneStep(w: World, step: Step)
    ensures Run(w, [step]) == Next(w, step)
  {
    assert [step][..0] == [];
  }

  lemma TwoSteps(w: World, first: Step, second: Step)
    ensures Run(w, [first, second]) == Next(Next(w, first), second)
  {
    assert [first, second][..1] == [first];
    OneStep(w, first);
  }

  lemma UnstrandedCanBeCancelled(w: World, l: Id)
    requires LoanActive(w.db.loans, l) && BookLockable(w.db.books, w.db.loans[l].bookId)
    ensures CanBecome(w, l, Cancelled)
  {
    ClosingExactly(w.db, w.now, l);
    OneStep(w, Write(Cancel(l)));
    assert HasStatus(Run(w, [Write(Cancel(l))]).db.loans, l, Cancelled);
  }

  lemma UnstrandedCanBeReturned(w: World, l: Id)
    requires LoanActive(w.db.loans, l) && BookLockable(w.db.books, w.db.loans[l].bookId)
    ensures CanBecome(w, l, Returned)
  {
    if FineUnpaid(w.db.loans[l], w.now) {
      TwoSteps(w, Write(Pay(l)), Write(GiveBack(l)));
      assert HasStatus(Run(w, [Write(Pay(l)), Write(GiveBack(l))]).db.loans, l, Returned);
    } else {
      ClosingExactly(w.db, w.now, l);
      OneStep(w, Write(GiveBack(l)));
      assert HasStatus(Run(w, [Write(GiveBack(l))]).db.loans, l, Returned);
    }
  }

  /** And only deletion does that: an active loan can still be returned, and can still be cancelled, in some
      continuation of the run exactly when its book is not deleted. */
  lemma {:induction false} ClosableExactly(w: World, l: Id)
    requires Sound(w.db) && LoanActive(w.db.loans, l)
    ensures CanBecome(w, l, Returned) <==> !Stranded(w.db, l)
    ensures CanBecome(w, l, Cancelled) <==> !Stranded(w.db, l)
  {
    if Stranded(w.db, l) {
      forall steps
        ensures !HasStatus(Run(w, steps).db.loans, l, Returned) && !HasStatus(Run(w, steps).db.loans, l, Cancelled)
      {
        StrandedLoansStayActive(w, steps, l);
      }
    } else {
      assert w.db.loans[l].bookId in w.db.books;
      UnstrandedCanBeCancelled(w, l);
      UnstrandedCanBeReturned(w, l);
    }
  }

  /** The loan service looks a book up without asking for its author, and still sees exactly the books
      the book service shows: an active book always has an active author. */
  lemma {:induction false} LockableIsVisible(start: Time, steps: seq<Step>, b: Id)
    ensures var db := Run(Opening(start), steps).db;
            BookLockable(db.books, b) <==> BookVisible(db, b)
  {
    EveryRunSound(start, steps);
  }

  // ---------- the fine ledger ----------

  /** The ledger of every loan of every run. */
  lemma {:induction false} LedgerInEveryRun(start: Time, steps: seq<Step>, l: Id)
    requires l in Run(Opening(start), steps).db.loans
    ensures LedgerHolds(Run(Opening(start), steps).db.loans[l])
  {
    EveryRunSound(start, steps);
  }

  // The `payment_amount` a step answers for loan `l`; 0 when it is not a successful payment of it.
  function PaymentFor(w: World, step: Step, l: Id): int {
    if step == Write(Pay(l)) && PayFine(w.db, w.now, l).Committed? then Owed(w.db.loans[l], w.now) else 0
  }

  function PaymentsFor(w: World, steps: seq<Step>, l: Id): int {
    if steps == [] then 0
    else
      var earlier := steps[..|steps| - 1];
      PaymentsFor(w, earlier, l) + PaymentFor(Run(w, earlier), steps[|steps| - 1], l)
  }

  function PaidSoFar(db: Db, l: Id): int {
    if l in db.loans then db.loans[l].finePaidAmount else 0
  }

  lemma OnlyPayingMovesLedger(db: Db, now: Time, op: Op, after: Db, l: Id)
    requires Perform(db, now, op) == Committed(after)
    ensures PaidSoFar(after, l) == PaidSoFar(db, l) + if op == Pay(l) then Owed(db.loans[l], now) else 0
    ensures op == Pay(l) ==> Owed(db.loans[l], now) > 0
  {
  }

  lemma PaymentMovesLedger(w: World, step: Step, l: Id)
    ensures PaidSoFar(Next(w, step).db, l) == PaidSoFar(w.db, l) + PaymentFor(w, step, l)
    ensures PaymentFor(w, step, l) >= 0
  {
    if step.Write? && Perform(w.db, w.now, step.op).Committed? {
      OnlyPayingMovesLedger(w.db, w.now, step.op, Perform(w.db, w.now, step.op).db, l);
    }
  }

  /** All payments ever answered for a loan add up to its `fine_paid_amount`. */
  lemma {:induction false} PaymentsTelescope(start: Time, steps: seq<Step>, l: Id)
    ensures PaymentsFor(Opening(start), steps, l) == PaidSoFar(Run(Opening(start), steps).db, l)
  {
    if steps != [] {
      var earlier := steps[..|steps| - 1];
      PaymentsTelescope(start, earlier, l);
      PaymentMovesLedger(Run(Opening(start), earlier), steps[|steps| - 1], l);
    }
  }

  /** `pay_fine` and the fine check of `return_loan` are complementary, and a payment is positive and
      exactly what clears the check. */
  lemma PayingComplementsReturning(db: Db, now: Time, l: Id)
    requires LoanActive(db.loans, l)
    ensures Perform(db, now, Pay(l)).Committed? <==> Perform(db, now, GiveBack(l)) == Refused(FinePaymentRequired)
    ensures var paid := Perform(db, now, Pay(l));
            paid.Committed? ==>
              && Owed(db.loans[l], now) > 0
              && paid.db.loans[l].finePaidAmount == db.loans[l].finePaidAmount + Owed(db.loans[l], now)
              && Perform(paid.db, now, GiveBack(l)) != Refused(FinePaymentRequired)
  {
  }

  // Neither a payment nor a new due date for the loan.
  predicate LeavesLedger(step: Step, l: Id) {
    step.Write? ==> step.op != Pay(l) && !(step.op.Redate? && step.op.loan == l)
  }

  // The loan stands as it was paid, or it is closed.
  ghost predicate PaidOrClosed(w: World, l: Id, paid: Loan, since: Time) {
    w.now >= since && l in w.db.loans && (w.db.loans[l].status.Active? ==> w.db.loans[l] == paid)
  }

  lemma PaidLoanKept(db: Db, now: Time, op: Op, after: Db, l: Id)
    requires LoanActive(db.loans, l) && DaysLate(db.loans[l].dueDate, now) > 0
    requires op != Pay(l) && !(op.Redate? && op.loan == l) && Perform(db, now, op) == Committed(after)
    ensures l in after.loans && (after.loans[l].status.Active? ==> after.loans[l] == db.loans[l])
  {
  }

  lemma StepKeepsPaid(w: World, step: Step, l: Id, paid: Loan, since: Time)
    requires PaidOrClosed(w, l, paid, since) && LeavesLedger(step, l) && DaysLate(paid.dueDate, since) > 0
    ensures PaidOrClosed(Next(w, step), l, paid, since)
  {
    StepOnDb(w, step);
    assert Next(w, step).now >= w.now;
    if Next(w, step).db != w.db {
      if w.db.loans[l].status.Active? {
        DaysLateIsDateDistance(paid.dueDate, since);
        DaysLateIsDateDistance(paid.dueDate, w.now);
        DayMonotone(since, w.now);
        PaidLoanKept(w.db, w.now, step.op, Next(w, step).db, l);
      } else {
        ClosedKept(w.db, w.now, step.op, Next(w, step).db, l);
      }
    }
  }

  lemma {:induction false} RunKeepsPaid(w: World, steps: seq<Step>, l: Id, paid: Loan, since: Time)
    requires PaidOrClosed(w, l, paid, since) && DaysLate(paid.dueDate, since) > 0
    requires forall i | 0 <= i < |steps| :: LeavesLedger(steps[i], l)
    ensures PaidOrClosed(Run(w, steps), l, paid, since)
  {
    if steps != [] {
      RunKeepsPaid(w, steps[..|steps| - 1], l, paid, since);
      StepKeepsPaid(Run(w, steps[..|steps| - 1]), steps[|steps| - 1], l, paid, since);
    }
  }

  /** After a payment, in every continuation without another payment or a new due date for that loan, as long as it
      is not closed: nothing is owed for the rest of the day of the payment, and exactly the daily fine for each day
      after it; and returning it is refused for its fine exactly from the next day on. */
  lemma {:induction false} PaidUntilMidnightInEveryRun(w: World, steps: seq<Step>, l: Id)
    requires Perform(w.db, w.now, Pay(l)).Committed? && forall i | 0 <= i < |steps| :: LeavesLedger(steps[i], l)
    ensures var later := Run(Next(w, Write(Pay(l))), steps);
            && l in later.db.loans && later.now >= w.now
            && (later.db.loans[l].status.Active? ==>
                && Owed(later.db.loans[l], later.now) == DAILY_FINE * (DayOf(later.now) - DayOf(w.now))
                && (Perform(later.db, later.now, GiveBack(l)) == Refused(FinePaymentRequired)
                    <==> DayOf(later.now) > DayOf(w.now)))
  {
    var after := Next(w, Write(Pay(l)));
    var paid := after.db.loans[l];
    RunKeepsPaid(after, steps, l, paid, w.now);
    var later := Run(after, steps);
    if later.db.loans[l].status.Active? {
      DayMonotone(w.now, later.now);
      PaidUntilMidnight(paid, w.now, later.now);
    }
  }

  lemma ClosedKept(db: Db, now: Time, op: Op, after: Db, l: Id)
    requires l in db.loans && !db.loans[l].status.Active? && Perform(db, now, op) == Committed(after)
    ensures l in after.loans && after.loans[l] == db.loans[l]
  {
  }

  /** A returned or cancelled loan never changes again. */
  lemma {:induction false} ClosedLoansAreFinal(w: World, steps: seq<Step>, l: Id)
    requires l in w.db.loans && !w.db.loans[l].status.Active?
    ensures l in Run(w, steps).db.loans && Run(w, steps).db.loans[l] == w.db.loans[l]
  {
    if steps != [] {
      var v, step := Run(w, steps[..|steps| - 1]), steps[|steps| - 1];
      ClosedLoansAreFinal(w, steps[..|steps| - 1], l);
      StepOnDb(v, step);
      if Next(v, step).db != v.db {
        ClosedKept(v.db, v.now, step.op, Next(v, step).db, l);
      }
    }
  }

  // ---------- due dates ----------

  predicate NoRedating(steps: seq<Step>) {
    forall i | 0 <= i < |steps| :: !(steps[i].Write? && steps[i].op.Redate?)
  }

  ghost predicate DueByRenewals(loans: map<Id, Loan>, l: Id) {
    l in loans ==> loans[l].dueDate == loans[l].loanDate + (LOAN_DAYS + RENEWAL_DAYS * loans[l].renewalCount) * DAY
  }

  lemma DueByRenewalsKept(db: Db, now: Time, op: Op, after: Db, l: Id)
    requires !op.Redate? && DueByRenewals(db.loans, l) && Perform(db, now, op) == Committed(after)
    ensures DueByRenewals(after.loans, l)
  {
    if l in db.loans {
      var n := db.loans[l].renewalCount;
      assert (LOAN_DAYS + RENEWAL_DAYS * (n + 1)) * DAY == (LOAN_DAYS + RENEWAL_DAYS * n) * DAY + RENEWAL_DAYS * DAY;
    }
  }

  lemma {:induction false} DueByRenewalsRun(start: Time, steps: seq<Step>, l: Id)
    requires NoRedating(steps)
    ensures DueByRenewals(Run(Opening(start), steps).db.loans, l)
  {
    if steps != [] {
      var v, step := Run(Opening(start), steps[..|steps| - 1]), steps[|steps| - 1];
      DueByRenewalsRun(start, steps[..|steps| - 1], l);
      StepOnDb(v, step);
      if Next(v, step).db != v.db {
        DueByRenewalsKept(v.db, v.now, step.op, Next(v, step).db, l);
      }
    }
  }

  /** Without re-dating, a due date is the loan date plus 14 days and 7 per renewal: at most 28 days. */
  lemma {:induction false} DueDateInEveryRun(start: Time, steps: seq<Step>, l: Id)
    requires NoRedating(steps) && l in Run(Opening(start), steps).db.loans
    ensures var loan := Run(Opening(start), steps).db.loans[l];
            && loan.dueDate == loan.loanDate + (14 + 7 * loan.renewalCount) * DAY
            && loan.dueDate <= loan.loanDate + 28 * DAY
  {
    DueByRenewalsRun(start, steps, l);
    LedgerInEveryRun(start, steps, l);
  }

  /** After a renewal the borrower owes nothing until the end of the seventh day from that moment. */
  lemma RenewingBuysSevenDays(db: Db, now: Time, l: Id, later: Time)
    requires Perform(db, now, Renew(l)).Committed? && DayOf(later) <= DayOf(now) + 7
    ensures var loan := Perform(db, now, Renew(l)).db.loans[l];
            Amount(loan.dueDate, later) == 0 && !FineUnpaid(loan, later)
  {
    RenewalGrace(db.loans[l].dueDate, now, later);
  }

  // ---------- reservations ----------

  /** No run ever shows two active reservations of one user for one book. */
  lemma OneReservationInEveryRun(start: Time, steps: seq<Step>, user: Id, book: Id)
    ensures |ActiveReservationsOf(Run(Opening(start), steps).db.reservations, user, book)| <= 1
  {
    EveryRunSound(start, steps);
    var found := ActiveReservationsOf(Run(Opening(start), steps).db.reservations, user, book);
    if r :| r in found {
      assert found == {r};
    }
  }

  lemma ReservingNeedsEmptyShelf(db: Db, now: Time, r: Id, user: Id, book: Id)
    requires Perform(db, now, Reserve(r, user, book)).Committed?
    ensures book in db.books && db.books[book].availableCopies <= 0
  {
  }

  /** At the moment a reservation is made, every copy of the book is on loan. */
  lemma {:induction false} ReservedWhenBorrowedOut(start: Time, steps: seq<Step>, r: Id, user: Id, book: Id)
    requires var w := Run(Opening(start), steps);
             Perform(w.db, w.now, Reserve(r, user, book)).Committed? && w.db.books[book].totalCopies >= 0
    ensures var db := Run(Opening(start), steps).db;
            |ActiveOfBook(db.loans, book)| == db.books[book].totalCopies && db.books[book].availableCopies == 0
  {
    var w := Run(Opening(start), steps);
    ReservingNeedsEmptyShelf(w.db, w.now, r, user, book);
    CopiesInEveryRun(start, steps, book);
  }

  // ---------- reminders ----------

  lemma {:induction false} OncePerDayInEveryRun(start: Time, steps: seq<Step>)
    ensures OncePerDay(Run(Opening(start), steps).rows)
  {
    if steps != [] {
      var earlier := steps[..|steps| - 1];
      OncePerDayInEveryRun(start, earlier);
      var w := Run(Opening(start), earlier);
      if steps[|steps| - 1].RunDueJob? {
        JobExactly(w.db, w.rows, w.now);
        OnlyAddsKeepsOncePerDay(w.rows, JobRows(w.db, w.rows, w.now), w.db.loans, w.now);
      } else {
        EventsAreNoReminders(w, steps[|steps| - 1]);
      }
    }
  }

  lemma EventsAreNoReminders(w: World, step: Step)
    requires !step.RunDueJob?
    ensures var rows := Next(w, step).rows;
            rows == w.rows || (exists row :: rows == w.rows + [row] && !DueKind(row.kind))
  {
    if step.Write? && Perform(w.db, w.now, step.op).Committed? {
      var db := Perform(w.db, w.now, step.op).db;
      var event := Published(step.op, db);
      if event.Some? {
        var row := Events.RowOf(Events.OwnHandler(event.value.eventType), event.value, w.now);
        assert Next(w, step).rows == w.rows + [row] && !DueKind(row.kind);
      }
    }
  }

  /** In every run, right after the job ran, each warranted reminder of today stands in the table
      exactly once. */
  lemma EveryReminderExactlyOnce(start: Time, steps: seq<Step>, l: Id, kind: Kind)
    requires var w := Run(Opening(start), steps);
             DueKind(kind) && l in w.db.loans && Warrants(w.db.loans[l], kind, w.now)
    ensures var w := Run(Opening(start), steps);
            SentOnceOn(JobRows(w.db, w.rows, w.now), l, kind, DayOf(w.now))
  {
    var w := Run(Opening(start), steps);
    EveryRunSound(start, steps);
    OncePerDayInEveryRun(start, steps);
    JobSendsOnce(w.db, w.rows, w.now, l, kind);
  }
}
