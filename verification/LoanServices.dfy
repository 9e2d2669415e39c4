/** The loan and reservation services: each method performs its steps in the order of the source, and its
    contract says that it is one serial step of the library. */
module LoanServices {
  import opened Domain
  import opened Fines
  import opened Circulation
  import opened CacheKeys
  import opened Views
  import opened Notifications
  import opened Events
  import opened Integrity
  import opened Library
  import opened Listings
  import opened Persistence
  import opened Rules

  datatype ReturnReceipt = ReturnReceipt(
    id: Id, status: LoanStatus, returnedAt: Time,
    fineAmount: int, finePaidAt: Option<Time>, finePaidAmount: int, daysLate: int)

  datatype PaymentReceipt = PaymentReceipt(
    id: Id, fineAmount: int, paymentAmount: int, finePaidAmount: int, finePaidAt: Time)

  // A new bus with the notification handlers on it, as every request gets one.
  method WiredBus(notifications: NotificationRepository) returns (bus: EventBus)
    ensures fresh(bus) && bus.WritesTo(notifications) && OneHandlerEach(bus.Classes())
  {
    bus := new EventBus();
    RegisterEventHandlers(bus, notifications);
    RegisteredFromEmpty();
    assert ClassTable(map[]) == map[];
  }

  method Announce(bus: EventBus, notifications: NotificationRepository, event: Event, now: Time)
    requires bus.WritesTo(notifications) && OneHandlerEach(bus.Classes())
    modifies bus, notifications
    ensures bus.WritesTo(notifications) && OneHandlerEach(bus.Classes())
    ensures notifications.rows == Notified(old(notifications.rows), Some(event), now)
  {
    bus.Publish(event, now, notifications);
    assert Delivered([OwnHandler(event.eventType)], event, now) == [RowOf(OwnHandler(event.eventType), event, now)];
  }

  class LoanService {
    const session: Session
    const cache: CacheService
    const notifications: NotificationRepository
    const bus: EventBus
    const repository: LoanRepository

    constructor (session: Session, cache: CacheService, notifications: NotificationRepository)
      ensures this.session == session && this.cache == cache && this.notifications == notifications
      ensures Wired() && fresh(bus) && repository.session == session
    {
      var wired := WiredBus(notifications);
      var loans := new LoanRepository(session);
      this.repository := loans;
      this.session, this.cache, this.notifications, this.bus := session, cache, notifications, wired;
    }

    ghost predicate Wired()
      reads bus
    {
      bus.WritesTo(notifications) && OneHandlerEach(bus.Classes())
    }

    ghost function Snapshot(now: Time): World
      reads session, cache, notifications
    {
      World(now, session.State(), cache.store, notifications.rows)
    }

    method InvalidateBookCache(book: Id)
      modifies cache
      ensures cache.store == WithoutBook(old(cache.store), book)
    {
      cache.Delete(BookKey(book));
      cache.DeletePattern("books:list");
    }

    method InvalidateLoanCache(user: Id, loan: Id)
      modifies cache
      ensures cache.store == WithoutLoan(old(cache.store), user, loan)
    {
      cache.Delete(LoanKey(loan));
      cache.DeletePattern("loans:list");
      cache.DeletePattern(UserPrefix(user));
    }

    // What follows the commit of a lending, a return or a cancellation.
    method Conclude(event: Event, bookId: Id, now: Time)
      requires Wired()
      modifies cache, notifications, bus
      ensures Wired()
      ensures cache.store == WithoutLoan(WithoutBook(old(cache.store), bookId), event.userId, event.subject)
      ensures notifications.rows == Notified(old(notifications.rows), Some(event), now)
    {
      InvalidateBookCache(bookId);
      InvalidateLoanCache(event.userId, event.subject);
      Announce(bus, notifications, event, now);
    }

    method CountActiveByUser(userId: Id) returns (n: nat)
      ensures n == |ActiveOfUser(session.loans, userId)|
    {
      var loans := session.loans;
      n := |set l | l in loans && loans[l].status.Active? && loans[l].userId == userId|;
    }

    // The writes of `create_loan`, once its checks passed.
    method Lend(newId: Id, loan: Loan)
      requires newId !in session.loans && loan.bookId in session.books
      modifies session
      ensures var book := old(session.books)[loan.bookId];
              session.State() == old(session.State()).(
                books := old(session.books)[loan.bookId := book.(availableCopies := book.availableCopies - 1)],
                loans := old(session.loans)[newId := loan],
                loanOrder := old(session.loanOrder) + [newId])
    {
      var book := session.books[loan.bookId];
      session.books := session.books[loan.bookId := book.(availableCopies := book.availableCopies - 1)];
      session.loans := session.loans[newId := loan];
      session.loanOrder := session.loanOrder + [newId];
    }

    // The writes of `return_loan` and `cancel_loan`, once their checks passed.
    method TakeBack(loanId: Id, closed: Loan)
      requires loanId in session.loans && closed.bookId in session.books
      modifies session
      ensures var book := old(session.books)[closed.bookId];
              session.State() == old(session.State()).(
                books := old(session.books)[closed.bookId := book.(availableCopies := book.availableCopies + 1)],
                loans := old(session.loans)[loanId := closed])
    {
      var book := session.books[closed.bookId];
      session.loans := session.loans[loanId := closed];
      session.books := session.books[closed.bookId := book.(availableCopies := book.availableCopies + 1)];
    }

    method CreateLoan(newId: Id, userId: Id, bookId: Id, now: Time) returns (r: Result<LoanView>)
      requires Wired()
      modifies session, cache, notifications, bus
      ensures Wired() && Snapshot(now) == Transact(old(Snapshot(now)), Borrow(newId, userId, bookId))
      ensures match r
              case Ok(view) => newId !in old(session.loans) && newId in session.loans
                               && view == ViewLoan(newId, session.loans[newId], now)
              case Err(e) => Perform(old(session.State()), now, Borrow(newId, userId, bookId)) == Refused(e)
    {
      if !(userId in session.users && session.users[userId]) {
        return Err(NotFound(UserEntity));
      }
      var active := CountActiveByUser(userId);
      if active >= MAX_ACTIVE_LOANS {
        return Err(BusinessRule(LoanLimit));
      }
      if !(bookId in session.books && session.books[bookId].active) {
        return Err(NotFound(BookEntity));
      }
      if session.books[bookId].availableCopies <= 0 {
        return Err(BusinessRule(BookUnavailable));
      }
      if newId in session.loans {
        return Err(DuplicateKey);
      }
      Lend(newId, Loan(userId, bookId, now, now + LOAN_DAYS * DAY, None, None, Active, 0, None, 0, 0));
      Conclude(Event(LoanCreatedEvent, newId, userId), bookId, now);
      r := Ok(ViewLoan(newId, session.loans[newId], now));
    }

    method GetLoan(loanId: Id, now: Time) returns (r: Result<Answer>)
      modifies cache
      ensures (Snapshot(now), r) == Library.GetLoan(old(Snapshot(now)), loanId)
    {
      var cached := cache.Get(LoanKey(loanId), now);
      if cached.Some? {
        return Ok(cached.value);
      }
      if loanId !in session.loans {
        return Err(NotFound(LoanEntity));
      }
      var view := LoanAnswer(ViewLoan(loanId, session.loans[loanId], now));
      cache.Set(LoanKey(loanId), view, now, LOAN_TTL);
      r := Ok(view);
    }

    method ReturnLoan(loanId: Id, now: Time) returns (r: Result<ReturnReceipt>)
      requires Wired()
      modifies session, cache, notifications, bus
      ensures Wired() && Snapshot(now) == Transact(old(Snapshot(now)), GiveBack(loanId))
      ensures match r
              case Ok(receipt) =>
                LoanActive(old(session.loans), loanId) && loanId in session.loans
                && var loan := session.loans[loanId];
                   receipt == ReturnReceipt(loanId, Returned, now, loan.fineAmount, loan.finePaidAt,
                                            loan.finePaidAmount, LateDays(loan.dueDate, now))
                   && loan.returnedAt == Some(now) && loan.fineAmount == 2 * LateDays(loan.dueDate, now)
              case Err(e) => Perform(old(session.State()), now, GiveBack(loanId)) == Refused(e)
    {
      if !(loanId in session.loans && session.loans[loanId].status.Active?) {
        return Err(NotFound(ActiveLoanEntity));
      }
      var loan := session.loans[loanId];
      var daysLate := DaysLate(loan.dueDate, now);
      var fine := Amount(loan.dueDate, now);
      if fine > 0 && loan.finePaidAmount < fine {
        return Err(FinePaymentRequired);
      }
      if !(loan.bookId in session.books && session.books[loan.bookId].active) {
        return Err(NotFound(BookEntity));
      }
      loan := loan.(status := Returned);
      loan := loan.(returnedAt := Some(now));
      loan := loan.(fineAmount := fine);
      TwoPerLateDay(loan.dueDate, now);
      TakeBack(loanId, loan);
      Conclude(Event(LoanReturnedEvent, loanId, loan.userId), loan.bookId, now);
      r := Ok(ReturnReceipt(loanId, loan.status, now, loan.fineAmount, loan.finePaidAt, loan.finePaidAmount, daysLate));
    }

    method PayFine(loanId: Id, now: Time) returns (r: Result<PaymentReceipt>)
      modifies session, cache
      ensures Snapshot(now) == Transact(old(Snapshot(now)), Pay(loanId))
      ensures match r
              case Ok(receipt) =>
                LoanActive(old(session.loans), loanId)
                && receipt.paymentAmount == Owed(old(session.loans)[loanId], now) > 0
                && var fine := 2 * LateDays(old(session.loans)[loanId].dueDate, now);
                   loanId in session.loans && session.loans[loanId].finePaidAt == Some(now)
                   && receipt == PaymentReceipt(loanId, fine, receipt.paymentAmount, fine, now)
              case Err(e) => Perform(old(session.State()), now, Pay(loanId)) == Refused(e)
    {
      if !(loanId in session.loans && session.loans[loanId].status.Active?) {
        return Err(NotFound(ActiveLoanEntity));
      }
      var loan := session.loans[loanId];
      var fine := Amount(loan.dueDate, now);
      if fine <= 0 {
        return Err(BusinessRule(NoFineDue));
      }
      var payment := fine - loan.finePaidAmount;
      if payment <= 0 {
        return Err(BusinessRule(FineAlreadyPaid));
      }
      loan := loan.(fineAmount := fine);
      loan := loan.(finePaidAmount := fine);
      loan := loan.(finePaidAt := Some(now));
      TwoPerLateDay(loan.dueDate, now);
      session.loans := session.loans[loanId := loan];
      InvalidateLoanCache(loan.userId, loanId);
      r := Ok(PaymentReceipt(loanId, loan.fineAmount, payment, loan.finePaidAmount, now));
    }

    method CancelLoan(loanId: Id, now: Time) returns (r: Result<Loan>)
      requires Wired()
      modifies session, cache, notifications, bus
      ensures Wired() && Snapshot(now) == Transact(old(Snapshot(now)), Cancel(loanId))
      ensures match r
              case Ok(loan) => loanId in session.loans && loan == session.loans[loanId]
                               && loan.status.Cancelled? && loan.cancelledAt == Some(now)
              case Err(e) => Perform(old(session.State()), now, Cancel(loanId)) == Refused(e)
    {
      if !(loanId in session.loans && session.loans[loanId].status.Active?) {
        return Err(NotFound(ActiveLoanEntity));
      }
      var loan := session.loans[loanId];
      if !(loan.bookId in session.books && session.books[loan.bookId].active) {
        return Err(NotFound(BookEntity));
      }
      loan := loan.(status := Cancelled);
      loan := loan.(cancelledAt := Some(now));
      loan := loan.(fineAmount := 0);
      TakeBack(loanId, loan);
      Conclude(Event(LoanCancelledEvent, loanId, loan.userId), loan.bookId, now);
      r := Ok(loan);
    }

    // Deletes nothing from the cache.
    method RenewLoan(loanId: Id, now: Time) returns (r: Result<Loan>)
      modifies session
      ensures Snapshot(now) == Transact(old(Snapshot(now)), Renew(loanId))
      ensures match r
              case Ok(loan) => loanId in session.loans && loan == session.loans[loanId]
                               && loanId in old(session.loans)
                               && loan.renewalCount == old(session.loans)[loanId].renewalCount + 1
              case Err(e) => Perform(old(session.State()), now, Renew(loanId)) == Refused(e)
    {
      if !(loanId in session.loans && session.loans[loanId].status.Active?) {
        return Err(NotFound(ActiveLoanEntity));
      }
      var loan := session.loans[loanId];
      if DaysLate(loan.dueDate, now) > 0 {
        return Err(BusinessRule(OverdueNotRenewable));
      }
      if loan.renewalCount >= MAX_RENEWALS {
        return Err(BusinessRule(RenewalLimit));
      }
      if exists k | k in session.reservations ::
           session.reservations[k].bookId == loan.bookId && session.reservations[k].status.ReservationActive? {
        return Err(BusinessRule(BookReserved));
      }
      loan := loan.(dueDate := loan.dueDate + RENEWAL_DAYS * DAY);
      loan := loan.(renewalCount := loan.renewalCount + 1);
      session.loans := session.loans[loanId := loan];
      r := Ok(loan);
    }

    method ListPaginated(l: LoanList, now: Time) returns (r: Result<Answer>)
      requires repository.session == session && LoanOrderHolds(session.State())
      modifies cache
      ensures (Snapshot(now), r) == Library.GetLoans(old(Snapshot(now)), l)
    {
      var cached := cache.Get(LoanListKey(l), now);
      if cached.Some? {
        return Ok(cached.value);
      }
      var ids, total := repository.ListPaginated(l.page, l.size, l.filter, now);
      var page := LoansAnswer(LoanPage(LoanViews(session.loans, ids, now), total, l.page, l.size));
      cache.Set(LoanListKey(l), page, now, LOAN_TTL);
      r := Ok(page);
    }

    method ListByUserPaginated(p: UserLoans, now: Time) returns (r: Result<Answer>)
      requires repository.session == session && LoanOrderHolds(session.State())
      modifies cache
      ensures (Snapshot(now), r) == Library.GetUserLoans(old(Snapshot(now)), p)
    {
      var cached := cache.Get(UserLoansKey(p), now);
      if cached.Some? {
        return Ok(cached.value);
      }
      if !(p.user in session.users && session.users[p.user]) {
        return Err(NotFound(UserEntity));
      }
      var q := LoanQuery(Some(p.user), None, p.status, None);
      var ids, total := repository.ListPaginated(p.page, p.size, q, now);
      var page := LoansAnswer(LoanPage(LoanViews(session.loans, ids, now), total, p.page, p.size));
      cache.Set(UserLoansKey(p), page, now, LOAN_TTL);
      r := Ok(page);
    }

    method UpdateLoan(loanId: Id, due: Option<Time>, now: Time) returns (r: Result<LoanView>)
      modifies session, cache
      ensures Snapshot(now) == Transact(old(Snapshot(now)), Redate(loanId, due))
      ensures match r
              case Ok(view) => loanId in session.loans && view == ViewLoan(loanId, session.loans[loanId], now)
                               && (due.Some? ==> session.loans[loanId].dueDate == due.value
                                                 && due.value > session.loans[loanId].loanDate)
              case Err(e) => Perform(old(session.State()), now, Redate(loanId, due)) == Refused(e)
    {
      if loanId !in session.loans {
        return Err(NotFound(LoanEntity));
      }
      var loan := session.loans[loanId];
      if !loan.status.Active? {
        return Err(BusinessRule(OnlyActiveLoansChange));
      }
      if due.Some? {
        if due.value <= loan.loanDate {
          return Err(BusinessRule(DueDateNotAfterLoanDate));
        }
        loan := loan.(dueDate := due.value);
        session.loans := session.loans[loanId := loan];
      }
      InvalidateLoanCache(loan.userId, loanId);
      r := Ok(ViewLoan(loanId, loan, now));
    }
  }

  class ReservationService {
    const session: Session
    const notifications: NotificationRepository
    const bus: EventBus

    constructor (session: Session, notifications: NotificationRepository)
      ensures this.session == session && this.notifications == notifications
      ensures Wired() && fresh(bus)
    {
      var wired := WiredBus(notifications);
      this.session, this.notifications, this.bus := session, notifications, wired;
    }

    ghost predicate Wired()
      reads bus
    {
      bus.WritesTo(notifications) && OneHandlerEach(bus.Classes())
    }

    // The step also reads the cache it leaves alone.
    ghost function Snapshot(cache: Store, now: Time): World
      reads session, notifications
    {
      World(now, session.State(), cache, notifications.rows)
    }

    method CreateReservation(newId: Id, userId: Id, bookId: Id, now: Time, ghost cache: Store)
      returns (r: Result<Reservation>)
      requires Wired()
      modifies session, notifications, bus
      ensures Wired() && Snapshot(cache, now) == Transact(old(Snapshot(cache, now)), Reserve(newId, userId, bookId))
      ensures match r
              case Ok(row) => newId in session.reservations && row == session.reservations[newId]
                              && !HasReserved(old(session.State()), userId, bookId)
              case Err(e) => Perform(old(session.State()), now, Reserve(newId, userId, bookId)) == Refused(e)
      ensures r == Err(BusinessRule(AlreadyReserved)) ==> HasReserved(old(session.State()), userId, bookId)
    {
      if !(userId in session.users && session.users[userId]) {
        return Err(NotFound(UserEntity));
      }
      if !BookVisible(session.State(), bookId) {
        return Err(NotFound(BookEntity));
      }
      if session.books[bookId].availableCopies > 0 {
        return Err(BusinessRule(BookStillAvailable));
      }
      var existing := ActiveReservationsOf(session.reservations, userId, bookId);
      HasReservedExactly(session.State(), userId, bookId);
      if existing != {} {
        return Err(BusinessRule(AlreadyReserved));
      }
      if newId in session.reservations {
        return Err(DuplicateKey);
      }
      var row := Reservation(userId, bookId, ReservationActive, now, None);
      session.reservations := session.reservations[newId := row];
      Announce(bus, notifications, Event(ReservationCreatedEvent, newId, userId), now);
      r := Ok(row);
    }

    method CancelReservation(reservationId: Id, now: Time, ghost cache: Store) returns (r: Result<Reservation>)
      requires Wired()
      modifies session, notifications, bus
      ensures Wired() && Snapshot(cache, now) == Transact(old(Snapshot(cache, now)), Unreserve(reservationId))
      ensures match r
              case Ok(row) => reservationId in session.reservations && row == session.reservations[reservationId]
                              && row.status.ReservationCancelled? && row.cancelledAt == Some(now)
              case Err(e) => Perform(old(session.State()), now, Unreserve(reservationId)) == Refused(e)
    {
      if reservationId !in session.reservations {
        return Err(NotFound(ReservationEntity));
      }
      var row := session.reservations[reservationId];
      if !row.status.ReservationActive? {
        return Err(BusinessRule(OnlyActiveReservationsCancel));
      }
      row := row.(status := ReservationCancelled);
      row := row.(cancelledAt := Some(now));
      session.reservations := session.reservations[reservationId := row];
      Announce(bus, notifications, Event(ReservationCancelledEvent, reservationId, row.userId), now);
      r := Ok(row);
    }
  }
}
