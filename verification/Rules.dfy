/** What each transaction accepts, refuses and writes, column by column, in terms of the tables alone. */
module Rules {
  import opened Domain
  import opened Fines
  import opened Circulation
  import opened Integrity

  // ---------- units ----------

  lemma CalendarDay(t: Time, d: int)
    ensures DayOf(t) == d <==> d * 86_400_000_000 <= t < (d + 1) * 86_400_000_000
    ensures DAY == 86_400 * SECOND && SECOND == 1_000_000
  {
  }

  function LateDays(from: Time, to: Time): int {
    if DayOf(to) > DayOf(from) then DayOf(to) - DayOf(from) else 0
  }

  /** A fine is two units for every day between the due day and the day of reference. */
  lemma TwoPerLateDay(due: Time, reference: Time)
    ensures DaysLate(due, reference) == LateDays(due, reference)
    ensures Amount(due, reference) == 2 * LateDays(due, reference)
  {
    DaysLateIsDateDistance(due, reference);
  }

  // ---------- what a transaction leaves alone ----------

  ghost predicate OnlyUserChanges(db: Db, after: Db, id: Id) {
    && after == db.(users := after.users) && after.users.Keys == db.users.Keys + {id}
    && forall u | u in db.users && u != id :: after.users[u] == db.users[u]
  }

  ghost predicate OnlyAuthorChanges(db: Db, after: Db, id: Id) {
    && after == db.(authors := after.authors, books := after.books)
    && after.authors.Keys == db.authors.Keys + {id}
    && forall a | a in db.authors && a != id :: after.authors[a] == db.authors[a]
  }

  ghost predicate OnlyBookChanges(db: Db, after: Db, id: Id) {
    && after == db.(books := after.books, bookOrder := after.bookOrder)
    && BookChanges(db, after, id)
  }

  ghost predicate BookChanges(db: Db, after: Db, id: Id) {
    && after.books.Keys == db.books.Keys + {id}
    && forall b | b in db.books && b != id :: after.books[b] == db.books[b]
  }

  ghost predicate OnlyLoanChanges(db: Db, after: Db, id: Id) {
    after == db.(loans := after.loans) && id in db.loans && LoanChanges(db, after, id)
  }

  ghost predicate LoanChanges(db: Db, after: Db, id: Id) {
    && after.loans.Keys == db.loans.Keys + {id}
    && forall l | l in db.loans && l != id :: after.loans[l] == db.loans[l]
  }

  // The copies on the shelf move by `delta`; nothing else of the book does.
  ghost predicate StockMoves(db: Db, after: Db, book: Id, delta: int) {
    && book in db.books && BookChanges(db, after, book)
    && after.books[book] == db.books[book].(availableCopies := db.books[book].availableCopies + delta)
  }

  ghost predicate OnlyReservationChanges(db: Db, after: Db, id: Id) {
    && after == db.(reservations := after.reservations) && after.reservations.Keys == db.reservations.Keys + {id}
    && forall r | r in db.reservations && r != id :: after.reservations[r] == db.reservations[r]
  }

  // ---------- who and what is there ----------

  predicate Registered(db: Db, user: Id) {
    user in db.users && db.users[user]
  }

  predicate Writing(db: Db, author: Id) {
    author in db.authors && db.authors[author].active
  }

  // In a sound library an active book is a shown one, whatever is asked of its author.
  predicate OnShow(db: Db, book: Id) {
    book in db.books && db.books[book].active
  }

  predicate OnLoan(db: Db, l: Id) {
    l in db.loans && db.loans[l].status == Active
  }

  // ---------- users and authors ----------

  lemma UsersRule(db: Db, now: Time, id: Id)
    ensures var added := Perform(db, now, AddUser(id));
            && (added == Refused(DuplicateKey) <==> id in db.users) && (added.Committed? <==> id !in db.users)
            && (added.Committed? ==> OnlyUserChanges(db, added.db, id) && Registered(added.db, id))
    ensures var removed := Perform(db, now, RemoveUser(id));
            && (removed == Refused(NotFound(UserEntity)) <==> !Registered(db, id))
            && (removed.Committed? <==> Registered(db, id))
            && (removed.Committed? ==> OnlyUserChanges(db, removed.db, id) && !Registered(removed.db, id))
  {
  }

  lemma NewAuthorRule(db: Db, now: Time, id: Id, name: string, bio: Option<string>)
    ensures var outcome := Perform(db, now, AddAuthor(id, name, bio));
            && (outcome == Refused(DuplicateKey) <==> id in db.authors) && (outcome.Committed? <==> id !in db.authors)
            && (outcome.Committed? ==>
                && OnlyAuthorChanges(db, outcome.db, id) && outcome.db.books == db.books
                && Writing(outcome.db, id) && outcome.db.authors[id].name == name
                && outcome.db.authors[id].biography == bio)
  {
  }

  /** An author's name changes exactly when a non-empty one is sent, the biography exactly when one is sent, even
      none; nothing else does, and no inactive author is found. */
  lemma AuthorEditRule(db: Db, now: Time, id: Id, name: Option<string>, bio: Option<Option<string>>)
    ensures var outcome := Perform(db, now, EditAuthor(id, name, bio));
            && (outcome == Refused(NotFound(AuthorEntity)) <==> !Writing(db, id))
            && (outcome.Committed? <==> Writing(db, id))
            && (outcome.Committed? ==>
                && OnlyAuthorChanges(db, outcome.db, id) && outcome.db.books == db.books && Writing(outcome.db, id)
                && (name.Some? && name.value != "" ==> outcome.db.authors[id].name == name.value)
                && (name.None? || name.value == "" ==> outcome.db.authors[id].name == db.authors[id].name)
                && (bio.Some? ==> outcome.db.authors[id].biography == bio.value)
                && (bio.None? ==> outcome.db.authors[id].biography == db.authors[id].biography))
  {
  }

  /** Deleting an author hides the author and exactly the author's books; no other column of any row moves. */
  lemma AuthorRemovalRule(db: Db, now: Time, id: Id)
    ensures var outcome := Perform(db, now, RemoveAuthor(id));
            && (outcome == Refused(NotFound(AuthorEntity)) <==> !Writing(db, id))
            && (outcome.Committed? <==> Writing(db, id))
            && (outcome.Committed? ==>
                && OnlyAuthorChanges(db, outcome.db, id)
                && outcome.db.authors[id] == db.authors[id].(active := false)
                && outcome.db.books.Keys == db.books.Keys
                && forall b | b in db.books :: outcome.db.books[b]
                     == db.books[b].(active := db.books[b].active && db.books[b].authorId != id))
  {
  }

  // ---------- books ----------

  /** A book is accepted exactly with a new ISBN, an active author and a new id; all its copies are on the shelf. */
  lemma NewBookRule(db: Db, now: Time, id: Id, title: string, isbn: string, category: string, total: int, author: Id)
    ensures var outcome := Perform(db, now, AddBook(id, title, isbn, category, total, author));
            && var known := exists b | b in db.books :: db.books[b].isbn == isbn;
            && (outcome == Refused(BusinessRule(IsbnTaken)) <==> known)
            && (outcome == Refused(NotFound(AuthorEntity)) <==> !known && !Writing(db, author))
            && (outcome == Refused(DuplicateKey) <==> !known && Writing(db, author) && id in db.books)
            && (outcome.Committed? <==> !known && Writing(db, author) && id !in db.books)
            && (outcome.Committed? ==>
                && OnlyBookChanges(db, outcome.db, id) && outcome.db.bookOrder == db.bookOrder + [id]
                && var book := outcome.db.books[id];
                   && book.title == title && book.isbn == isbn && book.category == category
                   && book.totalCopies == total && book.availableCopies == total
                   && book.authorId == author && book.createdAt == now && book.active)
  {
  }

  /** A shown book takes a non-empty title and category and any total that covers its active loans; what is not
      sent stays, and the copies on the shelf are always the total minus the loans. */
  lemma BookEditRule(db: Db, now: Time, id: Id, title: Option<string>, category: Option<string>, total: Option<int>)
    requires Sound(db)
    ensures var outcome := Perform(db, now, EditBook(id, title, category, total));
            && (outcome == Refused(NotFound(BookEntity)) <==> !OnShow(db, id))
            && (outcome == Refused(BusinessRule(TotalBelowBorrowed)) <==>
                OnShow(db, id) && total.Some? && total.value < |ActiveOfBook(db.loans, id)|)
            && (outcome.Committed? <==>
                OnShow(db, id) && (total.Some? ==> total.value >= |ActiveOfBook(db.loans, id)|))
            && (outcome.Committed? ==>
                && OnlyBookChanges(db, outcome.db, id) && outcome.db.bookOrder == db.bookOrder
                && var before, book := db.books[id], outcome.db.books[id];
                   && book.title == (if title.Some? && title.value != "" then title.value else before.title)
                   && book.category == (if category.Some? && category.value != "" then category.value
                                        else before.category)
                   && book.totalCopies == (if total.Some? then total.value else before.totalCopies)
                   && book.availableCopies == book.totalCopies - |ActiveOfBook(db.loans, id)|
                   && book.isbn == before.isbn && book.authorId == before.authorId
                   && book.createdAt == before.createdAt && book.active)
  {
    if id in db.books {
      assert db.books[id].totalCopies - db.books[id].availableCopies == |ActiveOfBook(db.loans, id)|;
    }
  }

  lemma BookRemovalRule(db: Db, now: Time, id: Id)
    requires Sound(db)
    ensures var outcome := Perform(db, now, RemoveBook(id));
            && (outcome == Refused(NotFound(BookEntity)) <==> !OnShow(db, id))
            && (outcome.Committed? <==> OnShow(db, id))
            && (outcome.Committed? ==>
                && OnlyBookChanges(db, outcome.db, id) && outcome.db.bookOrder == db.bookOrder
                && outcome.db.books[id] == db.books[id].(active := false))
  {
  }

  // ---------- loans ----------

  // Every copy of the book is on loan.
  predicate LentOut(db: Db, book: Id)
    requires book in db.books
  {
    |ActiveOfBook(db.loans, book)| >= db.books[book].totalCopies
  }

  /** Each refusal of `create_loan` has its exact cause; a loan runs 14 days from now, takes one copy, and changes no
      other row. */
  lemma BorrowingRule(db: Db, now: Time, l: Id, user: Id, book: Id)
    requires Sound(db)
    ensures var outcome, held := Perform(db, now, Borrow(l, user, book)), |ActiveOfUser(db.loans, user)|;
            && (outcome == Refused(NotFound(UserEntity)) <==> !Registered(db, user))
            && (outcome == Refused(BusinessRule(LoanLimit)) <==> Registered(db, user) && held == 3)
            && (outcome == Refused(NotFound(BookEntity)) <==> Registered(db, user) && held < 3 && !OnShow(db, book))
            && (outcome == Refused(BusinessRule(BookUnavailable)) <==>
                Registered(db, user) && held < 3 && OnShow(db, book) && LentOut(db, book))
            && (outcome == Refused(DuplicateKey) <==>
                Registered(db, user) && held < 3 && OnShow(db, book) && !LentOut(db, book) && l in db.loans)
            && (outcome.Committed? <==>
                Registered(db, user) && held < 3 && OnShow(db, book) && !LentOut(db, book) && l !in db.loans)
  {
    if book in db.books {
      assert db.books[book].totalCopies - db.books[book].availableCopies == |ActiveOfBook(db.loans, book)|;
    }
  }

  lemma NewLoanRow(db: Db, now: Time, l: Id, user: Id, book: Id)
    requires Perform(db, now, Borrow(l, user, book)).Committed?
    ensures var after := Perform(db, now, Borrow(l, user, book)).db;
            && after == db.(books := after.books, loans := after.loans, loanOrder := db.loanOrder + [l])
            && StockMoves(db, after, book, -1) && LoanChanges(db, after, l)
            && var loan := after.loans[l];
               && loan.userId == user && loan.bookId == book && loan.status == Active
               && loan.loanDate == now && loan.dueDate == now + 14 * 86_400_000_000
               && loan.returnedAt == None && loan.cancelledAt == None
               && loan.fineAmount == 0 && loan.finePaidAt == None && loan.finePaidAmount == 0 && loan.renewalCount == 0
  {
  }

  /** A return is refused for its fine exactly while less than the fine of today is paid. */
  lemma GivingBackRule(db: Db, now: Time, l: Id)
    requires Sound(db)
    ensures var outcome := Perform(db, now, GiveBack(l));
            && (outcome == Refused(NotFound(ActiveLoanEntity)) <==> !OnLoan(db, l))
            && (OnLoan(db, l) ==>
                && var loan := db.loans[l];
                   var fine := 2 * LateDays(loan.dueDate, now);
                   && (outcome == Refused(FinePaymentRequired) <==> loan.finePaidAmount < fine)
                   && (outcome == Refused(NotFound(BookEntity)) <==>
                       loan.finePaidAmount >= fine && !OnShow(db, loan.bookId))
                   && (outcome.Committed? <==> loan.finePaidAmount >= fine && OnShow(db, loan.bookId)))
  {
    if OnLoan(db, l) {
      TwoPerLateDay(db.loans[l].dueDate, now);
      assert LedgerHolds(db.loans[l]);
    }
  }

  /** It is stamped with the moment it happens and with the fine of that day, whatever was stored before, and puts
      one copy back. */
  lemma ReturnedRow(db: Db, now: Time, l: Id)
    requires Perform(db, now, GiveBack(l)).Committed?
    ensures var after, loan := Perform(db, now, GiveBack(l)).db, db.loans[l];
            && after == db.(books := after.books, loans := after.loans)
            && StockMoves(db, after, loan.bookId, 1) && LoanChanges(db, after, l)
            && after.loans[l] == loan.(status := Returned, returnedAt := Some(now),
                                       fineAmount := 2 * LateDays(loan.dueDate, now))
  {
    TwoPerLateDay(db.loans[l].dueDate, now);
  }

  /** A cancellation never asks for a fine. */
  lemma CancellingRule(db: Db, now: Time, l: Id)
    ensures var outcome := Perform(db, now, Cancel(l));
            && (outcome == Refused(NotFound(ActiveLoanEntity)) <==> !OnLoan(db, l))
            && (OnLoan(db, l) ==>
                && (outcome == Refused(NotFound(BookEntity)) <==> !OnShow(db, db.loans[l].bookId))
                && (outcome.Committed? <==> OnShow(db, db.loans[l].bookId)))
  {
  }

  /** It is stamped with its moment, takes the fine back to nothing, and puts one copy back. */
  lemma CancelledRow(db: Db, now: Time, l: Id)
    requires Perform(db, now, Cancel(l)).Committed?
    ensures var after, loan := Perform(db, now, Cancel(l)).db, db.loans[l];
            && after == db.(books := after.books, loans := after.loans)
            && StockMoves(db, after, loan.bookId, 1) && LoanChanges(db, after, l)
            && after.loans[l] == loan.(status := Cancelled, cancelledAt := Some(now), fineAmount := 0)
  {
  }

  /** A payment is refused exactly on a loan that is not late, or whose fine of today is covered; it brings the paid
      amount to the fine of today, at the moment it is made. */
  lemma PayingRule(db: Db, now: Time, l: Id)
    ensures var outcome := Perform(db, now, Pay(l));
            && (outcome == Refused(NotFound(ActiveLoanEntity)) <==> !OnLoan(db, l))
            && (OnLoan(db, l) ==>
                && var loan := db.loans[l];
                   var fine := 2 * LateDays(loan.dueDate, now);
                   && (outcome == Refused(BusinessRule(NoFineDue)) <==> DayOf(now) <= DayOf(loan.dueDate))
                   && (outcome == Refused(BusinessRule(FineAlreadyPaid)) <==>
                       DayOf(now) > DayOf(loan.dueDate) && loan.finePaidAmount >= fine)
                   && (outcome.Committed? <==> DayOf(now) > DayOf(loan.dueDate) && loan.finePaidAmount < fine)
                   && (outcome.Committed? ==>
                       && OnlyLoanChanges(db, outcome.db, l)
                       && outcome.db.loans[l]
                          == loan.(fineAmount := fine, finePaidAmount := fine, finePaidAt := Some(now))))
  {
    if OnLoan(db, l) {
      TwoPerLateDay(db.loans[l].dueDate, now);
    }
  }

  /** Each refusal of `renew_loan` has its exact cause. */
  lemma RenewingRule(db: Db, now: Time, l: Id)
    ensures var outcome := Perform(db, now, Renew(l));
            && (outcome == Refused(NotFound(ActiveLoanEntity)) <==> !OnLoan(db, l))
            && (OnLoan(db, l) ==>
                && var loan := db.loans[l];
                   var late, waited := DayOf(now) > DayOf(loan.dueDate), Waited(db, loan.bookId);
                   && (outcome == Refused(BusinessRule(OverdueNotRenewable)) <==> late)
                   && (outcome == Refused(BusinessRule(RenewalLimit)) <==> !late && loan.renewalCount >= 2)
                   && (outcome == Refused(BusinessRule(BookReserved)) <==>
                       !late && loan.renewalCount < 2 && waited)
                   && (outcome.Committed? <==> !late && loan.renewalCount < 2 && !waited)
                   && (outcome.Committed? ==>
                       && OnlyLoanChanges(db, outcome.db, l)
                       && outcome.db.loans[l] == loan.(dueDate := loan.dueDate + 7 * 86_400_000_000,
                                                       renewalCount := loan.renewalCount + 1)))
  {
    if OnLoan(db, l) {
      TwoPerLateDay(db.loans[l].dueDate, now);
    }
  }

  // Somebody has an active reservation of the book.
  predicate Waited(db: Db, book: Id) {
    exists r | r in db.reservations ::
      db.reservations[r].bookId == book && db.reservations[r].status == ReservationActive
  }

  /** A due date is accepted exactly on an active loan and after the loan date; without one, nothing changes. */
  lemma RedatingRule(db: Db, now: Time, l: Id, due: Option<Time>)
    ensures var outcome := Perform(db, now, Redate(l, due));
            && (outcome == Refused(NotFound(LoanEntity)) <==> l !in db.loans)
            && (outcome == Refused(BusinessRule(OnlyActiveLoansChange)) <==> l in db.loans && !OnLoan(db, l))
            && (outcome == Refused(BusinessRule(DueDateNotAfterLoanDate)) <==>
                OnLoan(db, l) && due.Some? && due.value <= db.loans[l].loanDate)
            && (outcome.Committed? <==> OnLoan(db, l) && (due.Some? ==> due.value > db.loans[l].loanDate))
            && (outcome.Committed? ==>
                && OnlyLoanChanges(db, outcome.db, l)
                && outcome.db.loans[l]
                   == db.loans[l].(dueDate := if due.Some? then due.value else db.loans[l].dueDate))
  {
  }

  // ---------- reservations ----------

  /** A reservation is accepted exactly for an active user, a shown book whose copies are all on loan, and no active
      reservation of this user for this book; other users' reservations do not matter. */
  lemma ReservingRule(db: Db, now: Time, r: Id, user: Id, book: Id)
    requires Sound(db)
    ensures var outcome := Perform(db, now, Reserve(r, user, book));
            && var ready := Registered(db, user) && OnShow(db, book) && LentOut(db, book);
            && (outcome == Refused(NotFound(UserEntity)) <==> !Registered(db, user))
            && (outcome == Refused(NotFound(BookEntity)) <==> Registered(db, user) && !OnShow(db, book))
            && (outcome == Refused(BusinessRule(BookStillAvailable)) <==>
                Registered(db, user) && OnShow(db, book) && !LentOut(db, book))
            && (outcome == Refused(BusinessRule(AlreadyReserved)) <==> ready && HasReserved(db, user, book))
            && (outcome == Refused(DuplicateKey) <==>
                ready && !HasReserved(db, user, book) && r in db.reservations)
            && (outcome.Committed? <==> ready && !HasReserved(db, user, book) && r !in db.reservations)
            && (outcome.Committed? ==>
                && OnlyReservationChanges(db, outcome.db, r)
                && var row := outcome.db.reservations[r];
                   && row.userId == user && row.bookId == book && row.status == ReservationActive
                   && row.createdAt == now && row.cancelledAt == None)
  {
    if book in db.books {
      assert db.books[book].totalCopies - db.books[book].availableCopies == |ActiveOfBook(db.loans, book)|;
    }
    HasReservedExactly(db, user, book);
  }

  predicate HasReserved(db: Db, user: Id, book: Id) {
    exists r | r in db.reservations :: ActiveFor(db.reservations[r], user, book)
  }

  predicate ActiveFor(row: Reservation, user: Id, book: Id) {
    row.userId == user && row.bookId == book && row.status == ReservationActive
  }

  lemma HasReservedExactly(db: Db, user: Id, book: Id)
    ensures HasReserved(db, user, book) <==> ActiveReservationsOf(db.reservations, user, book) != {}
  {
    if HasReserved(db, user, book) {
      var r :| r in db.reservations && ActiveFor(db.reservations[r], user, book);
      assert r in ActiveReservationsOf(db.reservations, user, book);
    }
    if r :| r in ActiveReservationsOf(db.reservations, user, book) {
      assert ActiveFor(db.reservations[r], user, book);
    }
  }

  /** Exactly an active reservation can be cancelled; it keeps everything but its status and its stamp. */
  lemma UnreservingRule(db: Db, now: Time, r: Id)
    ensures var outcome := Perform(db, now, Unreserve(r));
            && (outcome == Refused(NotFound(ReservationEntity)) <==> r !in db.reservations)
            && (r in db.reservations ==>
                && var row := db.reservations[r];
                   && (outcome == Refused(BusinessRule(OnlyActiveReservationsCancel)) <==>
                       row.status != ReservationActive)
                   && (outcome.Committed? <==> row.status == ReservationActive)
                   && (outcome.Committed? ==>
                       && OnlyReservationChanges(db, outcome.db, r)
                       && outcome.db.reservations[r]
                          == row.(status := ReservationCancelled, cancelledAt := Some(now))))
  {
  }
}
