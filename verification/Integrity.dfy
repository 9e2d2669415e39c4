/** What every committed transaction keeps true of the tables, one family of facts per lemma. */
module Integrity {
  import opened Domain
  import opened Fines
  import opened Circulation

  // ---------- how the sets of active loans react to one write ----------

  function One(counted: bool): nat {
    if counted then 1 else 0
  }

  lemma GrowsForBook(loans: map<Id, Loan>, id: Id, loan: Loan, after: map<Id, Loan>, b: Id)
    requires id !in loans && loan.status.Active? && after == loans[id := loan]
    ensures |ActiveOfBook(after, b)| == |ActiveOfBook(loans, b)| + One(b == loan.bookId)
  {
    if b == loan.bookId {
      assert ActiveOfBook(after, b) == ActiveOfBook(loans, b) + {id};
    } else {
      assert ActiveOfBook(after, b) == ActiveOfBook(loans, b);
    }
  }

  lemma GrowsForUser(loans: map<Id, Loan>, id: Id, loan: Loan, after: map<Id, Loan>, u: Id)
    requires id !in loans && loan.status.Active? && after == loans[id := loan]
    ensures |ActiveOfUser(after, u)| == |ActiveOfUser(loans, u)| + One(u == loan.userId)
  {
    if u == loan.userId {
      assert ActiveOfUser(after, u) == ActiveOfUser(loans, u) + {id};
    } else {
      assert ActiveOfUser(after, u) == ActiveOfUser(loans, u);
    }
  }

  lemma ShrinksForBook(loans: map<Id, Loan>, id: Id, closed: Loan, after: map<Id, Loan>, b: Id)
    requires LoanActive(loans, id) && !closed.status.Active? && after == loans[id := closed]
    ensures |ActiveOfBook(loans, b)| == |ActiveOfBook(after, b)| + One(b == loans[id].bookId)
  {
    if b == loans[id].bookId {
      assert ActiveOfBook(loans, b) == ActiveOfBook(after, b) + {id};
    } else {
      assert ActiveOfBook(loans, b) == ActiveOfBook(after, b);
    }
  }

  lemma ShrinksForUser(loans: map<Id, Loan>, id: Id, closed: Loan, after: map<Id, Loan>, u: Id)
    requires LoanActive(loans, id) && !closed.status.Active? && after == loans[id := closed]
    ensures |ActiveOfUser(loans, u)| == |ActiveOfUser(after, u)| + One(u == loans[id].userId)
  {
    if u == loans[id].userId {
      assert ActiveOfUser(loans, u) == ActiveOfUser(after, u) + {id};
    } else {
      assert ActiveOfUser(loans, u) == ActiveOfUser(after, u);
    }
  }

  lemma ActiveSetsGrow(loans: map<Id, Loan>, id: Id, loan: Loan, after: map<Id, Loan>)
    requires id !in loans && loan.status.Active? && after == loans[id := loan]
    ensures forall b :: |ActiveOfBook(after, b)| == |ActiveOfBook(loans, b)| + One(b == loan.bookId)
    ensures forall u :: |ActiveOfUser(after, u)| == |ActiveOfUser(loans, u)| + One(u == loan.userId)
  {
    forall b { GrowsForBook(loans, id, loan, after, b); }
    forall u { GrowsForUser(loans, id, loan, after, u); }
  }

  lemma ActiveSetsShrink(loans: map<Id, Loan>, id: Id, closed: Loan, after: map<Id, Loan>)
    requires LoanActive(loans, id) && !closed.status.Active? && after == loans[id := closed]
    ensures forall b :: |ActiveOfBook(loans, b)| == |ActiveOfBook(after, b)| + One(b == loans[id].bookId)
    ensures forall u :: |ActiveOfUser(loans, u)| == |ActiveOfUser(after, u)| + One(u == loans[id].userId)
  {
    forall b { ShrinksForBook(loans, id, closed, after, b); }
    forall u { ShrinksForUser(loans, id, closed, after, u); }
  }

  predicate SameParties(loan: Loan, edited: Loan) {
    edited.status == loan.status && edited.bookId == loan.bookId && edited.userId == loan.userId
  }

  lemma ActiveSetsStay(loans: map<Id, Loan>, id: Id, edited: Loan, after: map<Id, Loan>)
    requires id in loans && SameParties(loans[id], edited) && after == loans[id := edited]
    ensures ActiveLoans(after) == ActiveLoans(loans)
    ensures forall b :: ActiveOfBook(after, b) == ActiveOfBook(loans, b)
    ensures forall u :: ActiveOfUser(after, u) == ActiveOfUser(loans, u)
  {
  }

  // ---------- references and visibility ----------

  ghost predicate LoansRefer(db: Db) {
    forall l | l in db.loans :: db.loans[l].bookId in db.books && db.loans[l].userId in db.users
  }

  ghost predicate BooksRefer(db: Db) {
    forall b | b in db.books :: db.books[b].authorId in db.authors
  }

  ghost predicate ReservationsRefer(db: Db) {
    forall r | r in db.reservations :: db.reservations[r].bookId in db.books
  }

  ghost predicate ReferencesHold(db: Db) {
    LoansRefer(db) && BooksRefer(db) && ReservationsRefer(db)
  }

  ghost predicate NoRepeats(order: seq<Id>) {
    forall i, j | 0 <= i < j < |order| :: order[i] != order[j]
  }

  ghost predicate BookOrderHolds(db: Db) {
    NoRepeats(db.bookOrder) && (forall b :: b in db.bookOrder <==> b in db.books)
  }

  ghost predicate LoanOrderHolds(db: Db) {
    NoRepeats(db.loanOrder) && (forall l :: l in db.loanOrder <==> l in db.loans)
  }

  ghost predicate AuthorsCoverBooks(db: Db) {
    forall b | b in db.books && db.books[b].active :: AuthorVisible(db, db.books[b].authorId)
  }

  ghost predicate IsbnsUnique(db: Db) {
    forall b, c | b in db.books && c in db.books && db.books[b].isbn == db.books[c].isbn :: b == c
  }

  lemma LoansReferKept(db: Db, now: Time, op: Op, after: Db)
    requires LoansRefer(db) && Perform(db, now, op) == Committed(after)
    ensures LoansRefer(after)
  {
  }

  lemma BooksReferKept(db: Db, now: Time, op: Op, after: Db)
    requires BooksRefer(db) && Perform(db, now, op) == Committed(after)
    ensures BooksRefer(after)
  {
  }

  lemma ReservationsReferKept(db: Db, now: Time, op: Op, after: Db)
    requires ReservationsRefer(db) && Perform(db, now, op) == Committed(after)
    ensures ReservationsRefer(after)
  {
  }

  lemma BookOrderGrows(db: Db, now: Time, op: Op, after: Db)
    requires Perform(db, now, op) == Committed(after)
    ensures if op.AddBook?
            then op.book !in db.books && after.bookOrder == db.bookOrder + [op.book]
                 && after.books.Keys == db.books.Keys + {op.book}
            else after.bookOrder == db.bookOrder && after.books.Keys == db.books.Keys
  {
  }

  lemma BookOrderKept(db: Db, now: Time, op: Op, after: Db)
    requires BookOrderHolds(db) && Perform(db, now, op) == Committed(after)
    ensures BookOrderHolds(after)
  {
    BookOrderGrows(db, now, op, after);
  }

  lemma LoanOrderKept(db: Db, now: Time, op: Op, after: Db)
    requires LoanOrderHolds(db) && Perform(db, now, op) == Committed(after)
    ensures LoanOrderHolds(after)
  {
  }

  predicate CatalogueOp(op: Op) {
    op.AddAuthor? || op.EditAuthor? || op.RemoveAuthor? || op.AddBook? || op.EditBook? || op.RemoveBook?
  }

  lemma OthersKeepCatalogue(db: Db, now: Time, op: Op, after: Db, b: Id)
    requires Perform(db, now, op) == Committed(after) && !CatalogueOp(op) && b in after.books
    ensures after.authors == db.authors && b in db.books
    ensures after.books[b].active == db.books[b].active && after.books[b].authorId == db.books[b].authorId
  {
  }

  lemma CatalogueCoversBook(db: Db, now: Time, op: Op, after: Db, b: Id)
    requires CatalogueOp(op) && BooksRefer(db) && AuthorsCoverBooks(db) && Perform(db, now, op) == Committed(after)
    requires b in after.books && after.books[b].active
    ensures AuthorVisible(after, after.books[b].authorId)
  {
  }

  lemma AuthorCoversBook(db: Db, now: Time, op: Op, after: Db, b: Id)
    requires BooksRefer(db) && AuthorsCoverBooks(db) && Perform(db, now, op) == Committed(after)
    requires b in after.books && after.books[b].active
    ensures AuthorVisible(after, after.books[b].authorId)
  {
    if CatalogueOp(op) {
      CatalogueCoversBook(db, now, op, after, b);
    } else {
      OthersKeepCatalogue(db, now, op, after, b);
    }
  }

  lemma AuthorsCoverBooksKept(db: Db, now: Time, op: Op, after: Db)
    requires BooksRefer(db) && AuthorsCoverBooks(db) && Perform(db, now, op) == Committed(after)
    ensures AuthorsCoverBooks(after)
  {
    forall b | b in after.books && after.books[b].active { AuthorCoversBook(db, now, op, after, b); }
  }

  lemma IsbnOrigin(db: Db, now: Time, op: Op, after: Db, b: Id)
    requires Perform(db, now, op) == Committed(after) && b in after.books
    ensures if b in db.books then after.books[b].isbn == db.books[b].isbn
            else op.AddBook? && b == op.book && !IsbnKnown(db.books, after.books[b].isbn)
  {
  }

  lemma IsbnsUniqueKept(db: Db, now: Time, op: Op, after: Db)
    requires IsbnsUnique(db) && Perform(db, now, op) == Committed(after)
    ensures IsbnsUnique(after)
  {
    forall b | b in after.books { IsbnOrigin(db, now, op, after, b); }
  }

  // ---------- copies ----------

  ghost predicate CopiesConserved(books: map<Id, Book>, loans: map<Id, Loan>) {
    forall b | b in books :: books[b].totalCopies - books[b].availableCopies == |ActiveOfBook(loans, b)|
  }

  // Only a book nobody borrows can show a negative stock (it was created with one).
  ghost predicate NegativeStockUnborrowed(books: map<Id, Book>, loans: map<Id, Loan>) {
    forall b | b in books && books[b].availableCopies < 0 :: |ActiveOfBook(loans, b)| == 0
  }

  ghost predicate StockHolds(books: map<Id, Book>, loans: map<Id, Loan>) {
    CopiesConserved(books, loans) && NegativeStockUnborrowed(books, loans)
  }

  ghost predicate LimitHolds(loans: map<Id, Loan>) {
    forall u :: |ActiveOfUser(loans, u)| <= MAX_ACTIVE_LOANS
  }

  lemma AfterBorrow(books: map<Id, Book>, loans: map<Id, Loan>, id: Id, loan: Loan,
                    books': map<Id, Book>, loans': map<Id, Loan>)
    requires StockHolds(books, loans) && id !in loans && loan.status.Active?
    requires loan.bookId in books && books[loan.bookId].availableCopies > 0
    requires var book := books[loan.bookId];
             books' == books[loan.bookId := book.(availableCopies := book.availableCopies - 1)]
    requires loans' == loans[id := loan]
    ensures StockHolds(books', loans')
    ensures LimitHolds(loans) && |ActiveOfUser(loans, loan.userId)| < MAX_ACTIVE_LOANS ==> LimitHolds(loans')
  {
    ActiveSetsGrow(loans, id, loan, loans');
  }

  lemma AfterClosing(books: map<Id, Book>, loans: map<Id, Loan>, id: Id, closed: Loan,
                     books': map<Id, Book>, loans': map<Id, Loan>)
    requires StockHolds(books, loans) && LoanActive(loans, id) && !closed.status.Active?
    requires var b := loans[id].bookId;
             b in books && books' == books[b := books[b].(availableCopies := books[b].availableCopies + 1)]
    requires loans' == loans[id := closed]
    ensures StockHolds(books', loans')
    ensures LimitHolds(loans) ==> LimitHolds(loans')
  {
    ActiveSetsShrink(loans, id, closed, loans');
  }

  lemma AfterEdit(books: map<Id, Book>, loans: map<Id, Loan>, id: Id, edited: Loan, loans': map<Id, Loan>)
    requires StockHolds(books, loans) && id in loans && SameParties(loans[id], edited)
    requires loans' == loans[id := edited]
    ensures StockHolds(books, loans')
    ensures LimitHolds(loans) ==> LimitHolds(loans')
  {
    ActiveSetsStay(loans, id, edited, loans');
  }

  // Writes to books that leave every total, every stock and every loan alone.
  lemma AfterRetitling(books: map<Id, Book>, loans: map<Id, Loan>, books': map<Id, Book>)
    requires StockHolds(books, loans) && books'.Keys == books.Keys
    requires forall b | b in books' :: books'[b].totalCopies == books[b].totalCopies
                                       && books'[b].availableCopies == books[b].availableCopies
    ensures StockHolds(books', loans)
  {
  }

  lemma AfterRestock(books: map<Id, Book>, loans: map<Id, Loan>, id: Id, book: Book, books': map<Id, Book>)
    requires StockHolds(books, loans) && id in books && books' == books[id := book]
    requires book.totalCopies - book.availableCopies == books[id].totalCopies - books[id].availableCopies
    requires book.availableCopies >= 0 || book.availableCopies == books[id].availableCopies
    ensures StockHolds(books', loans)
  {
  }

  lemma AfterArrival(books: map<Id, Book>, loans: map<Id, Loan>, id: Id, book: Book, books': map<Id, Book>)
    requires StockHolds(books, loans) && book.totalCopies == book.availableCopies && books' == books[id := book]
    requires forall l | l in loans :: loans[l].bookId != id
    ensures StockHolds(books', loans)
  {
    assert ActiveOfBook(loans, id) == {};
  }

  lemma CopiesKeptByBookWrites(db: Db, now: Time, op: Op, after: Db)
    requires op.AddBook? || op.EditBook? || op.RemoveBook? || op.RemoveAuthor?
    requires ReferencesHold(db) && StockHolds(db.books, db.loans) && Perform(db, now, op) == Committed(after)
    ensures StockHolds(after.books, after.loans) && after.loans == db.loans
  {
    match op {
      case AddBook(book, _, _, _, _, _) => AfterArrival(db.books, db.loans, book, after.books[book], after.books);
      case EditBook(book, _, _, _) => AfterRestock(db.books, db.loans, book, after.books[book], after.books);
      case RemoveBook(_) => AfterRetitling(db.books, db.loans, after.books);
      case RemoveAuthor(_) => AfterRetitling(db.books, db.loans, after.books);
    }
  }

  lemma CopiesKeptByCirculation(db: Db, now: Time, op: Op, after: Db)
    requires op.Borrow? || op.GiveBack? || op.Cancel?
    requires LoansRefer(db) && StockHolds(db.books, db.loans) && Perform(db, now, op) == Committed(after)
    ensures StockHolds(after.books, after.loans)
    ensures LimitHolds(db.loans) ==> LimitHolds(after.loans)
  {
    if op.Borrow? {
      AfterBorrow(db.books, db.loans, op.loan, NewLoan(op.user, op.book, now), after.books, after.loans);
    } else {
      AfterClosing(db.books, db.loans, op.loan, after.loans[op.loan], after.books, after.loans);
    }
  }

  lemma CopiesKeptByLoanEdits(db: Db, now: Time, op: Op, after: Db)
    requires op.Pay? || op.Renew? || op.Redate?
    requires StockHolds(db.books, db.loans) && Perform(db, now, op) == Committed(after)
    ensures StockHolds(after.books, after.loans)
    ensures LimitHolds(db.loans) ==> LimitHolds(after.loans)
  {
    AfterEdit(db.books, db.loans, op.loan, after.loans[op.loan], after.loans);
  }

  lemma CopiesKept(db: Db, now: Time, op: Op, after: Db)
    requires ReferencesHold(db) && StockHolds(db.books, db.loans) && Perform(db, now, op) == Committed(after)
    ensures StockHolds(after.books, after.loans)
    ensures LimitHolds(db.loans) ==> LimitHolds(after.loans)
  {
    if op.AddBook? || op.EditBook? || op.RemoveBook? || op.RemoveAuthor? {
      CopiesKeptByBookWrites(db, now, op, after);
    } else if op.Borrow? || op.GiveBack? || op.Cancel? {
      CopiesKeptByCirculation(db, now, op, after);
    } else if op.Pay? || op.Renew? || op.Redate? {
      CopiesKeptByLoanEdits(db, now, op, after);
    } else {
      assert after.books == db.books && after.loans == db.loans;
    }
  }

  // ---------- the fine ledger ----------

  ghost predicate LedgerHolds(loan: Loan) {
    && loan.dueDate > loan.loanDate
    && 0 <= loan.renewalCount <= MAX_RENEWALS
    && loan.finePaidAmount >= 0
    && (loan.finePaidAmount > 0 <==> loan.finePaidAt.Some?)
    && (loan.returnedAt.Some? <==> loan.status.Returned?)
    && (loan.cancelledAt.Some? <==> loan.status.Cancelled?)
    && match loan.status
       case Active => loan.fineAmount == loan.finePaidAmount
       case Returned =>
         loan.finePaidAmount >= loan.fineAmount == DAILY_FINE * DaysLate(loan.dueDate, loan.returnedAt.value)
       case Cancelled => loan.fineAmount == 0
  }

  ghost predicate LedgersHold(db: Db) {
    forall l | l in db.loans :: LedgerHolds(db.loans[l])
  }

  lemma LedgerKept(db: Db, now: Time, op: Op, after: Db, l: Id)
    requires l in db.loans ==> LedgerHolds(db.loans[l])
    requires Perform(db, now, op) == Committed(after) && l in after.loans
    ensures LedgerHolds(after.loans[l])
  {
    if l in db.loans {
      DaysLateIsDateDistance(db.loans[l].dueDate, now);
    }
  }

  lemma LedgersKept(db: Db, now: Time, op: Op, after: Db)
    requires LedgersHold(db) && Perform(db, now, op) == Committed(after)
    ensures LedgersHold(after)
  {
    forall l | l in after.loans { LedgerKept(db, now, op, after, l); }
  }

  // ---------- reservations ----------

  ghost predicate ReservationsUnique(db: Db) {
    forall r, s | r in db.reservations && s in db.reservations
      && db.reservations[r].status.ReservationActive? && db.reservations[s].status.ReservationActive?
      && db.reservations[r].userId == db.reservations[s].userId
      && db.reservations[r].bookId == db.reservations[s].bookId :: r == s
  }

  lemma UniqueAfterReserving(db: Db, id: Id, reservation: Reservation)
    requires ReservationsUnique(db)
    requires ActiveReservationsOf(db.reservations, reservation.userId, reservation.bookId) == {}
    ensures ReservationsUnique(db.(reservations := db.reservations[id := reservation]))
  {
    forall r | r in db.reservations && db.reservations[r].userId == reservation.userId
               && db.reservations[r].bookId == reservation.bookId
      ensures !db.reservations[r].status.ReservationActive?
    {
      assert r !in ActiveReservationsOf(db.reservations, reservation.userId, reservation.bookId);
    }
  }

  lemma ReservationsUniqueKept(db: Db, now: Time, op: Op, after: Db)
    requires ReservationsUnique(db) && Perform(db, now, op) == Committed(after)
    ensures ReservationsUnique(after)
  {
    if op.Reserve? {
      UniqueAfterReserving(db, op.reservation, after.reservations[op.reservation]);
    } else if !op.Unreserve? {
      assert after.reservations == db.reservations;
    }
  }

  // ---------- all of it ----------

  // Everything but the borrowing limit.
  ghost predicate TablesHold(db: Db) {
    && ReferencesHold(db) && BookOrderHolds(db) && LoanOrderHolds(db) && AuthorsCoverBooks(db) && IsbnsUnique(db)
    && StockHolds(db.books, db.loans) && LedgersHold(db) && ReservationsUnique(db)
  }

  ghost predicate Sound(db: Db) {
    TablesHold(db) && LimitHolds(db.loans)
  }

  lemma SoundInitially()
    ensures Sound(EMPTY_DB)
  {
    assert forall u :: ActiveOfUser(EMPTY_DB.loans, u) == {};
  }

  lemma TablesKept(db: Db, now: Time, op: Op, after: Db)
    requires TablesHold(db) && Perform(db, now, op) == Committed(after)
    ensures TablesHold(after)
    ensures LimitHolds(db.loans) ==> LimitHolds(after.loans)
  {
    LoansReferKept(db, now, op, after);
    BooksReferKept(db, now, op, after);
    ReservationsReferKept(db, now, op, after);
    BookOrderKept(db, now, op, after);
    LoanOrderKept(db, now, op, after);
    AuthorsCoverBooksKept(db, now, op, after);
    IsbnsUniqueKept(db, now, op, after);
    CopiesKept(db, now, op, after);
    LedgersKept(db, now, op, after);
    ReservationsUniqueKept(db, now, op, after);
  }

  lemma {:induction false} SoundKept(db: Db, now: Time, op: Op, after: Db)
    requires Sound(db) && Perform(db, now, op) == Committed(after)
    ensures Sound(after)
  {
    TablesKept(db, now, op, after);
  }
}
