/** The database transactions of the services: what each one checks, in which order, and what it commits.
    `Err` is a raised exception; the session is then rolled back, so nothing changes. */
module Circulation {
  import opened Domain
  import opened Fines

  const LOAN_DAYS: int := 14
  const MAX_ACTIVE_LOANS: int := 3
  const RENEWAL_DAYS: int := 7
  const MAX_RENEWALS: int := 2

  // ---------- queries ----------

  predicate UserVisible(db: Db, user: Id) {
    user in db.users && db.users[user]
  }

  predicate AuthorVisible(db: Db, author: Id) {
    author in db.authors && db.authors[author].active
  }

  // `BookRepository.find_by_id`: the book and its author are both active.
  predicate BookVisible(db: Db, book: Id) {
    book in db.books && db.books[book].active && AuthorVisible(db, db.books[book].authorId)
  }

  // `LoanRepository.get_book_for_update`: no condition on the author.
  predicate BookLockable(books: map<Id, Book>, book: Id) {
    book in books && books[book].active
  }

  // `LoanRepository.find_active_by_id_for_update`.
  predicate LoanActive(loans: map<Id, Loan>, loan: Id) {
    loan in loans && loans[loan].status.Active?
  }

  function ActiveLoans(loans: map<Id, Loan>): set<Id> {
    set l | l in loans && loans[l].status.Active?
  }

  function ActiveOfBook(loans: map<Id, Loan>, book: Id): set<Id> {
    set l | l in loans && loans[l].status.Active? && loans[l].bookId == book
  }

  function ActiveOfUser(loans: map<Id, Loan>, user: Id): set<Id> {
    set l | l in loans && loans[l].status.Active? && loans[l].userId == user
  }

  function ActiveReservationsOf(reservations: map<Id, Reservation>, user: Id, book: Id): set<Id> {
    set r | r in reservations && reservations[r].status.ReservationActive?
            && reservations[r].userId == user && reservations[r].bookId == book
  }

  predicate Reserved(reservations: map<Id, Reservation>, book: Id) {
    exists r | r in reservations :: reservations[r].bookId == book && reservations[r].status.ReservationActive?
  }

  predicate IsbnKnown(books: map<Id, Book>, isbn: string) {
    exists b | b in books :: books[b].isbn == isbn
  }

  // ---------- users and authors ----------

  function CreateUser(db: Db, id: Id): Outcome {
    if id in db.users then Refused(DuplicateKey)
    else Committed(db.(users := db.users[id := true]))
  }

  function DeleteUser(db: Db, id: Id): Outcome {
    if !UserVisible(db, id) then Refused(NotFound(UserEntity))
    else Committed(db.(users := db.users[id := false]))
  }

  function CreateAuthor(db: Db, id: Id, name: string, biography: Option<string>): Outcome {
    if id in db.authors then Refused(DuplicateKey)
    else Committed(db.(authors := db.authors[id := Author(name, biography, true)]))
  }

  // `name` is `None` when absent or null; an empty name is ignored too. `biography` is `None` when
  // absent and `Some(None)` when set to null.
  function UpdateAuthor(db: Db, id: Id, name: Option<string>, biography: Option<Option<string>>): Outcome {
    if !AuthorVisible(db, id) then Refused(NotFound(AuthorEntity))
    else
      var author := db.authors[id];
      var renamed := if name.Some? && name.value != "" then author.(name := name.value) else author;
      var edited := if biography.Some? then renamed.(biography := biography.value) else renamed;
      Committed(db.(authors := db.authors[id := edited]))
  }

  // Soft deletion of every book of an author.
  function Cascade(books: map<Id, Book>, author: Id): map<Id, Book> {
    map b | b in books :: if books[b].authorId == author then books[b].(active := false) else books[b]
  }

  function DeleteAuthor(db: Db, id: Id): Outcome {
    if !AuthorVisible(db, id) then Refused(NotFound(AuthorEntity))
    else Committed(db.(authors := db.authors[id := db.authors[id].(active := false)], books := Cascade(db.books, id)))
  }

  // ---------- books ----------

  function CreateBook(db: Db, now: Time, id: Id, title: string, isbn: string, category: string,
                      total: int, author: Id): Outcome {
    if IsbnKnown(db.books, isbn) then Refused(BusinessRule(IsbnTaken))
    else if !AuthorVisible(db, author) then Refused(NotFound(AuthorEntity))
    else if id in db.books then Refused(DuplicateKey)
    else
      var book := Book(title, isbn, category, total, total, author, now, true);
      Committed(db.(books := db.books[id := book], bookOrder := db.bookOrder + [id]))
  }

  function EditedBook(book: Book, title: Option<string>, category: Option<string>, total: Option<int>): Book {
    var titled := if title.Some? && title.value != "" then book.(title := title.value) else book;
    var sorted := if category.Some? && category.value != "" then titled.(category := category.value) else titled;
    if total.None? then sorted
    else
      sorted.(totalCopies := total.value,
              availableCopies := book.availableCopies + (total.value - book.totalCopies))
  }

  function UpdateBook(db: Db, id: Id, title: Option<string>, category: Option<string>, total: Option<int>): Outcome {
    if !BookVisible(db, id) then Refused(NotFound(BookEntity))
    else
      var borrowed := db.books[id].totalCopies - db.books[id].availableCopies;
      if total.Some? && total.value < borrowed then Refused(BusinessRule(TotalBelowBorrowed))
      else Committed(db.(books := db.books[id := EditedBook(db.books[id], title, category, total)]))
  }

  function DeleteBook(db: Db, id: Id): Outcome {
    if !BookVisible(db, id) then Refused(NotFound(BookEntity))
    else Committed(db.(books := db.books[id := db.books[id].(active := false)]))
  }

  // ---------- loans ----------

  function NewLoan(user: Id, book: Id, now: Time): Loan {
    Loan(user, book, now, now + LOAN_DAYS * DAY, None, None, Active, 0, None, 0, 0)
  }

  function CreateLoan(db: Db, now: Time, id: Id, user: Id, book: Id): Outcome {
    if !UserVisible(db, user) then Refused(NotFound(UserEntity))
    else if |ActiveOfUser(db.loans, user)| >= MAX_ACTIVE_LOANS then Refused(BusinessRule(LoanLimit))
    else if !BookLockable(db.books, book) then Refused(NotFound(BookEntity))
    else if db.books[book].availableCopies <= 0 then Refused(BusinessRule(BookUnavailable))
    else if id in db.loans then Refused(DuplicateKey)
    else
      Committed(db.(books := db.books[book := db.books[book].(availableCopies := db.books[book].availableCopies - 1)],
             loans := db.loans[id := NewLoan(user, book, now)],
             loanOrder := db.loanOrder + [id]))
  }

  function ReturnedLoan(loan: Loan, now: Time): Loan {
    loan.(status := Returned, returnedAt := Some(now), fineAmount := Amount(loan.dueDate, now))
  }

  function ReturnLoan(db: Db, now: Time, id: Id): Outcome {
    if !LoanActive(db.loans, id) then Refused(NotFound(ActiveLoanEntity))
    else
      var loan := db.loans[id];
      if FineUnpaid(loan, now) then Refused(FinePaymentRequired)
      else if !BookLockable(db.books, loan.bookId) then Refused(NotFound(BookEntity))
      else
        var book := db.books[loan.bookId];
        Committed(db.(books := db.books[loan.bookId := book.(availableCopies := book.availableCopies + 1)],
               loans := db.loans[id := ReturnedLoan(loan, now)]))
  }

  function CancelledLoan(loan: Loan, now: Time): Loan {
    loan.(status := Cancelled, cancelledAt := Some(now), fineAmount := 0)
  }

  function CancelLoan(db: Db, now: Time, id: Id): Outcome {
    if !LoanActive(db.loans, id) then Refused(NotFound(ActiveLoanEntity))
    else
      var loan := db.loans[id];
      if !BookLockable(db.books, loan.bookId) then Refused(NotFound(BookEntity))
      else
        var book := db.books[loan.bookId];
        Committed(db.(books := db.books[loan.bookId := book.(availableCopies := book.availableCopies + 1)],
               loans := db.loans[id := CancelledLoan(loan, now)]))
  }

  function PaidLoan(loan: Loan, now: Time): Loan {
    var fine := Amount(loan.dueDate, now);
    loan.(fineAmount := fine, finePaidAmount := fine, finePaidAt := Some(now))
  }

  function PayFine(db: Db, now: Time, id: Id): Outcome {
    if !LoanActive(db.loans, id) then Refused(NotFound(ActiveLoanEntity))
    else
      var loan := db.loans[id];
      if Amount(loan.dueDate, now) <= 0 then Refused(BusinessRule(NoFineDue))
      else if Owed(loan, now) <= 0 then Refused(BusinessRule(FineAlreadyPaid))
      else Committed(db.(loans := db.loans[id := PaidLoan(loan, now)]))
  }

  function RenewedLoan(loan: Loan): Loan {
    loan.(dueDate := loan.dueDate + RENEWAL_DAYS * DAY, renewalCount := loan.renewalCount + 1)
  }

  function RenewLoan(db: Db, now: Time, id: Id): Outcome {
    if !LoanActive(db.loans, id) then Refused(NotFound(ActiveLoanEntity))
    else
      var loan := db.loans[id];
      if DaysLate(loan.dueDate, now) > 0 then Refused(BusinessRule(OverdueNotRenewable))
      else if loan.renewalCount >= MAX_RENEWALS then Refused(BusinessRule(RenewalLimit))
      else if Reserved(db.reservations, loan.bookId) then Refused(BusinessRule(BookReserved))
      else Committed(db.(loans := db.loans[id := RenewedLoan(loan)]))
  }

  function UpdateLoan(db: Db, id: Id, due: Option<Time>): Outcome {
    if id !in db.loans then Refused(NotFound(LoanEntity))
    else
      var loan := db.loans[id];
      if !loan.status.Active? then Refused(BusinessRule(OnlyActiveLoansChange))
      else if due.None? then Committed(db)
      else if due.value <= loan.loanDate then Refused(BusinessRule(DueDateNotAfterLoanDate))
      else Committed(db.(loans := db.loans[id := loan.(dueDate := due.value)]))
  }

  // ---------- reservations ----------

  function CreateReservation(db: Db, now: Time, id: Id, user: Id, book: Id): Outcome {
    if !UserVisible(db, user) then Refused(NotFound(UserEntity))
    else if !BookVisible(db, book) then Refused(NotFound(BookEntity))
    else if db.books[book].availableCopies > 0 then Refused(BusinessRule(BookStillAvailable))
    else if ActiveReservationsOf(db.reservations, user, book) != {} then Refused(BusinessRule(AlreadyReserved))
    else if id in db.reservations then Refused(DuplicateKey)
    else Committed(db.(reservations := db.reservations[id := Reservation(user, book, ReservationActive, now, None)]))
  }

  function CancelReservation(db: Db, now: Time, id: Id): Outcome {
    if id !in db.reservations then Refused(NotFound(ReservationEntity))
    else if !db.reservations[id].status.ReservationActive? then Refused(BusinessRule(OnlyActiveReservationsCancel))
    else
      Committed(db.(reservations := db.reservations[id :=
               db.reservations[id].(status := ReservationCancelled, cancelledAt := Some(now))]))
  }

  // ---------- one transaction ----------

  datatype Op =
    | AddUser(user: Id)
    | RemoveUser(user: Id)
    | AddAuthor(author: Id, name: string, bio: Option<string>)
    | EditAuthor(author: Id, newName: Option<string>, newBio: Option<Option<string>>)
    | RemoveAuthor(author: Id)
    | AddBook(book: Id, title: string, isbn: string, category: string, total: int, author: Id)
    | EditBook(book: Id, newTitle: Option<string>, newCategory: Option<string>, newTotal: Option<int>)
    | RemoveBook(book: Id)
    | Borrow(loan: Id, user: Id, book: Id)
    | GiveBack(loan: Id)
    | Pay(loan: Id)
    | Cancel(loan: Id)
    | Renew(loan: Id)
    | Redate(loan: Id, due: Option<Time>)
    | Reserve(reservation: Id, user: Id, book: Id)
    | Unreserve(reservation: Id)

  function Perform(db: Db, now: Time, op: Op): Outcome {
    match op
    case AddUser(user) => CreateUser(db, user)
    case RemoveUser(user) => DeleteUser(db, user)
    case AddAuthor(author, name, bio) => CreateAuthor(db, author, name, bio)
    case EditAuthor(author, name, bio) => UpdateAuthor(db, author, name, bio)
    case RemoveAuthor(author) => DeleteAuthor(db, author)
    case AddBook(book, title, isbn, category, total, author) =>
      CreateBook(db, now, book, title, isbn, category, total, author)
    case EditBook(book, title, category, total) => UpdateBook(db, book, title, category, total)
    case RemoveBook(book) => DeleteBook(db, book)
    case Borrow(loan, user, book) => CreateLoan(db, now, loan, user, book)
    case GiveBack(loan) => ReturnLoan(db, now, loan)
    case Pay(loan) => PayFine(db, now, loan)
    case Cancel(loan) => CancelLoan(db, now, loan)
    case Renew(loan) => RenewLoan(db, now, loan)
    case Redate(loan, due) => UpdateLoan(db, loan, due)
    case Reserve(reservation, user, book) => CreateReservation(db, now, reservation, user, book)
    case Unreserve(reservation) => CancelReservation(db, now, reservation)
  }
}
