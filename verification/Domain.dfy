/** The rows of the library's tables, the errors its services raise, and its clock. */
module Domain {

  type Id = string

  // Naive UTC instants, counted in microseconds.
  type Time = int

  const SECOND: int := 1_000_000
  const DAY: int := 86_400_000_000

  // The calendar day of an instant (`datetime.date()`); `/` floors here because the divisor is positive.
  function DayOf(t: Time): int {
    t / DAY
  }

  datatype Option<+T> = None | Some(value: T)

  datatype Entity = UserEntity | AuthorEntity | BookEntity | LoanEntity | ActiveLoanEntity | ReservationEntity

  datatype Rule =
    | IsbnTaken | TotalBelowBorrowed
    | LoanLimit | BookUnavailable | NoFineDue | FineAlreadyPaid
    | OnlyActiveLoansChange | DueDateNotAfterLoanDate
    | OverdueNotRenewable | RenewalLimit | BookReserved
    | BookStillAvailable | AlreadyReserved | OnlyActiveReservationsCancel

  // `DuplicateKey` is the database refusing a primary key that is already in use; `MultipleRows` is a query
  // for one row or none that found two.
  datatype Error =
    | NotFound(entity: Entity) | BusinessRule(rule: Rule) | FinePaymentRequired | DuplicateKey | MultipleRows

  datatype Result<+T> = Ok(value: T) | Err(error: Error)

  datatype Author = Author(name: string, biography: Option<string>, active: bool)

  datatype Book = Book(
    title: string, isbn: string, category: string,
    totalCopies: int, availableCopies: int,
    authorId: Id, createdAt: Time, active: bool)

  datatype LoanStatus = Active | Returned | Cancelled

  // Money is counted in whole units: every fine is a multiple of the daily amount.
  datatype Loan = Loan(
    userId: Id, bookId: Id,
    loanDate: Time, dueDate: Time, returnedAt: Option<Time>, cancelledAt: Option<Time>,
    status: LoanStatus,
    fineAmount: int, finePaidAt: Option<Time>, finePaidAmount: int,
    renewalCount: int)

  datatype ReservationStatus = ReservationActive | ReservationCancelled | ReservationFulfilled

  datatype Reservation = Reservation(
    userId: Id, bookId: Id, status: ReservationStatus, createdAt: Time, cancelledAt: Option<Time>)

  // `users` maps a user to its `is_active` flag. The two orders are the row orders in which
  // unordered queries deliver books and loans.
  datatype Db = Db(
    users: map<Id, bool>,
    authors: map<Id, Author>,
    books: map<Id, Book>, bookOrder: seq<Id>,
    loans: map<Id, Loan>, loanOrder: seq<Id>,
    reservations: map<Id, Reservation>)

  // How a transaction ends: its new database, or the exception that rolled it back.
  datatype Outcome = Committed(db: Db) | Refused(error: Error)

  const EMPTY_DB := Db(map[], map[], map[], [], map[], [], map[])
}
