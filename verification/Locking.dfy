/** Loan transactions interleaved at their row locks: any number of create, return, cancel, pay and
    renew calls, each split where it waits for a row and where it commits. */
module Locking {
  import opened Domain
  import opened Fines
  import opened Circulation

  datatype Task =
    | BorrowTask(user: Id, book: Id)
    | ReturnTask(loan: Id)
    | CancelTask(loan: Id)
    | PayTask(loan: Id)
    | RenewTask(loan: Id)

  // How far a transaction got. Rows and times are what it read after it had the lock; `Done` has
  // released every lock.
  datatype Phase =
    | Start
    | Checked                                          // user and limit checked without any lock
    | LoanHeld(row: Loan, now: Time)                   // loan row locked, book row still needed
    | BookHeld(stock: int, now: Time)                  // create_loan before its commit
    | BothHeld(row: Loan, stock: int, now: Time)       // return_loan or cancel_loan before its commit
    | LoanReady(row: Loan, now: Time)                  // pay_fine or renew_loan before its commit
    | Done(committed: bool)

  datatype Tx = Tx(task: Task, phase: Phase)

  datatype Commit = Commit(op: Op, at: Time)

  // `log` lists the committed transactions in commit order.
  datatype Sys = Sys(db: Db, txs: map<nat, Tx>, log: seq<Commit>)

  // ---------- locks ----------

  predicate HoldsLoan(tx: Tx, loan: Id) {
    (tx.phase.LoanHeld? || tx.phase.BothHeld? || tx.phase.LoanReady?) && !tx.task.BorrowTask? && tx.task.loan == loan
  }

  predicate HoldsBook(tx: Tx, book: Id) {
    || (tx.phase.BookHeld? && tx.task.BorrowTask? && tx.task.book == book)
    || (tx.phase.BothHeld? && tx.phase.row.bookId == book)
  }

  predicate LoanFree(s: Sys, t: nat, loan: Id) {
    forall u | u in s.txs && u != t :: !HoldsLoan(s.txs[u], loan)
  }

  predicate BookFree(s: Sys, t: nat, book: Id) {
    forall u | u in s.txs && u != t :: !HoldsBook(s.txs[u], book)
  }

  // A transaction waits exactly while another one holds the row it needs next.
  predicate CanStep(s: Sys, t: nat) {
    && t in s.txs
    && var tx := s.txs[t];
       match tx.phase
       case Start => tx.task.BorrowTask? || LoanFree(s, t, tx.task.loan)
       case Checked => tx.task.BorrowTask? && BookFree(s, t, tx.task.book)
       case LoanHeld(row, _) => BookFree(s, t, row.bookId)
       case Done(_) => false
       case _ => true
  }

  // ---------- one step ----------

  function Started(db: Db, task: Task, now: Time): Phase {
    match task
    case BorrowTask(user, _) =>
      if UserVisible(db, user) && |ActiveOfUser(db.loans, user)| < MAX_ACTIVE_LOANS then Checked else Done(false)
    case ReturnTask(loan) =>
      if LoanActive(db.loans, loan) && !FineUnpaid(db.loans[loan], now) then LoanHeld(db.loans[loan], now)
      else Done(false)
    case CancelTask(loan) =>
      if LoanActive(db.loans, loan) then LoanHeld(db.loans[loan], now) else Done(false)
    case PayTask(loan) =>
      if LoanActive(db.loans, loan) && Amount(db.loans[loan].dueDate, now) > 0 && Owed(db.loans[loan], now) > 0
      then LoanReady(db.loans[loan], now) else Done(false)
    case RenewTask(loan) =>
      if LoanActive(db.loans, loan) && DaysLate(db.loans[loan].dueDate, now) <= 0
         && db.loans[loan].renewalCount < MAX_RENEWALS && !Reserved(db.reservations, db.loans[loan].bookId)
      then LoanReady(db.loans[loan], now) else Done(false)
  }

  // The phase after a step that does not commit.
  function Advanced(db: Db, tx: Tx, now: Time): Phase {
    match tx.phase
    case Start => Started(db, tx.task, now)
    case Checked =>
      if tx.task.BorrowTask? && BookLockable(db.books, tx.task.book) && db.books[tx.task.book].availableCopies > 0
      then BookHeld(db.books[tx.task.book].availableCopies, now) else Done(false)
    case LoanHeld(row, taken) =>
      // return_loan keeps the instant it used for the fine; cancel_loan takes one now.
      if BookLockable(db.books, row.bookId)
      then BothHeld(row, db.books[row.bookId].availableCopies, if tx.task.ReturnTask? then taken else now)
      else Done(false)
    case _ => tx.phase
  }

  predicate Committing(tx: Tx) {
    || (tx.phase.BookHeld? && tx.task.BorrowTask?)
    || (tx.phase.BothHeld? && (tx.task.ReturnTask? || tx.task.CancelTask?))
    || (tx.phase.LoanReady? && (tx.task.PayTask? || tx.task.RenewTask?))
  }

  // The service call a transaction makes; `newId` is the key a new loan gets.
  function OpOf(task: Task, newId: Id): Op {
    match task
    case BorrowTask(user, book) => Borrow(newId, user, book)
    case ReturnTask(loan) => GiveBack(loan)
    case CancelTask(loan) => Cancel(loan)
    case PayTask(loan) => Pay(loan)
    case RenewTask(loan) => Renew(loan)
  }

  function WithStock(db: Db, book: Id, stock: int): map<Id, Book> {
    if book in db.books then db.books[book := db.books[book].(availableCopies := stock)] else db.books
  }

  function WithLoan(db: Db, id: Id, row: Loan): map<Id, Loan> {
    db.loans[id := row]
  }

  // What a commit writes: columns computed from the values read under the locks, over the rows as they are now.
  function Written(db: Db, tx: Tx, newId: Id): Db
    requires Committing(tx)
  {
    var now := tx.phase.now;
    match tx.task
    case BorrowTask(user, book) =>
      db.(books := WithStock(db, book, tx.phase.stock - 1),
          loans := WithLoan(db, newId, NewLoan(user, book, now)),
          loanOrder := db.loanOrder + [newId])
    case ReturnTask(loan) =>
      var row := if loan in db.loans then db.loans[loan] else tx.phase.row;
      db.(books := WithStock(db, tx.phase.row.bookId, tx.phase.stock + 1),
          loans := WithLoan(db, loan, row.(status := Returned, returnedAt := Some(now),
                                           fineAmount := Amount(tx.phase.row.dueDate, now))))
    case CancelTask(loan) =>
      var row := if loan in db.loans then db.loans[loan] else tx.phase.row;
      db.(books := WithStock(db, tx.phase.row.bookId, tx.phase.stock + 1),
          loans := WithLoan(db, loan, row.(status := Cancelled, cancelledAt := Some(now), fineAmount := 0)))
    case PayTask(loan) =>
      var row := if loan in db.loans then db.loans[loan] else tx.phase.row;
      var fine := Amount(tx.phase.row.dueDate, now);
      db.(loans := WithLoan(db, loan, row.(fineAmount := fine, finePaidAmount := fine, finePaidAt := Some(now))))
    case RenewTask(loan) =>
      var row := if loan in db.loans then db.loans[loan] else tx.phase.row;
      db.(loans := WithLoan(db, loan, row.(dueDate := tx.phase.row.dueDate + RENEWAL_DAYS * DAY,
                                           renewalCount := tx.phase.row.renewalCount + 1)))
  }

  predicate KeyTaken(db: Db, tx: Tx, newId: Id) {
    tx.task.BorrowTask? && newId in db.loans
  }

  // One step of transaction `t` with the clock at `now`.
  function Stepped(s: Sys, t: nat, now: Time, newId: Id): Sys
    requires t in s.txs
  {
    var tx := s.txs[t];
    if !Committing(tx) then s.(txs := s.txs[t := tx.(phase := Advanced(s.db, tx, now))])
    else if KeyTaken(s.db, tx, newId) then s.(txs := s.txs[t := tx.(phase := Done(false))])
    else
      Sys(Written(s.db, tx, newId), s.txs[t := tx.(phase := Done(true))],
          s.log + [Commit(OpOf(tx.task, newId), tx.phase.now)])
  }

  // ---------- schedules ----------

  datatype Move = Move(t: nat, now: Time, newId: Id)

  function Exec(s: Sys, moves: seq<Move>): Sys {
    if moves == [] then s
    else
      var before := Exec(s, moves[..|moves| - 1]);
      var m := moves[|moves| - 1];
      if m.t in before.txs then Stepped(before, m.t, m.now, m.newId) else before
  }

  // Every move is one the locks allowed at its time.
  predicate Schedulable(s: Sys, moves: seq<Move>) {
    moves != [] ==>
      && Schedulable(s, moves[..|moves| - 1])
      && CanStep(Exec(s, moves[..|moves| - 1]), moves[|moves| - 1].t)
  }
}
