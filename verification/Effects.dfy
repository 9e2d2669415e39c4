/** What a step of the library does besides the tables: the notices it sends, the cache entries it deletes, and how
    long an answer stays cached. */
module Effects {
  import opened Domain
  import opened Circulation
  import opened CacheKeys
  import opened Views
  import opened Notifications
  import opened DueLoans
  import opened Library
  import opened CacheCoherence
  import opened LoanStaleness
  import opened LoanListStaleness

  // ---------- notices ----------

  // The rows a committed call adds: who is told what about which loan or reservation, and when.
  function NoticesOf(op: Op, db: Db, now: Time): seq<Notification> {
    match op
    case Borrow(l, user, _) => [Notification(user, Some(l), None, LoanCreatedNotice, now)]
    case GiveBack(l) =>
      if l in db.loans then [Notification(db.loans[l].userId, Some(l), None, LoanReturnedNotice, now)] else []
    case Cancel(l) =>
      if l in db.loans then [Notification(db.loans[l].userId, Some(l), None, LoanCancelledNotice, now)] else []
    case Reserve(r, user, _) => [Notification(user, None, Some(r), ReservationCreatedNotice, now)]
    case Unreserve(r) =>
      if r in db.reservations
      then [Notification(db.reservations[r].userId, None, Some(r), ReservationCancelledNotice, now)] else []
    case _ => []
  }

  lemma PartiesStay(db: Db, now: Time, op: Op, after: Db)
    requires Perform(db, now, op) == Committed(after)
    ensures op.GiveBack? || op.Cancel? ==>
              op.loan in db.loans && op.loan in after.loans && after.loans[op.loan].userId == db.loans[op.loan].userId
    ensures op.Unreserve? ==>
              && op.reservation in db.reservations && op.reservation in after.reservations
              && after.reservations[op.reservation].userId == db.reservations[op.reservation].userId
  {
  }

  /** A refused call changes nothing at all; a committed one takes no time and adds exactly its notice: to the borrower
      of the loan or the owner of the reservation, as they were before the call. */
  lemma CallsTellTheirParty(w: World, op: Op)
    ensures Perform(w.db, w.now, op).Refused? ==> Transact(w, op) == w
    ensures Perform(w.db, w.now, op).Committed? ==>
              && Transact(w, op).db == Perform(w.db, w.now, op).db && Transact(w, op).now == w.now
              && Transact(w, op).rows == w.rows + NoticesOf(op, w.db, w.now)
  {
    if Perform(w.db, w.now, op).Committed? {
      PartiesStay(w.db, w.now, op, Perform(w.db, w.now, op).db);
      assert w.rows + [] == w.rows;
    }
  }

  /** The other steps: a read touches the cache only, the job the notifications only, and time the clock only. */
  lemma OtherStepsTouch(w: World, step: Step)
    ensures IsRead(step) ==> Next(w, step) == w.(cache := Next(w, step).cache)
    ensures step.RunDueJob? ==> Next(w, step) == w.(rows := JobRows(w.db, w.rows, w.now))
    ensures step.Wait? ==> Next(w, step) == w.(now := w.now + step.duration)
  {
  }

  // ---------- the lifetime of an answer ----------

  /** A read that finds nothing in the cache answers from the tables; a found answer then is served for 300 seconds if
      it is about books and 30 if it is about loans, strictly less; an exception is never cached. */
  lemma Lifetimes(w: World, read: Step, later: Time)
    requires IsRead(read) && Live(w.cache, KeyOf(read), w.now).None?
    ensures var after := Answered(w, read);
            && after.1 == Uncached(w, read)
            && (after.1.Err? ==> after.0 == w)
            && (after.1.Ok? ==>
                (Live(after.0.cache, KeyOf(read), later).Some? <==>
                 later < w.now + (if read.ReadBook? || read.ReadBooks? then 300_000_000 else 30_000_000)))
            && (forall key | key != KeyOf(read) :: Live(after.0.cache, key, later) == Live(w.cache, key, later))
  {
  }

  /** A read that finds something answers that, and leaves it to expire when it would have. */
  lemma HitsAreServed(w: World, read: Step)
    requires IsRead(read) && Live(w.cache, KeyOf(read), w.now).Some?
    ensures Answered(w, read) == (w, Ok(Live(w.cache, KeyOf(read), w.now).value))
  {
  }

  // ---------- deletions ----------

  predicate Deletes(cache: Store, op: Op, db: Db, key: string) {
    key in cache && key !in Invalidated(cache, op, db)
  }

  // The book and the loan a call is about, if any.
  function BookOf(op: Op, db: Db): Id {
    if op.EditBook? || op.RemoveBook? || op.Borrow? then op.book
    else if (op.GiveBack? || op.Cancel?) && op.loan in db.loans then db.loans[op.loan].bookId
    else ""
  }

  function LoanOf(op: Op): Id {
    if op.Borrow? || op.GiveBack? || op.Cancel? || op.Pay? || op.Redate? then op.loan else ""
  }

  lemma SurvivorsUnchanged(cache: Store, op: Op, db: Db, key: string)
    ensures key in Invalidated(cache, op, db) ==> key in cache && Invalidated(cache, op, db)[key] == cache[key]
  {
  }

  /** Which call deletes which cached book: exactly a change to the book, a loan or the end of a loan of it, and any
      change to any author. */
  lemma BooksDeletedExactly(cache: Store, op: Op, db: Db, b: Id)
    requires BookKey(b) in cache && LoanKnown(op, db)
    ensures Deletes(cache, op, db, BookKey(b)) <==>
            || op.EditAuthor? || op.RemoveAuthor?
            || ((op.EditBook? || op.RemoveBook? || op.Borrow?) && op.book == b)
            || ((op.GiveBack? || op.Cancel?) && db.loans[op.loan].bookId == b)
  {
    FamiliesApart(b, EVERYTHING, LoanOf(op), EVERY_LOAN, UserLoans("", 1, 1, None), SomeUser(op, db));
    OtherBooksKeptApart(op, db, b);
  }

  lemma OtherBooksKeptApart(op: Op, db: Db, b: Id)
    ensures (op.EditBook? || op.RemoveBook? || op.Borrow?) && BookKey(op.book) == BookKey(b) ==> op.book == b
    ensures (op.GiveBack? || op.Cancel?) && op.loan in db.loans && BookKey(db.loans[op.loan].bookId) == BookKey(b) ==>
              db.loans[op.loan].bookId == b
  {
    if op.EditBook? || op.RemoveBook? || op.Borrow? {
      KeysOfOneFamily(op.book, b);
    } else if (op.GiveBack? || op.Cancel?) && op.loan in db.loans {
      KeysOfOneFamily(db.loans[op.loan].bookId, b);
    }
  }

  /** Which call deletes the lists of books: exactly those that can change what some list shows. */
  lemma BookListsDeletedExactly(cache: Store, op: Op, db: Db, q: Query)
    requires ListKey(q) in cache && LoanKnown(op, db)
    ensures Deletes(cache, op, db, ListKey(q)) <==>
            || op.EditAuthor? || op.RemoveAuthor? || op.AddBook? || op.EditBook? || op.RemoveBook?
            || op.Borrow? || op.GiveBack? || op.Cancel?
  {
    FamiliesApart(BookOf(op, db), q, LoanOf(op), EVERY_LOAN, UserLoans("", 1, 1, None), SomeUser(op, db));
  }

  // After a return, a cancellation, a payment or a new due date committed, its loan is in the table.
  predicate AnyLoanKnown(op: Op, db: Db) {
    op.GiveBack? || op.Cancel? || op.Pay? || op.Redate? ==> op.loan in db.loans
  }

  /** Which call deletes a cached loan: exactly lending under its id, its return, its cancellation, a payment and a new
      due date; not a renewal. */
  lemma LoansDeletedExactly(cache: Store, op: Op, db: Db, l: Id)
    requires LoanKey(l) in cache && AnyLoanKnown(op, db)
    ensures Deletes(cache, op, db, LoanKey(l)) <==>
            (op.Borrow? || op.GiveBack? || op.Cancel? || op.Pay? || op.Redate?) && op.loan == l
  {
    FamiliesApart(BookOf(op, db), EVERYTHING, l, EVERY_LOAN, UserLoans("", 1, 1, None), SomeUser(op, db));
    if op.Borrow? || op.GiveBack? || op.Cancel? || op.Pay? || op.Redate? {
      KeysOfOneFamily(op.loan, l);
    }
  }

  /** Which call deletes the lists of loans: the same ones, for any loan. */
  lemma LoanListsDeletedExactly(cache: Store, op: Op, db: Db, l: LoanList)
    requires LoanListKey(l) in cache && AnyLoanKnown(op, db)
    ensures Deletes(cache, op, db, LoanListKey(l)) <==>
            op.Borrow? || op.GiveBack? || op.Cancel? || op.Pay? || op.Redate?
  {
    FamiliesApart(BookOf(op, db), EVERYTHING, LoanOf(op), l, UserLoans("", 1, 1, None), SomeUser(op, db));
  }

  // The user whose loan the call is about.
  function Party(op: Op, db: Db): Option<Id> {
    match op
    case Borrow(_, user, _) => Some(user)
    case GiveBack(l) => if l in db.loans then Some(db.loans[l].userId) else None
    case Cancel(l) => if l in db.loans then Some(db.loans[l].userId) else None
    case Pay(l) => if l in db.loans then Some(db.loans[l].userId) else None
    case Redate(l, _) => if l in db.loans then Some(db.loans[l].userId) else None
    case _ => None
  }

  /** And the pages of a user's loans: the same calls on a loan of that user, among ids without a colon. */
  lemma UserPagesDeletedExactly(cache: Store, op: Op, db: Db, p: UserLoans)
    requires UserLoansKey(p) in cache && AnyLoanKnown(op, db)
    requires NoColon(p.user) && (Party(op, db).Some? ==> NoColon(Party(op, db).value))
    ensures Deletes(cache, op, db, UserLoansKey(p)) <==> Party(op, db) == Some(p.user)
  {
    FamiliesApart(BookOf(op, db), EVERYTHING, LoanOf(op), EVERY_LOAN, p, "");
    LoanKeyForms(LoanOf(op), EVERY_LOAN, p);
    if Party(op, db).Some? {
      PrefixOfOwnPages(Party(op, db).value, p);
    }
  }

  lemma PrefixOfOwnPages(user: Id, p: UserLoans)
    requires NoColon(user) && NoColon(p.user)
    ensures HasPrefix(UserPrefix(user), UserLoansKey(p)) <==> user == p.user
  {
    LoanKeyForms("", EVERY_LOAN, p);
    if HasPrefix(UserPrefix(user), UserLoansKey(p)) {
      var n, key := |"loans:user:"|, UserLoansKey(p);
      var rest := key[|UserPrefix(user)|..];
      assert key == UserPrefix(user) + rest;
      assert key[n..] == user + ":" + rest;
      assert key[n..] == p.user + ":" + Paged(p.page, p.size, StatusText(p.status));
      FirstColonSplits(user, rest, p.user, Paged(p.page, p.size, StatusText(p.status)));
    }
  }
}
