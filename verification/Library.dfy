/** The whole system as a value: clock, database, cache and notifications, and the serial steps on it. */
module Library {
  import opened Domain
  import opened Circulation
  import opened CacheKeys
  import opened Views
  import opened Notifications
  import opened Events
  import opened DueLoans
  import opened Listings

  const BOOK_TTL: int := 300 * SECOND
  const LOAN_TTL: int := 30 * SECOND

  datatype Entry = Entry(value: Answer, expiresAt: Time)

  type Store = map<string, Entry>

  datatype World = World(now: Time, db: Db, cache: Store, rows: seq<Notification>)

  // ---------- the cache ----------

  function Live(cache: Store, key: string, now: Time): Option<Answer> {
    if key in cache && now < cache[key].expiresAt then Some(cache[key].value) else None
  }

  function Stored(cache: Store, key: string, value: Answer, now: Time, ttl: int): Store {
    cache[key := Entry(Json(value), now + ttl)]
  }

  function WithoutPrefix(cache: Store, prefix: string): Store {
    map k | k in cache && !HasPrefix(prefix, k) :: cache[k]
  }

  function WithoutBook(cache: Store, book: Id): Store {
    WithoutPrefix(cache - {BookKey(book)}, "books:list")
  }

  function WithoutBooks(cache: Store): Store {
    WithoutPrefix(WithoutPrefix(cache, "book:"), "books:list")
  }

  // `_invalidate_loan_cache`.
  function WithoutLoan(cache: Store, user: Id, loan: Id): Store {
    WithoutPrefix(WithoutPrefix(cache - {LoanKey(loan)}, "loans:list"), UserPrefix(user))
  }

  // What the service deletes after the transaction `op` committed; `db` is the state after it.
  function Invalidated(cache: Store, op: Op, db: Db): Store {
    match op
    case EditAuthor(_, _, _) => WithoutBooks(cache)
    case RemoveAuthor(_) => WithoutBooks(cache)
    case AddBook(_, _, _, _, _, _) => WithoutPrefix(cache, "books:list")
    case EditBook(book, _, _, _) => WithoutBook(cache, book)
    case RemoveBook(book) => WithoutBook(cache, book)
    case Borrow(loan, user, book) => WithoutLoan(WithoutBook(cache, book), user, loan)
    case GiveBack(loan) =>
      if loan in db.loans then WithoutLoan(WithoutBook(cache, db.loans[loan].bookId), db.loans[loan].userId, loan)
      else cache
    case Cancel(loan) =>
      if loan in db.loans then WithoutLoan(WithoutBook(cache, db.loans[loan].bookId), db.loans[loan].userId, loan)
      else cache
    case Pay(loan) => if loan in db.loans then WithoutLoan(cache, db.loans[loan].userId, loan) else cache
    case Redate(loan, _) => if loan in db.loans then WithoutLoan(cache, db.loans[loan].userId, loan) else cache
    case Renew(_) => cache
    case AddUser(_) => cache
    case RemoveUser(_) => cache
    case AddAuthor(_, _, _) => cache
    case Reserve(_, _, _) => cache
    case Unreserve(_) => cache
  }

  // ---------- events ----------

  // The event the service publishes after `op` committed; `db` is the state after it.
  function Published(op: Op, db: Db): Option<Event> {
    match op
    case Borrow(loan, user, _) => Some(Event(LoanCreatedEvent, loan, user))
    case GiveBack(loan) =>
      if loan in db.loans then Some(Event(LoanReturnedEvent, loan, db.loans[loan].userId)) else None
    case Cancel(loan) =>
      if loan in db.loans then Some(Event(LoanCancelledEvent, loan, db.loans[loan].userId)) else None
    case Reserve(reservation, user, _) => Some(Event(ReservationCreatedEvent, reservation, user))
    case Unreserve(reservation) =>
      if reservation in db.reservations
      then Some(Event(ReservationCancelledEvent, reservation, db.reservations[reservation].userId)) else None
    case _ => None
  }

  function Notified(rows: seq<Notification>, event: Option<Event>, now: Time): seq<Notification> {
    if event.None? then rows else rows + [RowOf(OwnHandler(event.value.eventType), event.value, now)]
  }

  // ---------- steps ----------

  function Transact(w: World, op: Op): World {
    match Perform(w.db, w.now, op)
    case Refused(_) => w
    case Committed(db) =>
      World(w.now, db, Invalidated(w.cache, op, db), Notified(w.rows, Published(op, db), w.now))
  }

  function UncachedBook(db: Db, id: Id): Result<Answer> {
    if BookVisible(db, id) then Ok(BookAnswer(ViewBook(db, id))) else Err(NotFound(BookEntity))
  }

  function UncachedLoan(db: Db, id: Id, now: Time): Result<Answer> {
    if id in db.loans then Ok(LoanAnswer(ViewLoan(id, db.loans[id], now))) else Err(NotFound(LoanEntity))
  }

  function UncachedList(db: Db, q: Query): Result<Answer> {
    Ok(PageAnswer(ListBooks(db, q)))
  }

  function UncachedLoans(db: Db, l: LoanList, now: Time): Result<Answer> {
    Ok(LoansAnswer(ListLoans(db, l, now)))
  }

  function UncachedUserLoans(db: Db, p: UserLoans, now: Time): Result<Answer> {
    if UserVisible(db, p.user) then UncachedLoans(db, OfUser(p), now) else Err(NotFound(UserEntity))
  }

  // The read-through of every cached read.
  function ReadThrough(w: World, key: string, uncached: Result<Answer>, ttl: int): (World, Result<Answer>) {
    var hit := Live(w.cache, key, w.now);
    if hit.Some? then (w, Ok(hit.value))
    else if uncached.Err? then (w, uncached)
    else (w.(cache := Stored(w.cache, key, uncached.value, w.now, ttl)), uncached)
  }

  function GetBook(w: World, id: Id): (World, Result<Answer>) {
    ReadThrough(w, BookKey(id), UncachedBook(w.db, id), BOOK_TTL)
  }

  function GetLoan(w: World, id: Id): (World, Result<Answer>) {
    ReadThrough(w, LoanKey(id), UncachedLoan(w.db, id, w.now), LOAN_TTL)
  }

  function GetBooks(w: World, q: Query): (World, Result<Answer>) {
    ReadThrough(w, ListKey(q), UncachedList(w.db, q), BOOK_TTL)
  }

  function GetLoans(w: World, l: LoanList): (World, Result<Answer>) {
    ReadThrough(w, LoanListKey(l), UncachedLoans(w.db, l, w.now), LOAN_TTL)
  }

  function GetUserLoans(w: World, p: UserLoans): (World, Result<Answer>) {
    ReadThrough(w, UserLoansKey(p), UncachedUserLoans(w.db, p, w.now), LOAN_TTL)
  }

  datatype Step =
    | Write(op: Op)
    | ReadBook(book: Id)
    | ReadLoan(loan: Id)
    | ReadBooks(query: Query)
    | ReadLoans(list: LoanList)
    | ReadUserLoans(pages: UserLoans)
    | RunDueJob
    | Wait(duration: nat)

  function Next(w: World, step: Step): World {
    match step
    case Write(op) => Transact(w, op)
    case ReadBook(book) => GetBook(w, book).0
    case ReadLoan(loan) => GetLoan(w, loan).0
    case ReadBooks(q) => GetBooks(w, q).0
    case ReadLoans(l) => GetLoans(w, l).0
    case ReadUserLoans(p) => GetUserLoans(w, p).0
    case RunDueJob => w.(rows := JobRows(w.db, w.rows, w.now))
    case Wait(duration) => w.(now := w.now + duration)
  }

  // An empty library at time `start`.
  function Opening(start: Time): World {
    World(start, EMPTY_DB, map[], [])
  }

  function Run(w: World, steps: seq<Step>): World {
    if steps == [] then w else Next(Run(w, steps[..|steps| - 1]), steps[|steps| - 1])
  }

  lemma OneMore(w: World, steps: seq<Step>, step: Step)
    ensures Run(w, steps + [step]) == Next(Run(w, steps), step)
  {
    assert (steps + [step])[..|steps|] == steps;
  }

  // ---------- reads in general ----------

  predicate IsRead(step: Step) {
    !step.Write? && !step.RunDueJob? && !step.Wait?
  }

  function KeyOf(step: Step): string
    requires IsRead(step)
  {
    match step
    case ReadBook(book) => BookKey(book)
    case ReadLoan(loan) => LoanKey(loan)
    case ReadBooks(q) => ListKey(q)
    case ReadLoans(l) => LoanListKey(l)
    case ReadUserLoans(p) => UserLoansKey(p)
  }

  // The answer without any cache.
  function Uncached(w: World, step: Step): Result<Answer>
    requires IsRead(step)
  {
    match step
    case ReadBook(book) => UncachedBook(w.db, book)
    case ReadLoan(loan) => UncachedLoan(w.db, loan, w.now)
    case ReadBooks(q) => UncachedList(w.db, q)
    case ReadLoans(l) => UncachedLoans(w.db, l, w.now)
    case ReadUserLoans(p) => UncachedUserLoans(w.db, p, w.now)
  }

  function LifetimeOf(step: Step): int
    requires IsRead(step)
  {
    if step.ReadBook? || step.ReadBooks? then BOOK_TTL else LOAN_TTL
  }

  // What a read answers, and the library after it.
  function Answered(w: World, step: Step): (World, Result<Answer>)
    requires IsRead(step)
  {
    ReadThrough(w, KeyOf(step), Uncached(w, step), LifetimeOf(step))
  }

  /** Reads of different kinds never share a key. */
  lemma KindsApart(a: Step, b: Step)
    requires IsRead(a) && IsRead(b) && KeyOf(a) == KeyOf(b)
    ensures a.ReadBook? <==> b.ReadBook?
    ensures a.ReadBooks? <==> b.ReadBooks?
    ensures a.ReadLoan? <==> b.ReadLoan?
    ensures a.ReadLoans? <==> b.ReadLoans?
    ensures a.ReadUserLoans? <==> b.ReadUserLoans?
  {
    KeyForm(a);
    KeyForm(b);
  }

  lemma KeyForm(a: Step)
    requires IsRead(a)
    ensures var key := KeyOf(a);
            && (a.ReadBook? ==> key[0] == 'b' && key[4] == ':')
            && (a.ReadBooks? ==> key[0] == 'b' && key[4] == 's')
            && (a.ReadLoan? ==> key[0] == 'l' && key[6] == 'i')
            && (a.ReadLoans? ==> key[0] == 'l' && key[6] == 'l')
            && (a.ReadUserLoans? ==> key[0] == 'l' && key[6] == 'u')
  {
    match a {
      case ReadBook(book) => BookKeyForms(book, EVERYTHING);
      case ReadBooks(q) => BookKeyForms("", q);
      case ReadLoan(loan) => LoanKeyForms(loan, EVERY_LOAN, UserLoans("", 1, 1, None));
      case ReadLoans(l) => LoanKeyForms("", l, UserLoans("", 1, 1, None));
      case ReadUserLoans(p) => LoanKeyForms("", EVERY_LOAN, p);
    }
  }

  /** A cached answer is served under its key, as JSON, strictly before its lifetime is over, and under no
      other key; a deletion by key or by prefix takes exactly those keys out of service, at all times. */
  lemma StoredServedDeleted(cache: Store, key: string, value: Answer, now: Time, ttl: int, other: string, later: Time)
    ensures Live(Stored(cache, key, value, now, ttl), key, later)
         == if later < now + ttl then Some(Json(value)) else None
    ensures other != key ==> Live(Stored(cache, key, value, now, ttl), other, later) == Live(cache, other, later)
    ensures Live(cache - {key}, other, later) == if other == key then None else Live(cache, other, later)
    ensures Live(WithoutPrefix(cache, key), other, later)
         == if HasPrefix(key, other) then None else Live(cache, other, later)
  {
  }
}
