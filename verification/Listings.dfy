/** Filtered, paginated lists of loans; pages as a partition; and the two notions of a late loan. */
module Listings {
  import opened Domain
  import opened Fines
  import opened CacheKeys
  import opened Views

  predicate PastDue(loan: Loan, now: Time) {
    loan.status.Active? && loan.dueDate < now
  }

  predicate Wanted(loan: Loan, q: LoanQuery, now: Time) {
    && (Given(q.user) ==> loan.userId == q.user.value)
    && (Given(q.book) ==> loan.bookId == q.book.value)
    && (q.status.Some? ==> loan.status == q.status.value)
    && (q.overdue.Some? ==> (q.overdue.value <==> PastDue(loan, now)))
  }

  function WantedLoans(loans: map<Id, Loan>, order: seq<Id>, q: LoanQuery, now: Time): (wanted: seq<Id>)
    ensures forall l | l in wanted :: l in loans && Wanted(loans[l], q, now)
  {
    if order == [] then []
    else
      var rest := WantedLoans(loans, order[..|order| - 1], q, now);
      var l := order[|order| - 1];
      if l in loans && Wanted(loans[l], q, now) then rest + [l] else rest
  }

  function LoanViews(loans: map<Id, Loan>, ids: seq<Id>, now: Time): seq<LoanView>
    requires forall l | l in ids :: l in loans
  {
    seq(|ids|, i requires 0 <= i < |ids| => ViewLoan(ids[i], loans[ids[i]], now))
  }

  function ListLoans(db: Db, l: LoanList, now: Time): LoanPage {
    var wanted := WantedLoans(db.loans, db.loanOrder, l.filter, now);
    LoanPage(LoanViews(db.loans, PageOf(wanted, l.page, l.size), now), |wanted|, l.page, l.size)
  }

  // A user's loans are a list of loans filtered by that user.
  function OfUser(p: UserLoans): LoanList {
    LoanList(p.page, p.size, LoanQuery(Some(p.user), None, p.status, None))
  }

  // ---------- the query as the repository builds it ----------

  datatype Filter =
    | UserIs(user: Id) | BookIs(book: Id) | StatusIs(status: LoanStatus)
    | DueBefore(now: Time) | ClosedOrDueFrom(now: Time)

  predicate Passes(loan: Loan, f: Filter) {
    match f
    case UserIs(user) => loan.userId == user
    case BookIs(book) => loan.bookId == book
    case StatusIs(status) => loan.status == status
    case DueBefore(now) => loan.dueDate < now
    case ClosedOrDueFrom(now) => !loan.status.Active? || loan.dueDate >= now
  }

  // The filters in the order the repository appends them.
  function FiltersOf(q: LoanQuery, now: Time): seq<Filter> {
    (if Given(q.user) then [UserIs(q.user.value)] else [])
    + (if Given(q.book) then [BookIs(q.book.value)] else [])
    + (if q.status.Some? then [StatusIs(q.status.value)] else [])
    + (if q.overdue == Some(true) then [StatusIs(Active), DueBefore(now)] else [])
    + (if q.overdue == Some(false) then [ClosedOrDueFrom(now)] else [])
  }

  predicate AllPass(loan: Loan, filters: seq<Filter>) {
    forall i | 0 <= i < |filters| :: Passes(loan, filters[i])
  }

  lemma AllPassBoth(loan: Loan, fs: seq<Filter>, gs: seq<Filter>)
    ensures AllPass(loan, fs + gs) <==> AllPass(loan, fs) && AllPass(loan, gs)
  {
    assert forall i | 0 <= i < |fs| :: (fs + gs)[i] == fs[i];
    assert forall i | 0 <= i < |gs| :: (fs + gs)[|fs| + i] == gs[i];
  }

  lemma AllPassOne(loan: Loan, f: Filter)
    ensures AllPass(loan, [f]) <==> Passes(loan, f)
  {
    assert [f][0] == f;
  }

  lemma FiltersMeanWanted(loan: Loan, q: LoanQuery, now: Time)
    ensures AllPass(loan, FiltersOf(q, now)) <==> Wanted(loan, q, now)
  {
    var a := if Given(q.user) then [UserIs(q.user.value)] else [];
    var b := if Given(q.book) then [BookIs(q.book.value)] else [];
    var c := if q.status.Some? then [StatusIs(q.status.value)] else [];
    var d := if q.overdue == Some(true) then [StatusIs(Active), DueBefore(now)] else [];
    var e := if q.overdue == Some(false) then [ClosedOrDueFrom(now)] else [];
    AllPassBoth(loan, a, b);
    AllPassBoth(loan, a + b, c);
    AllPassBoth(loan, a + b + c, d);
    AllPassBoth(loan, a + b + c + d, e);
    if Given(q.user) { AllPassOne(loan, a[0]); }
    if Given(q.book) { AllPassOne(loan, b[0]); }
    if q.status.Some? { AllPassOne(loan, c[0]); }
    if q.overdue == Some(true) { assert d == [d[0]] + [d[1]]; AllPassBoth(loan, [d[0]], [d[1]]); }
    if q.overdue == Some(true) { AllPassOne(loan, d[0]); AllPassOne(loan, d[1]); }
    if q.overdue == Some(false) { AllPassOne(loan, e[0]); }
  }

  // One `.where(..)`.
  function Where(loans: map<Id, Loan>, rows: seq<Id>, f: Filter): seq<Id> {
    if rows == [] then []
    else
      var rest := Where(loans, rows[..|rows| - 1], f);
      var l := rows[|rows| - 1];
      if l in loans && Passes(loans[l], f) then rest + [l] else rest
  }

  function Refined(loans: map<Id, Loan>, order: seq<Id>, filters: seq<Filter>): seq<Id> {
    if order == [] then []
    else
      var rest := Refined(loans, order[..|order| - 1], filters);
      var l := order[|order| - 1];
      if l in loans && AllPass(loans[l], filters) then rest + [l] else rest
  }

  lemma {:induction false} WhereRefines(loans: map<Id, Loan>, order: seq<Id>, filters: seq<Filter>, f: Filter)
    ensures Where(loans, Refined(loans, order, filters), f) == Refined(loans, order, filters + [f])
  {
    if order != [] {
      var l := order[|order| - 1];
      var rest := Refined(loans, order[..|order| - 1], filters);
      WhereRefines(loans, order[..|order| - 1], filters, f);
      assert (rest + [l])[..|rest|] == rest;
      if l in loans { AllPassBoth(loans[l], filters, [f]); AllPassOne(loans[l], f); }
    }
  }

  lemma OneMoreFilter(loans: map<Id, Loan>, order: seq<Id>, filters: seq<Filter>, i: nat)
    requires i < |filters|
    ensures Where(loans, Refined(loans, order, filters[..i]), filters[i]) == Refined(loans, order, filters[..i + 1])
  {
    WhereRefines(loans, order, filters[..i], filters[i]);
    assert filters[..i + 1] == filters[..i] + [filters[i]];
  }

  lemma {:induction false} RefinedIsWanted(loans: map<Id, Loan>, order: seq<Id>, filters: seq<Filter>,
                                           q: LoanQuery, now: Time)
    requires forall l | l in loans :: AllPass(loans[l], filters) <==> Wanted(loans[l], q, now)
    ensures Refined(loans, order, filters) == WantedLoans(loans, order, q, now)
  {
    if order != [] {
      RefinedIsWanted(loans, order[..|order| - 1], filters, q, now);
    }
  }

  lemma {:induction false} RefinedByNothing(loans: map<Id, Loan>, order: seq<Id>)
    requires forall l | l in order :: l in loans
    ensures Refined(loans, order, []) == order
  {
    if order != [] {
      RefinedByNothing(loans, order[..|order| - 1]);
      assert order == order[..|order| - 1] + [order[|order| - 1]];
    }
  }

  // ---------- pages ----------

  function FirstPages<T>(rows: seq<T>, size: Positive, pages: nat): seq<T> {
    if pages == 0 then [] else FirstPages(rows, size, pages - 1) + PageOf(rows, pages, size)
  }

  lemma {:induction false} PagesCoverAPrefix<T>(rows: seq<T>, size: Positive, pages: nat)
    ensures FirstPages(rows, size, pages) == rows[..Least(pages * size, |rows|)]
  {
    if pages > 0 {
      PagesCoverAPrefix(rows, size, pages - 1);
      assert (pages - 1) * size + size == pages * size;
    }
  }

  function PageCount(total: nat, size: Positive): nat {
    (total + size - 1) / size
  }

  lemma PageCountBounds(total: nat, size: Positive)
    ensures total <= PageCount(total, size) * size < total + size
  {
    var x := total + size - 1;
    assert x == size * (x / size) + x % size;
  }

  lemma ScaledOrder(a: int, b: int, size: Positive)
    requires a <= b
    ensures a * size <= b * size
  {
    assert b * size == a * size + (b - a) * size;
  }

  lemma OffsetBeyond(rows: nat, size: Positive, page: Positive, n: nat)
    requires rows <= n * size < rows + size
    ensures (page - 1) * size >= rows <==> page > n
  {
    if page > n {
      ScaledOrder(n, page - 1, size);
    } else {
      ScaledOrder(page - 1, n - 1, size);
    }
  }

  lemma EmptyPage<T>(rows: seq<T>, page: Positive, size: Positive)
    ensures PageOf(rows, page, size) == [] <==> (page - 1) * size >= |rows|
  {
    assert |PageOf(rows, page, size)| == Least((page - 1) * size + size, |rows|) - Least((page - 1) * size, |rows|);
  }

  /** Pages 1 to ceil(total / size), one after the other, are the whole list, each row once and in order;
      and exactly the later pages are empty. */
  lemma {:induction false} PagesPartition<T>(rows: seq<T>, size: Positive, page: Positive)
    ensures FirstPages(rows, size, PageCount(|rows|, size)) == rows
    ensures page > PageCount(|rows|, size) <==> PageOf(rows, page, size) == []
  {
    PagesCoverAPrefix(rows, size, PageCount(|rows|, size));
    PageCountBounds(|rows|, size);
    OffsetBeyond(|rows|, size, page, PageCount(|rows|, size));
    EmptyPage(rows, page, size);
  }

  // ---------- late loans ----------

  /** The overdue filter splits the loans in two; every loan shown as overdue is in its list; and the list
      has in addition exactly the active loans due earlier today, which owe nothing. */
  lemma TwoNotionsOfLate(id: Id, loan: Loan, now: Time)
    ensures var q := LoanQuery(None, None, None, None);
            Wanted(loan, q.(overdue := Some(true)), now) <==> !Wanted(loan, q.(overdue := Some(false)), now)
    ensures ViewLoan(id, loan, now).isOverdue ==> PastDue(loan, now)
    ensures PastDue(loan, now) && !ViewLoan(id, loan, now).isOverdue <==>
            loan.status.Active? && loan.dueDate < now && DayOf(loan.dueDate) == DayOf(now)
    ensures PastDue(loan, now) && !ViewLoan(id, loan, now).isOverdue ==> ViewLoan(id, loan, now).currentFineAmount == 0
  {
    DaysLateIsDateDistance(loan.dueDate, now);
    if loan.dueDate <= now {
      DayMonotone(loan.dueDate, now);
    }
  }
}
