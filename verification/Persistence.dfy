/** The database session the repositories share, the loan and author repositories, and the cache. */
module Persistence {
  import opened Domain
  import opened Circulation
  import opened Integrity
  import opened CacheKeys
  import opened Views
  import opened Notifications
  import opened DueLoans
  import opened Library
  import opened Listings

  class Session {
    var users: map<Id, bool>
    var authors: map<Id, Author>
    var books: map<Id, Book>
    var bookOrder: seq<Id>
    var loans: map<Id, Loan>
    var loanOrder: seq<Id>
    var reservations: map<Id, Reservation>

    constructor ()
      ensures State() == EMPTY_DB
    {
      users, authors, books, loans, reservations := map[], map[], map[], map[], map[];
      bookOrder, loanOrder := [], [];
    }

    function State(): Db
      reads this
    {
      Db(users, authors, books, bookOrder, loans, loanOrder, reservations)
    }
  }

  class LoanRepository {
    const session: Session

    constructor (session: Session)
      ensures this.session == session
    {
      this.session := session;
    }

    method Filters(q: LoanQuery, now: Time) returns (filters: seq<Filter>)
      ensures filters == FiltersOf(q, now)
    {
      filters := [];
      if Given(q.user) {
        filters := filters + [UserIs(q.user.value)];
      }
      if Given(q.book) {
        filters := filters + [BookIs(q.book.value)];
      }
      if q.status.Some? {
        filters := filters + [StatusIs(q.status.value)];
      }
      if q.overdue == Some(true) {
        filters := filters + [StatusIs(Active), DueBefore(now)];
      }
      if q.overdue == Some(false) {
        filters := filters + [ClosedOrDueFrom(now)];
      }
    }

    // One `.where(..)` after the other.
    method Narrow(filters: seq<Filter>) returns (query: seq<Id>)
      requires LoanOrderHolds(session.State())
      ensures query == Refined(session.loans, session.loanOrder, filters)
    {
      var loans, order := session.loans, session.loanOrder;
      RefinedByNothing(loans, order);
      query := order;
      for i := 0 to |filters|
        invariant query == Refined(loans, order, filters[..i])
      {
        OneMoreFilter(loans, order, filters, i);
        query := Where(loans, query, filters[i]);
      }
      assert filters[..|filters|] == filters;
    }

    /** The page holds the wanted loans of that page in row order, and the total counts all wanted loans. */
    method ListPaginated(page: Positive, size: Positive, q: LoanQuery, now: Time) returns (rows: seq<Id>, total: nat)
      requires LoanOrderHolds(session.State())
      ensures rows == PageOf(WantedLoans(session.loans, session.loanOrder, q, now), page, size)
      ensures total == |WantedLoans(session.loans, session.loanOrder, q, now)|
    {
      var filters := Filters(q, now);
      var query := Narrow(filters);
      forall l | l in session.loans { FiltersMeanWanted(session.loans[l], q, now); }
      RefinedIsWanted(session.loans, session.loanOrder, filters, q, now);
      rows, total := PageOf(query, page, size), |query|;
    }
  }

  class AuthorRepository {
    const session: Session

    constructor (session: Session)
      ensures this.session == session
    {
      this.session := session;
    }

    // Deactivates the author and then, one by one, those of its books that are still active.
    method SoftDelete(author: Id)
      requires author in session.authors
      modifies session
      ensures session.State() == old(session.State()).(
                authors := old(session.authors)[author := old(session.authors)[author].(active := false)],
                books := Cascade(old(session.books), author))
    {
      session.authors := session.authors[author := session.authors[author].(active := false)];
      ghost var before := session.State();
      var pending := set b | b in session.books && session.books[b].authorId == author;
      while pending != {}
        invariant forall b | b in pending :: b in before.books && before.books[b].authorId == author
        invariant session.State() == before.(books := session.books)
        invariant session.books.Keys == before.books.Keys
        invariant forall b | b in before.books :: session.books[b] ==
                    if before.books[b].authorId == author && b !in pending then before.books[b].(active := false)
                    else before.books[b]
      {
        var b :| b in pending;
        if session.books[b].active {
          session.books := session.books[b := session.books[b].(active := false)];
        }
        pending := pending - {b};
      }
      assert session.books == Cascade(before.books, author);
    }
  }

  class CacheService {
    var store: Store

    constructor ()
      ensures store == map[]
    {
      store := map[];
    }

    method Get(key: string, now: Time) returns (value: Option<Answer>)
      ensures value == Live(store, key, now)
    {
      value := if key in store && now < store[key].expiresAt then Some(store[key].value) else None;
    }

    method Set(key: string, value: Answer, now: Time, expire: int)
      modifies this
      ensures store == Stored(old(store), key, value, now, expire)
    {
      store := store[key := Entry(Json(value), now + expire)];
    }

    method Delete(key: string)
      modifies this
      ensures store == old(store) - {key}
    {
      store := store - {key};
    }

    // Deletes every key matching `prefix*`, scanning them in any order.
    method DeletePattern(prefix: string)
      modifies this
      ensures store == WithoutPrefix(old(store), prefix)
    {
      var pending := set k | k in store && HasPrefix(prefix, k);
      while pending != {}
        invariant pending <= old(store).Keys && forall k | k in pending :: HasPrefix(prefix, k)
        invariant store == map k | k in old(store) && (!HasPrefix(prefix, k) || k in pending) :: old(store)[k]
      {
        var k :| k in pending;
        Delete(k);
        pending := pending - {k};
      }
    }
  }

  class DueLoanNotificationJob {
    const session: Session
    const service: NotificationService

    constructor (session: Session, service: NotificationService)
      ensures this.session == session && this.service == service
    {
      this.session := session;
      this.service := service;
    }

    // One of the three loops: a reminder of kind `kind` for every loan its query selects. An error ends it;
    // what it sent before stays.
    method Remind(kind: Kind, now: Time) returns (r: Result<()>)
      requires DueKind(kind)
      modifies service.repository
      ensures r.Err? <==> RoundStops(session.State(), old(service.repository.rows), kind, now)
      ensures r.Err? ==> r.error == MultipleRows
                         && OnlyAdds(old(service.repository.rows), service.repository.rows, session.loans, now)
      ensures r.Ok? ==>
                service.repository.rows == Round(session.State(), old(service.repository.rows), kind, now)
    {
      ghost var before := service.repository.rows;
      SelectedExactly(session.loans, session.loanOrder, kind, now);
      var selected := Selected(session.loans, session.loanOrder, kind, now);
      for i := 0 to |selected|
        invariant service.repository.rows == NotifyAll(before, session.loans, selected[..i], kind, now)
        invariant forall l | l in selected[..i] :: !SentTwiceOn(before, l, kind, DayOf(now))
      {
        var l := selected[i];
        assert selected[..i + 1] == selected[..i] + [l] && l in selected;
        PairsKept(before, session.loans, selected[..i], kind, now, l, kind);
        var sent := service.SendOncePerDay(session.loans[l].userId, kind, Some(l), None, now);
        if sent.Err? {
          NotifyAllExactly(before, session.loans, selected[..i], kind, now);
          assert Trips(session.loans, before, l, kind, now);
          return Err(sent.error);
        }
      }
      assert selected[..|selected|] == selected;
      r := Ok(());
    }

    // It fails exactly when some loan it asks about has a reminder of today twice; otherwise the table is the one
    // the job should produce. A table without repeated reminders never fails it.
    method Execute(now: Time) returns (r: Result<()>)
      modifies service.repository
      ensures r.Err? <==> JobStops(session.State(), old(service.repository.rows), now)
      ensures r.Ok? ==> service.repository.rows == JobRows(session.State(), old(service.repository.rows), now)
      ensures OncePerDay(old(service.repository.rows)) ==> r.Ok? && OncePerDay(service.repository.rows)
      ensures r.Ok? ==> forall l | l in session.loanOrder && l in session.loans ::
                ByTheCalendar(old(service.repository.rows), service.repository.rows, l, session.loans[l], now)
    {
      ghost var before, db := service.repository.rows, session.State();
      r := Remind(DueSoonNotice, now);
      RoundKeepsStops(db, before, DueSoonNotice, DueTodayNotice, now);
      RoundKeepsStops(db, before, DueSoonNotice, OverdueNotice, now);
      if r.Ok? {
        ghost var middle := service.repository.rows;
        r := Remind(DueTodayNotice, now);
        RoundKeepsStops(db, middle, DueTodayNotice, OverdueNotice, now);
        if r.Ok? {
          r := Remind(OverdueNotice, now);
        }
      }
      forall l | l in db.loanOrder && l in db.loans { RemindersByTheCalendar(db, before, now, l); }
      if OncePerDay(before) {
        OncePerDayNeverStops(db, before, now);
        JobExactly(db, before, now);
        OnlyAddsKeepsOncePerDay(before, JobRows(db, before, now), db.loans, now);
      }
    }
  }
}
