/** What the answers say, column by column, in every run: books, lists of books, loans and lists of loans. */
module Answers {
  import opened Domain
  import opened Fines
  import opened Circulation
  import opened Integrity
  import opened CacheKeys
  import opened Views
  import opened Listings
  import opened Library
  import opened SerialRuns
  import opened CacheCoherence
  import opened Traces
  import opened LoanStaleness
  import opened LoanListStaleness
  import opened Rules

  // ---------- one book ----------

  predicate Shown(db: Db, b: Id) {
    b in db.books && db.books[b].active && db.books[b].authorId in db.authors && db.authors[db.books[b].authorId].active
  }

  // The row of the book, the author's present name, and the copies that are not on loan.
  predicate ShowsBook(db: Db, b: Id, v: BookView) {
    && b in db.books && db.books[b].authorId in db.authors
    && var book := db.books[b];
       && v.id == b && v.title == book.title && v.isbn == book.isbn && v.category == book.category
       && v.totalCopies == book.totalCopies
       && v.availableCopies == book.totalCopies - |ActiveOfBook(db.loans, b)|
       && v.authorId == book.authorId && v.authorName == db.authors[book.authorId].name
       && v.createdAt.t == book.createdAt
  }

  /** The lookup by id finds a book exactly if the book is active and its author is there and active. */
  lemma FoundExactly(db: Db, b: Id)
    ensures UncachedBook(db, b).Ok? <==> Shown(db, b)
    ensures UncachedBook(db, b).Err? ==> UncachedBook(db, b) == Err(NotFound(BookEntity))
  {
  }

  lemma ViewShowsBook(db: Db, b: Id)
    requires Sound(db) && Shown(db, b)
    ensures ShowsBook(db, b, ViewBook(db, b)) && ViewBook(db, b).createdAt.Instant?
    ensures ShowsBook(db, b, BookJson(ViewBook(db, b))) && BookJson(ViewBook(db, b)).createdAt.Rendered?
  {
    assert db.books[b].totalCopies - db.books[b].availableCopies == |ActiveOfBook(db.loans, b)|;
  }

  /** In every run `get_book` finds exactly the active books of active authors, and answers the total, the total minus
      the active loans, the author's current name and the rest of the row; the date is text exactly from the cache. */
  lemma {:induction false} BookAnswerInEveryRun(start: Time, steps: seq<Step>, b: Id)
    ensures var w := Run(Opening(start), steps);
            var r := GetBook(w, b).1;
            && (r == Err(NotFound(BookEntity)) <==> !Shown(w.db, b)) && (r.Ok? <==> Shown(w.db, b))
            && (r.Ok? ==> r.value.BookAnswer? && ShowsBook(w.db, b, r.value.book)
                          && (r.value.book.createdAt.Rendered? <==> Live(w.cache, BookKey(b), w.now).Some?))
  {
    var w := Run(Opening(start), steps);
    OneBookPerKey(steps, b);
    CurrentInEveryRun(start, steps, ReadBook(b));
    EveryRunSound(start, steps);
    BookAnswerShows(w, b);
  }

  lemma BookAnswerShows(w: World, b: Id)
    requires Sound(w.db) && EntryCurrent(w, ReadBook(b))
    ensures var r := GetBook(w, b).1;
            && (r == Err(NotFound(BookEntity)) <==> !Shown(w.db, b)) && (r.Ok? <==> Shown(w.db, b))
            && (r.Ok? ==> r.value.BookAnswer? && ShowsBook(w.db, b, r.value.book)
                          && (r.value.book.createdAt.Rendered? <==> Live(w.cache, BookKey(b), w.now).Some?))
  {
    if Shown(w.db, b) {
      ViewShowsBook(w.db, b);
    }
  }

  // ---------- texts that match ----------

  // The same letter, or the same ASCII letter in the other case.
  predicate SameLetter(c: char, d: char) {
    || c == d
    || ('A' <= c <= 'Z' && d as int == c as int + 32)
    || ('A' <= d <= 'Z' && c as int == d as int + 32)
  }

  predicate Within(text: string, part: string, i: nat) {
    i + |part| <= |text| && forall j | 0 <= j < |part| :: SameLetter(text[i + j], part[j])
  }

  lemma LowerJoinsCases(c: char, d: char)
    ensures Lower(c) == Lower(d) <==> SameLetter(c, d)
  {
  }

  lemma OccursExactly(text: string, part: string, i: nat)
    ensures OccursAt(Folded(text), Folded(part), i) <==> Within(text, part, i)
  {
    if i + |part| <= |text| {
      var window := Folded(text)[i..i + |part|];
      forall j | 0 <= j < |part|
        ensures window[j] == Folded(part)[j] <==> SameLetter(text[i + j], part[j])
      {
        LowerJoinsCases(text[i + j], part[j]);
      }
      if Within(text, part, i) {
        assert window == Folded(part);
      }
      if window == Folded(part) {
        assert forall j | 0 <= j < |part| :: window[j] == Folded(part)[j];
      }
    }
  }

  /** A text filter matches exactly where its letters occur in a row, whatever their case. */
  lemma LikeExactly(text: string, part: string)
    ensures Like(text, part) <==> exists i: nat :: i <= |text| && Within(text, part, i)
  {
    if Like(text, part) {
      var i: nat :| i <= |Folded(text)| && OccursAt(Folded(text), Folded(part), i);
      OccursExactly(text, part, i);
    }
    if i: nat :| i <= |text| && Within(text, part, i) {
      OccursExactly(text, part, i);
    }
  }

  // ---------- lists of books ----------

  // What a filter value asks for; none or the empty text asks for nothing.
  predicate Asks(filter: Option<string>) {
    filter.Some? && filter.value != ""
  }

  // A shown book that meets every filter; free copies are those not on loan.
  predicate Meets(db: Db, q: Query, b: Id) {
    && Shown(db, b)
    && (Asks(q.title) ==> Like(db.books[b].title, q.title.value))
    && (Asks(q.category) ==> db.books[b].category == q.category.value)
    && (Asks(q.author) ==> Like(db.authors[db.books[b].authorId].name, q.author.value))
    && (q.available == Some(true) ==> |ActiveOfBook(db.loans, b)| < db.books[b].totalCopies)
    && (q.available == Some(false) ==> |ActiveOfBook(db.loans, b)| == db.books[b].totalCopies)
  }

  // Those of `order` that meet the filters, in that order.
  function Meeting(db: Db, q: Query, order: seq<Id>): (ids: seq<Id>)
    ensures forall b :: b in ids <==> b in order && Meets(db, q, b)
  {
    if order == [] then []
    else
      var rest, b := Meeting(db, q, order[..|order| - 1]), order[|order| - 1];
      assert order == order[..|order| - 1] + [b];
      if Meets(db, q, b) then rest + [b] else rest
  }

  lemma {:induction false} MeetingOnce(db: Db, q: Query, order: seq<Id>)
    requires NoRepeats(order)
    ensures NoRepeats(Meeting(db, q, order))
  {
    if order != [] {
      var shorter, b := order[..|order| - 1], order[|order| - 1];
      MeetingOnce(db, q, shorter);
      assert forall k | 0 <= k < |shorter| :: shorter[k] == order[k];
      assert b !in shorter;
    }
  }

  lemma {:induction false} DistinctCount(ids: seq<Id>)
    requires NoRepeats(ids)
    ensures |set b | b in ids| == |ids|
  {
    if ids != [] {
      var shorter, last := ids[..|ids| - 1], ids[|ids| - 1];
      DistinctCount(shorter);
      assert forall k | 0 <= k < |shorter| :: shorter[k] == ids[k];
      assert last !in shorter && ids == shorter + [last];
      assert (set b | b in ids) == (set b | b in shorter) + {last};
    }
  }

  lemma MeetingCount(db: Db, q: Query)
    requires BookOrderHolds(db)
    ensures |Meeting(db, q, db.bookOrder)| == |set b | b in db.books && Meets(db, q, b)|
  {
    MeetingOnce(db, q, db.bookOrder);
    DistinctCount(Meeting(db, q, db.bookOrder));
    assert (set b | b in Meeting(db, q, db.bookOrder)) == set b | b in db.books && Meets(db, q, b);
  }

  lemma ListsWhatMeets(db: Db, q: Query, b: Id)
    requires Sound(db)
    ensures Lists(db, q, b) <==> Meets(db, q, b)
  {
    if b in db.books {
      assert db.books[b].totalCopies - db.books[b].availableCopies == |ActiveOfBook(db.loans, b)|;
    }
  }

  lemma {:induction false} ListedAreMeeting(db: Db, q: Query, order: seq<Id>)
    requires Sound(db)
    ensures var views, ids := ListedViews(db, q, order), Meeting(db, q, order);
            |views| == |ids| && forall k | 0 <= k < |ids| :: Shown(db, ids[k]) && views[k] == ViewBook(db, ids[k])
  {
    if order != [] {
      ListedAreMeeting(db, q, order[..|order| - 1]);
      ListsWhatMeets(db, q, order[|order| - 1]);
    }
  }

  // The page of `q` over the books that meet it: its items, how many there are in all, and where it stands.
  ghost predicate ShowsPage(db: Db, q: Query, page: BookPage) {
    var ids := PageOf(Meeting(db, q, db.bookOrder), q.page, q.size);
    && page.page == q.page && page.size == q.size
    && page.total == |set b | b in db.books && Meets(db, q, b)|
    && |page.items| == |ids| && forall k | 0 <= k < |ids| :: ShowsBook(db, ids[k], page.items[k])
  }

  // The same page of two lists of one length takes the same rows.
  lemma SamePageOfBoth<T, U>(a: seq<T>, b: seq<U>, page: Positive, size: Positive) returns (first: nat)
    requires |a| == |b|
    ensures |PageOf(a, page, size)| == |PageOf(b, page, size)| && first + |PageOf(b, page, size)| <= |a|
    ensures forall k: nat | k < |PageOf(b, page, size)| ::
              PageOf(a, page, size)[k] == a[first + k] && PageOf(b, page, size)[k] == b[first + k]
  {
    first := Least((page - 1) * size, |a|);
  }

  lemma PageItems(db: Db, q: Query, k: nat)
    requires Sound(db) && k < |PageOf(Meeting(db, q, db.bookOrder), q.page, q.size)|
    ensures var ids, page := PageOf(Meeting(db, q, db.bookOrder), q.page, q.size), ListBooks(db, q);
            && |page.items| == |ids| == |PageJson(page).items|
            && ShowsBook(db, ids[k], page.items[k]) && ShowsBook(db, ids[k], PageJson(page).items[k])
  {
    var views, meeting := ListedViews(db, q, db.bookOrder), Meeting(db, q, db.bookOrder);
    ListedAreMeeting(db, q, db.bookOrder);
    var first := SamePageOfBoth(views, meeting, q.page, q.size);
    ViewShowsBook(db, meeting[first + k]);
  }

  lemma PageNumbers(db: Db, q: Query)
    requires Sound(db)
    ensures var ids, page := PageOf(Meeting(db, q, db.bookOrder), q.page, q.size), ListBooks(db, q);
            && page.page == q.page && page.size == q.size && |page.items| == |ids|
            && page.total == |Meeting(db, q, db.bookOrder)|
  {
    ListedAreMeeting(db, q, db.bookOrder);
    var first := SamePageOfBoth(ListedViews(db, q, db.bookOrder), Meeting(db, q, db.bookOrder), q.page, q.size);
  }

  lemma ListShowsPage(db: Db, q: Query)
    requires Sound(db)
    ensures ShowsPage(db, q, ListBooks(db, q)) && ShowsPage(db, q, PageJson(ListBooks(db, q)))
  {
    PageNumbers(db, q);
    MeetingCount(db, q);
    forall k: nat | k < |PageOf(Meeting(db, q, db.bookOrder), q.page, q.size)|
      ensures var id := PageOf(Meeting(db, q, db.bookOrder), q.page, q.size)[k];
              ShowsBook(db, id, ListBooks(db, q).items[k]) && ShowsBook(db, id, PageJson(ListBooks(db, q)).items[k])
    {
      PageItems(db, q, k);
    }
  }

  /** In every run in which no earlier read under its key asked for other books, a list answers the page of exactly the
      shown books that meet the filters, in row order, each with the columns `get_book` gives, and their number. */
  lemma {:induction false} BookListInEveryRun(start: Time, steps: seq<Step>, q: Query)
    requires NoTwinRead(steps, ReadBooks(q))
    ensures var w := Run(Opening(start), steps);
            var r := GetBooks(w, q).1;
            r.Ok? && r.value.PageAnswer? && ShowsPage(w.db, q, r.value.books)
  {
    CurrentInEveryRun(start, steps, ReadBooks(q));
    EveryRunSound(start, steps);
    ListAnswerShows(Run(Opening(start), steps), q);
  }

  lemma ListAnswerShows(w: World, q: Query)
    requires Sound(w.db) && EntryCurrent(w, ReadBooks(q))
    ensures var r := GetBooks(w, q).1; r.Ok? && r.value.PageAnswer? && ShowsPage(w.db, q, r.value.books)
  {
    ListShowsPage(w.db, q);
  }

  // ---------- one loan ----------

  function TimeOf(s: Option<Stamp>): Option<Time> {
    if s.None? then None else Some(s.value.t)
  }

  // Late days count up to the return, and otherwise up to `at`.
  function Until(loan: Loan, at: Time): Time {
    if loan.status == Returned && loan.returnedAt.Some? then loan.returnedAt.value else at
  }

  predicate ShowsLoan(l: Id, loan: Loan, at: Time, v: LoanView) {
    && v.id == l && v.userId == loan.userId && v.bookId == loan.bookId && v.status == loan.status
    && v.loanDate.t == loan.loanDate && v.dueDate.t == loan.dueDate
    && TimeOf(v.returnedAt) == loan.returnedAt && TimeOf(v.cancelledAt) == loan.cancelledAt
    && v.fineAmount == loan.fineAmount && TimeOf(v.finePaidAt) == loan.finePaidAt
    && v.finePaidAmount == loan.finePaidAmount && v.renewalCount == loan.renewalCount
    && v.daysLate == LateDays(loan.dueDate, Until(loan, at))
    && v.currentFineAmount == (if loan.status == Active then 2 * LateDays(loan.dueDate, at) else loan.fineAmount)
    && (v.isOverdue <==> loan.status == Active && DayOf(at) > DayOf(loan.dueDate))
  }

  lemma ViewShowsLoan(l: Id, loan: Loan, at: Time)
    ensures ShowsLoan(l, loan, at, ViewLoan(l, loan, at)) && ShowsLoan(l, loan, at, LoanJson(ViewLoan(l, loan, at)))
  {
    TwoPerLateDay(loan.dueDate, at);
    TwoPerLateDay(loan.dueDate, Until(loan, at));
  }

  /** In every run `get_loan` finds exactly the loans there are, and answers the row, the late days and the current fine
      as they stood at some moment less than 30 seconds ago. */
  lemma {:induction false} LoanAnswerInEveryRun(start: Time, steps: seq<Step>, l: Id) returns (i: nat)
    ensures i <= |steps|
    ensures var w, past := Run(Opening(start), steps), States(start, steps)[i];
            var r := GetLoan(w, l).1;
            && (r == Err(NotFound(LoanEntity)) <==> l !in w.db.loans) && (r.Ok? <==> l in w.db.loans)
            && w.now - 30_000_000 < past.now <= w.now
            && (r.Ok? ==> r.value.LoanAnswer? && l in past.db.loans
                          && ShowsLoan(l, past.db.loans[l], past.now, r.value.loan))
  {
    i := LoanAnswerAt(States(start, steps), steps, l);
  }

  lemma LoanAnswerAt(ws: seq<World>, steps: seq<Step>, l: Id) returns (i: nat)
    requires IsRun(ws, steps) && ws[0].cache == map[]
    ensures i <= |steps|
    ensures var w, past := ws[|steps|], ws[i];
            var r := GetLoan(w, l).1;
            && (r == Err(NotFound(LoanEntity)) <==> l !in w.db.loans) && (r.Ok? <==> l in w.db.loans)
            && w.now - 30_000_000 < past.now <= w.now
            && (r.Ok? ==> r.value.LoanAnswer? && l in past.db.loans
                          && ShowsLoan(l, past.db.loans[l], past.now, r.value.loan))
  {
    var w := ws[|steps|];
    if Live(w.cache, LoanKey(l), w.now).Some? {
      i := EveryEntryHasAnOrigin(ws, steps, LoanKey(l), |steps|);
      LoanReadsAre(steps[i], l);
      ClockAdvances(ws, steps, i, |steps|);
      CachedLoanOnlyRenewed(ws, steps, l, i, |steps|);
      ViewShowsLoan(l, ws[i].db.loans[l], ws[i].now);
    } else {
      i := |steps|;
      if l in w.db.loans {
        ViewShowsLoan(l, w.db.loans[l], w.now);
      }
    }
  }

  /** The fine a returned loan shows is two per late day it shows, in every run. */
  lemma {:induction false} ShownFineIsForShownDays(start: Time, steps: seq<Step>, l: Id)
    requires var db := Run(Opening(start), steps).db; l in db.loans && db.loans[l].status == Returned
    ensures var w := Run(Opening(start), steps);
            var v := ViewLoan(l, w.db.loans[l], w.now);
            v.currentFineAmount == 2 * v.daysLate
  {
    LedgerInEveryRun(start, steps, l);
  }

  // ---------- lists of loans ----------

  predicate WantsLoan(q: LoanQuery, loan: Loan, at: Time) {
    && (Asks(q.user) ==> loan.userId == q.user.value)
    && (Asks(q.book) ==> loan.bookId == q.book.value)
    && (q.status.Some? ==> loan.status == q.status.value)
    && (q.overdue == Some(true) ==> loan.status == Active && loan.dueDate < at)
    && (q.overdue == Some(false) ==> loan.status != Active || loan.dueDate >= at)
  }

  lemma WantedExactly(loan: Loan, q: LoanQuery, at: Time)
    ensures Wanted(loan, q, at) <==> WantsLoan(q, loan, at)
  {
  }

  /** The loans listed are exactly those that meet the filters, each once, in row order. */
  lemma {:induction false} ListedExactly(loans: map<Id, Loan>, order: seq<Id>, q: LoanQuery, at: Time)
    requires NoRepeats(order)
    ensures var ids := WantedLoans(loans, order, q, at);
            && NoRepeats(ids) && (forall l :: l in ids <==> l in order && l in loans && WantsLoan(q, loans[l], at))
            && forall n | 0 <= n <= |order| ::
                 WantedLoans(loans, order[..n], q, at) <= ids
  {
    if order != [] {
      var shorter, l := order[..|order| - 1], order[|order| - 1];
      assert order == shorter + [l] && l !in shorter;
      ListedExactly(loans, shorter, q, at);
      if l in loans { WantedExactly(loans[l], q, at); }
      forall n | 0 <= n <= |order|
        ensures WantedLoans(loans, order[..n], q, at) <= WantedLoans(loans, order, q, at)
      {
        if n < |order| {
          assert order[..n] == shorter[..n];
        } else {
          assert order[..n] == order;
        }
      }
    }
  }

  ghost predicate ShowsLoans(db: Db, m: LoanList, at: Time, page: LoanPage) {
    var ids := PageIds(db, m, at);
    && page.page == m.page && page.size == m.size && page.total == |Listed(db, m, at)|
    && |page.items| == |ids| && forall k | 0 <= k < |ids| :: ShowsLoan(ids[k], db.loans[ids[k]], at, page.items[k])
  }

  lemma ListShowsLoans(db: Db, m: LoanList, at: Time)
    ensures ShowsLoans(db, m, at, ListLoans(db, m, at)) && ShowsLoans(db, m, at, LoansJson(ListLoans(db, m, at)))
  {
    var ids := PageIds(db, m, at);
    forall k | 0 <= k < |ids|
      ensures ShowsLoan(ids[k], db.loans[ids[k]], at, ListLoans(db, m, at).items[k])
      ensures ShowsLoan(ids[k], db.loans[ids[k]], at, LoansJson(ListLoans(db, m, at)).items[k])
    {
      ViewShowsLoan(ids[k], db.loans[ids[k]], at);
    }
  }

  /** In every run a page of loans shows the page and the number of the loans its query, or one with the same key,
      wanted at some moment less than 30 seconds ago, each as it stood then. */
  lemma {:induction false} LoanPageInEveryRun(start: Time, steps: seq<Step>, m: LoanList)
    returns (i: nat, other: LoanList)
    ensures i <= |steps| && LoanListKey(other) == LoanListKey(m)
    ensures OwnsLoanKey(m) ==> other == m
    ensures var w, past := Run(Opening(start), steps), States(start, steps)[i];
            var r := GetLoans(w, m).1;
            && w.now - 30_000_000 < past.now <= w.now
            && r.Ok? && r.value.LoansAnswer? && ShowsLoans(past.db, other, past.now, r.value.loans)
  {
    i, other := LoanPageAt(States(start, steps), steps, m);
  }

  lemma LoanPageAt(ws: seq<World>, steps: seq<Step>, m: LoanList) returns (i: nat, other: LoanList)
    requires IsRun(ws, steps) && ws[0].cache == map[]
    ensures i <= |steps| && LoanListKey(other) == LoanListKey(m)
    ensures OwnsLoanKey(m) ==> other == m
    ensures var w, past := ws[|steps|], ws[i];
            var r := GetLoans(w, m).1;
            && w.now - 30_000_000 < past.now <= w.now
            && r.Ok? && r.value.LoansAnswer? && ShowsLoans(past.db, other, past.now, r.value.loans)
  {
    var w := ws[|steps|];
    if Live(w.cache, LoanListKey(m), w.now).Some? {
      i := EveryEntryHasAnOrigin(ws, steps, LoanListKey(m), |steps|);
      KindsApart(steps[i], ReadLoans(m));
      other := steps[i].list;
      ClockAdvances(ws, steps, i, |steps|);
      if OwnsLoanKey(m) { LoanKeyDeterminesList(m, other); }
    } else {
      i, other := |steps|, m;
    }
    ListShowsLoans(ws[i].db, other, ws[i].now);
  }

  /** A user's pages are the list of loans of that user, of the status asked for, and of no other user; an unknown or
      inactive user is refused unless a page is cached. */
  lemma UserPagesAreLists(w: World, p: UserLoans)
    requires p.user != ""
    ensures OfUser(p).page == p.page && OfUser(p).size == p.size
    ensures forall loan, at :: WantsLoan(OfUser(p).filter, loan, at) <==>
              loan.userId == p.user && (p.status.Some? ==> loan.status == p.status.value)
    ensures Live(w.cache, UserLoansKey(p), w.now).None? ==>
              && (GetUserLoans(w, p).1 == Err(NotFound(UserEntity)) <==> !Registered(w.db, p.user))
              && (Registered(w.db, p.user) ==>
                  GetUserLoans(w, p).1 == Ok(LoansAnswer(ListLoans(w.db, OfUser(p), w.now))))
  {
  }
}
