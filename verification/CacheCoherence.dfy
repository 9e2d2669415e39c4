/** The book caches never serve anything but the current answer, as JSON. */
module CacheCoherence {
  import opened Domain
  import opened Circulation
  import opened Integrity
  import opened CacheKeys
  import opened Views
  import opened Library
  import opened SerialRuns

  // ---------- which entries survive a transaction ----------

  // Transactions that can change what a list of books or some single book shows.
  predicate ShowsInLists(op: Op) {
    op.EditAuthor? || op.RemoveAuthor? || op.AddBook? || op.EditBook? || op.RemoveBook?
    || op.Borrow? || op.GiveBack? || op.Cancel?
  }

  predicate ShowsInBook(op: Op, db: Db, id: Id) {
    || op.EditAuthor? || op.RemoveAuthor?
    || ((op.EditBook? || op.RemoveBook? || op.Borrow?) && op.book == id)
    || ((op.GiveBack? || op.Cancel?) && op.loan in db.loans && db.loans[op.loan].bookId == id)
  }

  predicate SurvivesIn(after: Store, before: Store, key: string) {
    key in after ==> key in before && after[key] == before[key]
  }

  lemma ListSurvivor(cache: Store, op: Op, db: Db, q: Query)
    ensures SurvivesIn(Invalidated(cache, op, db), cache, ListKey(q))
    ensures ListKey(q) in Invalidated(cache, op, db) && LoanKnown(op, db) ==> !ShowsInLists(op)
  {
    FamiliesApart("", q, "", EVERY_LOAN, UserLoans("", 1, 1, None), SomeUser(op, db));
  }

  lemma BookSurvivor(cache: Store, op: Op, db: Db, id: Id)
    ensures SurvivesIn(Invalidated(cache, op, db), cache, BookKey(id))
    ensures BookKey(id) in Invalidated(cache, op, db) && LoanKnown(op, db) ==> !ShowsInBook(op, db, id)
  {
    FamiliesApart(id, EVERYTHING, "", EVERY_LOAN, UserLoans("", 1, 1, None), SomeUser(op, db));
  }

  // The user whose lists of loans the service deletes.
  function SomeUser(op: Op, db: Db): Id {
    match op
    case Borrow(_, user, _) => user
    case GiveBack(loan) => if loan in db.loans then db.loans[loan].userId else ""
    case Cancel(loan) => if loan in db.loans then db.loans[loan].userId else ""
    case Pay(loan) => if loan in db.loans then db.loans[loan].userId else ""
    case Redate(loan, _) => if loan in db.loans then db.loans[loan].userId else ""
    case _ => ""
  }

  // After a return or a cancellation committed, its loan is in the table.
  predicate LoanKnown(op: Op, db: Db) {
    op.GiveBack? || op.Cancel? ==> op.loan in db.loans
  }

  // ---------- what the surviving entries show is unchanged ----------

  lemma BookRowUntouched(db: Db, now: Time, op: Op, after: Db, id: Id)
    requires Perform(db, now, op) == Committed(after) && !ShowsInBook(op, after, id) && id in db.books
    ensures id in after.books && after.books[id] == db.books[id]
  {
  }

  lemma AuthorRowUntouched(db: Db, now: Time, op: Op, after: Db, author: Id)
    requires Perform(db, now, op) == Committed(after) && !op.EditAuthor? && !op.RemoveAuthor? && author in db.authors
    ensures author in after.authors && after.authors[author] == db.authors[author]
  {
  }

  lemma BookUntouched(db: Db, now: Time, op: Op, after: Db, id: Id)
    requires Perform(db, now, op) == Committed(after) && !ShowsInBook(op, after, id) && BookVisible(db, id)
    ensures BookVisible(after, id) && ViewBook(after, id) == ViewBook(db, id)
  {
    BookRowUntouched(db, now, op, after, id);
    AuthorRowUntouched(db, now, op, after, db.books[id].authorId);
  }

  lemma ListsUntouched(db: Db, now: Time, op: Op, after: Db, q: Query)
    requires BooksRefer(db) && Perform(db, now, op) == Committed(after) && !ShowsInLists(op)
    ensures ListBooks(after, q) == ListBooks(db, q)
  {
    assert after.books == db.books && after.bookOrder == db.bookOrder;
    assert forall a | a in db.authors :: a in after.authors && after.authors[a] == db.authors[a];
    SameViews(db, after, q, db.bookOrder);
  }

  lemma {:induction false} SameViews(db: Db, after: Db, q: Query, order: seq<Id>)
    requires BooksRefer(db) && after.books == db.books
    requires forall a | a in db.authors :: a in after.authors && after.authors[a] == db.authors[a]
    ensures ListedViews(after, q, order) == ListedViews(db, q, order)
  {
    if order != [] {
      SameViews(db, after, q, order[..|order| - 1]);
      var id := order[|order| - 1];
      assert Lists(after, q, id) == Lists(db, q, id);
    }
  }

  // ---------- the invariant ----------

  // What is cached for a read is what the read would answer now without the cache.
  ghost predicate EntryCurrent(w: World, read: Step)
    requires IsRead(read)
  {
    KeyOf(read) in w.cache ==> Uncached(w, read).Ok? && w.cache[KeyOf(read)].value == Json(Uncached(w, read).value)
  }

  predicate BookRead(read: Step) {
    read.ReadBook? || read.ReadBooks?
  }

  lemma ReturnedLoanKnown(db: Db, now: Time, op: Op, after: Db)
    requires Perform(db, now, op) == Committed(after)
    ensures LoanKnown(op, after)
  {
  }

  lemma TransactionKeepsCurrent(w: World, op: Op, read: Step)
    requires Sound(w.db) && BookRead(read) && EntryCurrent(w, read)
    ensures EntryCurrent(Transact(w, op), read)
  {
    var done := Perform(w.db, w.now, op);
    if done.Committed? && KeyOf(read) in Transact(w, op).cache {
      ReturnedLoanKnown(w.db, w.now, op, done.db);
      match read {
        case ReadBook(id) =>
          BookSurvivor(w.cache, op, done.db, id);
          BookUntouched(w.db, w.now, op, done.db, id);
        case ReadBooks(q) =>
          ListSurvivor(w.cache, op, done.db, q);
          ListsUntouched(w.db, w.now, op, done.db, q);
      }
    }
  }

  lemma ReadKeepsCurrent(w: World, other: Step, read: Step)
    requires IsRead(other) && BookRead(read) && (KeyOf(other) == KeyOf(read) ==> other == read)
    requires EntryCurrent(w, read)
    ensures EntryCurrent(Next(w, other), read)
  {
    assert Next(w, other) == Answered(w, other).0;
  }

  // No earlier read under the same key asked for something else.
  predicate NoTwinRead(steps: seq<Step>, read: Step)
    requires IsRead(read)
  {
    forall i | 0 <= i < |steps| && IsRead(steps[i]) && KeyOf(steps[i]) == KeyOf(read) :: steps[i] == read
  }

  lemma {:induction false} CurrentInEveryRun(start: Time, steps: seq<Step>, read: Step)
    requires BookRead(read) && NoTwinRead(steps, read)
    ensures EntryCurrent(Run(Opening(start), steps), read)
  {
    if steps != [] {
      var earlier, step := steps[..|steps| - 1], steps[|steps| - 1];
      CurrentInEveryRun(start, earlier, read);
      var w := Run(Opening(start), earlier);
      if step.Write? {
        EveryRunSound(start, earlier);
        TransactionKeepsCurrent(w, step.op, read);
      } else if IsRead(step) {
        ReadKeepsCurrent(w, step, read);
      } else {
        assert Next(w, step).cache == w.cache && Next(w, step).db == w.db;
      }
    }
  }

  // ---------- what a reader sees ----------

  // Same exception, or same answer once both are rendered as JSON.
  predicate SameAnswer(r: Result<Answer>, s: Result<Answer>) {
    if r.Ok? && s.Ok? then Json(r.value) == Json(s.value) else r == s
  }

  predicate Transparent(w: World, read: Step)
    requires IsRead(read)
  {
    SameAnswer(Answered(w, read).1, Uncached(w, read))
  }

  lemma CurrentIsTransparent(w: World, read: Step)
    requires IsRead(read) && EntryCurrent(w, read)
    ensures Transparent(w, read)
  {
    if Live(w.cache, KeyOf(read), w.now).Some? {
      JsonTwice(Uncached(w, read).value);
    }
  }

  lemma OneBookPerKey(steps: seq<Step>, id: Id)
    ensures NoTwinRead(steps, ReadBook(id))
  {
    forall i | 0 <= i < |steps| && IsRead(steps[i]) && KeyOf(steps[i]) == BookKey(id)
      ensures steps[i] == ReadBook(id)
    {
      KindsApart(steps[i], ReadBook(id));
      KeysOfOneFamily(steps[i].book, id);
    }
  }

  /** In every run, `get_book` answers what the uncached query would answer now, up to how JSON renders
      `created_at`; it is the very same value exactly when it was not served from the cache. */
  lemma {:induction false} CachingBooksIsTransparent(start: Time, steps: seq<Step>, id: Id)
    ensures var w := Run(Opening(start), steps);
            && SameAnswer(GetBook(w, id).1, UncachedBook(w.db, id))
            && (GetBook(w, id).1 == UncachedBook(w.db, id) <==> Live(w.cache, BookKey(id), w.now).None?)
  {
    OneBookPerKey(steps, id);
    CurrentInEveryRun(start, steps, ReadBook(id));
    CurrentIsTransparent(Run(Opening(start), steps), ReadBook(id));
  }

  /** The second of two reads in a row answers `created_at` as text where the first answered an instant. */
  lemma SecondReadRendersTheDate(w: World, id: Id)
    requires BookVisible(w.db, id) && Live(w.cache, BookKey(id), w.now).None?
    ensures var first := GetBook(w, id);
            var second := GetBook(first.0, id).1;
            second != first.1 && SameAnswer(second, first.1)
  {
    JsonTwice(BookAnswer(ViewBook(w.db, id)));
  }

  lemma PageShowsItsOrigin(page: BookPage)
    requires forall v | v in page.items :: v.createdAt.Instant?
    ensures PageJson(page) == page <==> page.items == []
  {
    if page.items != [] {
      assert page.items[0] in page.items;
      assert PageJson(page).items[0] != page.items[0];
    }
  }

  lemma {:induction false} ListedAsInstants(db: Db, q: Query, order: seq<Id>)
    ensures forall v | v in ListedViews(db, q, order) :: v.createdAt.Instant?
  {
    if order != [] {
      ListedAsInstants(db, q, order[..|order| - 1]);
    }
  }

  /** `list_books_paginated` is as transparent, as long as no earlier read under its key asked for other
      books; only a page with items can show that it came from the cache. */
  lemma {:induction false} CachingListsIsTransparent(start: Time, steps: seq<Step>, q: Query)
    requires NoTwinRead(steps, ReadBooks(q))
    ensures var w := Run(Opening(start), steps);
            && SameAnswer(GetBooks(w, q).1, UncachedList(w.db, q))
            && (GetBooks(w, q).1 == UncachedList(w.db, q) <==>
                Live(w.cache, ListKey(q), w.now).None? || ListBooks(w.db, q).items == [])
  {
    var w := Run(Opening(start), steps);
    CurrentInEveryRun(start, steps, ReadBooks(q));
    CurrentIsTransparent(w, ReadBooks(q));
    ListedAsInstants(w.db, q, w.db.bookOrder);
    PageShowsItsOrigin(ListBooks(w.db, q));
  }
}
