/** Copies missing from the shelves, counted by book and counted by borrower. */
module DoubleCounting {
  import opened Domain
  import opened Circulation
  import opened Integrity
  import opened Library
  import opened SerialRuns

  ghost function MissingCopies(books: map<Id, Book>, ids: set<Id>): int
    requires ids <= books.Keys
  {
    if ids == {} then 0
    else
      var b :| b in ids;
      books[b].totalCopies - books[b].availableCopies + MissingCopies(books, ids - {b})
  }

  ghost function HeldLoans(loans: map<Id, Loan>, users: set<Id>): nat {
    if users == {} then 0
    else
      var u :| u in users;
      |ActiveOfUser(loans, u)| + HeldLoans(loans, users - {u})
  }

  function ActiveAmongBooks(loans: map<Id, Loan>, books: set<Id>): set<Id> {
    set l | l in loans && loans[l].status.Active? && loans[l].bookId in books
  }

  function ActiveAmongUsers(loans: map<Id, Loan>, users: set<Id>): set<Id> {
    set l | l in loans && loans[l].status.Active? && loans[l].userId in users
  }

  lemma SplitByBook(loans: map<Id, Loan>, books: set<Id>, b: Id)
    requires b in books
    ensures |ActiveAmongBooks(loans, books)| == |ActiveOfBook(loans, b)| + |ActiveAmongBooks(loans, books - {b})|
  {
    var one, rest := ActiveOfBook(loans, b), ActiveAmongBooks(loans, books - {b});
    assert ActiveAmongBooks(loans, books) == one + rest && one !! rest;
  }

  lemma SplitByUser(loans: map<Id, Loan>, users: set<Id>, u: Id)
    requires u in users
    ensures |ActiveAmongUsers(loans, users)| == |ActiveOfUser(loans, u)| + |ActiveAmongUsers(loans, users - {u})|
  {
    var one, rest := ActiveOfUser(loans, u), ActiveAmongUsers(loans, users - {u});
    assert ActiveAmongUsers(loans, users) == one + rest && one !! rest;
  }

  lemma {:induction false} MissingAreActive(books: map<Id, Book>, loans: map<Id, Loan>, ids: set<Id>)
    requires CopiesConserved(books, loans) && ids <= books.Keys
    ensures MissingCopies(books, ids) == |ActiveAmongBooks(loans, ids)|
  {
    if ids != {} {
      var b :| b in ids && MissingCopies(books, ids)
                           == books[b].totalCopies - books[b].availableCopies + MissingCopies(books, ids - {b});
      MissingAreActive(books, loans, ids - {b});
      SplitByBook(loans, ids, b);
    } else {
      assert ActiveAmongBooks(loans, ids) == {};
    }
  }

  lemma {:induction false} HeldAreActive(loans: map<Id, Loan>, users: set<Id>)
    requires LimitHolds(loans)
    ensures HeldLoans(loans, users) == |ActiveAmongUsers(loans, users)|
    ensures HeldLoans(loans, users) <= MAX_ACTIVE_LOANS * |users|
  {
    if users != {} {
      var u :| u in users && HeldLoans(loans, users) == |ActiveOfUser(loans, u)| + HeldLoans(loans, users - {u});
      HeldAreActive(loans, users - {u});
      SplitByUser(loans, users, u);
    } else {
      assert ActiveAmongUsers(loans, users) == {};
    }
  }

  /** In every run the copies missing over all books are the loans held over all users, at most three
      for each user the library ever had. */
  lemma {:induction false} MissingCopiesAreHeldLoans(start: Time, steps: seq<Step>)
    ensures var db := Run(Opening(start), steps).db;
            MissingCopies(db.books, db.books.Keys) == HeldLoans(db.loans, db.users.Keys) <= 3 * |db.users|
  {
    var db := Run(Opening(start), steps).db;
    EveryRunSound(start, steps);
    MissingAreActive(db.books, db.loans, db.books.Keys);
    HeldAreActive(db.loans, db.users.Keys);
    assert ActiveAmongBooks(db.loans, db.books.Keys) == ActiveLoans(db.loans);
    assert ActiveAmongUsers(db.loans, db.users.Keys) == ActiveLoans(db.loans);
    assert |db.users.Keys| == |db.users|;
  }
}
