/** Small runs from the empty library that other proofs start from. */
module Scenes {
  import opened Domain
  import opened Circulation
  import opened Library

  // One user, and one copy of one book.
  function Stocked(start: Time, user: Id, book: Id): Db {
    EMPTY_DB.(users := map[user := true], authors := map["a" := Author("Ana", None, true)],
              books := map[book := Book("T", "1", "C", 1, 1, "a", start, true)], bookOrder := [book])
  }

  function Stocking(user: Id, book: Id): seq<Step> {
    [Write(AddUser(user))] + [Write(AddAuthor("a", "Ana", None))] + [Write(AddBook(book, "T", "1", "C", 1, "a"))]
  }

  lemma StockingRuns(start: Time, user: Id, book: Id)
    ensures Run(Opening(start), Stocking(user, book)) == World(start, Stocked(start, user, book), map[], [])
  {
    var w, s1, s2, s3 := Opening(start), Stocking(user, book)[0], Stocking(user, book)[1], Stocking(user, book)[2];
    OneMore(w, [], s1);
    OneMore(w, [s1], s2);
    OneMore(w, [s1] + [s2], s3);
    assert [] + [s1] == [s1] && [s1] + [s2] + [s3] == Stocking(user, book);
    var w1 := World(start, EMPTY_DB.(users := map[user := true]), map[], []);
    assert Next(w, s1) == w1;
    var w2 := w1.(db := w1.db.(authors := map["a" := Author("Ana", None, true)]));
    assert Next(w1, s2) == w2;
    assert WithoutPrefix(map[], "books:list") == map[] && [] + [book] == [book];
    assert Next(w2, s3) == World(start, Stocked(start, user, book), map[], []);
  }

  // And the copy lent as loan "l".
  function Lending(user: Id, book: Id): seq<Step> {
    Stocking(user, book) + [Write(Borrow("l", user, book))]
  }

  lemma LendingRuns(start: Time, user: Id, book: Id)
    ensures var w := Run(Opening(start), Lending(user, book));
            && w.now == start && w.cache == map[]
            && w.db.loans == map["l" := NewLoan(user, book, start)] && w.db.loanOrder == ["l"]
            && w.db.reservations == map[] && BookLockable(w.db.books, book)
  {
    StockingRuns(start, user, book);
    OneMore(Opening(start), Stocking(user, book), Write(Borrow("l", user, book)));
    assert ActiveOfUser(Stocked(start, user, book).loans, user) == {};
    assert Perform(Stocked(start, user, book), start, Borrow("l", user, book)).Committed?;
    assert [] + ["l"] == ["l"];
  }
}
