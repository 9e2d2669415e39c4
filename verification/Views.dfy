/** What the services answer: serialized rows, filtered pages, and their JSON round trip. */
module Views {
  import opened Domain
  import opened Fines
  import opened Circulation
  import opened CacheKeys

  // A cached answer went through `json.dumps(.., default=str)`: its instants have become text.
  datatype Stamp = Instant(t: Time) | Rendered(t: Time)

  datatype BookView = BookView(
    id: Id, title: string, isbn: string, category: string, totalCopies: int, availableCopies: int,
    authorId: Id, authorName: string, createdAt: Stamp)

  datatype BookPage = BookPage(items: seq<BookView>, total: nat, page: Positive, size: Positive)

  datatype LoanView = LoanView(
    id: Id, userId: Id, bookId: Id, loanDate: Stamp, dueDate: Stamp,
    returnedAt: Option<Stamp>, cancelledAt: Option<Stamp>, status: LoanStatus,
    fineAmount: int, finePaidAt: Option<Stamp>, finePaidAmount: int,
    currentFineAmount: int, daysLate: int, isOverdue: bool, renewalCount: int)

  datatype LoanPage = LoanPage(items: seq<LoanView>, total: nat, page: Positive, size: Positive)

  datatype Answer =
    | BookAnswer(book: BookView) | PageAnswer(books: BookPage)
    | LoanAnswer(loan: LoanView) | LoansAnswer(loans: LoanPage)

  // ---------- serialization ----------

  function ViewBook(db: Db, id: Id): BookView
    requires id in db.books && db.books[id].authorId in db.authors
  {
    var book := db.books[id];
    BookView(id, book.title, book.isbn, book.category, book.totalCopies, book.availableCopies,
             book.authorId, db.authors[book.authorId].name, Instant(book.createdAt))
  }

  function OptionalInstant(t: Option<Time>): Option<Stamp> {
    if t.None? then None else Some(Instant(t.value))
  }

  function ReferenceDate(loan: Loan, now: Time): Time {
    if loan.status.Returned? && loan.returnedAt.Some? then loan.returnedAt.value else now
  }

  // `_serialize_loan`.
  function ViewLoan(id: Id, loan: Loan, now: Time): LoanView {
    var reference := ReferenceDate(loan, now);
    var daysLate := DaysLate(loan.dueDate, reference);
    LoanView(id, loan.userId, loan.bookId, Instant(loan.loanDate), Instant(loan.dueDate),
             OptionalInstant(loan.returnedAt), OptionalInstant(loan.cancelledAt), loan.status,
             loan.fineAmount, OptionalInstant(loan.finePaidAt), loan.finePaidAmount,
             if loan.status.Active? then Amount(loan.dueDate, reference) else loan.fineAmount,
             daysLate, loan.status.Active? && daysLate > 0, loan.renewalCount)
  }

  // ---------- lists ----------

  function Least(a: int, b: int): int {
    if a <= b then a else b
  }

  // OFFSET (page - 1) * size LIMIT size.
  function PageOf<T>(rows: seq<T>, page: Positive, size: Positive): seq<T> {
    var offset := (page - 1) * size;
    rows[Least(offset, |rows|)..Least(offset + size, |rows|)]
  }

  function Lower(c: char): char {
    if 'A' <= c <= 'Z' then 'a' + (c - 'A') else c
  }

  function Folded(s: string): string {
    seq(|s|, i requires 0 <= i < |s| => Lower(s[i]))
  }

  predicate OccursAt(text: string, part: string, i: nat) {
    i + |part| <= |text| && text[i..i + |part|] == part
  }

  predicate Contains(text: string, part: string) {
    exists i: nat | i <= |text| :: OccursAt(text, part, i)
  }

  // Case-insensitive containment; wildcards inside the filter are not given a meaning.
  predicate Like(text: string, part: string) {
    Contains(Folded(text), Folded(part))
  }

  predicate Given(filter: Option<string>) {
    filter.Some? && filter.value != ""
  }

  predicate Lists(db: Db, q: Query, id: Id) {
    && BookVisible(db, id)
    && (Given(q.title) ==> Like(db.books[id].title, q.title.value))
    && (Given(q.category) ==> db.books[id].category == q.category.value)
    && (Given(q.author) ==> Like(db.authors[db.books[id].authorId].name, q.author.value))
    && (q.available == Some(true) ==> db.books[id].availableCopies > 0)
    && (q.available == Some(false) ==> db.books[id].availableCopies == 0)
  }

  function ListedViews(db: Db, q: Query, order: seq<Id>): seq<BookView> {
    if order == [] then []
    else
      var rest := ListedViews(db, q, order[..|order| - 1]);
      var id := order[|order| - 1];
      if Lists(db, q, id) then rest + [ViewBook(db, id)] else rest
  }

  function ListBooks(db: Db, q: Query): BookPage {
    var all := ListedViews(db, q, db.bookOrder);
    BookPage(PageOf(all, q.page, q.size), |all|, q.page, q.size)
  }

  // ---------- JSON ----------

  function Text(s: Stamp): Stamp {
    Rendered(s.t)
  }

  function OptionalText(s: Option<Stamp>): Option<Stamp> {
    if s.None? then None else Some(Text(s.value))
  }

  function BookJson(v: BookView): BookView {
    v.(createdAt := Text(v.createdAt))
  }

  function LoanJson(v: LoanView): LoanView {
    v.(loanDate := Text(v.loanDate), dueDate := Text(v.dueDate), returnedAt := OptionalText(v.returnedAt),
       cancelledAt := OptionalText(v.cancelledAt), finePaidAt := OptionalText(v.finePaidAt))
  }

  function PageJson(p: BookPage): BookPage {
    p.(items := seq(|p.items|, i requires 0 <= i < |p.items| => BookJson(p.items[i])))
  }

  function LoansJson(p: LoanPage): LoanPage {
    p.(items := seq(|p.items|, i requires 0 <= i < |p.items| => LoanJson(p.items[i])))
  }

  // What comes back from the cache after an answer was stored in it.
  function Json(a: Answer): Answer {
    match a
    case BookAnswer(v) => BookAnswer(BookJson(v))
    case PageAnswer(p) => PageAnswer(PageJson(p))
    case LoanAnswer(v) => LoanAnswer(LoanJson(v))
    case LoansAnswer(p) => LoansAnswer(LoansJson(p))
  }

  /** The round trip forgets only whether an instant is still a value: doing it twice changes nothing more. */
  lemma JsonTwice(a: Answer)
    ensures Json(Json(a)) == Json(a)
  {
    if a.PageAnswer? {
      assert PageJson(PageJson(a.books)).items == PageJson(a.books).items;
    } else if a.LoansAnswer? {
      assert LoansJson(LoansJson(a.loans)).items == LoansJson(a.loans).items;
    }
  }
}
