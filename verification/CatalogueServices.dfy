/** The book and author services. */
module CatalogueServices {
  import opened Domain
  import opened Circulation
  import opened CacheKeys
  import opened Views
  import opened Notifications
  import opened Library
  import opened Persistence

  class BookService {
    const session: Session
    const cache: CacheService

    constructor (session: Session, cache: CacheService)
      ensures this.session == session && this.cache == cache
    {
      this.session, this.cache := session, cache;
    }

    // Catalogue steps leave the notifications `rows` alone.
    ghost function Snapshot(rows: seq<Notification>, now: Time): World
      reads session, cache
    {
      World(now, session.State(), cache.store, rows)
    }

    method CreateBook(newId: Id, title: string, isbn: string, category: string, total: int, author: Id,
                      now: Time, ghost rows: seq<Notification>) returns (r: Result<BookView>)
      modifies session, cache
      ensures Snapshot(rows, now)
           == Transact(old(Snapshot(rows, now)), AddBook(newId, title, isbn, category, total, author))
      ensures match r
              case Ok(view) => BookVisible(session.State(), newId) && view == ViewBook(session.State(), newId)
              case Err(e) =>
                Perform(old(session.State()), now, AddBook(newId, title, isbn, category, total, author)) == Refused(e)
    {
      if exists b | b in session.books :: session.books[b].isbn == isbn {
        return Err(BusinessRule(IsbnTaken));
      }
      if !(author in session.authors && session.authors[author].active) {
        return Err(NotFound(AuthorEntity));
      }
      if newId in session.books {
        return Err(DuplicateKey);
      }
      session.books := session.books[newId := Book(title, isbn, category, total, total, author, now, true)];
      session.bookOrder := session.bookOrder + [newId];
      cache.DeletePattern("books:list");
      r := Ok(ViewBook(session.State(), newId));
    }

    method Edit(row: Book, title: Option<string>, category: Option<string>, total: Option<int>) returns (book: Book)
      ensures book == EditedBook(row, title, category, total)
    {
      book := row;
      if title.Some? && title.value != "" {
        book := book.(title := title.value);
      }
      if category.Some? && category.value != "" {
        book := book.(category := category.value);
      }
      if total.Some? {
        var difference := total.value - book.totalCopies;
        book := book.(totalCopies := total.value);
        book := book.(availableCopies := book.availableCopies + difference);
      }
    }

    method UpdateBook(bookId: Id, title: Option<string>, category: Option<string>, total: Option<int>,
                      now: Time, ghost rows: seq<Notification>) returns (r: Result<Book>)
      modifies session, cache
      ensures Snapshot(rows, now) == Transact(old(Snapshot(rows, now)), EditBook(bookId, title, category, total))
      ensures match r
              case Ok(book) => bookId in session.books && book == session.books[bookId] && bookId in old(session.books)
                               && book.totalCopies - book.availableCopies
                                  == old(session.books)[bookId].totalCopies - old(session.books)[bookId].availableCopies
              case Err(e) => Perform(old(session.State()), now, EditBook(bookId, title, category, total)) == Refused(e)
    {
      if !BookVisible(session.State(), bookId) {
        return Err(NotFound(BookEntity));
      }
      var book := session.books[bookId];
      var borrowed := book.totalCopies - book.availableCopies;
      if total.Some? && total.value < borrowed {
        return Err(BusinessRule(TotalBelowBorrowed));
      }
      book := Edit(book, title, category, total);
      session.books := session.books[bookId := book];
      cache.Delete(BookKey(bookId));
      cache.DeletePattern("books:list");
      r := Ok(book);
    }

    method DeleteBook(bookId: Id, now: Time, ghost rows: seq<Notification>) returns (r: Result<()>)
      modifies session, cache
      ensures Snapshot(rows, now) == Transact(old(Snapshot(rows, now)), RemoveBook(bookId))
      ensures match r
              case Ok(_) => !BookVisible(session.State(), bookId) && BookVisible(old(session.State()), bookId)
              case Err(e) => Perform(old(session.State()), now, RemoveBook(bookId)) == Refused(e)
    {
      if !BookVisible(session.State(), bookId) {
        return Err(NotFound(BookEntity));
      }
      session.books := session.books[bookId := session.books[bookId].(active := false)];
      cache.Delete(BookKey(bookId));
      cache.DeletePattern("books:list");
      r := Ok(());
    }

    method GetBook(bookId: Id, now: Time, ghost rows: seq<Notification>) returns (r: Result<Answer>)
      modifies cache
      ensures (Snapshot(rows, now), r) == Library.GetBook(old(Snapshot(rows, now)), bookId)
      ensures r.Ok? && Live(old(cache.store), BookKey(bookId), now).None? ==>
                && bookId in session.books && session.books[bookId].authorId in session.authors
                && var book := session.books[bookId];
                   r.value == BookAnswer(BookView(
                     bookId, book.title, book.isbn, book.category, book.totalCopies, book.availableCopies,
                     book.authorId, session.authors[book.authorId].name, Instant(book.createdAt)))
    {
      var cached := cache.Get(BookKey(bookId), now);
      if cached.Some? {
        return Ok(cached.value);
      }
      if !BookVisible(session.State(), bookId) {
        return Err(NotFound(BookEntity));
      }
      var view := BookAnswer(ViewBook(session.State(), bookId));
      cache.Set(BookKey(bookId), view, now, BOOK_TTL);
      r := Ok(view);
    }

    method ListBooksPaginated(q: Query, now: Time, ghost rows: seq<Notification>) returns (r: Result<Answer>)
      modifies cache
      ensures (Snapshot(rows, now), r) == Library.GetBooks(old(Snapshot(rows, now)), q)
    {
      var cached := cache.Get(ListKey(q), now);
      if cached.Some? {
        return Ok(cached.value);
      }
      var page := PageAnswer(ListBooks(session.State(), q));
      cache.Set(ListKey(q), page, now, BOOK_TTL);
      r := Ok(page);
    }
  }

  class AuthorService {
    const session: Session
    const repository: AuthorRepository
    const cache: CacheService

    constructor (session: Session, cache: CacheService)
      ensures this.session == session && this.cache == cache && repository.session == session
    {
      var authors := new AuthorRepository(session);
      this.session, this.cache, this.repository := session, cache, authors;
    }

    ghost function Snapshot(rows: seq<Notification>, now: Time): World
      reads session, cache
    {
      World(now, session.State(), cache.store, rows)
    }

    method CreateAuthor(newId: Id, name: string, biography: Option<string>, now: Time, ghost rows: seq<Notification>)
      returns (r: Result<Author>)
      modifies session
      ensures Snapshot(rows, now) == Transact(old(Snapshot(rows, now)), AddAuthor(newId, name, biography))
      ensures match r
              case Ok(author) => newId !in old(session.authors)
                                 && newId in session.authors && author == session.authors[newId]
              case Err(e) => Perform(old(session.State()), now, AddAuthor(newId, name, biography)) == Refused(e)
    {
      if newId in session.authors {
        return Err(DuplicateKey);
      }
      var author := Author(name, biography, true);
      session.authors := session.authors[newId := author];
      r := Ok(author);
    }

    method UpdateAuthor(authorId: Id, name: Option<string>, biography: Option<Option<string>>,
                        now: Time, ghost rows: seq<Notification>) returns (r: Result<Author>)
      modifies session, cache
      ensures Snapshot(rows, now) == Transact(old(Snapshot(rows, now)), EditAuthor(authorId, name, biography))
      ensures match r
              case Ok(author) => authorId in session.authors && author == session.authors[authorId] && author.active
              case Err(e) => Perform(old(session.State()), now, EditAuthor(authorId, name, biography)) == Refused(e)
    {
      if !(authorId in session.authors && session.authors[authorId].active) {
        return Err(NotFound(AuthorEntity));
      }
      var author := session.authors[authorId];
      if name.Some? && name.value != "" {
        author := author.(name := name.value);
      }
      if biography.Some? {
        author := author.(biography := biography.value);
      }
      session.authors := session.authors[authorId := author];
      cache.DeletePattern("book:");
      cache.DeletePattern("books:list");
      r := Ok(author);
    }

    method DeleteAuthor(authorId: Id, now: Time, ghost rows: seq<Notification>) returns (r: Result<()>)
      requires repository.session == session
      modifies session, cache
      ensures Snapshot(rows, now) == Transact(old(Snapshot(rows, now)), RemoveAuthor(authorId))
      ensures match r
              case Ok(_) => forall b | b in session.books && session.books[b].authorId == authorId ::
                              !session.books[b].active
              case Err(e) => Perform(old(session.State()), now, RemoveAuthor(authorId)) == Refused(e)
    {
      if !(authorId in session.authors && session.authors[authorId].active) {
        return Err(NotFound(AuthorEntity));
      }
      repository.SoftDelete(authorId);
      cache.DeletePattern("book:");
      cache.DeletePattern("books:list");
      r := Ok(());
    }
  }
}
