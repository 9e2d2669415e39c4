# Library circulation, verified

A Dafny model of a digital library's transactional core, with proofs of what its services promise. It covers the
circulation of books (lending, returning, cancelling, renewing, re-dating, fines, stock, soft deletion, reservations),
the row locks the loan transactions take, the caches of books and loans, the event bus with its
notification handlers, and the daily job that sends due-date reminders.

`dafny verify dfyconfig.toml` checks the project.

## How it is built

- `Domain`, `Fines` and `Circulation` are the tables, the fine calculator and the sixteen database transactions.
  `Perform(db, now, op)` is one service call as the database sees it: the new database, or the exception that rolled it
  back. Checks come in the order of the services.
- `Rules` says what each transaction accepts, refuses and writes, by columns and counts of the tables; `Effects` which
  notices and deletions come with it and how long answers are cached; `Answers` what the answers say in every run.
- `Library` puts the clock, the database, the cache and the notifications together. A step writes, reads through a
  cache, runs the job or lets time pass; a run is any sequence of steps from an empty library.
- `Integrity`, `SerialRuns`, `DoubleCounting` and `Lifecycle` hold the invariants and the theorems over every run, from
  any start. `CacheCoherence`, `SharedKeys`, `Traces`, `LoanStaleness`, `LoanListStaleness` and `SharedLoanKeys` do so for
  the cached answers; `ReadRaces` splits one cached read and one write into their steps. `CacheKeys` and `Listings` hold
  the facts about cache keys and paginated lists, and `Scenes` a few small runs to start examples from.
- `DueLoans` is the reminder job as a whole, `OverlappingRuns` any number of its runs with their steps interleaved.
- `Locking` interleaves any number of loan transactions, each split where it waits for a row and where it commits. A
  locked read is fresh and its condition is checked again after the wait. `LockingProofs`, `BorrowingLimit` and
  `Serializability` prove what every interleaving keeps.
- `Notifications`, `Events`, `Persistence`, `LoanServices` and `CatalogueServices` are the classes: sessions,
  repositories, the cache, the bus, the job and the services, with methods that work step by step as the code does.
  Each service method is proved to be exactly one step of `Library`, so every theorem over runs is about them.

A primary key already in use is refused with `DuplicateKey`; new keys are inputs. The clock is an input as well.

## Where the code and its documentation part

- The README of the repository promises at most three active loans per user (`README.md:98`). In serial runs that holds.
  Overlapping `create_loan` calls can exceed it, since the limit is checked before any lock: k calls take a user from two
  loans to 2 + k. `LimitKeptExactly` says exactly which calls keep it, `LimitFromTheCalls` what is kept in general.
- It also promises invalidation of the cache on relevant writes (`README.md:47`). Cached loans can be wrong for up to 30
  seconds. For `get_loan`, while reads do not overlap writes, there are exactly two causes: `renew_loan` deletes nothing,
  and days late and the current fine are those of the moment of caching, so a midnight that passes once the due day is
  over makes them wrong (`CurrentExactly`). A page of loans can be wrong for two more: with the overdue filter, a due instant that passes
  changes which loans belong on it (`ListCurrentExactly`, `OverduePageStaleInARun`), and its key can be that of another
  query (below). A user's page is wrong only for the first two, or because the user has been deleted since.
- A cached answer has its dates as text where an uncached one has dates: `SecondReadRendersTheDate`.
- The key of a list does not tell an absent filter from the word None, nor a colon in a filter from a separator. Any two
  lists of books with one key can be answered with each other's page (`WrongPageServed`), and so can any two lists of
  loans that are not empty for ever (`WrongLoanPageServed`). Exactly the lists with all their text filters present,
  without colon and not None, are safe, beside those lists of loans that are always empty: `ListsTransparentExactly` and
  `OwnPageExactly`.
- A read that overlaps a write can store the old answer after the write deleted it; it is then served for 300 seconds:
  `OldAnswerServed`. `SettlesRightExactly` says exactly when that cannot happen any more.
- `total_copies` is not validated, so stock can be negative, exactly for books with a negative total.
- Loans of a deleted book can be neither returned nor cancelled: `DeletedLoansStayActive` and `ClosableExactly`.
- Overlapping runs of the job can send a reminder twice, exactly when two of them are due to send one that today does not
  have (`JobsSendOnceExactly`). From then on the query for one row or none fails for the rest of the day, and with it the
  job (`OverlapStopsTheJob`). Runs one after the other never do that.

## Model

| member | source | states |
|---|---|---|
| `SerialRuns.EveryRunSound` | app/domain/loans/services/loan_service.py:93-690 | every state of every serial run satisfies the whole invariant: references, row orders, active books have active authors, unique ISBNs, copies conserved, borrowing limit, fine ledgers, unique reservations |
| `Integrity.SoundKept` | app/domain/loans/services/loan_service.py:93-690 | each of the 16 transactions, at any instant, keeps that invariant |
| `SerialRuns.CopiesInEveryRun` | app/domain/loans/services/loan_service.py:126-142 | for every book, active or deleted, `total_copies - available_copies` is the number of its active loans, the stock never exceeds the total, and it is non-negative exactly when the total is |
| `SerialRuns.NegativeStockReachable` | app/domain/books/services/book_service.py:48-55 | the total is not validated on creation: a concrete run shows a stock of -1 |
| `SerialRuns.StockStaysInRange` | app/domain/books/services/book_service.py:201-232 | once a book's total is non-negative, no run takes its stock out of 0..total |
| `SerialRuns.RestockAcceptedExactly` | app/domain/books/services/book_service.py:201-232 | `update_book` accepts exactly the totals that cover the copies on loan, and then the stock is the total minus the loans |
| `SerialRuns.BorrowingExactly` | app/domain/loans/services/loan_service.py:97-129 | `create_loan` succeeds if and only if the user is active with fewer than three loans and the book is shown and has a copy that is not on loan |
| `SerialRuns.ClosingUndoesBorrowing` | app/domain/loans/services/loan_service.py:214-265 | returning a loan by the end of its due day, or cancelling it, restores every book and leaves every other loan as before lending; the return costs nothing |
| `SerialRuns.RenewingExactly` | app/domain/loans/services/loan_service.py:642-671 | `renew_loan` succeeds if and only if the loan is active, not past its due day, renewed fewer than twice and no user has an active reservation of its book; it changes the due date and the count of that loan and nothing else |
| `SerialRuns.DeletedLoansStayActive` | app/domain/authors/repositories/author_repository.py:88-98 | deleting a book, or its author, leaves each of its active loans active in every continuation of the run: they count against the borrower for good |
| `SerialRuns.StrandedLoansStayActive` | app/domain/loans/repositories/loan_repository.py:58-71 | an active loan of a deleted book stays active in every continuation, because neither return nor cancellation finds the book |
| `SerialRuns.ClosableExactly` | app/domain/loans/services/loan_service.py:250-265 | an active loan can still be returned in some continuation of the run, and can still be cancelled in some, if and only if its book is not deleted |
| `SerialRuns.LockableIsVisible` | app/domain/loans/repositories/loan_repository.py:58-71 | `get_book_for_update`, which does not ask for the author, accepts exactly the books `find_by_id` shows, in every run |
| `Integrity.AuthorsCoverBooksKept` | app/domain/authors/repositories/author_repository.py:88-98 | every transaction keeps each active book's author active: creation checks it, deletion cascades |
| `Integrity.IsbnsUniqueKept` | app/domain/books/services/book_service.py:26-35 | no two books, deleted ones included, share an ISBN after any transaction, so the lookup by ISBN finds at most one |
| `Integrity.AfterBorrow` | app/domain/loans/services/loan_service.py:126-148 | lending moves one copy from the shelf to the count of active loans of that book, of no other, and keeps the limit for every user |
| `Integrity.AfterClosing` | app/domain/loans/services/loan_service.py:259-265 | closing an active loan moves one copy back, once |
| `DoubleCounting.MissingCopiesAreHeldLoans` | app/domain/loans/repositories/loan_repository.py:43-56 | the copies missing over all books are the active loans over all users, at most 3 per user |
| `Rules.BorrowingRule` | app/domain/loans/services/loan_service.py:97-129 | each refusal of `create_loan` has its exact cause, in this order: user not active, three loans held, book not on show, every copy on loan; otherwise it commits |
| `Rules.NewLoanRow` | app/domain/loans/services/loan_service.py:131-148 | the new loan runs 14 days from now with nothing returned, cancelled, fined, paid or renewed, takes one copy of its book, and no other row moves |
| `Rules.GivingBackRule` | app/domain/loans/services/loan_service.py:218-257 | each refusal of `return_loan` has its exact cause: not an active loan, less than 2 per late day paid, book deleted |
| `Rules.ReturnedRow` | app/domain/loans/services/loan_service.py:259-265 | a return stores the moment it happens and 2 per day between the due day and that day, puts one copy back, and no other row moves |
| `Rules.CancellingRule` | app/domain/loans/services/loan_service.py:555-567 | a cancellation is refused exactly for a loan that is not active or a deleted book, never for a fine |
| `Rules.CancelledRow` | app/domain/loans/services/loan_service.py:569-577 | it stores its moment and fine 0, puts one copy back, and no other row moves |
| `Rules.PayingRule` | app/domain/loans/services/loan_service.py:317-345 | a payment is refused exactly on a loan that is not active, not past its due day, or paid up to today; it brings the paid amount to 2 per late day and stores its moment |
| `Rules.RenewingRule` | app/domain/loans/services/loan_service.py:637-671 | each refusal of `renew_loan` has its exact cause, in this order: past the due day, two renewals, somebody waits |
| `Rules.RedatingRule` | app/domain/loans/services/loan_service.py:519-535 | a due date is accepted exactly on an active loan and when later than the loan date; without one nothing changes |
| `Rules.ReservingRule` | app/domain/reservation/services/reservation_service.py:35-66 | each refusal of `create_reservation` has its exact cause, another user's reservation being none; it commits exactly for an active user, a book on show whose copies are all on loan and no active reservation of that user for it; with the new row |
| `Rules.UnreservingRule` | app/domain/reservation/services/reservation_service.py:89-102 | exactly an active reservation can be cancelled; it stores its moment and keeps the rest |
| `Rules.UsersRule` | app/domain/users/services/user_service.py:107-115 | exactly an active user can be deleted and is inactive afterwards; a new one is active; no other user changes |
| `Rules.NewBookRule` | app/domain/books/services/book_service.py:26-59 | a book is accepted exactly with a new ISBN and an active author; the row as sent, all copies on the shelf, created now |
| `Rules.BookEditRule` | app/domain/books/services/book_service.py:192-236 | each refusal of `update_book` has its exact cause; a non-empty title and category and a total are stored when sent, everything else stays, and the shelf is the total minus the active loans |
| `Rules.BookRemovalRule` | app/domain/books/services/book_service.py:257-266 | exactly a book on show can be deleted, and only its visibility changes |
| `Rules.NewAuthorRule` | app/domain/authors/services/author_service.py:22-29 | an author is stored active with the name and biography sent |
| `Rules.AuthorEditRule` | app/domain/authors/services/author_service.py:95-112 | exactly an active author can be edited: the name changes when a non-empty one is sent, the biography when one is sent, even none |
| `Rules.AuthorRemovalRule` | app/domain/authors/repositories/author_repository.py:88-98 | exactly an active author can be deleted; the author and exactly the author's books are hidden, and no other column moves |
| `Rules.TwoPerLateDay` | app/domain/loans/services/fine_calculator.py:5-31 | a fine is 2 per day between the due day and the day of reference |
| `Effects.CallsTellTheirParty` | app/domain/loans/services/loan_service.py:169-176 | a refused call changes nothing at all; a committed one adds exactly its notice: for whom, about which loan or reservation, of which kind, and when |
| `Effects.Lifetimes` | app/cache/redis_service.py:19-29 | an answer found in the tables is served from the cache for strictly less than 300 seconds (books) or 30 seconds (loans); an exception is never cached |
| `Effects.HitsAreServed` | app/cache/redis_service.py:8-17 | a read that hits answers the entry and does not prolong it |
| `Effects.BooksDeletedExactly` | app/domain/books/services/book_service.py:238-244 | which calls delete a cached book: exactly a change to it, a loan or the end of a loan of it, and any change to any author |
| `Effects.BookListsDeletedExactly` | app/domain/books/services/book_service.py:242-244 | which calls delete the lists of books: exactly those that can change what some list shows |
| `Effects.LoansDeletedExactly` | app/domain/loans/services/loan_service.py:614-627 | which calls delete a cached loan: exactly its lending, return, cancellation, payment and new due date, not its renewal |
| `Effects.LoanListsDeletedExactly` | app/domain/loans/services/loan_service.py:622-624 | which calls delete the lists of loans: the same ones, for any loan |
| `Effects.UserPagesDeletedExactly` | app/domain/loans/services/loan_service.py:625-627 | and the pages of a user's loans: the same ones, for a loan of that user, among ids without a colon |
| `Answers.BookAnswerInEveryRun` | app/domain/books/services/book_service.py:144-185 | in every run `get_book` finds exactly the active books of active authors and answers their row, the total minus the active loans as available, and the author's current name; the date is text exactly from the cache |
| `Answers.FoundExactly` | app/domain/books/repositories/book_repository.py:134-154 | the lookup by id asks for an active book with an active author |
| `Answers.BookListInEveryRun` | app/domain/books/services/book_service.py:99-134 | in every run in which no earlier read under its key asked for other books, a list answers the page of exactly the shown books that meet the filters, in row order and with those columns, and their number |
| `Answers.LikeExactly` | app/domain/books/repositories/book_repository.py:64-83 | a text filter matches exactly where its letters occur in a row, whatever their case |
| `Answers.LoanAnswerInEveryRun` | app/domain/loans/services/loan_service.py:48-91 | in every run `get_loan` finds exactly the loans there are and answers the row, the late days and the current fine as of some moment less than 30 seconds ago |
| `Answers.ViewShowsLoan` | app/domain/loans/services/loan_service.py:52-91 | every column of a serialized loan: late days up to the return or now, 2 per late day as the current fine of an active loan and the stored fine of a closed one, overdue exactly when active and past its due day |
| `Answers.ShownFineIsForShownDays` | app/domain/loans/services/loan_service.py:80-85 | a returned loan shows a fine of 2 per late day it shows, in every run |
| `Answers.LoanPageInEveryRun` | app/domain/loans/services/loan_service.py:419-464 | in every run a page of loans shows the page and the number of the loans its query, or one with the same key, wanted at some moment less than 30 seconds ago, each as it stood then |
| `Answers.ListedExactly` | app/domain/loans/repositories/loan_repository.py:155-180 | the loans listed are exactly those that meet the filters, each once, in row order |
| `Answers.UserPagesAreLists` | app/domain/loans/services/loan_service.py:484-494 | a user's pages list the loans of that user and status and of nobody else; without a cached page, exactly an unknown or inactive user is refused |
| `Fines.DaysLateIsDateDistance` | app/domain/loans/services/fine_calculator.py:7-32 | days late are max(0, distance of the two dates), although the guard compares full timestamps; fines are never negative |
| `Fines.PaidUntilMidnight` | app/domain/loans/services/loan_service.py:238-248 | after a payment on day d the return check passes for the rest of d, and on day d+k exactly k daily fines are owed |
| `SerialRuns.PaidUntilMidnightInEveryRun` | app/domain/loans/services/loan_service.py:238-248 | so in every continuation of a run without another payment or a new due date for that loan, while it is open: exactly the daily fine per day after the payment is owed, and returning it is refused for its fine from the next day on |
| `SerialRuns.LedgerInEveryRun` | app/domain/loans/services/loan_service.py:224-261 | in every run: active loans have `fine_amount == fine_paid_amount`, returned ones have paid at least `fine_amount`, which is the daily fine for the days from the due date to the stored return, cancelled ones have fine 0; `due_date > loan_date`; at most two renewals; the dates present match the status |
| `Integrity.LedgerKept` | app/domain/loans/services/loan_service.py:329-343 | every transaction keeps that ledger for every loan |
| `SerialRuns.PaymentsTelescope` | app/domain/loans/services/loan_service.py:334-366 | the payment amounts answered for a loan over a whole run add up to its `fine_paid_amount` |
| `SerialRuns.PayingComplementsReturning` | app/domain/loans/services/loan_service.py:245-248 | `pay_fine` succeeds on an active loan if and only if `return_loan` refuses it for its fine; the payment is positive, and after it the refusal is gone |
| `SerialRuns.ClosedLoansAreFinal` | app/domain/loans/services/loan_service.py:519-535 | a returned or cancelled loan is the same record in every continuation of the run |
| `SerialRuns.DueDateInEveryRun` | app/domain/loans/services/loan_service.py:131-140 | in runs without `update_loan`, `due_date == loan_date + 14 days + 7 * renewal_count` days, at most 28 days after the loan |
| `SerialRuns.RenewingBuysSevenDays` | app/domain/loans/services/loan_service.py:667-671 | after a renewal at t nothing is owed at any moment up to the end of day(t) + 7 |
| `SerialRuns.OneReservationInEveryRun` | app/domain/reservation/repositories/reservation_repository.py:33-47 | every run has at most one active reservation per user and book, so the lookup for one row or none never meets two |
| `Integrity.ReservationsUniqueKept` | app/domain/reservation/services/reservation_service.py:50-66 | every transaction keeps that |
| `SerialRuns.ReservedWhenBorrowedOut` | app/domain/reservation/services/reservation_service.py:40-48 | when a reservation is made, exactly all copies of the book are on active loans |
| `LockingProofs.CopiesUnderInterleaving` | app/domain/loans/services/loan_service.py:117-148 | for any number of create, return, cancel, pay and renew calls, split at their row locks and commit and interleaved in any way: every committed state conserves the copies of every book, sells nothing below zero, and credits no loan back twice |
| `LockingProofs.CommitIsSerial` | app/domain/loans/services/loan_service.py:218-265 | what a transaction commits from the rows it read under its locks is exactly what the whole service call would do at that moment |
| `LockingProofs.RefusalIsSerial` | app/domain/loans/services/loan_service.py:629-671 | a transaction is refused under its locks only when the whole service call would be refused at that moment |
| `LockingProofs.CommitOrNothing` | app/domain/loans/services/loan_service.py:144-148 | a step that ends a transaction as committed logs the call and writes what was computed; every other step leaves the database and the log alone |
| `LockingProofs.InstantsTaken` | app/domain/loans/services/loan_service.py:229-229 | which moment counts: for return, payment and renewal the one at which the loan row was locked, for lending and cancellation the one at which the book row was |
| `LockingProofs.SomeoneCanStep` | app/domain/loans/repositories/loan_repository.py:73-86 | no deadlock: while a transaction is unfinished, some transaction can step, because loan rows are taken before book rows and book rows last |
| `LockingProofs.WaitsExactly` | app/domain/loans/repositories/loan_repository.py:58-86 | an unfinished transaction waits exactly while another one holds the row it needs next |
| `LockingProofs.EverythingFinishes` | app/domain/loans/repositories/loan_repository.py:58-86 | every schedule has at most three moves per transaction, and one that cannot be continued has finished them all |
| `BorrowingLimit.LimitKeptExactly` | app/domain/loans/services/loan_service.py:106-115 | for any create calls at once, for any books, by a user with h <= 3 loans: every schedule keeps the limit of three if and only if the user is not active, or h = 3, or h plus the sum over the books of the lesser of calls and copies left is at most 3 |
| `BorrowingLimit.SomeScheduleReaches` | app/domain/loans/services/loan_service.py:106-148 | and that sum is reached exactly by some schedule of the calls |
| `BorrowingLimit.ServedIsMost` | app/domain/loans/services/loan_service.py:117-129 | no set of calls that the copies of every book can serve is larger than the one served in order |
| `BorrowingLimit.ServedIsSum` | app/domain/loans/services/loan_service.py:117-129 | and what is served in order is the sum over the books of the lesser of calls and copies left |
| `BorrowingLimit.LendingConserves` | app/domain/loans/services/loan_service.py:126-148 | in every state of every schedule of create calls, the loans the user gained are the calls that lent, and so are the copies each book lost |
| `BorrowingLimit.RaceBreaksLimit` | app/domain/loans/services/loan_service.py:106-148 | in particular k overlapping calls take any active user with two loans to exactly 2 + k, on any book with k copies |
| `BorrowingLimit.LimitFromTheCalls` | app/domain/loans/services/loan_service.py:106-115 | among any other transactions, k create calls of a user with h loans end within h + k loans when h < 3, and within max(h, 2 + k) otherwise, in every schedule |
| `Serializability.InterleavingsAreSerial` | app/domain/loans/services/loan_service.py:93-148 | while each user's create calls come one at a time, or are too few to pass the limit together, every interleaving ends in the database of its committed calls run one after the other in commit order, none of them refused |
| `Serializability.TablesHoldUnderInterleaving` | app/domain/loans/services/loan_service.py:93-148 | every schedule of any transactions, racing or not, keeps everything but the limit: references, row orders, active authors, unique ISBNs, stock, fine ledgers, unique reservations |
| `Serializability.SoundUnderInterleaving` | app/domain/loans/services/loan_service.py:93-148 | schedules that cannot pass the limit keep the limit of every user besides |
| `CacheCoherence.CachingBooksIsTransparent` | app/domain/books/services/book_service.py:144-185 | in every run `get_book` answers what the uncached lookup would answer now, as JSON renders it, after renames, cascades, stock changes and loans too; it is the very same value if and only if it was not a cache hit |
| `CacheCoherence.SecondReadRendersTheDate` | app/cache/redis_service.py:17-29 | the second of two reads differs from the first: `created_at` comes back as text |
| `Views.JsonTwice` | app/cache/redis_service.py:17-29 | a stored answer read back and stored again does not change any more |
| `SharedKeys.ListsTransparentExactly` | app/domain/books/services/book_service.py:79-141 | `list_books_paginated` answers as the uncached query in every run, whatever any client read before, if and only if title, category and author are all present, free of ':' and not the word None |
| `SharedKeys.WrongPageServed` | app/domain/books/services/book_service.py:88-97 | for any two different queries with one key, a run of three steps from the empty library answers one with the page of the other, whose total is different |
| `SharedKeys.LiteralNoneIsServedEverything` | app/domain/books/services/book_service.py:88-97 | in particular the category None is answered with the unfiltered page, and no filter at all with the empty page of the category None, each in a run from the empty library |
| `SharedKeys.CleanClientsSeeCurrentLists` | app/domain/books/services/book_service.py:79-141 | if no client ever filters by a text with ':' or by the word None, all lists are answered as without the cache |
| `CacheCoherence.CachingListsIsTransparent` | app/domain/books/services/book_service.py:79-141 | a list is answered as without the cache in every run in which no earlier read under its key asked for something else; it is the very same value if and only if it was no cache hit or the page is empty |
| `CacheKeys.KeyDeterminesQuery` | app/domain/books/services/book_service.py:88-90 | a query with three such filters shares its key with no query whatever; queries that only leave filters out share no key among themselves |
| `CacheKeys.TwinOf` | app/domain/books/services/book_service.py:88-90 | and every other query shares its key with a different query |
| `Library.StoredServedDeleted` | app/cache/redis_service.py:8-44 | what is set is read back as JSON strictly before its expiry and never after, under its key only; a deletion by key or prefix takes exactly those keys out of service |
| `ReadRaces.SettlesRightExactly` | app/domain/books/services/book_service.py:144-185 | reads split at query and store, writes at commit and deletion, any schedule: once no further write commits, every schedule settles on right answers if and only if no reader holds an answer outdated since its query and a wrong entry still has a deletion coming |
| `ReadRaces.ServedWasRight` | app/domain/books/services/book_service.py:144-185 | whatever the schedule, a served answer was right at its reader's query and was stored less than 300 seconds ago |
| `ReadRaces.OldAnswerServed` | app/domain/books/services/book_service.py:238-244 | the schedule query, commit, delete, store serves the old answer for the whole 300 seconds although every deletion is done |
| `CacheKeys.FamiliesApart` | app/domain/loans/services/loan_service.py:614-627 | which deletion patterns reach which keys: no pattern of one family touches another family |
| `LoanStaleness.AnswersAreRecent` | app/domain/loans/services/loan_service.py:182-212 | every `get_loan` answer, over all runs, is the uncached answer at some state of the run less than 30 seconds ago, and since then the loan has at most been renewed |
| `LoanStaleness.CurrentExactly` | app/domain/loans/services/loan_service.py:182-212 | a cached `get_loan` answer is the current one if and only if no renewal of the loan was committed since the read that computed it and, unless the loan is returned, it is still the day of that read or the due day is not over |
| `LoanStaleness.MidnightLeavesStaleFine` | app/domain/loans/services/loan_service.py:52-66 | a loan read before the midnight that ends its due day is still answered as not late, owing nothing, after it |
| `LoanStaleness.MidnightStaleInARun` | app/domain/loans/services/loan_service.py:182-212 | a run from the empty library, with no renewal in it, that ends in such a wrong answer |
| `Traces.AnswersHaveAnOrigin` | app/cache/redis_service.py:8-29 | every answer of every cached read, in every run, is the uncached answer to a read under the same key at a state within that read's lifetime |
| `LoanListStaleness.ListsOfLoansAreRecent` | app/domain/loans/services/loan_service.py:419-464 | every page of the list of loans is the uncached page of a state less than 30 seconds ago, since when no loan was lent, closed, paid or re-dated; it is the page asked for, unless another query with the same key was asked |
| `LoanListStaleness.ListCurrentExactly` | app/domain/loans/services/loan_service.py:419-464 | a cached page of loans whose key no earlier read used for another query is the current one if and only if it shows the same loans out of as many, and each of them was not renewed since that read and is not later by a day |
| `LoanListStaleness.SameListingWithoutOverdue` | app/domain/loans/repositories/loan_repository.py:155-174 | without the overdue filter it always shows the same loans |
| `LoanListStaleness.SameListingWhenNothingComesDue` | app/domain/loans/repositories/loan_repository.py:166-174 | with it, it does when no loan was renewed and no active loan has come due in between |
| `LoanListStaleness.OverduePageStaleInARun` | app/domain/loans/repositories/loan_repository.py:166-168 | a run in which the clock alone makes the overdue page wrong: no write, no new day, no other query |
| `SharedLoanKeys.OwnPageExactly` | app/domain/loans/services/loan_service.py:428-437 | a list of loans is answered in every run with its own page of the last 30 seconds if and only if user and book are both present, free of ':' and not the word None, or it asks for overdue loans that are closed, which is always empty |
| `SharedLoanKeys.WrongLoanPageServed` | app/domain/loans/services/loan_service.py:428-437 | for any two different lists with one key, that one excepted, a run from the empty library answers one with the page of the other, which it had at no state of the last 30 seconds |
| `SharedLoanKeys.UserNoneIsServedEverything` | app/domain/loans/services/loan_service.py:428-437 | in particular the user None is answered with the unfiltered page, and the unfiltered list with the empty page of the user None |
| `CacheKeys.LoanTwinOf` | app/domain/loans/services/loan_service.py:428-430 | every list whose user or book is absent, is the word None or has a ':' shares its key with a different one |
| `LoanListStaleness.PagesOfUsersAreRecent` | app/domain/loans/services/loan_service.py:466-512 | every page of a user's loans is the uncached answer to the same request at a state less than 30 seconds ago, since when that user's loans were at most renewed |
| `LoanListStaleness.UserPageCurrentExactly` | app/domain/loans/services/loan_service.py:466-512 | a cached page of a user's loans always shows the right loans; it is the current answer if and only if the user is still active and each loan on it was not renewed since that read and is not later by a day |
| `CacheKeys.LoanKeyDeterminesList` | app/domain/loans/services/loan_service.py:428-430 | the list key determines the query when user and book are present, free of ':' and not the word None, or merely clean in both queries |
| `CacheKeys.UserKeyDeterminesPage` | app/domain/loans/services/loan_service.py:473-475 | the key of a user's loans always determines user, page, size and status |
| `LoanStaleness.RenewalLeavesStaleDueDate` | app/domain/loans/services/loan_service.py:667-674 | a renewal right after a read makes the next answer wrong about the due date, because `renew_loan` deletes nothing from the cache |
| `LoanStaleness.RenewalStaleInARun` | app/domain/loans/services/loan_service.py:667-674 | a run from the empty library that answers the old due date after a renewal |
| `Persistence.CacheService.DeletePattern` | app/cache/redis_service.py:37-44 | the scanning loop removes exactly the keys with the prefix, in whatever order they come |
| `DueLoans.JobExactly` | app/domain/notifications/jobs/due_loan_notification_job.py:24-59 | one run only appends; every appended row is a reminder a loan warrants by the job's queries and today did not have; afterwards every warranted one is there |
| `DueLoans.RemindersByTheCalendar` | app/domain/notifications/jobs/due_loan_notification_job.py:24-59 | after a run today has a reminder of a loan if and only if it had one before, or the loan is active and due in exactly two days, due today, or past its due moment, for each of the three kinds |
| `DueLoans.ReminderRows` | app/domain/notifications/jobs/due_loan_notification_job.py:31-37 | every row the job adds is addressed to the borrower, about that loan alone, and stamped with the run |
| `DueLoans.JobIdempotent` | app/domain/notifications/jobs/due_loan_notification_job.py:24-59 | a second run at the same instant adds nothing |
| `DueLoans.JobSendsOnce` | app/domain/notifications/jobs/due_loan_notification_job.py:24-59 | a table without repeated reminders has each warranted reminder exactly once after the run |
| `DueLoans.OnlyAddsKeepsOncePerDay` | app/domain/notifications/services/notification_service.py:80-95 | appending reminders never yields a second row for a loan, a kind and a day |
| `SerialRuns.OncePerDayInEveryRun` | app/domain/notifications/repositories/notification_repository.py:51-65 | in every run there is at most one row per loan, reminder kind and day |
| `SerialRuns.EveryReminderExactlyOnce` | app/domain/notifications/jobs/due_loan_notification_job.py:24-59 | in every run, right after the job each warranted reminder of today stands in the table exactly once |
| `Notifications.NotificationRepository.ExistsForLoanToday` | app/domain/notifications/repositories/notification_repository.py:51-65 | fails if and only if two rows match, never on a table without repeated reminders; otherwise tells whether the loan has a row of that kind created today |
| `DueLoans.OncePerDayNeverStops` | app/domain/notifications/repositories/notification_repository.py:63-65 | a table without repeated reminders never stops the job |
| `OverlappingRuns.OverlapSendsOnceExactly` | app/domain/notifications/services/notification_service.py:72-95 | any number of overlapping runs, each asking for any reminders, every call split into look and insertion and all steps interleaved freely: no schedule within the day leaves a reminder twice if and only if each one asked for is there already or is asked for by at most one run |
| `OverlappingRuns.LookExactly` | app/domain/notifications/services/notification_service.py:80-95 | a look passes over a reminder that today has once, stops the run at one it has twice, and leads to an insertion exactly for one it does not have |
| `OverlappingRuns.JobsSendOnceExactly` | app/domain/notifications/jobs/due_loan_notification_job.py:24-59 | for any number of runs of the job, each querying at its own instant of the day: if and only if today already has every reminder that two of them are due to send |
| `OverlappingRuns.JobsAtOnceExactly` | app/domain/notifications/jobs/due_loan_notification_job.py:24-59 | for n runs that query at one instant: if and only if n <= 1 or the job has nothing left to send |
| `OverlappingRuns.OverlapStopsTheJob` | app/domain/notifications/jobs/due_loan_notification_job.py:24-59 | when two runs are due to send a missing reminder, some schedule is followed by an error in every run of that day while the loan warrants the reminder, whatever is appended meanwhile |
| `OverlappingRuns.OneRunIsTheJob` | app/domain/notifications/jobs/due_loan_notification_job.py:21-59 | a run that is alone and finishes leaves exactly the table of the job, so the split into steps is the same program |
| `OverlappingRuns.JobAsksExactly` | app/domain/notifications/jobs/due_loan_notification_job.py:27-59 | the calls of a run are exactly the reminders that active loans warrant at its query |
| `DueLoans.RepeatStopsTheJob` | app/domain/notifications/repositories/notification_repository.py:63-65 | once a reminder stands twice, every run of that day over any longer table stops with an error while the loan warrants it |
| `Notifications.NotificationService.SendNotification` | app/domain/notifications/services/notification_service.py:19-51 | appends one row with the given user, kind, loan and reservation |
| `Notifications.NotificationService.SendOncePerDay` | app/domain/notifications/services/notification_service.py:72-95 | appends the row and answers it, unless that loan already has one of this kind today, or fails when it has two; keeps reminders unrepeated; without a loan it always appends |
| `Persistence.DueLoanNotificationJob.Remind` | app/domain/notifications/jobs/due_loan_notification_job.py:27-37 | each loop sends once for every loan its query selected, over the growing table; it fails if and only if one of them already has that reminder twice, and what it sent before stays |
| `Persistence.DueLoanNotificationJob.Execute` | app/domain/notifications/jobs/due_loan_notification_job.py:21-59 | the three loops together leave today's reminders of every loan as the calendar asks, in the table that the job lemmas speak about, or fail if and only if some loan they ask about has a reminder of today twice |
| `Lifecycle.EveryEventToldOnce` | app/domain/loans/services/loan_service.py:169-176 | in every run each loan has exactly one creation notice, one return notice if and only if it is returned, one cancellation notice if and only if it is cancelled; reservations likewise; unknown ids have none |
| `Events.RegisteringAgainChangesNothing` | app/events/registrar_handlers.py:22-63 | registering the handlers any number of times on a bus leaves the subscriptions of the first time |
| `Events.ExactlyOneDelivery` | app/events/bus.py:8-39 | on a bus that started empty every event delivers exactly one notification, after any number of registrations |
| `Events.EventBus.Subscribe` | app/events/bus.py:8-30 | adds the handler at the end of its event type unless one of its class is there |
| `Events.EventBus.Publish` | app/events/bus.py:32-39 | the loop appends the rows of all handlers of the event's type in their order and changes no subscription |
| `Events.Handle` | app/events/loans/handlers/loan_notification_handler.py:13-62 | each handler class writes its own kind of row about the event's loan or reservation |
| `Events.RegisterEventHandlers` | app/events/registrar_handlers.py:22-63 | subscribes the five handler classes, all writing to the same table |
| `Listings.PagesPartition` | app/domain/loans/repositories/loan_repository.py:180-185 | for any list and size >= 1, pages 1..ceil(total / size) one after the other are the list, each row once and in order, and exactly the later pages are empty |
| `Listings.FiltersMeanWanted` | app/domain/loans/repositories/loan_repository.py:155-174 | a loan passes all appended filters if and only if it meets every given criterion; `overdue=False` is the complement of `overdue=True` |
| `Listings.TwoNotionsOfLate` | app/domain/loans/services/loan_service.py:58-89 | the overdue filter splits all loans; every loan shown `is_overdue` is in its list; the difference is exactly the active loans due earlier the same day, which owe 0 |
| `Persistence.LoanRepository.ListPaginated` | app/domain/loans/repositories/loan_repository.py:136-185 | the appended filters and the loop of `where` calls give that page of the wanted loans, and the total counts all wanted loans |
| `LoanServices.LoanService.constructor` | app/domain/loans/controllers/loan_controller.py:36-48 | the bus of a new service has one handler for each event type, writing to its table |
| `LoanServices.LoanService.CreateLoan` | app/domain/loans/services/loan_service.py:93-180 | database, cache and notifications afterwards are one serial step from before, whether it succeeds or raises; the answer is the new loan or the exception of the first check that fails |
| `LoanServices.LoanService.GetLoan` | app/domain/loans/services/loan_service.py:182-212 | the read-through with its 30 seconds, and the exception for an unknown loan |
| `LoanServices.LoanService.ListPaginated` | app/domain/loans/services/loan_service.py:419-464 | the read-through on the list key with its 30 seconds: the serialized page and the total of the filtered loans |
| `LoanServices.LoanService.ListByUserPaginated` | app/domain/loans/services/loan_service.py:466-512 | the read-through on the user's key, and the exception for an unknown user, raised only when nothing is cached |
| `LoanServices.LoanService.ReturnLoan` | app/domain/loans/services/loan_service.py:214-305 | one serial step; the row and the receipt carry the moment of the return and 2 per late day up to it, or it is the exception |
| `LoanServices.LoanService.PayFine` | app/domain/loans/services/loan_service.py:307-366 | one serial step, with the positive amount that was owed, 2 per late day as the paid amount and the moment of payment, or the exception |
| `LoanServices.LoanService.CancelLoan` | app/domain/loans/services/loan_service.py:551-612 | one serial step, with the cancelled loan or the exception |
| `LoanServices.LoanService.RenewLoan` | app/domain/loans/services/loan_service.py:629-690 | one serial step that leaves the cache alone, with the renewed loan or the exception |
| `LoanServices.LoanService.UpdateLoan` | app/domain/loans/services/loan_service.py:514-549 | one serial step; a given due date is stored only when later than the loan date |
| `LoanServices.LoanService.InvalidateLoanCache` | app/domain/loans/services/loan_service.py:614-627 | deletes the loan's entry, all loan lists and all lists of its user, and nothing else |
| `LoanServices.ReservationService.CreateReservation` | app/domain/reservation/services/reservation_service.py:34-86 | one serial step; success only when the user had no active reservation of the book, and the refusal for one only when the same user had one for the same book |
| `LoanServices.ReservationService.CancelReservation` | app/domain/reservation/services/reservation_service.py:88-124 | one serial step, with the cancelled reservation or the exception |
| `CatalogueServices.BookService.CreateBook` | app/domain/books/services/book_service.py:22-77 | one serial step; the new book is visible and answered as it is stored |
| `CatalogueServices.BookService.UpdateBook` | app/domain/books/services/book_service.py:187-251 | one serial step; the number of copies on loan is the same before and after |
| `CatalogueServices.BookService.DeleteBook` | app/domain/books/services/book_service.py:253-279 | one serial step; a visible book is no longer visible |
| `CatalogueServices.BookService.GetBook` | app/domain/books/services/book_service.py:144-185 | the read-through on `book:{id}` with its 300 seconds; a miss answers the columns of the row and the author's name |
| `CatalogueServices.BookService.ListBooksPaginated` | app/domain/books/services/book_service.py:79-141 | the read-through on the list key |
| `CatalogueServices.AuthorService.CreateAuthor` | app/domain/authors/services/author_service.py:18-29 | one serial step that leaves the cache alone |
| `CatalogueServices.AuthorService.UpdateAuthor` | app/domain/authors/services/author_service.py:90-122 | one serial step that drops every cached book and list |
| `CatalogueServices.AuthorService.DeleteAuthor` | app/domain/authors/services/author_service.py:65-88 | one serial step; afterwards none of the author's books is active |
| `Persistence.AuthorRepository.SoftDelete` | app/domain/authors/repositories/author_repository.py:88-98 | the loop deactivates the author and exactly the author's books |

## Left out

- Controllers, authentication, roles, schemas, middleware, rate limiting, health checks, logging, metrics, migrations
  and the scheduler's start: they have no invariant of their own.
- Users beyond their id and `is_active`: registration data and unique e-mail addresses would only add easy members.
- The report service: its figures are plain sums over the tables.
- The uncached lists of loans (`list_active`, `list_overdue`, `list_by_user`) and the paginated ones that only fix a
  filter: they would only add easy members.
- Failures between a commit and what follows it (cache deletion, publishing): a serial step is atomic.
- LockingProofs.CopiesUnderInterleaving: the interleaved model has no `update_book`, `delete_book`, `delete_author`,
  `update_loan` and no reservation writes, because these read their rows without a lock; each transaction starts with an
  empty session, so an earlier read of the same request is not modelled.
- BorrowingLimit.LimitFromTheCalls: bounds the loans by the number of calls instead of the promised three, because the
  limit is checked before any lock; `LimitKeptExactly` gives the exact condition for create calls alone.
- CacheCoherence.CachingListsIsTransparent: asks that no earlier read under the key was for another query, because such a
  read can be served instead; `ListsTransparentExactly` says for which queries that can never happen.
- LoanStaleness.AnswersAreRecent: bounds the age of an answer instead of promising the current one, because neither
  renewals nor midnight delete the cached entry; `CurrentExactly` gives the exact condition.
- LoanListStaleness.ListsOfLoansAreRecent: the page may be that of another query with the same key, because the code
  serves it; `OwnPageExactly` says for which queries that can never happen.
- LoanListStaleness.UserPageCurrentExactly: asks for a non-empty user id, because the code treats an empty one as no
  filter.
- ReadRaces.SettlesRightExactly: one key at a time, with its values abstract; a reader may query at any moment. In the
  runs of the whole library a cached read and a write are each a single step.
- The runs of the job interleave over a fixed table of loans: what other transactions do between two queries of one run
  is not modelled, and the steps are insertions and looks at instants of one day.
- The text of a loan status in a cache key: any three different texts without a colon would do.
- The order of rows where a query asks for none: modelled as the order of insertion.
- `ilike`: matching is containment after folding ASCII letters; wildcards and locales have no meaning here.
- Redis patterns: deletion by pattern is deletion by prefix, which is the only form the services use.
- Time zones: instants are naive UTC, `date.today()` is the UTC day, and each call and each run of the job happens at
  one instant.
- Money is counted in integers: every fine is a whole multiple of the daily 2, so rounding never occurs.
- The three loops of the job are three calls of one method with the loop in it; message texts, status and channel of a
  notification are fixed by its kind.
- Empty ids: a loan id is present or absent; the empty string, which the code treats as absent, is not an id.
- The reservation status FULFILLED exists but nothing reaches it.
- SQLAlchemy objects are values in the session's tables: aliasing of two references to one row is not modelled.
