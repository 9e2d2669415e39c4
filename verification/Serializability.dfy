/** Interleaved loan transactions whose result is that of their commits one after the other. */
module Serializability {
  import opened Domain
  import opened Circulation
  import opened Integrity
  import opened Locking
  import opened LockingProofs
  import opened BorrowingLimit

  // The commits of a log, performed one after the other as whole service calls.
  function Replay(db: Db, log: seq<Commit>): Db {
    if log == [] then db
    else
      var before := Replay(db, log[..|log| - 1]);
      var done := Perform(before, log[|log| - 1].at, log[|log| - 1].op);
      if done.Committed? then done.db else before
  }

  // None of them is refused.
  predicate Replays(db: Db, log: seq<Commit>) {
    log != [] ==>
      && Replays(db, log[..|log| - 1])
      && Perform(Replay(db, log[..|log| - 1]), log[|log| - 1].at, log[|log| - 1].op).Committed?
  }

  ghost predicate OneCreateAtATime(s: Sys, moves: seq<Move>) {
    forall user :: InFlightAtMost(s, moves, user, 1)
  }

  // So few calls that no limit check can be outdated: of a user with two or three loans at most one, of a
  // user with one loan at most two, of a user without loans at most three.
  ghost predicate FewCreates(s: Sys) {
    forall user :: Most(|ActiveOfUser(s.db.loans, user)|, |Creates(s.txs, user)|) <= MAX_ACTIVE_LOANS
  }

  ghost predicate LimitsSafe(s: Sys, moves: seq<Move>) {
    OneCreateAtATime(s, moves) || FewCreates(s)
  }

  ghost predicate LightlyLoaded(s: Sys) {
    forall user :: Load(s, user, 1)
  }

  lemma SafeBefore(s: Sys, moves: seq<Move>)
    requires AllStarting(s) && LimitHolds(s.db.loans) && Schedulable(s, moves) && LimitsSafe(s, moves) && moves != []
    ensures LimitsSafe(s, moves[..|moves| - 1])
    ensures LightlyLoaded(Exec(s, moves[..|moves| - 1]))
  {
    var before := moves[..|moves| - 1];
    if OneCreateAtATime(s, moves) {
      forall user
        ensures InFlightAtMost(s, before, user, 1) && Load(Exec(s, before), user, 1)
      {
        assert InFlightAtMost(s, moves, user, 1);
        assert |ActiveOfUser(s.db.loans, user)| <= MAX_ACTIVE_LOANS;
        LoadAlways(s, before, user, 1);
      }
    } else {
      forall user
        ensures Load(Exec(s, before), user, 1)
      {
        LimitFromTheCalls(s, before, user);
        assert Most(|ActiveOfUser(s.db.loans, user)|, |Creates(s.txs, user)|) <= MAX_ACTIVE_LOANS;
      }
    }
  }

  lemma StepReplays(origin: Db, s: Sys, t: nat, now: Time, newId: Id)
    requires LocksHold(s) && t in s.txs && LightlyLoaded(s)
    requires s.db == Replay(origin, s.log) && Replays(origin, s.log)
    ensures var after := Stepped(s, t, now, newId);
            after.db == Replay(origin, after.log) && Replays(origin, after.log)
  {
    var tx, after := s.txs[t], Stepped(s, t, now, newId);
    if Committing(tx) && !KeyTaken(s.db, tx, newId) {
      if tx.task.BorrowTask? {
        assert Load(s, tx.task.user, 1);
        assert t in InFlight(s, tx.task.user);
      }
      CommitIsSerial(s.db, tx, newId);
      assert after.log[..|after.log| - 1] == s.log;
    }
  }

  /** While each user's create calls come one at a time, or are so few that they cannot pass the limit together,
      every interleaving ends in the database that its committed calls produce when run one after the other in
      commit order, none refused. */
  lemma {:induction false} InterleavingsAreSerial(s: Sys, moves: seq<Move>)
    requires AllStarting(s) && LimitHolds(s.db.loans) && Schedulable(s, moves) && LimitsSafe(s, moves)
    ensures var after := Exec(s, moves);
            after.db == Replay(s.db, after.log) && Replays(s.db, after.log)
  {
    if moves != [] {
      var before, m := moves[..|moves| - 1], moves[|moves| - 1];
      SafeBefore(s, moves);
      InterleavingsAreSerial(s, before);
      LocksHoldAlways(s, before);
      StepReplays(s.db, Exec(s, before), m.t, m.now, m.newId);
    }
  }

  // ---------- the invariant of the tables, in every interleaving ----------

  // A loan is added on a book with a copy left, as the commit of a create call does.
  function Lent(db: Db, id: Id, user: Id, book: Id, now: Time): Db
    requires book in db.books
  {
    var lent := db.books[book].(availableCopies := db.books[book].availableCopies - 1);
    db.(books := db.books[book := lent], loans := db.loans[id := NewLoan(user, book, now)],
        loanOrder := db.loanOrder + [id])
  }

  lemma LendingKeepsReferences(db: Db, id: Id, user: Id, book: Id, now: Time)
    requires ReferencesHold(db) && user in db.users && book in db.books
    ensures ReferencesHold(Lent(db, id, user, book, now))
  {
  }

  lemma LendingKeepsOrders(db: Db, id: Id, user: Id, book: Id, now: Time)
    requires BookOrderHolds(db) && LoanOrderHolds(db) && id !in db.loans && book in db.books
    ensures BookOrderHolds(Lent(db, id, user, book, now)) && LoanOrderHolds(Lent(db, id, user, book, now))
  {
    assert Lent(db, id, user, book, now).books.Keys == db.books.Keys;
  }

  lemma LendingKeepsCatalogue(db: Db, id: Id, user: Id, book: Id, now: Time)
    requires AuthorsCoverBooks(db) && IsbnsUnique(db) && book in db.books
    ensures AuthorsCoverBooks(Lent(db, id, user, book, now)) && IsbnsUnique(Lent(db, id, user, book, now))
  {
    var after := Lent(db, id, user, book, now);
    assert forall b | b in after.books :: b in db.books && after.books[b].isbn == db.books[b].isbn
                                          && after.books[b].active == db.books[b].active
                                          && after.books[b].authorId == db.books[b].authorId;
  }

  lemma LendingKeepsLedgers(db: Db, id: Id, user: Id, book: Id, now: Time)
    requires LedgersHold(db) && book in db.books
    ensures LedgersHold(Lent(db, id, user, book, now))
  {
  }

  lemma LendingKeepsTables(db: Db, id: Id, user: Id, book: Id, now: Time)
    requires TablesHold(db) && id !in db.loans && user in db.users
    requires book in db.books && db.books[book].availableCopies > 0
    ensures TablesHold(Lent(db, id, user, book, now))
  {
    var after := Lent(db, id, user, book, now);
    LendingKeepsReferences(db, id, user, book, now);
    LendingKeepsOrders(db, id, user, book, now);
    LendingKeepsCatalogue(db, id, user, book, now);
    LendingKeepsLedgers(db, id, user, book, now);
    AfterBorrow(db.books, db.loans, id, NewLoan(user, book, now), after.books, after.loans);
    assert after.reservations == db.reservations;
  }

  lemma CreateCommitLends(db: Db, tx: Tx, newId: Id)
    requires tx.task.BorrowTask? && Committing(tx) && PhaseHolds(db, tx) && !KeyTaken(db, tx, newId)
    ensures newId !in db.loans && tx.task.user in db.users && tx.task.book in db.books
    ensures db.books[tx.task.book].availableCopies > 0
    ensures Written(db, tx, newId) == Lent(db, newId, tx.task.user, tx.task.book, tx.phase.now)
  {
  }

  lemma CreateCommitKeepsTables(db: Db, tx: Tx, newId: Id)
    requires TablesHold(db) && Committing(tx) && PhaseHolds(db, tx) && !KeyTaken(db, tx, newId) && tx.task.BorrowTask?
    ensures TablesHold(Written(db, tx, newId))
  {
    CreateCommitLends(db, tx, newId);
    LendingKeepsTables(db, newId, tx.task.user, tx.task.book, tx.phase.now);
  }

  lemma OtherCommitKeepsTables(db: Db, tx: Tx, newId: Id)
    requires TablesHold(db) && Committing(tx) && PhaseHolds(db, tx) && !tx.task.BorrowTask?
    ensures TablesHold(Written(db, tx, newId))
  {
    CommitIsSerial(db, tx, newId);
    TablesKept(db, tx.phase.now, OpOf(tx.task, newId), Written(db, tx, newId));
  }

  lemma StepKeepsTables(s: Sys, t: nat, now: Time, newId: Id)
    requires LocksHold(s) && t in s.txs && TablesHold(s.db)
    ensures TablesHold(Stepped(s, t, now, newId).db)
  {
    if Committing(s.txs[t]) && !KeyTaken(s.db, s.txs[t], newId) {
      if s.txs[t].task.BorrowTask? {
        CreateCommitKeepsTables(s.db, s.txs[t], newId);
      } else {
        OtherCommitKeepsTables(s.db, s.txs[t], newId);
      }
    }
  }

  /** In every interleaving of any transactions, racing or not, every committed state keeps everything but the
      borrowing limit: references, row orders, active authors, unique ISBNs, stock, fine ledgers, reservations. */
  lemma {:induction false} TablesHoldUnderInterleaving(s: Sys, moves: seq<Move>)
    requires AllStarting(s) && TablesHold(s.db) && Schedulable(s, moves)
    ensures TablesHold(Exec(s, moves).db)
  {
    if moves != [] {
      var before, m := Exec(s, moves[..|moves| - 1]), moves[|moves| - 1];
      TablesHoldUnderInterleaving(s, moves[..|moves| - 1]);
      LocksHoldAlways(s, moves[..|moves| - 1]);
      StepKeepsTables(before, m.t, m.now, m.newId);
    }
  }

  lemma {:induction false} ReplayKeepsSound(db: Db, log: seq<Commit>)
    requires Sound(db) && Replays(db, log)
    ensures Sound(Replay(db, log))
  {
    if log != [] {
      var before := Replay(db, log[..|log| - 1]);
      ReplayKeepsSound(db, log[..|log| - 1]);
      SoundKept(before, log[|log| - 1].at, log[|log| - 1].op, Replay(db, log));
    }
  }

  /** Interleavings that cannot pass the limit keep the limit of every user besides. */
  lemma {:induction false} SoundUnderInterleaving(s: Sys, moves: seq<Move>)
    requires AllStarting(s) && Sound(s.db) && Schedulable(s, moves) && LimitsSafe(s, moves)
    ensures Sound(Exec(s, moves).db)
  {
    InterleavingsAreSerial(s, moves);
    ReplayKeepsSound(s.db, Exec(s, moves).log);
  }
}
