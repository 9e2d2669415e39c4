/** Interleaved loan transactions: copies stay conserved, nobody waits for ever, and commits are serial. */
module LockingProofs {
  import opened Domain
  import opened Fines
  import opened Circulation
  import opened Integrity
  import opened Locking

  // ---------- the invariant ----------

  // What a transaction has read under a lock is still what the database says.
  ghost predicate PhaseHolds(db: Db, tx: Tx) {
    match tx.phase
    case Start => true
    case Checked => tx.task.BorrowTask? && UserVisible(db, tx.task.user)
    case LoanHeld(row, now) =>
      && (tx.task.ReturnTask? || tx.task.CancelTask?)
      && LoanActive(db.loans, tx.task.loan) && db.loans[tx.task.loan] == row
      && (tx.task.ReturnTask? ==> !FineUnpaid(row, now))
    case BookHeld(stock, _) =>
      && tx.task.BorrowTask? && UserVisible(db, tx.task.user)
      && BookLockable(db.books, tx.task.book) && db.books[tx.task.book].availableCopies == stock > 0
    case BothHeld(row, stock, now) =>
      && (tx.task.ReturnTask? || tx.task.CancelTask?)
      && LoanActive(db.loans, tx.task.loan) && db.loans[tx.task.loan] == row
      && (tx.task.ReturnTask? ==> !FineUnpaid(row, now))
      && BookLockable(db.books, row.bookId) && db.books[row.bookId].availableCopies == stock
    case LoanReady(row, now) =>
      && (tx.task.PayTask? || tx.task.RenewTask?)
      && LoanActive(db.loans, tx.task.loan) && db.loans[tx.task.loan] == row
      && (tx.task.PayTask? ==> Amount(row.dueDate, now) > 0 && Owed(row, now) > 0)
      && (tx.task.RenewTask? ==> DaysLate(row.dueDate, now) <= 0 && row.renewalCount < MAX_RENEWALS
                                 && !Reserved(db.reservations, row.bookId))
    case Done(_) => true
  }

  ghost predicate PhasesHold(s: Sys) {
    forall t | t in s.txs :: PhaseHolds(s.db, s.txs[t])
  }

  ghost predicate LocksExclusive(s: Sys) {
    && (forall t, u, l | t in s.txs && u in s.txs && HoldsLoan(s.txs[t], l) && HoldsLoan(s.txs[u], l) :: t == u)
    && (forall t, u, b | t in s.txs && u in s.txs && HoldsBook(s.txs[t], b) && HoldsBook(s.txs[u], b) :: t == u)
  }

  predicate Credits(c: Commit, loan: Id) {
    c.op == GiveBack(loan) || c.op == Cancel(loan)
  }

  // Every loan credits its copy back at most once, and then it is closed.
  ghost predicate CreditsOnce(db: Db, log: seq<Commit>) {
    && (forall i, l | 0 <= i < |log| && Credits(log[i], l) :: l in db.loans && !db.loans[l].status.Active?)
    && (forall i, j, l | 0 <= i < j < |log| && Credits(log[i], l) :: !Credits(log[j], l))
  }

  ghost predicate LocksHold(s: Sys) {
    PhasesHold(s) && LocksExclusive(s)
  }

  ghost predicate DataHolds(s: Sys) {
    LoansRefer(s.db) && StockHolds(s.db.books, s.db.loans) && CreditsOnce(s.db, s.log)
  }

  // Any number of transactions about to start.
  ghost predicate AllStarting(s: Sys) {
    && (forall t | t in s.txs :: s.txs[t].phase == Start)
    && s.log == [] && LoansRefer(s.db) && StockHolds(s.db.books, s.db.loans)
  }

  // ---------- a commit is the serial service call ----------

  /** Committing what was computed under the locks writes exactly what the whole service call would write
      now, at the instant the transaction took. Only `create_loan` can differ: its limit was checked
      before any lock, so the serial call might refuse. */
  lemma CommitIsSerial(db: Db, tx: Tx, newId: Id)
    requires Committing(tx) && PhaseHolds(db, tx) && !KeyTaken(db, tx, newId)
    requires tx.task.BorrowTask? ==> |ActiveOfUser(db.loans, tx.task.user)| < MAX_ACTIVE_LOANS
    ensures Perform(db, tx.phase.now, OpOf(tx.task, newId)) == Committed(Written(db, tx, newId))
  {
  }

  // The instant a step judges by: the one taken with the loan row for the rest of `return_loan` and for a
  // commit, and the present one otherwise.
  function Judging(tx: Tx, now: Time): Time {
    match tx.phase
    case LoanHeld(_, taken) => if tx.task.ReturnTask? then taken else now
    case BookHeld(_, taken) => taken
    case BothHeld(_, _, taken) => taken
    case LoanReady(_, taken) => taken
    case _ => now
  }

  /** A transaction is refused under its locks only when the whole service call would be refused right then. */
  lemma RefusalIsSerial(s: Sys, t: nat, now: Time, newId: Id)
    requires PhasesHold(s) && CanStep(s, t) && Stepped(s, t, now, newId).txs[t].phase == Done(false)
    ensures Perform(s.db, Judging(s.txs[t], now), OpOf(s.txs[t].task, newId)).Refused?
  {
  }

  /** A step ends a transaction as committed exactly when it logs the call, with the instant the transaction took,
      and writes what the transaction computed; any other step leaves the database and the log alone. */
  lemma CommitOrNothing(s: Sys, t: nat, now: Time, newId: Id)
    requires PhasesHold(s) && CanStep(s, t)
    ensures var before, after := s.txs[t], Stepped(s, t, now, newId);
            if after.txs[t].phase == Done(true)
            then Committing(before) && after.db == Written(s.db, before, newId)
                 && after.log == s.log + [Commit(OpOf(before.task, newId), Judging(before, now))]
            else after.db == s.db && after.log == s.log
  {
  }

  /** Which moment a transaction works with: `return_loan`, `pay_fine` and `renew_loan` the one at which they got the
      loan row, `create_loan` and `cancel_loan` the one at which they got the book row. */
  lemma InstantsTaken(s: Sys, t: nat, now: Time, newId: Id)
    requires PhasesHold(s) && CanStep(s, t)
    ensures var before, phase := s.txs[t], Stepped(s, t, now, newId).txs[t].phase;
            && (phase.LoanHeld? || phase.LoanReady? || phase.BookHeld? ==> phase.now == now)
            && (phase.BothHeld? ==> phase.now == if before.task.ReturnTask? then before.phase.now else now)
  {
  }

  // A row is locked by whoever is past it and not yet done.
  predicate LoanLocked(tx: Tx, l: Id) {
    && !tx.task.BorrowTask? && tx.task.loan == l
    && (tx.phase.LoanHeld? || tx.phase.BothHeld? || tx.phase.LoanReady?)
  }

  predicate BookLocked(tx: Tx, b: Id) {
    || (tx.phase.BookHeld? && tx.task.BorrowTask? && tx.task.book == b)
    || (tx.phase.BothHeld? && tx.phase.row.bookId == b)
  }

  /** An unfinished transaction waits exactly while another one holds the row it needs next. */
  lemma WaitsExactly(s: Sys, t: nat)
    requires PhasesHold(s) && t in s.txs && !s.txs[t].phase.Done?
    ensures !CanStep(s, t) <==>
            exists u | u in s.txs && u != t :: Blocks(s.txs[u], s.txs[t])
  {
    var tx := s.txs[t];
    if u :| u in s.txs && u != t && Blocks(s.txs[u], tx) {
      if tx.phase.Start? {
        assert HoldsLoan(s.txs[u], tx.task.loan);
      } else if tx.phase.Checked? {
        assert HoldsBook(s.txs[u], tx.task.book);
      } else {
        assert HoldsBook(s.txs[u], tx.phase.row.bookId);
      }
    }
    if !CanStep(s, t) {
      BlockerExists(s, t);
    }
  }

  predicate Blocks(other: Tx, tx: Tx) {
    || (tx.phase.Start? && !tx.task.BorrowTask? && LoanLocked(other, tx.task.loan))
    || (tx.phase.Checked? && tx.task.BorrowTask? && BookLocked(other, tx.task.book))
    || (tx.phase.LoanHeld? && BookLocked(other, tx.phase.row.bookId))
  }

  lemma BlockerExists(s: Sys, t: nat)
    requires PhasesHold(s) && t in s.txs && !s.txs[t].phase.Done? && !CanStep(s, t)
    ensures exists u | u in s.txs && u != t :: Blocks(s.txs[u], s.txs[t])
  {
    var tx := s.txs[t];
    match tx.phase {
      case Start =>
        var u :| u in s.txs && u != t && HoldsLoan(s.txs[u], tx.task.loan);
        assert Blocks(s.txs[u], tx);
      case Checked =>
        var u :| u in s.txs && u != t && HoldsBook(s.txs[u], tx.task.book);
        assert Blocks(s.txs[u], tx);
      case LoanHeld(row, _) =>
        var u :| u in s.txs && u != t && HoldsBook(s.txs[u], row.bookId);
        assert Blocks(s.txs[u], tx);
      case _ =>
    }
  }

  // ---------- steps keep the invariant ----------

  lemma AdvancingHolds(db: Db, tx: Tx, now: Time)
    requires PhaseHolds(db, tx) && !Committing(tx)
    ensures PhaseHolds(db, tx.(phase := Advanced(db, tx, now)))
  {
  }

  // The rows a commit writes are the ones its transaction holds.
  lemma WrittenLoanMap(db: Db, tx: Tx, newId: Id) returns (row: Loan)
    requires Committing(tx)
    ensures Written(db, tx, newId).loans == db.loans[if tx.task.BorrowTask? then newId else tx.task.loan := row]
  {
    row := Written(db, tx, newId).loans[if tx.task.BorrowTask? then newId else tx.task.loan];
  }

  lemma WrittenLoans(db: Db, tx: Tx, newId: Id, l: Id)
    requires Committing(tx) && PhaseHolds(db, tx) && !KeyTaken(db, tx, newId)
    requires l in db.loans && !HoldsLoan(tx, l)
    ensures l in Written(db, tx, newId).loans && Written(db, tx, newId).loans[l] == db.loans[l]
  {
    var row := WrittenLoanMap(db, tx, newId);
  }

  lemma WrittenBooks(db: Db, tx: Tx, newId: Id, b: Id)
    requires Committing(tx) && PhaseHolds(db, tx) && !KeyTaken(db, tx, newId)
    requires b in db.books && !HoldsBook(tx, b)
    ensures b in Written(db, tx, newId).books && Written(db, tx, newId).books[b] == db.books[b]
  {
  }

  lemma OthersUntouched(db: Db, tx: Tx, newId: Id, other: Tx)
    requires Committing(tx) && PhaseHolds(db, tx) && !KeyTaken(db, tx, newId) && PhaseHolds(db, other)
    requires forall l :: !(HoldsLoan(tx, l) && HoldsLoan(other, l))
    requires forall b :: !(HoldsBook(tx, b) && HoldsBook(other, b))
    ensures PhaseHolds(Written(db, tx, newId), other)
  {
    match other.phase {
      case LoanHeld(_, _) =>
        assert HoldsLoan(other, other.task.loan);
        WrittenLoans(db, tx, newId, other.task.loan);
      case BookHeld(_, _) =>
        assert HoldsBook(other, other.task.book);
        WrittenBooks(db, tx, newId, other.task.book);
      case BothHeld(row, _, _) =>
        assert HoldsLoan(other, other.task.loan) && HoldsBook(other, row.bookId);
        WrittenLoans(db, tx, newId, other.task.loan);
        WrittenBooks(db, tx, newId, row.bookId);
      case LoanReady(_, _) =>
        assert HoldsLoan(other, other.task.loan);
        WrittenLoans(db, tx, newId, other.task.loan);
      case _ =>
    }
  }

  lemma StepKeepsPhases(s: Sys, t: nat, now: Time, newId: Id)
    requires LocksHold(s) && t in s.txs
    ensures PhasesHold(Stepped(s, t, now, newId))
  {
    var tx, after := s.txs[t], Stepped(s, t, now, newId);
    forall u | u in after.txs
      ensures PhaseHolds(after.db, after.txs[u])
    {
      if !Committing(tx) {
        if u == t { AdvancingHolds(s.db, tx, now); }
      } else if u != t && !KeyTaken(s.db, tx, newId) {
        OthersUntouched(s.db, tx, newId, s.txs[u]);
      }
    }
  }

  // What the stepping transaction holds afterwards it held before, or it was free.
  lemma NewLocksWereFree(s: Sys, t: nat, now: Time, newId: Id)
    requires PhasesHold(s) && CanStep(s, t)
    ensures var tx := Stepped(s, t, now, newId).txs[t];
            && (forall l | HoldsLoan(tx, l) :: HoldsLoan(s.txs[t], l) || LoanFree(s, t, l))
            && (forall b | HoldsBook(tx, b) :: HoldsBook(s.txs[t], b) || BookFree(s, t, b))
  {
  }

  lemma StepKeepsLocks(s: Sys, t: nat, now: Time, newId: Id)
    requires LocksHold(s) && CanStep(s, t)
    ensures LocksHold(Stepped(s, t, now, newId))
  {
    StepKeepsPhases(s, t, now, newId);
    NewLocksWereFree(s, t, now, newId);
    var after := Stepped(s, t, now, newId);
    assert forall u | u in s.txs && u != t :: after.txs[u] == s.txs[u];
    assert after.txs.Keys == s.txs.Keys;
  }

  lemma CommitKeepsReferences(db: Db, tx: Tx, newId: Id)
    requires Committing(tx) && PhaseHolds(db, tx) && !KeyTaken(db, tx, newId) && LoansRefer(db)
    ensures LoansRefer(Written(db, tx, newId))
  {
  }

  lemma CommitKeepsStock(db: Db, tx: Tx, newId: Id)
    requires Committing(tx) && PhaseHolds(db, tx) && !KeyTaken(db, tx, newId)
    requires LoansRefer(db) && StockHolds(db.books, db.loans)
    ensures StockHolds(Written(db, tx, newId).books, Written(db, tx, newId).loans)
  {
    var after := Written(db, tx, newId);
    match tx.task {
      case BorrowTask(user, book) =>
        AfterBorrow(db.books, db.loans, newId, NewLoan(user, book, tx.phase.now), after.books, after.loans);
      case ReturnTask(loan) => AfterClosing(db.books, db.loans, loan, after.loans[loan], after.books, after.loans);
      case CancelTask(loan) => AfterClosing(db.books, db.loans, loan, after.loans[loan], after.books, after.loans);
      case PayTask(loan) => AfterEdit(db.books, db.loans, loan, after.loans[loan], after.loans);
      case RenewTask(loan) => AfterEdit(db.books, db.loans, loan, after.loans[loan], after.loans);
    }
  }

  lemma CommitKeepsCredits(db: Db, log: seq<Commit>, tx: Tx, newId: Id)
    requires Committing(tx) && PhaseHolds(db, tx) && !KeyTaken(db, tx, newId) && CreditsOnce(db, log)
    ensures CreditsOnce(Written(db, tx, newId), log + [Commit(OpOf(tx.task, newId), tx.phase.now)])
  {
    var after, longer := Written(db, tx, newId), log + [Commit(OpOf(tx.task, newId), tx.phase.now)];
    forall i, l | 0 <= i < |longer| && Credits(longer[i], l)
      ensures l in after.loans && !after.loans[l].status.Active?
      ensures i < |log| ==> !Credits(longer[|log|], l)
    {
      if i < |log| {
        assert longer[i] == log[i];
        assert !LoanActive(db.loans, l);
        WrittenLoans(db, tx, newId, l);
      }
    }
    forall i, j, l | 0 <= i < j < |longer| && Credits(longer[i], l)
      ensures !Credits(longer[j], l)
    {
      assert longer[i] == log[i];
      if j < |log| { assert longer[j] == log[j]; }
    }
  }

  lemma StepKeepsData(s: Sys, t: nat, now: Time, newId: Id)
    requires LocksHold(s) && DataHolds(s) && t in s.txs
    ensures DataHolds(Stepped(s, t, now, newId))
  {
    var tx := s.txs[t];
    if Committing(tx) && !KeyTaken(s.db, tx, newId) {
      CommitKeepsReferences(s.db, tx, newId);
      CommitKeepsStock(s.db, tx, newId);
      CommitKeepsCredits(s.db, s.log, tx, newId);
    }
  }

  lemma {:induction false} LocksHoldAlways(s: Sys, moves: seq<Move>)
    requires AllStarting(s) && Schedulable(s, moves)
    ensures LocksHold(Exec(s, moves)) && DataHolds(Exec(s, moves))
  {
    if moves != [] {
      var m := moves[|moves| - 1];
      LocksHoldAlways(s, moves[..|moves| - 1]);
      StepKeepsLocks(Exec(s, moves[..|moves| - 1]), m.t, m.now, m.newId);
      StepKeepsData(Exec(s, moves[..|moves| - 1]), m.t, m.now, m.newId);
    }
  }

  /** Under every interleaving, every committed state has each book's missing copies equal to its active
      loans, no stock sold below zero, and no loan credited twice. */
  lemma CopiesUnderInterleaving(s: Sys, moves: seq<Move>, b: Id)
    requires AllStarting(s) && Schedulable(s, moves) && b in Exec(s, moves).db.books
    ensures var after := Exec(s, moves);
            && after.db.books[b].totalCopies - after.db.books[b].availableCopies == |ActiveOfBook(after.db.loans, b)|
            && (after.db.books[b].totalCopies >= 0 ==> after.db.books[b].availableCopies >= 0)
            && forall i, j, l | 0 <= i < j < |after.log| && Credits(after.log[i], l) :: !Credits(after.log[j], l)
  {
    LocksHoldAlways(s, moves);
  }

  // ---------- progress ----------

  ghost predicate Unfinished(s: Sys, t: nat) {
    t in s.txs && !s.txs[t].phase.Done?
  }

  // Whoever holds a book row commits next without waiting.
  lemma BookHolderCanStep(s: Sys, t: nat, b: Id)
    requires PhasesHold(s) && t in s.txs && HoldsBook(s.txs[t], b)
    ensures CanStep(s, t)
  {
  }

  lemma BookWaiterWitness(s: Sys, t: nat, b: Id) returns (u: nat)
    requires PhasesHold(s) && !BookFree(s, t, b)
    ensures CanStep(s, u)
  {
    u :| u in s.txs && u != t && HoldsBook(s.txs[u], b);
    BookHolderCanStep(s, u, b);
  }

  /** No deadlock: while some transaction is unfinished, some transaction can step. The loan row is always
      taken before the book row, and the book row last. */
  lemma SomeoneCanStep(s: Sys, t: nat) returns (u: nat)
    requires PhasesHold(s) && Unfinished(s, t)
    ensures CanStep(s, u)
  {
    u := t;
    var tx := s.txs[t];
    if !CanStep(s, t) {
      match tx.phase {
        case Start =>
          var holder :| holder in s.txs && holder != t && HoldsLoan(s.txs[holder], tx.task.loan);
          u := holder;
          if !CanStep(s, holder) {
            u := BookWaiterWitness(s, holder, s.txs[holder].phase.row.bookId);
          }
        case Checked => u := BookWaiterWitness(s, t, tx.task.book);
        case LoanHeld(row, _) => u := BookWaiterWitness(s, t, row.bookId);
        case _ =>
      }
    }
  }

  function Rank(phase: Phase): nat {
    match phase
    case Start => 3
    case Checked => 2
    case LoanHeld(_, _) => 2
    case Done(_) => 0
    case _ => 1
  }

  ghost function Remaining(txs: map<nat, Tx>, ids: set<nat>): nat
    requires ids <= txs.Keys
  {
    if ids == {} then 0
    else
      var t :| t in ids;
      Rank(txs[t].phase) + Remaining(txs, ids - {t})
  }

  lemma {:induction false} RemainingWithout(txs: map<nat, Tx>, ids: set<nat>, t: nat)
    requires ids <= txs.Keys && t in ids
    ensures Remaining(txs, ids) == Rank(txs[t].phase) + Remaining(txs, ids - {t})
  {
    var u :| u in ids && Remaining(txs, ids) == Rank(txs[u].phase) + Remaining(txs, ids - {u});
    if u != t {
      RemainingWithout(txs, ids - {u}, t);
      RemainingWithout(txs, ids - {t}, u);
      assert ids - {u} - {t} == ids - {t} - {u};
    }
  }

  lemma {:induction false} RemainingSame(txs: map<nat, Tx>, after: map<nat, Tx>, ids: set<nat>)
    requires ids <= txs.Keys && ids <= after.Keys
    requires forall t | t in ids :: after[t] == txs[t]
    ensures Remaining(txs, ids) == Remaining(after, ids)
  {
    if ids != {} {
      var t :| t in ids;
      RemainingSame(txs, after, ids - {t});
      RemainingWithout(txs, ids, t);
      RemainingWithout(after, ids, t);
    }
  }

  lemma {:induction false} RemainingBound(txs: map<nat, Tx>, ids: set<nat>)
    requires ids <= txs.Keys
    ensures Remaining(txs, ids) <= 3 * |ids|
  {
    if ids != {} {
      var t :| t in ids;
      RemainingWithout(txs, ids, t);
      RemainingBound(txs, ids - {t});
    }
  }

  lemma StepUsesOne(s: Sys, t: nat, now: Time, newId: Id)
    requires PhasesHold(s) && CanStep(s, t)
    ensures var after := Stepped(s, t, now, newId);
            Remaining(after.txs, after.txs.Keys) < Remaining(s.txs, s.txs.Keys)
  {
    var after := Stepped(s, t, now, newId);
    assert after.txs.Keys == s.txs.Keys;
    assert Rank(after.txs[t].phase) < Rank(s.txs[t].phase);
    RemainingWithout(s.txs, s.txs.Keys, t);
    RemainingWithout(after.txs, s.txs.Keys, t);
    RemainingSame(s.txs, after.txs, s.txs.Keys - {t});
  }

  lemma {:induction false} MovesUseUp(s: Sys, moves: seq<Move>)
    requires AllStarting(s) && Schedulable(s, moves)
    ensures var after := Exec(s, moves);
            && after.txs.Keys == s.txs.Keys
            && Remaining(after.txs, after.txs.Keys) + |moves| <= Remaining(s.txs, s.txs.Keys)
  {
    if moves != [] {
      var m := moves[|moves| - 1];
      MovesUseUp(s, moves[..|moves| - 1]);
      LocksHoldAlways(s, moves[..|moves| - 1]);
      StepUsesOne(Exec(s, moves[..|moves| - 1]), m.t, m.now, m.newId);
    }
  }

  /** Every schedule is finite, whatever the scheduler does: at most three moves for each transaction; and
      one that cannot be continued has finished every transaction. */
  lemma {:induction false} EverythingFinishes(s: Sys, moves: seq<Move>)
    requires AllStarting(s) && Schedulable(s, moves)
    ensures |moves| <= 3 * |s.txs|
    ensures (forall t :: !CanStep(Exec(s, moves), t)) ==>
            forall t | t in Exec(s, moves).txs :: Exec(s, moves).txs[t].phase.Done?
  {
    MovesUseUp(s, moves);
    RemainingBound(s.txs, s.txs.Keys);
    assert |s.txs.Keys| == |s.txs|;
    LocksHoldAlways(s, moves);
    var after := Exec(s, moves);
    if t :| t in after.txs && !after.txs[t].phase.Done? {
      var u := SomeoneCanStep(after, t);
    }
  }
}
