/** The limit of three loans when loan transactions interleave: what every schedule keeps, what some schedule
    reaches, and exactly when the limit itself is kept. */
module BorrowingLimit {
  import opened Domain
  import opened Circulation
  import opened Integrity
  import opened Views
  import opened Locking
  import opened LockingProofs

  // The user's create_loan calls that passed the limit check and have not ended.
  function InFlight(s: Sys, user: Id): set<nat> {
    set t | t in s.txs && s.txs[t].task.BorrowTask? && s.txs[t].task.user == user
            && (s.txs[t].phase.Checked? || s.txs[t].phase.BookHeld?)
  }

  ghost predicate Load(s: Sys, user: Id, most: nat) {
    |ActiveOfUser(s.db.loans, user)| + |InFlight(s, user)| <= MAX_ACTIVE_LOANS - 1 + most
  }

  lemma SubsetNotLarger<T>(a: set<T>, b: set<T>)
    requires a <= b
    ensures |a| <= |b|
  {
    assert b == a + (b - a);
  }

  lemma CommitMovesLoad(db: Db, tx: Tx, newId: Id, user: Id)
    requires Committing(tx) && PhaseHolds(db, tx) && !KeyTaken(db, tx, newId)
    ensures |ActiveOfUser(Written(db, tx, newId).loans, user)|
         <= |ActiveOfUser(db.loans, user)| + One(tx.task.BorrowTask? && tx.task.user == user)
  {
    var loans := Written(db, tx, newId).loans;
    match tx.task {
      case BorrowTask(u, book) => ActiveSetsGrow(db.loans, newId, NewLoan(u, book, tx.phase.now), loans);
      case ReturnTask(loan) => ActiveSetsShrink(db.loans, loan, loans[loan], loans);
      case CancelTask(loan) => ActiveSetsShrink(db.loans, loan, loans[loan], loans);
      case PayTask(loan) => ActiveSetsStay(db.loans, loan, loans[loan], loans);
      case RenewTask(loan) => ActiveSetsStay(db.loans, loan, loans[loan], loans);
    }
  }

  lemma CommitEnds(s: Sys, t: nat, now: Time, newId: Id)
    requires t in s.txs && Committing(s.txs[t])
    ensures Stepped(s, t, now, newId).txs
         == s.txs[t := s.txs[t].(phase := Done(!KeyTaken(s.db, s.txs[t], newId)))]
  {
  }

  lemma EndingLeavesFlight(s: Sys, after: Sys, t: nat, committed: bool, user: Id)
    requires t in s.txs && Committing(s.txs[t]) && after.txs == s.txs[t := s.txs[t].(phase := Done(committed))]
    ensures var own := s.txs[t].task.BorrowTask? && s.txs[t].task.user == user;
            |InFlight(s, user)| == |InFlight(after, user)| + One(own)
  {
    if s.txs[t].task.BorrowTask? && s.txs[t].task.user == user {
      assert InFlight(s, user) == InFlight(after, user) + {t};
    } else {
      assert InFlight(after, user) == InFlight(s, user);
    }
  }

  lemma CommitEndsFlight(s: Sys, t: nat, now: Time, newId: Id, user: Id)
    requires t in s.txs && Committing(s.txs[t])
    ensures var own := s.txs[t].task.BorrowTask? && s.txs[t].task.user == user;
            |InFlight(s, user)| == |InFlight(Stepped(s, t, now, newId), user)| + One(own)
  {
    CommitEnds(s, t, now, newId);
    EndingLeavesFlight(s, Stepped(s, t, now, newId), t, !KeyTaken(s.db, s.txs[t], newId), user);
  }

  lemma CommitKeepsLoad(s: Sys, t: nat, now: Time, newId: Id, user: Id, most: nat)
    requires LocksHold(s) && t in s.txs && Committing(s.txs[t]) && Load(s, user, most)
    ensures Load(Stepped(s, t, now, newId), user, most)
  {
    CommitEndsFlight(s, t, now, newId, user);
    if !KeyTaken(s.db, s.txs[t], newId) { CommitMovesLoad(s.db, s.txs[t], newId, user); }
  }

  lemma AdvanceKeepsLoad(s: Sys, t: nat, now: Time, newId: Id, user: Id, most: nat)
    requires LocksHold(s) && t in s.txs && !Committing(s.txs[t]) && Load(s, user, most)
    requires |InFlight(Stepped(s, t, now, newId), user)| <= most
    ensures Load(Stepped(s, t, now, newId), user, most)
  {
    var after := Stepped(s, t, now, newId);
    if !(t in InFlight(after, user) && t !in InFlight(s, user)) {
      assert InFlight(after, user) <= InFlight(s, user);
      SubsetNotLarger(InFlight(after, user), InFlight(s, user));
    }
  }

  // At every moment of the schedule.
  ghost predicate InFlightAtMost(s: Sys, moves: seq<Move>, user: Id, most: nat) {
    && |InFlight(Exec(s, moves), user)| <= most
    && (moves != [] ==> InFlightAtMost(s, moves[..|moves| - 1], user, most))
  }

  lemma {:induction false} LoadAlways(s: Sys, moves: seq<Move>, user: Id, most: nat)
    requires AllStarting(s) && Schedulable(s, moves) && most >= 1
    requires |ActiveOfUser(s.db.loans, user)| <= MAX_ACTIVE_LOANS && InFlightAtMost(s, moves, user, most)
    ensures Load(Exec(s, moves), user, most)
  {
    if moves == [] {
      assert InFlight(s, user) == {};
    } else {
      var m := moves[|moves| - 1];
      LoadAlways(s, moves[..|moves| - 1], user, most);
      LocksHoldAlways(s, moves[..|moves| - 1]);
      var c := Exec(s, moves[..|moves| - 1]);
      if Committing(c.txs[m.t]) {
        CommitKeepsLoad(c, m.t, m.now, m.newId, user, most);
      } else {
        AdvanceKeepsLoad(c, m.t, m.now, m.newId, user, most);
      }
    }
  }

  // ---------- a bound from the calls alone ----------

  // The create calls of the user.
  function Creates(txs: map<nat, Tx>, user: Id): set<nat> {
    set t | t in txs && txs[t].task.BorrowTask? && txs[t].task.user == user
  }

  // Those that are past their limit check, passed or refused.
  function Begun(s: Sys, user: Id): set<nat> {
    set t | t in s.txs && s.txs[t].task.BorrowTask? && s.txs[t].task.user == user && !s.txs[t].phase.Start?
  }

  // The most loans a user who held `held` can get to with `calls` create calls.
  function Most(held: nat, calls: nat): nat {
    if held < MAX_ACTIVE_LOANS then held + calls
    else if MAX_ACTIVE_LOANS - 1 + calls > held then MAX_ACTIVE_LOANS - 1 + calls
    else held
  }

  ghost predicate WithinCalls(s: Sys, user: Id, held: nat) {
    && |ActiveOfUser(s.db.loans, user)| + |InFlight(s, user)| <= Most(held, |Begun(s, user)|)
    && InFlight(s, user) <= Begun(s, user)
  }

  lemma CommitStaysWithinCalls(s: Sys, t: nat, now: Time, newId: Id, user: Id, held: nat)
    requires LocksHold(s) && t in s.txs && Committing(s.txs[t]) && WithinCalls(s, user, held)
    ensures WithinCalls(Stepped(s, t, now, newId), user, held)
  {
    CommitEndsFlight(s, t, now, newId, user);
    assert Begun(Stepped(s, t, now, newId), user) == Begun(s, user);
    if !KeyTaken(s.db, s.txs[t], newId) { CommitMovesLoad(s.db, s.txs[t], newId, user); }
  }

  // The user's own create call leaves `Start`.
  lemma OwnStart(s: Sys, t: nat, now: Time, newId: Id, user: Id)
    requires t in s.txs && s.txs[t].phase.Start? && s.txs[t].task.BorrowTask? && s.txs[t].task.user == user
    ensures var after := Stepped(s, t, now, newId);
            && after.db == s.db && |Begun(after, user)| == |Begun(s, user)| + 1
            && Begun(s, user) <= Begun(after, user) && t in Begun(after, user)
            && (InFlight(after, user) == InFlight(s, user)
                || (InFlight(after, user) == InFlight(s, user) + {t}
                    && |ActiveOfUser(s.db.loans, user)| < MAX_ACTIVE_LOANS))
  {
    var after := Stepped(s, t, now, newId);
    assert Begun(after, user) == Begun(s, user) + {t};
    if after.txs[t].phase.Checked? {
      assert InFlight(after, user) == InFlight(s, user) + {t};
    } else {
      assert InFlight(after, user) == InFlight(s, user);
    }
  }

  lemma OtherStart(s: Sys, t: nat, now: Time, newId: Id, user: Id)
    requires t in s.txs && s.txs[t].phase.Start? && !(s.txs[t].task.BorrowTask? && s.txs[t].task.user == user)
    ensures var after := Stepped(s, t, now, newId);
            after.db == s.db && Begun(after, user) == Begun(s, user) && InFlight(after, user) == InFlight(s, user)
  {
  }

  lemma StartStaysWithinCalls(s: Sys, t: nat, now: Time, newId: Id, user: Id, held: nat)
    requires t in s.txs && s.txs[t].phase.Start? && WithinCalls(s, user, held)
    ensures WithinCalls(Stepped(s, t, now, newId), user, held)
  {
    if s.txs[t].task.BorrowTask? && s.txs[t].task.user == user {
      OwnStart(s, t, now, newId, user);
      SubsetNotLarger(InFlight(s, user), Begun(s, user));
    } else {
      OtherStart(s, t, now, newId, user);
    }
  }

  lemma AdvanceStaysWithinCalls(s: Sys, t: nat, now: Time, newId: Id, user: Id, held: nat)
    requires LocksHold(s) && t in s.txs && WithinCalls(s, user, held)
    requires !Committing(s.txs[t]) && !s.txs[t].phase.Start?
    ensures WithinCalls(Stepped(s, t, now, newId), user, held)
  {
    var after := Stepped(s, t, now, newId);
    assert Begun(after, user) == Begun(s, user);
    assert InFlight(after, user) <= InFlight(s, user);
    SubsetNotLarger(InFlight(after, user), InFlight(s, user));
  }

  lemma {:induction false} AlwaysWithinCalls(s: Sys, moves: seq<Move>, user: Id)
    requires AllStarting(s) && Schedulable(s, moves)
    ensures WithinCalls(Exec(s, moves), user, |ActiveOfUser(s.db.loans, user)|)
  {
    var held := |ActiveOfUser(s.db.loans, user)|;
    if moves == [] {
      assert InFlight(s, user) == {} && Begun(s, user) == {};
    } else {
      var m, c := moves[|moves| - 1], Exec(s, moves[..|moves| - 1]);
      AlwaysWithinCalls(s, moves[..|moves| - 1], user);
      LocksHoldAlways(s, moves[..|moves| - 1]);
      if Committing(c.txs[m.t]) {
        CommitStaysWithinCalls(c, m.t, m.now, m.newId, user, held);
      } else if c.txs[m.t].phase.Start? {
        StartStaysWithinCalls(c, m.t, m.now, m.newId, user, held);
      } else {
        AdvanceStaysWithinCalls(c, m.t, m.now, m.newId, user, held);
      }
    }
  }

  lemma {:induction false} TasksStay(s: Sys, moves: seq<Move>, user: Id)
    ensures Creates(Exec(s, moves).txs, user) == Creates(s.txs, user)
  {
    if moves != [] {
      TasksStay(s, moves[..|moves| - 1], user);
    }
  }

  /** A bound known before any call: a user with `h` loans and `k` create calls among any other transactions never
      holds more than `h + k` loans if `h` is below three, and never more than `max(h, 2 + k)` otherwise. */
  lemma LimitFromTheCalls(s: Sys, moves: seq<Move>, user: Id)
    requires AllStarting(s) && Schedulable(s, moves)
    ensures var after := Exec(s, moves);
            |ActiveOfUser(after.db.loans, user)| + |InFlight(after, user)|
            <= Most(|ActiveOfUser(s.db.loans, user)|, |Creates(s.txs, user)|)
  {
    AlwaysWithinCalls(s, moves, user);
    TasksStay(s, moves, user);
    SubsetNotLarger(Begun(Exec(s, moves), user), Creates(s.txs, user));
  }

  // ---------- the calls that go through ----------

  lemma OneMoreMove(s: Sys, moves: seq<Move>, m: Move)
    requires Schedulable(s, moves) && CanStep(Exec(s, moves), m.t)
    ensures Schedulable(s, moves + [m])
    ensures Exec(s, moves + [m]) == Stepped(Exec(s, moves), m.t, m.now, m.newId)
  {
    assert (moves + [m])[..|moves|] == moves;
  }

  lemma TakesTheBook(c: Sys, t: nat, user: Id, book: Id, now: Time, newId: Id)
    requires t in c.txs && c.txs[t] == Tx(BorrowTask(user, book), Checked)
    requires BookLockable(c.db.books, book) && c.db.books[book].availableCopies > 0
    ensures Stepped(c, t, now, newId)
         == c.(txs := c.txs[t := Tx(BorrowTask(user, book), BookHeld(c.db.books[book].availableCopies, now))])
  {
  }

  lemma CommitsTheLoan(c: Sys, t: nat, user: Id, book: Id, stock: int, now: Time, newId: Id)
    requires t in c.txs && c.txs[t] == Tx(BorrowTask(user, book), BookHeld(stock, now)) && newId !in c.db.loans
    ensures var after := Stepped(c, t, now, newId);
            && after.txs == c.txs[t := Tx(BorrowTask(user, book), Done(true))]
            && after.db.loans == c.db.loans[newId := NewLoan(user, book, now)]
            && after.db.books == WithStock(c.db, book, stock - 1)
  {
  }

  // A checked create call, alone at its book, commits in two moves.
  lemma BorrowGoesThrough(s: Sys, moves: seq<Move>, t: nat, user: Id, book: Id, now: Time, newId: Id)
    requires Schedulable(s, moves) && t in Exec(s, moves).txs
    requires var c := Exec(s, moves);
             && c.txs[t] == Tx(BorrowTask(user, book), Checked) && BookFree(c, t, book)
             && BookLockable(c.db.books, book) && c.db.books[book].availableCopies > 0 && newId !in c.db.loans
    ensures var c, longer := Exec(s, moves), moves + [Move(t, now, newId)] + [Move(t, now, newId)];
            && Schedulable(s, longer)
            && Exec(s, longer).txs == c.txs[t := Tx(BorrowTask(user, book), Done(true))]
            && Exec(s, longer).db.loans == c.db.loans[newId := NewLoan(user, book, now)]
            && Exec(s, longer).db.books == WithStock(c.db, book, c.db.books[book].availableCopies - 1)
  {
    var c, m := Exec(s, moves), Move(t, now, newId);
    OneMoreMove(s, moves, m);
    TakesTheBook(c, t, user, book, now, newId);
    var held := Exec(s, moves + [m]);
    OneMoreMove(s, moves + [m], m);
    CommitsTheLoan(held, t, user, book, c.db.books[book].availableCopies, now, newId);
  }

  lemma RoomShrinks(db: Db, book: Id, after: Db, b: Id)
    requires BookLockable(db.books, book) && db.books[book].availableCopies > 0
    requires after.books == WithStock(db, book, db.books[book].availableCopies - 1)
    ensures Room(after, b) + One(b == book) == Room(db, b)
  {
  }

  lemma BorrowOne(s: Sys, moves: seq<Move>, t: nat, user: Id, book: Id, now: Time, newId: Id)
    returns (longer: seq<Move>)
    requires Schedulable(s, moves) && t in Exec(s, moves).txs
    requires var c := Exec(s, moves);
             && c.txs[t] == Tx(BorrowTask(user, book), Checked) && BookFree(c, t, book)
             && BookLockable(c.db.books, book) && c.db.books[book].availableCopies > 0 && newId !in c.db.loans
    ensures Schedulable(s, longer) && LentOne(Exec(s, moves), Exec(s, longer), user, book, t, newId)
  {
    BorrowGoesThrough(s, moves, t, user, book, now, newId);
    longer := moves + [Move(t, now, newId)] + [Move(t, now, newId)];
    ActiveSetsGrow(Exec(s, moves).db.loans, newId, NewLoan(user, book, now), Exec(s, longer).db.loans);
    forall b { RoomShrinks(Exec(s, moves).db, book, Exec(s, longer).db, b); }
  }

  // Create calls of one user; call `t` is for `books[t]`.
  function Calls(user: Id, books: seq<Id>, phase: nat -> Phase): map<nat, Tx> {
    map t: nat | t < |books| :: Tx(BorrowTask(user, books[t]), phase(t))
  }

  function CreateCalls(db: Db, user: Id, books: seq<Id>): Sys {
    Sys(db, Calls(user, books, t => Start), [])
  }

  // The copies `create_loan` can still lend.
  function Room(db: Db, book: Id): nat {
    if BookLockable(db.books, book) && db.books[book].availableCopies > 0 then db.books[book].availableCopies else 0
  }

  function Count(books: seq<Id>, book: Id): nat {
    multiset(books)[book]
  }

  // How many of the calls find a copy when they are served in order.
  function Served(db: Db, books: seq<Id>): nat {
    if books == [] then 0
    else
      var earlier, book := books[..|books| - 1], books[|books| - 1];
      Served(db, earlier) + One(Count(earlier, book) < Room(db, book))
  }

  // The first `j` calls passed the limit check.
  lemma {:induction false} AllPassTheCheck(db: Db, user: Id, books: seq<Id>, j: nat, now: Time)
    returns (moves: seq<Move>)
    requires UserVisible(db, user) && |ActiveOfUser(db.loans, user)| < MAX_ACTIVE_LOANS && j <= |books|
    ensures var s := CreateCalls(db, user, books);
            && Schedulable(s, moves)
            && Exec(s, moves) == Sys(db, Calls(user, books, t => if t < j then Checked else Start), [])
  {
    var s := CreateCalls(db, user, books);
    if j == 0 {
      moves := [];
      assert Exec(s, []).txs == Calls(user, books, t => if t < 0 then Checked else Start);
    } else {
      var fewer := AllPassTheCheck(db, user, books, j - 1, now);
      var m := Move(j - 1, now, "");
      OneMoreMove(s, fewer, m);
      moves := fewer + [m];
      assert Exec(s, moves).txs == Calls(user, books, t => if t < j then Checked else Start);
    }
  }

  ghost predicate FreshIds(ids: seq<Id>, loans: map<Id, Loan>, n: nat) {
    && (forall i | n <= i < |ids| :: ids[i] !in loans)
    && (forall i, j | 0 <= i < j < |ids| :: ids[i] != ids[j])
  }

  ghost predicate TxsServed(txs: map<nat, Tx>, user: Id, books: seq<Id>, n: nat) {
    && (forall t: nat :: t in txs <==> t < |books|)
    && (forall t | t in txs :: txs[t].task == BorrowTask(user, books[t]))
    && (forall t | t in txs :: txs[t].phase.Checked? || (t < n && txs[t].phase.Done?))
  }

  ghost predicate RoomsServed(db: Db, start: Db, books: seq<Id>) {
    forall b :: Room(db, b) + Least(Count(books, b), Room(start, b)) == Room(start, b)
  }

  // The first `n` calls were served in order as far as copies reach; the others passed the check.
  ghost predicate SomeServed(c: Sys, db: Db, user: Id, books: seq<Id>, n: nat, ids: seq<Id>) {
    && n <= |books| && TxsServed(c.txs, user, books, n)
    && |ActiveOfUser(c.db.loans, user)| == |ActiveOfUser(db.loans, user)| + Served(db, books[..n])
    && RoomsServed(c.db, db, books[..n]) && FreshIds(ids, c.db.loans, n)
  }

  lemma CountGrows(books: seq<Id>, n: nat, b: Id)
    requires n < |books|
    ensures Count(books[..n + 1], b) == Count(books[..n], b) + One(b == books[n])
  {
    assert books[..n + 1] == books[..n] + [books[n]];
  }

  lemma ServedGrows(db: Db, books: seq<Id>, n: nat)
    requires n < |books|
    ensures Served(db, books[..n + 1]) == Served(db, books[..n]) + One(Count(books[..n], books[n]) < Room(db, books[n]))
  {
    assert books[..n + 1][..n] == books[..n];
  }

  // A call whose book has no copy left is passed over.
  lemma NextIsPassedOver(c: Sys, db: Db, user: Id, books: seq<Id>, n: nat, ids: seq<Id>)
    requires SomeServed(c, db, user, books, n, ids) && n < |books| <= |ids|
    requires Count(books[..n], books[n]) >= Room(db, books[n])
    ensures SomeServed(c, db, user, books, n + 1, ids)
  {
    ServedGrows(db, books, n);
    forall b
      ensures Room(c.db, b) + Least(Count(books[..n + 1], b), Room(db, b)) == Room(db, b)
    {
      CountGrows(books, n, b);
    }
  }

  // Otherwise it finds its book free and a copy on it.
  lemma NextMayBorrow(c: Sys, db: Db, user: Id, books: seq<Id>, n: nat, ids: seq<Id>)
    requires SomeServed(c, db, user, books, n, ids) && n < |books| <= |ids|
    requires Count(books[..n], books[n]) < Room(db, books[n])
    ensures n in c.txs && c.txs[n] == Tx(BorrowTask(user, books[n]), Checked) && BookFree(c, n, books[n])
    ensures BookLockable(c.db.books, books[n]) && c.db.books[books[n]].availableCopies > 0 && ids[n] !in c.db.loans
  {
    assert Room(c.db, books[n]) + Least(Count(books[..n], books[n]), Room(db, books[n])) == Room(db, books[n]);
  }

  ghost predicate LentOne(c: Sys, after: Sys, user: Id, book: Id, n: nat, id: Id) {
    && n in c.txs && after.txs == c.txs[n := Tx(BorrowTask(user, book), Done(true))]
    && after.db.loans.Keys == c.db.loans.Keys + {id}
    && |ActiveOfUser(after.db.loans, user)| == |ActiveOfUser(c.db.loans, user)| + 1
    && forall b :: Room(after.db, b) + One(b == book) == Room(c.db, b)
  }

  lemma ServingTakesOneCopy(room: nat, before: nat, after: nat, start: nat, counted: bool)
    requires before + Least(room, start) == start && after + One(counted) == before && (counted ==> room < start)
    ensures after + Least(room + One(counted), start) == start
  {
  }

  lemma RoomsAfterServing(c: Sys, after: Sys, db: Db, user: Id, books: seq<Id>, n: nat, id: Id)
    requires n < |books| && LentOne(c, after, user, books[n], n, id) && RoomsServed(c.db, db, books[..n])
    requires Count(books[..n], books[n]) < Room(db, books[n])
    ensures RoomsServed(after.db, db, books[..n + 1])
  {
    forall b
      ensures Room(after.db, b) + Least(Count(books[..n + 1], b), Room(db, b)) == Room(db, b)
    {
      CountGrows(books, n, b);
      ServingTakesOneCopy(Count(books[..n], b), Room(c.db, b), Room(after.db, b), Room(db, b), b == books[n]);
    }
  }

  lemma TxsAfterServing(txs: map<nat, Tx>, after: map<nat, Tx>, user: Id, books: seq<Id>, n: nat)
    requires TxsServed(txs, user, books, n) && n < |books|
    requires after == txs[n := Tx(BorrowTask(user, books[n]), Done(true))]
    ensures TxsServed(after, user, books, n + 1)
  {
  }

  lemma IdsAfterServing(ids: seq<Id>, loans: map<Id, Loan>, after: map<Id, Loan>, n: nat)
    requires FreshIds(ids, loans, n) && n < |ids| && after.Keys == loans.Keys + {ids[n]}
    ensures FreshIds(ids, after, n + 1)
  {
    forall i | n + 1 <= i < |ids|
      ensures ids[i] !in after
    {
      assert ids[i] !in loans && ids[i] != ids[n];
    }
  }

  lemma OneMoreServed(c: Sys, after: Sys, db: Db, user: Id, books: seq<Id>, n: nat, ids: seq<Id>)
    requires SomeServed(c, db, user, books, n, ids) && n < |books| <= |ids|
    requires Count(books[..n], books[n]) < Room(db, books[n])
    requires LentOne(c, after, user, books[n], n, ids[n])
    ensures SomeServed(after, db, user, books, n + 1, ids)
  {
    ServedGrows(db, books, n);
    RoomsAfterServing(c, after, db, user, books, n, ids[n]);
    TxsAfterServing(c.txs, after.txs, user, books, n);
    IdsAfterServing(ids, c.db.loans, after.db.loans, n);
  }

  lemma {:induction false} SomeGoThrough(db: Db, user: Id, books: seq<Id>, n: nat, ids: seq<Id>, now: Time)
    returns (moves: seq<Move>)
    requires UserVisible(db, user) && |ActiveOfUser(db.loans, user)| < MAX_ACTIVE_LOANS
    requires n <= |books| <= |ids| && FreshIds(ids, db.loans, 0)
    ensures var s := CreateCalls(db, user, books);
            Schedulable(s, moves) && SomeServed(Exec(s, moves), db, user, books, n, ids)
  {
    var s := CreateCalls(db, user, books);
    if n == 0 {
      moves := AllPassTheCheck(db, user, books, |books|, now);
      assert books[..0] == [];
    } else {
      moves := SomeGoThrough(db, user, books, n - 1, ids, now);
      var c := Exec(s, moves);
      if Count(books[..n - 1], books[n - 1]) < Room(db, books[n - 1]) {
        NextMayBorrow(c, db, user, books, n - 1, ids);
        moves := BorrowOne(s, moves, n - 1, user, books[n - 1], now, ids[n - 1]);
        OneMoreServed(c, Exec(s, moves), db, user, books, n - 1, ids);
      } else {
        NextIsPassedOver(c, db, user, books, n - 1, ids);
      }
    }
  }

  // ---------- new ids ----------

  lemma {:induction false} LongerThanAll(ids: set<Id>) returns (n: nat)
    ensures forall id | id in ids :: |id| < n
  {
    if ids == {} {
      n := 0;
    } else {
      var id :| id in ids;
      n := LongerThanAll(ids - {id});
      if n <= |id| { n := |id| + 1; }
      assert forall other | other in ids :: other == id || other in ids - {id};
    }
  }

  lemma NewIds(loans: map<Id, Loan>, n: nat) returns (ids: seq<Id>)
    ensures |ids| == n && FreshIds(ids, loans, 0)
  {
    var longer := LongerThanAll(loans.Keys);
    ids := seq(n, i requires 0 <= i < n => seq(longer + i, _ => 'x'));
    forall i | 0 <= i < n
      ensures ids[i] !in loans
    {
      assert |ids[i]| == longer + i;
    }
    forall i, j | 0 <= i < j < n
      ensures ids[i] != ids[j]
    {
      assert |ids[i]| == longer + i && |ids[j]| == longer + j;
    }
  }

  // ---------- no schedule does more ----------

  ghost predicate OnlyCreates(s: Sys, user: Id, books: seq<Id>) {
    forall t | t in s.txs :: t < |books| && s.txs[t].task == BorrowTask(user, books[t])
  }

  // The calls that lent a copy.
  function Lenders(s: Sys): set<nat> {
    set t | t in s.txs && s.txs[t].phase == Done(true)
  }

  function ForBook(calls: set<nat>, books: seq<Id>, book: Id): set<nat> {
    set t | t in calls && t < |books| && books[t] == book
  }

  // Lending conserves: loans and lenders grow together, and each book's copies shrink with its lenders.
  ghost predicate Conserved(s: Sys, db: Db, user: Id, books: seq<Id>) {
    && OnlyCreates(s, user, books)
    && |ActiveOfUser(s.db.loans, user)| == |ActiveOfUser(db.loans, user)| + |Lenders(s)|
    && forall b :: Room(s.db, b) + |ForBook(Lenders(s), books, b)| == Room(db, b)
  }

  lemma CommitMovesOneCopy(s: Sys, t: nat, newId: Id, user: Id, book: Id)
    requires LocksHold(s) && t in s.txs && Committing(s.txs[t]) && !KeyTaken(s.db, s.txs[t], newId)
    requires s.txs[t].task == BorrowTask(user, book)
    ensures var after := Written(s.db, s.txs[t], newId);
            && |ActiveOfUser(after.loans, user)| == |ActiveOfUser(s.db.loans, user)| + 1
            && forall b :: Room(after, b) + One(b == book) == Room(s.db, b)
  {
    var tx := s.txs[t];
    ActiveSetsGrow(s.db.loans, newId, NewLoan(user, book, tx.phase.now), Written(s.db, tx, newId).loans);
  }

  lemma LenderJoins(s: Sys, after: Sys, t: nat, books: seq<Id>, b: Id)
    requires t in s.txs && t < |books| && s.txs[t].phase != Done(true)
    requires after.txs == s.txs[t := s.txs[t].(phase := Done(true))]
    ensures |Lenders(after)| == |Lenders(s)| + 1
    ensures |ForBook(Lenders(after), books, b)| == |ForBook(Lenders(s), books, b)| + One(b == books[t])
  {
    assert Lenders(after) == Lenders(s) + {t};
    if b == books[t] {
      assert ForBook(Lenders(after), books, b) == ForBook(Lenders(s), books, b) + {t};
    } else {
      assert ForBook(Lenders(after), books, b) == ForBook(Lenders(s), books, b);
    }
  }

  lemma CommitStaysConserved(s: Sys, t: nat, now: Time, newId: Id, db: Db, user: Id, books: seq<Id>)
    requires LocksHold(s) && t in s.txs && Committing(s.txs[t]) && !KeyTaken(s.db, s.txs[t], newId)
    requires Conserved(s, db, user, books)
    ensures Conserved(Stepped(s, t, now, newId), db, user, books)
  {
    var after := Stepped(s, t, now, newId);
    CommitMovesOneCopy(s, t, newId, user, books[t]);
    LenderJoins(s, after, t, books, books[t]);
    forall b
      ensures Room(after.db, b) + |ForBook(Lenders(after), books, b)| == Room(db, b)
    {
      LenderJoins(s, after, t, books, b);
    }
  }

  lemma OtherStepStaysConserved(s: Sys, t: nat, now: Time, newId: Id, db: Db, user: Id, books: seq<Id>)
    requires LocksHold(s) && CanStep(s, t) && (!Committing(s.txs[t]) || KeyTaken(s.db, s.txs[t], newId))
    requires Conserved(s, db, user, books)
    ensures Conserved(Stepped(s, t, now, newId), db, user, books)
  {
    var after := Stepped(s, t, now, newId);
    assert after.db == s.db && Lenders(after) == Lenders(s);
  }

  /** In every state of every schedule of create calls, the loans the user gained are the calls that lent, and so
      are the copies each book lost. */
  lemma {:induction false} LendingConserves(db: Db, user: Id, books: seq<Id>, moves: seq<Move>)
    requires LoansRefer(db) && StockHolds(db.books, db.loans) && Schedulable(CreateCalls(db, user, books), moves)
    ensures Conserved(Exec(CreateCalls(db, user, books), moves), db, user, books)
  {
    var s := CreateCalls(db, user, books);
    if moves == [] {
      assert Lenders(s) == {};
      assert forall b :: ForBook(Lenders(s), books, b) == {};
    } else {
      var c, m := Exec(s, moves[..|moves| - 1]), moves[|moves| - 1];
      LendingConserves(db, user, books, moves[..|moves| - 1]);
      LocksHoldAlways(s, moves[..|moves| - 1]);
      if Committing(c.txs[m.t]) && !KeyTaken(c.db, c.txs[m.t], m.newId) {
        CommitStaysConserved(c, m.t, m.now, m.newId, db, user, books);
      } else {
        OtherStepStaysConserved(c, m.t, m.now, m.newId, db, user, books);
      }
    }
  }

  // Nobody gets past the check.
  lemma {:induction false} AllRefused(db: Db, user: Id, books: seq<Id>, moves: seq<Move>)
    requires !UserVisible(db, user) || |ActiveOfUser(db.loans, user)| >= MAX_ACTIVE_LOANS
    ensures var after := Exec(CreateCalls(db, user, books), moves);
            after.db == db && OnlyCreates(after, user, books)
            && forall t | t in after.txs :: after.txs[t].phase.Start? || after.txs[t].phase.Done?
  {
    if moves != [] {
      AllRefused(db, user, books, moves[..|moves| - 1]);
    }
  }

  // ---------- serving in order serves the most ----------

  ghost predicate WithinRoom(calls: set<nat>, db: Db, books: seq<Id>) {
    && (forall t | t in calls :: t < |books|)
    && forall b :: |ForBook(calls, books, b)| <= Room(db, b)
  }

  lemma {:induction false} IndicesCounted(books: seq<Id>, calls: set<nat>, book: Id)
    requires forall t | t in calls :: t < |books|
    requires forall t | 0 <= t < |books| && books[t] == book :: t in calls
    ensures |ForBook(calls, books, book)| == Count(books, book)
  {
    if books == [] {
      assert ForBook(calls, books, book) == {};
    } else {
      var last := |books| - 1;
      var fewer := calls - {last};
      assert books == books[..last] + [books[last]];
      assert forall t | t in fewer :: t < last;
      IndicesCounted(books[..last], fewer, book);
      if books[last] == book {
        assert ForBook(calls, books, book) == ForBook(fewer, books[..last], book) + {last};
      } else {
        assert ForBook(calls, books, book) == ForBook(fewer, books[..last], book);
      }
    }
  }

  lemma AllServedLeavesRoom(calls: set<nat>, db: Db, books: seq<Id>)
    requires |books| > 0 && WithinRoom(calls, db, books) && |books| - 1 in calls
    requires forall t: nat | t < |books| - 1 && books[t] == books[|books| - 1] :: t in calls
    ensures Count(books[..|books| - 1], books[|books| - 1]) < Room(db, books[|books| - 1])
  {
    var last := |books| - 1;
    var book := books[last];
    var fewer := calls - {last};
    assert forall t | t in fewer :: t < last;
    IndicesCounted(books[..last], fewer, book);
    assert ForBook(calls, books, book) == ForBook(fewer, books[..last], book) + {last};
  }

  // When the earlier calls for its book alone exhaust it, a call that lent took the place of one that did not.
  lemma SomeoneWaits(calls: set<nat>, db: Db, books: seq<Id>) returns (j: nat)
    requires |books| > 0 && WithinRoom(calls, db, books) && |books| - 1 in calls
    requires Count(books[..|books| - 1], books[|books| - 1]) >= Room(db, books[|books| - 1])
    ensures j < |books| - 1 && j !in calls && books[j] == books[|books| - 1]
  {
    if forall t: nat | t < |books| - 1 && books[t] == books[|books| - 1] :: t in calls {
      AllServedLeavesRoom(calls, db, books);
    }
    j :| j < |books| - 1 && j !in calls && books[j] == books[|books| - 1];
  }

  lemma ForBookInPrefix(calls: set<nat>, books: seq<Id>, n: nat, b: Id)
    requires n <= |books| && forall t | t in calls :: t < n
    ensures ForBook(calls, books[..n], b) == ForBook(calls, books, b)
  {
    forall t | t in calls
      ensures t in ForBook(calls, books[..n], b) <==> t in ForBook(calls, books, b)
    {
      assert books[..n][t] == books[t];
    }
  }

  lemma ForBookWithout(calls: set<nat>, books: seq<Id>, t: nat, b: Id)
    requires t in calls && t < |books|
    ensures |ForBook(calls, books, b)| == |ForBook(calls - {t}, books, b)| + One(b == books[t])
  {
    if b == books[t] {
      assert ForBook(calls, books, b) == ForBook(calls - {t}, books, b) + {t};
    } else {
      assert ForBook(calls, books, b) == ForBook(calls - {t}, books, b);
    }
  }

  lemma ExchangeKeepsCounts(calls: set<nat>, books: seq<Id>, j: nat, b: Id)
    requires |books| > 0 && |books| - 1 in calls && forall t | t in calls :: t < |books|
    requires j < |books| - 1 && j !in calls && books[j] == books[|books| - 1]
    ensures |ForBook(calls - {|books| - 1} + {j}, books[..|books| - 1], b)| == |ForBook(calls, books, b)|
  {
    var last := |books| - 1;
    var fewer := calls - {last};
    ForBookWithout(calls, books, last, b);
    ForBookWithout(fewer + {j}, books, j, b);
    assert fewer + {j} - {j} == fewer;
    ForBookInPrefix(fewer + {j}, books, last, b);
  }

  lemma ExchangeStaysWithin(calls: set<nat>, db: Db, books: seq<Id>, j: nat)
    requires |books| > 0 && WithinRoom(calls, db, books) && |books| - 1 in calls
    requires j < |books| - 1 && j !in calls && books[j] == books[|books| - 1]
    ensures var others := calls - {|books| - 1} + {j};
            WithinRoom(others, db, books[..|books| - 1]) && |others| == |calls|
  {
    var last := |books| - 1;
    forall b
      ensures |ForBook(calls - {last} + {j}, books[..last], b)| <= Room(db, b)
    {
      ExchangeKeepsCounts(calls, books, j, b);
    }
  }

  lemma DroppingStaysWithin(calls: set<nat>, db: Db, books: seq<Id>)
    requires |books| > 0 && WithinRoom(calls, db, books)
    ensures WithinRoom(calls - {|books| - 1}, db, books[..|books| - 1])
  {
    var last := |books| - 1;
    forall b
      ensures |ForBook(calls - {last}, books[..last], b)| <= Room(db, b)
    {
      SubsetNotLarger(ForBook(calls - {last}, books[..last], b), ForBook(calls, books, b));
    }
  }

  /** No set of calls that the copies of every book can serve is larger than the one served in order. */
  lemma {:induction false} ServedIsMost(calls: set<nat>, db: Db, books: seq<Id>)
    requires WithinRoom(calls, db, books)
    ensures |calls| <= Served(db, books)
    decreases |books|
  {
    if books == [] {
      assert calls == {};
    } else {
      var last := |books| - 1;
      if last in calls && Count(books[..last], books[last]) >= Room(db, books[last]) {
        var j := SomeoneWaits(calls, db, books);
        ExchangeStaysWithin(calls, db, books, j);
        ServedIsMost(calls - {last} + {j}, db, books[..last]);
      } else {
        DroppingStaysWithin(calls, db, books);
        ServedIsMost(calls - {last}, db, books[..last]);
        if last !in calls { assert calls - {last} == calls; }
      }
    }
  }

  // The sum over `ids` of the lesser of calls and copies.
  ghost function Lesser(db: Db, books: seq<Id>, ids: set<Id>): nat {
    if ids == {} then 0
    else
      var b :| b in ids;
      Least(Count(books, b), Room(db, b)) + Lesser(db, books, ids - {b})
  }

  lemma {:induction false} LesserWithout(db: Db, books: seq<Id>, ids: set<Id>, b: Id)
    requires b in ids
    ensures Lesser(db, books, ids) == Least(Count(books, b), Room(db, b)) + Lesser(db, books, ids - {b})
  {
    var c :| c in ids && Lesser(db, books, ids) == Least(Count(books, c), Room(db, c)) + Lesser(db, books, ids - {c});
    if c != b {
      LesserWithout(db, books, ids - {c}, b);
      LesserWithout(db, books, ids - {b}, c);
      assert ids - {c} - {b} == ids - {b} - {c};
    }
  }

  lemma {:induction false} LesserSame(db: Db, books: seq<Id>, more: seq<Id>, ids: set<Id>)
    requires forall b | b in ids :: Count(more, b) == Count(books, b)
    ensures Lesser(db, books, ids) == Lesser(db, more, ids)
  {
    if ids != {} {
      var b :| b in ids;
      LesserSame(db, books, more, ids - {b});
      LesserWithout(db, books, ids, b);
      LesserWithout(db, more, ids, b);
    }
  }

  /** What is served is, over all books asked for, the sum of the lesser of the calls and the copies left. */
  lemma {:induction false} ServedIsSum(db: Db, books: seq<Id>, ids: set<Id>)
    requires forall b | b in books :: b in ids
    ensures Served(db, books) == Lesser(db, books, ids)
    decreases |books|
  {
    if books == [] {
      NothingAsked(db, ids);
    } else {
      var n := |books| - 1;
      var b := books[n];
      assert books == books[..n] + [b];
      ServedIsSum(db, books[..n], ids);
      LesserWithout(db, books, ids, b);
      LesserWithout(db, books[..n], ids, b);
      LesserSame(db, books[..n], books, ids - {b});
    }
  }

  lemma {:induction false} NothingAsked(db: Db, ids: set<Id>)
    ensures Lesser(db, [], ids) == 0
  {
    if ids != {} {
      var b :| b in ids;
      LesserWithout(db, [], ids, b);
      NothingAsked(db, ids - {b});
    }
  }

  // ---------- the exact maximum ----------

  // What the create calls can bring the user to.
  function Reach(db: Db, user: Id, books: seq<Id>): nat {
    var held := |ActiveOfUser(db.loans, user)|;
    if UserVisible(db, user) && held < MAX_ACTIVE_LOANS then held + Served(db, books) else held
  }

  lemma NoScheduleDoesMore(db: Db, user: Id, books: seq<Id>, moves: seq<Move>)
    requires LoansRefer(db) && StockHolds(db.books, db.loans) && Schedulable(CreateCalls(db, user, books), moves)
    ensures |ActiveOfUser(Exec(CreateCalls(db, user, books), moves).db.loans, user)| <= Reach(db, user, books)
  {
    var after := Exec(CreateCalls(db, user, books), moves);
    if UserVisible(db, user) && |ActiveOfUser(db.loans, user)| < MAX_ACTIVE_LOANS {
      LendingConserves(db, user, books, moves);
      assert WithinRoom(Lenders(after), db, books);
      ServedIsMost(Lenders(after), db, books);
    } else {
      AllRefused(db, user, books, moves);
    }
  }

  /** Some schedule of the calls brings the user to exactly that many loans. */
  lemma {:induction false} SomeScheduleReaches(db: Db, user: Id, books: seq<Id>, now: Time) returns (moves: seq<Move>)
    ensures Schedulable(CreateCalls(db, user, books), moves)
    ensures |ActiveOfUser(Exec(CreateCalls(db, user, books), moves).db.loans, user)| == Reach(db, user, books)
  {
    if UserVisible(db, user) && |ActiveOfUser(db.loans, user)| < MAX_ACTIVE_LOANS {
      var ids := NewIds(db.loans, |books|);
      moves := SomeGoThrough(db, user, books, |books|, ids, now);
      assert books[..|books|] == books;
    } else {
      moves := [];
    }
  }

  lemma {:induction false} OneBookServed(db: Db, book: Id, k: nat)
    ensures Count(seq(k, _ => book), book) == k && Served(db, seq(k, _ => book)) == Least(k, Room(db, book))
  {
    if k > 0 {
      OneBookServed(db, book, k - 1);
      assert seq(k, _ => book) == seq(k - 1, _ => book) + [book];
      assert seq(k, _ => book)[..k - 1] == seq(k - 1, _ => book);
    }
  }

  /** So `k` create calls at once take any active user with two loans to exactly `2 + k`, on any book with
      `k` copies left. */
  lemma {:induction false} RaceBreaksLimit(db: Db, user: Id, book: Id, k: nat, now: Time) returns (moves: seq<Move>)
    requires UserVisible(db, user) && |ActiveOfUser(db.loans, user)| == 2
    requires BookLockable(db.books, book) && db.books[book].availableCopies >= k
    ensures var s := CreateCalls(db, user, seq(k, _ => book));
            Schedulable(s, moves) && |ActiveOfUser(Exec(s, moves).db.loans, user)| == 2 + k
  {
    OneBookServed(db, book, k);
    moves := SomeScheduleReaches(db, user, seq(k, _ => book), now);
  }

  ghost predicate EveryScheduleKeepsLimit(s: Sys, user: Id) {
    forall moves | Schedulable(s, moves) :: |ActiveOfUser(Exec(s, moves).db.loans, user)| <= MAX_ACTIVE_LOANS
  }

  /** Exactly when the promised limit survives any number of create calls at once, for any books: for a user with
      `h <= 3` loans, every schedule keeps it if and only if the user is not active, or holds three already, or `h`
      and the sum over the books of the lesser of calls and copies left make at most three. */
  lemma {:induction false} LimitKeptExactly(db: Db, user: Id, books: seq<Id>, ids: set<Id>)
    requires LoansRefer(db) && StockHolds(db.books, db.loans) && |ActiveOfUser(db.loans, user)| <= MAX_ACTIVE_LOANS
    requires forall b | b in books :: b in ids
    ensures var held := |ActiveOfUser(db.loans, user)|;
            EveryScheduleKeepsLimit(CreateCalls(db, user, books), user) <==>
            !UserVisible(db, user) || held == 3 || held + Lesser(db, books, ids) <= 3
  {
    var s := CreateCalls(db, user, books);
    var moves := SomeScheduleReaches(db, user, books, 0);
    ServedIsSum(db, books, ids);
    forall others | Schedulable(s, others)
      ensures |ActiveOfUser(Exec(s, others).db.loans, user)| <= Reach(db, user, books)
    {
      NoScheduleDoesMore(db, user, books, others);
    }
  }
}
