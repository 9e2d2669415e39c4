/** Lists of loans whose key another query shares: exactly when they can be answered with the wrong page. */
module SharedLoanKeys {
  import opened Domain
  import opened Circulation
  import opened CacheKeys
  import opened Views
  import opened Listings
  import opened Library
  import opened CacheCoherence
  import opened SharedKeys
  import opened Traces
  import opened Scenes
  import opened LoanListStaleness

  // ---------- a loan that one of two queries lists ----------

  predicate Fitting(q: LoanQuery, user: Id, book: Id) {
    (Given(q.user) ==> user == q.user.value) && (Given(q.book) ==> book == q.book.value)
  }

  // An id that `o` asks for, chosen against `p` where `o` leaves it open.
  function IdFor(o: Option<Id>, p: Option<Id>): Id {
    if Given(o) then o.value else FilterValue(p) + "x"
  }

  lemma NotBothFitting(l: LoanList, m: LoanList)
    requires l != m && LoanListKey(l) == LoanListKey(m)
    ensures var q, r := l.filter, m.filter;
            !(Fitting(r, IdFor(q.user, r.user), IdFor(q.book, r.book))
              && Fitting(q, IdFor(r.user, q.user), IdFor(r.book, q.book)))
  {
    var q, r := l.filter, m.filter;
    SameLoanKeySamePage(l, m);
    if Fitting(r, IdFor(q.user, r.user), IdFor(q.book, r.book))
       && Fitting(q, IdFor(r.user, q.user), IdFor(r.book, q.book)) {
      assert forall o: Option<Id> :: |FilterValue(o) + "x"| != |FilterValue(o)|;
      assert |FilterValue(q.user)| == |FilterValue(r.user)| && |FilterValue(q.book)| == |FilterValue(r.book)|;
      SameFirstFilter(q.user, OptionText(q.book), r.user, OptionText(r.book));
      assert OptionText(q.book) + ":" + "" == OptionText(r.book) + ":" + "";
      SameFirstFilter(q.book, "", r.book, "");
    }
  }

  lemma TellingIds(l: LoanList, m: LoanList) returns (user: Id, book: Id)
    requires l != m && LoanListKey(l) == LoanListKey(m)
    ensures Fitting(l.filter, user, book) != Fitting(m.filter, user, book)
  {
    var q, r := l.filter, m.filter;
    NotBothFitting(l, m);
    if Fitting(r, IdFor(q.user, r.user), IdFor(q.book, r.book)) {
      user, book := IdFor(r.user, q.user), IdFor(r.book, q.book);
    } else {
      user, book := IdFor(q.user, r.user), IdFor(q.book, r.book);
    }
  }

  // ---------- a library with one loan of a given status ----------

  // Closed loans are never overdue: such a list is always empty.
  predicate NeverLists(q: LoanQuery) {
    q.overdue == Some(true) && q.status.Some? && !q.status.value.Active?
  }

  function Closing(q: LoanQuery): Op {
    if q.status == Some(Cancelled) then Cancel("l") else GiveBack("l")
  }

  function ClosedOrOpen(q: LoanQuery, user: Id, book: Id): seq<Step> {
    if q.status.Some? && !q.status.value.Active? then Lending(user, book) + [Write(Closing(q))]
    else Lending(user, book)
  }

  // Long enough for every earlier answer to expire, and for the loan to be overdue where that is asked for.
  function Pause(q: LoanQuery): nat {
    if q.overdue == Some(true) then (LOAN_DAYS + 1) * DAY else 60 * SECOND
  }

  ghost predicate HasLoan(w: World, q: LoanQuery, user: Id, book: Id, start: Time) {
    && w.db.loanOrder == ["l"] && w.db.loans.Keys == {"l"}
    && w.db.loans["l"].userId == user && w.db.loans["l"].bookId == book
    && w.db.loans["l"].dueDate == start + LOAN_DAYS * DAY
    && w.db.loans["l"].status == (if q.status.Some? then q.status.value else Active)
  }

  lemma ClosingRuns(start: Time, q: LoanQuery, user: Id, book: Id)
    ensures var w := Run(Opening(start), ClosedOrOpen(q, user, book));
            w.now == start && w.cache == map[] && HasLoan(w, q, user, book, start)
  {
    LendingRuns(start, user, book);
    if q.status.Some? && !q.status.value.Active? {
      var w := Run(Opening(start), Lending(user, book));
      OneMore(Opening(start), Lending(user, book), Write(Closing(q)));
      ClosingWorks(w, q, user, book, start);
      EmptyStaysEmpty(w.cache, Closing(q), Perform(w.db, w.now, Closing(q)).db);
    }
  }

  lemma GivingBackWorks(db: Db, user: Id, book: Id, start: Time)
    requires db.loanOrder == ["l"] && db.loans == map["l" := NewLoan(user, book, start)]
    requires BookLockable(db.books, book)
    ensures var done := Perform(db, start, GiveBack("l"));
            && done.Committed? && done.db.loanOrder == ["l"]
            && done.db.loans == map["l" := ReturnedLoan(NewLoan(user, book, start), start)]
  {
  }

  lemma CancellingWorks(db: Db, user: Id, book: Id, start: Time)
    requires db.loanOrder == ["l"] && db.loans == map["l" := NewLoan(user, book, start)]
    requires BookLockable(db.books, book)
    ensures var done := Perform(db, start, Cancel("l"));
            && done.Committed? && done.db.loanOrder == ["l"]
            && done.db.loans == map["l" := CancelledLoan(NewLoan(user, book, start), start)]
  {
  }

  lemma ClosingWorks(w: World, q: LoanQuery, user: Id, book: Id, start: Time)
    requires w.now == start && w.db.loanOrder == ["l"] && q.status.Some? && !q.status.value.Active?
    requires w.db.loans == map["l" := NewLoan(user, book, start)] && BookLockable(w.db.books, book)
    ensures Perform(w.db, w.now, Closing(q)).Committed?
    ensures HasLoan(w.(db := Perform(w.db, w.now, Closing(q)).db), q, user, book, start)
  {
    GivingBackWorks(w.db, user, book, start);
    CancellingWorks(w.db, user, book, start);
  }

  lemma EmptyStaysEmpty(cache: Store, op: Op, db: Db)
    requires cache == map[]
    ensures Invalidated(cache, op, db) == map[]
  {
  }

  lemma LoanListedExactly(w: World, l: LoanList, q: LoanQuery, user: Id, book: Id, start: Time)
    requires HasLoan(w, q, user, book, start) && w.now == start + Pause(q) && !NeverLists(q)
    requires l.filter.status == q.status && l.filter.overdue == q.overdue
    ensures ListLoans(w.db, l, w.now).total == if Fitting(l.filter, user, book) then 1 else 0
  {
    assert w.db.loans == map["l" := w.db.loans["l"]];
    OneLoanListed(w.db, w.db.loans["l"], l, w.now);
  }

  // ---------- the wrong page ----------

  function Waiting(l: LoanList, user: Id, book: Id): seq<Step> {
    ClosedOrOpen(l.filter, user, book) + [Wait(Pause(l.filter))]
  }

  lemma WaitingRuns(start: Time, l: LoanList, user: Id, book: Id)
    ensures var w := Run(Opening(start), Waiting(l, user, book));
            w.now == start + Pause(l.filter) && w.cache == map[] && HasLoan(w, l.filter, user, book, start)
  {
    ClosingRuns(start, l.filter, user, book);
    OneMore(Opening(start), ClosedOrOpen(l.filter, user, book), Wait(Pause(l.filter)));
  }

  // Up to the pause, no state is later than the start.
  lemma EarlyStates(start: Time, l: LoanList, user: Id, book: Id, last: Step, i: nat)
    requires i <= |ClosedOrOpen(l.filter, user, book)|
    ensures States(start, Waiting(l, user, book) + [last])[i].now <= start
  {
    var before, steps := ClosedOrOpen(l.filter, user, book), Waiting(l, user, book) + [last];
    assert steps[..|before|] == before;
    StatesAreRuns(start, steps, |before|);
    ClosingRuns(start, l.filter, user, book);
    ClockAdvances(States(start, steps), steps, i, |before|);
  }

  lemma StateAfterPause(start: Time, l: LoanList, user: Id, book: Id, last: Step)
    ensures States(start, Waiting(l, user, book) + [last])[|Waiting(l, user, book)|]
         == Run(Opening(start), Waiting(l, user, book))
  {
    var steps := Waiting(l, user, book) + [last];
    assert steps[..|Waiting(l, user, book)|] == Waiting(l, user, book);
    StatesAreRuns(start, steps, |Waiting(l, user, book)|);
  }

  // A read of `m` and then one of `l` under the same key.
  lemma SecondReadIsServed(w: World, l: LoanList, m: LoanList)
    requires LoanListKey(l) == LoanListKey(m) && w.cache == map[]
    ensures var after := Next(w, ReadLoans(m));
            && after.db == w.db && after.now == w.now
            && GetLoans(after, l).1 == Ok(Json(LoansAnswer(ListLoans(w.db, m, w.now))))
  {
  }

  // The last answer to the query is its own page of state `i`, less than 30 seconds ago.
  predicate OwnPageOf(ws: seq<World>, l: LoanList, i: nat)
    requires i < |ws|
  {
    var w := ws[|ws| - 1];
    ws[i].now > w.now - LOAN_TTL && SameAnswer(GetLoans(w, l).1, UncachedLoans(ws[i].db, l, ws[i].now))
  }

  lemma OtherTotalOtherAnswer(a: LoanPage, b: LoanPage)
    requires a.total != b.total
    ensures !SameAnswer(Ok(Json(LoansAnswer(a))), Ok(LoansAnswer(b)))
  {
  }

  // Whatever state is recent enough, its own page has another total.
  lemma NoRecentOwnPage(start: Time, l: LoanList, m: LoanList, user: Id, book: Id, i: nat)
    requires LoanListKey(l) == LoanListKey(m) && i <= |Waiting(l, user, book)| + 1
    requires var w := Run(Opening(start), Waiting(l, user, book));
             ListLoans(w.db, l, w.now).total != ListLoans(w.db, m, w.now).total
    ensures !OwnPageOf(States(start, Waiting(l, user, book) + [ReadLoans(m)]), l, i)
  {
    var n, ws := |Waiting(l, user, book)|, States(start, Waiting(l, user, book) + [ReadLoans(m)]);
    var w := Run(Opening(start), Waiting(l, user, book));
    WaitingRuns(start, l, user, book);
    StateAfterPause(start, l, user, book, ReadLoans(m));
    StateNext(ws, Waiting(l, user, book) + [ReadLoans(m)], n);
    SecondReadIsServed(w, l, m);
    if i < n {
      EarlyStates(start, l, user, book, ReadLoans(m), i);
    } else {
      OtherTotalOtherAnswer(ListLoans(w.db, m, w.now), ListLoans(w.db, l, w.now));
    }
  }

  /** Any two different lists of loans with one key, unless they are always empty: a run from the empty library after
      which one is answered with the page of the other, and no state of the last 30 seconds had that answer to it. */
  lemma {:induction false} WrongLoanPageServed(start: Time, l: LoanList, m: LoanList) returns (steps: seq<Step>)
    requires l != m && LoanListKey(l) == LoanListKey(m) && !NeverLists(l.filter)
    ensures var w := Run(Opening(start), steps);
            GetLoans(w, l).1 == Ok(Json(LoansAnswer(ListLoans(w.db, m, w.now))))
    ensures forall i: nat | i <= |steps| :: !OwnPageOf(States(start, steps), l, i)
    ensures !Transparent(Run(Opening(start), steps), ReadLoans(l))
  {
    SameLoanKeySamePage(l, m);
    var user, book := TellingIds(l, m);
    var before := Waiting(l, user, book);
    var w := Run(Opening(start), before);
    steps := before + [ReadLoans(m)];
    WaitingRuns(start, l, user, book);
    LoanListedExactly(w, l, l.filter, user, book, start);
    LoanListedExactly(w, m, l.filter, user, book, start);
    forall i: nat | i <= |steps| { NoRecentOwnPage(start, l, m, user, book, i); }
    OneMore(Opening(start), before, ReadLoans(m));
    SecondReadIsServed(w, l, m);
    OtherTotalOtherAnswer(ListLoans(w.db, m, w.now), ListLoans(w.db, l, w.now));
  }

  const USER_NONE := EVERY_LOAN.(filter := EVERY_LOAN.filter.(user := Some("None")))

  /** In particular the user None is answered with the unfiltered page, and the other way round. */
  lemma {:induction false} UserNoneIsServedEverything(start: Time) returns (steps: seq<Step>, others: seq<Step>)
    ensures !Transparent(Run(Opening(start), steps), ReadLoans(USER_NONE))
    ensures !Transparent(Run(Opening(start), others), ReadLoans(EVERY_LOAN))
  {
    steps := WrongLoanPageServed(start, USER_NONE, EVERY_LOAN);
    others := WrongLoanPageServed(start, EVERY_LOAN, USER_NONE);
  }

  // ---------- exactly which queries are never answered with another page ----------

  ghost predicate OwnPageAfter(start: Time, steps: seq<Step>, l: LoanList) {
    exists i: nat :: i <= |steps| && OwnPageOf(States(start, steps), l, i)
  }

  ghost predicate AlwaysOwnPage(l: LoanList) {
    forall start: Time, steps: seq<Step> :: OwnPageAfter(start, steps, l)
  }

  lemma {:induction false} NoneWanted(loans: map<Id, Loan>, order: seq<Id>, q: LoanQuery, now: Time)
    requires NeverLists(q)
    ensures WantedLoans(loans, order, q, now) == []
  {
    if order != [] {
      NoneWanted(loans, order[..|order| - 1], q, now);
    }
  }

  lemma EmptyForEver(db: Db, l: LoanList, now: Time)
    requires NeverLists(l.filter)
    ensures ListLoans(db, l, now) == LoanPage([], 0, l.page, l.size)
  {
    NoneWanted(db.loans, db.loanOrder, l.filter, now);
  }

  lemma OwnPageServed(start: Time, steps: seq<Step>, l: LoanList)
    requires OwnsLoanKey(l) || NeverLists(l.filter)
    ensures OwnPageAfter(start, steps, l)
  {
    var i, m := ListsOfLoansAreRecent(start, steps, l);
    var past := States(start, steps)[i];
    if NeverLists(l.filter) {
      SameLoanKeySamePage(l, m);
      EmptyForEver(past.db, l, past.now);
      EmptyForEver(past.db, m, past.now);
    }
    assert UncachedLoans(past.db, m, past.now) == UncachedLoans(past.db, l, past.now);
    assert OwnPageOf(States(start, steps), l, i);
  }

  lemma OtherPageServed(l: LoanList) returns (steps: seq<Step>)
    requires !OwnsLoanKey(l) && !NeverLists(l.filter)
    ensures !OwnPageAfter(0, steps, l)
  {
    var m := LoanTwinOf(l);
    steps := WrongLoanPageServed(0, l, m);
  }

  /** A list of loans is answered, in every run, with its own page of the last 30 seconds if and only if user and
      book are both present, without a colon and not the word None, or it asks for overdue loans that are closed. */
  lemma {:induction false} OwnPageExactly(l: LoanList)
    ensures AlwaysOwnPage(l) <==> OwnsLoanKey(l) || NeverLists(l.filter)
  {
    if OwnsLoanKey(l) || NeverLists(l.filter) {
      forall start: Time, steps: seq<Step>
        ensures OwnPageAfter(start, steps, l)
      {
        OwnPageServed(start, steps, l);
      }
    } else {
      var steps := OtherPageServed(l);
    }
  }
}
