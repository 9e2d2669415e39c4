/** How old a cached page of loans can be, what can be out of date in it, and exactly when it is current. */
module LoanListStaleness {
  import opened Domain
  import opened Circulation
  import opened Integrity
  import opened CacheKeys
  import opened Views
  import opened Listings
  import opened Library
  import opened SerialRuns
  import opened CacheCoherence
  import opened Traces
  import opened Scenes
  import opened LoanStaleness

  // ---------- the lists of loans ----------

  // No loan was lent, closed, paid or re-dated in between.
  ghost predicate AllOnlyRenewed(before: Db, after: Db) {
    && after.loanOrder == before.loanOrder && after.loans.Keys == before.loans.Keys
    && forall id | id in before.loans :: OnlyRenewed(before.loans[id], after.loans[id])
  }

  ghost predicate OwnOnlyRenewed(before: Db, after: Db, user: Id) {
    && (forall id | id in before.loans && before.loans[id].userId == user ::
          id in after.loans && OnlyRenewed(before.loans[id], after.loans[id]))
    && (forall id | id in after.loans && after.loans[id].userId == user ::
          id in before.loans && before.loans[id].userId == user)
  }

  // The transactions that change some loan other than by renewing it, or add one.
  predicate RewritesLoans(op: Op) {
    op.Borrow? || op.GiveBack? || op.Cancel? || op.Pay? || op.Redate?
  }

  predicate RewritesLoansOf(op: Op, db: Db, user: Id) {
    || (op.Borrow? && op.user == user)
    || ((op.GiveBack? || op.Cancel? || op.Pay? || op.Redate?)
        && op.loan in db.loans && db.loans[op.loan].userId == user)
  }

  lemma LoanListSurvivor(cache: Store, op: Op, db: Db, l: LoanList)
    requires LoanListKey(l) in Invalidated(cache, op, db) && (RewritesLoans(op) && !op.Borrow? ==> op.loan in db.loans)
    ensures !RewritesLoans(op)
  {
    LoanKeyForms("", l, UserLoans("", 1, 1, None));
  }

  lemma UserPagesSurvivor(cache: Store, op: Op, db: Db, p: UserLoans)
    requires UserLoansKey(p) in Invalidated(cache, op, db)
    ensures !RewritesLoansOf(op, db, p.user)
  {
    LoanKeyForms("", EVERY_LOAN, p);
  }

  lemma OthersOnlyRenew(db: Db, now: Time, op: Op, after: Db)
    requires Perform(db, now, op) == Committed(after) && !RewritesLoans(op)
    ensures AllOnlyRenewed(db, after)
  {
  }

  lemma RewrittenLoanStays(db: Db, now: Time, op: Op, after: Db)
    requires Perform(db, now, op) == Committed(after) && RewritesLoans(op) && !op.Borrow?
    ensures op.loan in after.loans
  {
  }

  lemma LoanComesFrom(db: Db, now: Time, op: Op, after: Db, id: Id)
    requires Perform(db, now, op) == Committed(after) && id in after.loans
    ensures if id in db.loans then after.loans[id].userId == db.loans[id].userId
            else op.Borrow? && op.user == after.loans[id].userId
  {
  }

  lemma OthersOnlyRenewOwn(db: Db, now: Time, op: Op, after: Db, user: Id)
    requires Perform(db, now, op) == Committed(after) && !RewritesLoansOf(op, after, user)
    ensures OwnOnlyRenewed(db, after, user)
  {
    forall id | id in db.loans && db.loans[id].userId == user
      ensures id in after.loans && OnlyRenewed(db.loans[id], after.loans[id])
    {
      LoansStay(db, now, op, after, id);
      LoanComesFrom(db, now, op, after, id);
      LoanOnlyRenewed(db, now, op, after, id);
    }
    forall id | id in after.loans && after.loans[id].userId == user
      ensures id in db.loans && db.loans[id].userId == user
    {
      LoanComesFrom(db, now, op, after, id);
    }
  }

  lemma NothingRenewed(db: Db, user: Id)
    ensures AllOnlyRenewed(db, db) && OwnOnlyRenewed(db, db, user)
  {
  }

  lemma CommitOnlyRenewsAll(cache: Store, db: Db, now: Time, op: Op, after: Db, l: LoanList)
    requires Perform(db, now, op) == Committed(after) && LoanListKey(l) in Invalidated(cache, op, after)
    ensures AllOnlyRenewed(db, after)
  {
    if RewritesLoans(op) && !op.Borrow? { RewrittenLoanStays(db, now, op, after); }
    LoanListSurvivor(cache, op, after, l);
    OthersOnlyRenew(db, now, op, after);
  }

  lemma CommitOnlyRenewsOwn(cache: Store, db: Db, now: Time, op: Op, after: Db, p: UserLoans)
    requires Perform(db, now, op) == Committed(after) && UserLoansKey(p) in Invalidated(cache, op, after)
    ensures OwnOnlyRenewed(db, after, p.user)
  {
    UserPagesSurvivor(cache, op, after, p);
    OthersOnlyRenewOwn(db, now, op, after, p.user);
  }

  lemma StateOnlyRenewsAll(ws: seq<World>, steps: seq<Step>, i: nat, l: LoanList)
    requires IsRun(ws, steps) && i < |steps| && LoanListKey(l) in ws[i + 1].cache
    ensures AllOnlyRenewed(ws[i].db, ws[i + 1].db)
  {
    var w, after := ws[i], ws[i + 1];
    StateCommits(ws, steps, i);
    if after.db == w.db {
      NothingRenewed(w.db, "");
    } else {
      CommitOnlyRenewsAll(w.cache, w.db, w.now, steps[i].op, after.db, l);
    }
  }

  lemma StateOnlyRenewsOwn(ws: seq<World>, steps: seq<Step>, i: nat, p: UserLoans)
    requires IsRun(ws, steps) && i < |steps| && UserLoansKey(p) in ws[i + 1].cache
    ensures OwnOnlyRenewed(ws[i].db, ws[i + 1].db, p.user)
  {
    var w, after := ws[i], ws[i + 1];
    StateCommits(ws, steps, i);
    if after.db == w.db {
      NothingRenewed(w.db, p.user);
    } else {
      CommitOnlyRenewsOwn(w.cache, w.db, w.now, steps[i].op, after.db, p);
    }
  }

  lemma AllRenewedTwice(a: Db, b: Db, c: Db)
    requires AllOnlyRenewed(a, b) && AllOnlyRenewed(b, c)
    ensures AllOnlyRenewed(a, c)
  {
    forall id | id in a.loans
      ensures OnlyRenewed(a.loans[id], c.loans[id])
    {
      RenewedTwice(a.loans[id], b.loans[id], c.loans[id]);
    }
  }

  lemma OwnRenewedTwice(a: Db, b: Db, c: Db, user: Id)
    requires OwnOnlyRenewed(a, b, user) && OwnOnlyRenewed(b, c, user)
    ensures OwnOnlyRenewed(a, c, user)
  {
    forall id | id in a.loans && a.loans[id].userId == user
      ensures id in c.loans && OnlyRenewed(a.loans[id], c.loans[id])
    {
      RenewedTwice(a.loans[id], b.loans[id], c.loans[id]);
    }
  }

  lemma AllRenewedFurther(ws: seq<World>, steps: seq<Step>, l: LoanList, before: Db, k: nat)
    requires IsRun(ws, steps) && k < |steps| && LoanListKey(l) in ws[k + 1].cache
    requires AllOnlyRenewed(before, ws[k].db)
    ensures AllOnlyRenewed(before, ws[k + 1].db)
  {
    StateOnlyRenewsAll(ws, steps, k, l);
    AllRenewedTwice(before, ws[k].db, ws[k + 1].db);
  }

  lemma {:induction false} CachedListOnlyRenewed(ws: seq<World>, steps: seq<Step>, l: LoanList, i: nat, k: nat)
    requires IsRun(ws, steps) && i <= k <= |steps| && Kept(ws, steps, LoanListKey(l), i, k)
    ensures AllOnlyRenewed(ws[i].db, ws[k].db)
  {
    if i == k {
      NothingRenewed(ws[i].db, "");
    } else {
      CachedListOnlyRenewed(ws, steps, l, i, k - 1);
      AllRenewedFurther(ws, steps, l, ws[i].db, k - 1);
    }
  }

  lemma OwnRenewedFurther(ws: seq<World>, steps: seq<Step>, p: UserLoans, before: Db, k: nat)
    requires IsRun(ws, steps) && k < |steps| && UserLoansKey(p) in ws[k + 1].cache
    requires OwnOnlyRenewed(before, ws[k].db, p.user)
    ensures OwnOnlyRenewed(before, ws[k + 1].db, p.user)
  {
    StateOnlyRenewsOwn(ws, steps, k, p);
    OwnRenewedTwice(before, ws[k].db, ws[k + 1].db, p.user);
  }

  lemma {:induction false} CachedPagesOnlyRenewed(ws: seq<World>, steps: seq<Step>, p: UserLoans, i: nat, k: nat)
    requires IsRun(ws, steps) && i <= k <= |steps| && Kept(ws, steps, UserLoansKey(p), i, k)
    ensures OwnOnlyRenewed(ws[i].db, ws[k].db, p.user)
  {
    if i == k {
      NothingRenewed(ws[i].db, p.user);
    } else {
      CachedPagesOnlyRenewed(ws, steps, p, i, k - 1);
      OwnRenewedFurther(ws, steps, p, ws[i].db, k - 1);
    }
  }

  /** Every page of the list of loans, in any run, is the uncached page of some state less than 30 seconds ago,
      since when no loan was lent, closed, paid or re-dated. The page is the one asked for, unless another
      query with the same key was asked; a query that owns its key, and any two clean ones, cannot be confused. */
  lemma {:induction false} ListsOfLoansAreRecent(start: Time, steps: seq<Step>, l: LoanList)
    returns (i: nat, m: LoanList)
    ensures i <= |steps| && LoanListKey(m) == LoanListKey(l)
    ensures OwnsLoanKey(l) || (CleanLoans(l) && CleanLoans(m)) ==> m == l
    ensures var w, past := Run(Opening(start), steps), States(start, steps)[i];
            && w.now - LOAN_TTL < past.now <= w.now
            && SameAnswer(GetLoans(w, l).1, UncachedLoans(past.db, m, past.now))
            && AllOnlyRenewed(past.db, w.db)
  {
    var read;
    i, read := AnswersHaveAnOrigin(States(start, steps), steps, ReadLoans(l));
    KindsApart(read, ReadLoans(l));
    m := read.list;
    if OwnsLoanKey(l) || (CleanLoans(l) && CleanLoans(m)) {
      LoanKeyDeterminesList(l, m);
    }
    CachedListOnlyRenewed(States(start, steps), steps, l, i, |steps|);
  }

  /** Every page of a user's loans, in any run, is the uncached answer to the very same request at some state less
      than 30 seconds ago, since when that user's loans were at most renewed. */
  lemma {:induction false} PagesOfUsersAreRecent(start: Time, steps: seq<Step>, p: UserLoans) returns (i: nat)
    ensures i <= |steps|
    ensures var w, past := Run(Opening(start), steps), States(start, steps)[i];
            && w.now - LOAN_TTL < past.now <= w.now
            && SameAnswer(GetUserLoans(w, p).1, UncachedUserLoans(past.db, p, past.now))
            && OwnOnlyRenewed(past.db, w.db, p.user)
  {
    var read;
    i, read := AnswersHaveAnOrigin(States(start, steps), steps, ReadUserLoans(p));
    KindsApart(read, ReadUserLoans(p));
    UserKeyDeterminesPage(p, read.pages);
    CachedPagesOnlyRenewed(States(start, steps), steps, p, i, |steps|);
  }

  // ---------- exactly when a page is current ----------

  function Listed(db: Db, l: LoanList, now: Time): seq<Id> {
    WantedLoans(db.loans, db.loanOrder, l.filter, now)
  }

  function PageIds(db: Db, l: LoanList, now: Time): (ids: seq<Id>)
    ensures forall id | id in ids :: id in db.loans
  {
    PageOf(Listed(db, l, now), l.page, l.size)
  }

  // The page shows the same loans, out of as many.
  predicate SameListing(past: World, w: World, l: LoanList) {
    && PageIds(past.db, l, past.now) == PageIds(w.db, l, w.now)
    && |Listed(past.db, l, past.now)| == |Listed(w.db, l, w.now)|
  }

  lemma ItemsOfPage(db: Db, l: LoanList, now: Time, k: nat)
    requires k < |PageIds(db, l, now)|
    ensures var items, id := LoansJson(ListLoans(db, l, now)).items, PageIds(db, l, now)[k];
            && |items| == |PageIds(db, l, now)|
            && items[k] == LoanJson(ViewLoan(id, db.loans[id], now)) && items[k].id == id
  {
  }

  // Every loan on the page reads as before.
  ghost predicate SameRows(past: World, w: World, l: LoanList)
    requires forall id | id in PageIds(w.db, l, w.now) :: id in past.db.loans
  {
    forall id | id in PageIds(w.db, l, w.now) ::
      LoanJson(ViewLoan(id, past.db.loans[id], past.now)) == LoanJson(ViewLoan(id, w.db.loans[id], w.now))
  }

  lemma SamePageShowsSame(past: World, w: World, l: LoanList)
    requires LoansJson(ListLoans(past.db, l, past.now)) == LoansJson(ListLoans(w.db, l, w.now))
    requires forall id | id in PageIds(w.db, l, w.now) :: id in past.db.loans
    ensures SameListing(past, w, l) && SameRows(past, w, l)
  {
    var before, after := PageIds(past.db, l, past.now), PageIds(w.db, l, w.now);
    assert |LoansJson(ListLoans(past.db, l, past.now)).items| == |before|;
    assert |LoansJson(ListLoans(w.db, l, w.now)).items| == |after|;
    forall k | 0 <= k < |after|
      ensures before[k] == after[k]
      ensures LoanJson(ViewLoan(after[k], past.db.loans[after[k]], past.now))
           == LoanJson(ViewLoan(after[k], w.db.loans[after[k]], w.now))
    {
      ItemsOfPage(past.db, l, past.now, k);
      ItemsOfPage(w.db, l, w.now, k);
    }
  }

  lemma SameRowsMakeSamePage(past: World, w: World, l: LoanList)
    requires forall id | id in PageIds(w.db, l, w.now) :: id in past.db.loans
    requires SameListing(past, w, l) && SameRows(past, w, l)
    ensures LoansJson(ListLoans(past.db, l, past.now)) == LoansJson(ListLoans(w.db, l, w.now))
  {
    var a, b := LoansJson(ListLoans(past.db, l, past.now)), LoansJson(ListLoans(w.db, l, w.now));
    assert |a.items| == |b.items|;
    forall k | 0 <= k < |b.items|
      ensures a.items[k] == b.items[k]
    {
      ItemsOfPage(past.db, l, past.now, k);
      ItemsOfPage(w.db, l, w.now, k);
    }
    assert a.items == b.items;
  }

  // No loan on the page was renewed since state `i`, and each is as many days late as then.
  ghost predicate RowsCurrent(ws: seq<World>, steps: seq<Step>, l: LoanList, i: nat)
    requires |ws| == |steps| + 1 && i <= |steps|
  {
    var w := ws[|steps|];
    forall id | id in PageIds(w.db, l, w.now) ::
      NotRenewed(ws, steps, id, i, |steps|) && SameDaysLate(w.db.loans[id], ws[i].now, w.now)
  }

  lemma RowCurrentExactly(ws: seq<World>, steps: seq<Step>, id: Id, i: nat)
    requires IsRun(ws, steps) && i <= |steps| && LedgersHold(ws[|steps|].db)
    requires id in ws[i].db.loans && id in ws[|steps|].db.loans
    requires OnlyRenewed(ws[i].db.loans[id], ws[|steps|].db.loans[id])
    ensures var past, w := ws[i], ws[|steps|];
            LoanJson(ViewLoan(id, past.db.loans[id], past.now)) == LoanJson(ViewLoan(id, w.db.loans[id], w.now)) <==>
            NotRenewed(ws, steps, id, i, |steps|) && SameDaysLate(w.db.loans[id], past.now, w.now)
  {
    ClockAdvances(ws, steps, i, |steps|);
    RenewalsAreCounted(ws, steps, id, i, |steps|);
    ViewsAgreeExactly(id, ws[i].db.loans[id], ws[i].now, ws[|steps|].db.loans[id], ws[|steps|].now);
  }

  lemma PageCurrentExactly(ws: seq<World>, steps: seq<Step>, l: LoanList, i: nat)
    requires IsRun(ws, steps) && i <= |steps| && LedgersHold(ws[|steps|].db)
    requires forall id | id in PageIds(ws[|steps|].db, l, ws[|steps|].now) ::
               id in ws[i].db.loans && OnlyRenewed(ws[i].db.loans[id], ws[|steps|].db.loans[id])
    ensures var past, w := ws[i], ws[|steps|];
            LoansJson(ListLoans(past.db, l, past.now)) == LoansJson(ListLoans(w.db, l, w.now)) <==>
            SameListing(past, w, l) && RowsCurrent(ws, steps, l, i)
  {
    var past, w := ws[i], ws[|steps|];
    forall id | id in PageIds(w.db, l, w.now) { RowCurrentExactly(ws, steps, id, i); }
    assert SameRows(past, w, l) <==> RowsCurrent(ws, steps, l, i);
    if LoansJson(ListLoans(past.db, l, past.now)) == LoansJson(ListLoans(w.db, l, w.now)) {
      SamePageShowsSame(past, w, l);
    }
    if SameListing(past, w, l) && SameRows(past, w, l) {
      SameRowsMakeSamePage(past, w, l);
    }
  }

  lemma ListOrigin(ws: seq<World>, steps: seq<Step>, l: LoanList) returns (i: nat)
    requires IsRun(ws, steps) && ws[0].cache == map[] && NoTwinRead(steps, ReadLoans(l))
    requires Live(ws[|steps|].cache, LoanListKey(l), ws[|steps|].now).Some?
    ensures i < |steps| && steps[i] == ReadLoans(l) && Kept(ws, steps, LoanListKey(l), i, |steps|)
    ensures ws[|steps|].now - LOAN_TTL < ws[i].now <= ws[|steps|].now
    ensures SameAnswer(GetLoans(ws[|steps|], l).1, UncachedLoans(ws[i].db, l, ws[i].now))
  {
    var read;
    i, read := AnswersHaveAnOrigin(ws, steps, ReadLoans(l));
  }

  // Two pages are the same answer exactly when their JSON is.
  lemma SamePageAnswer(r: Result<Answer>, a: LoanPage, b: LoanPage)
    requires SameAnswer(r, Ok(LoansAnswer(a)))
    ensures SameAnswer(r, Ok(LoansAnswer(b))) <==> LoansJson(a) == LoansJson(b)
  {
  }

  lemma ListCurrentAt(ws: seq<World>, steps: seq<Step>, l: LoanList) returns (i: nat)
    requires IsRun(ws, steps) && ws[0].cache == map[] && NoTwinRead(steps, ReadLoans(l))
    requires LedgersHold(ws[|steps|].db)
    requires Live(ws[|steps|].cache, LoanListKey(l), ws[|steps|].now).Some?
    ensures i < |steps| && steps[i] == ReadLoans(l)
    ensures var w := ws[|steps|];
            && w.now - LOAN_TTL < ws[i].now <= w.now
            && (SameAnswer(GetLoans(w, l).1, UncachedLoans(w.db, l, w.now)) <==>
                SameListing(ws[i], w, l) && RowsCurrent(ws, steps, l, i))
  {
    var w := ws[|steps|];
    i := ListOrigin(ws, steps, l);
    CachedListOnlyRenewed(ws, steps, l, i, |steps|);
    PageCurrentExactly(ws, steps, l, i);
    SamePageAnswer(GetLoans(w, l).1, ListLoans(ws[i].db, l, ws[i].now), ListLoans(w.db, l, w.now));
  }

  /** A cached page of the list of loans whose key no earlier read used for another query was computed by a certain
      earlier read, less than 30 seconds ago. It is the current page exactly when it shows the same loans out of as
      many, and each loan on it is current as a single loan is: not renewed since, and not later by a day. */
  lemma {:induction false} ListCurrentExactly(start: Time, steps: seq<Step>, l: LoanList) returns (i: nat)
    requires NoTwinRead(steps, ReadLoans(l))
    requires var w := Run(Opening(start), steps); Live(w.cache, LoanListKey(l), w.now).Some?
    ensures i < |steps| && steps[i] == ReadLoans(l)
    ensures var ws, w := States(start, steps), Run(Opening(start), steps);
            && w.now - LOAN_TTL < ws[i].now <= w.now
            && (SameAnswer(GetLoans(w, l).1, UncachedLoans(w.db, l, w.now)) <==>
                SameListing(ws[i], w, l) && RowsCurrent(ws, steps, l, i))
  {
    EveryRunSound(start, steps);
    i := ListCurrentAt(States(start, steps), steps, l);
  }

  lemma {:induction false} SameWanted(loans: map<Id, Loan>, after: map<Id, Loan>, order: seq<Id>, q: LoanQuery,
                                      read: Time, now: Time)
    requires forall l | l in order :: (l in loans <==> l in after)
               && (l in loans ==> (Wanted(loans[l], q, read) <==> Wanted(after[l], q, now)))
    ensures WantedLoans(loans, order, q, read) == WantedLoans(after, order, q, now)
  {
    if order != [] {
      SameWanted(loans, after, order[..|order| - 1], q, read, now);
    }
  }

  /** Without the overdue filter the page always shows the same loans. */
  lemma SameListingWithoutOverdue(past: World, w: World, l: LoanList)
    requires AllOnlyRenewed(past.db, w.db) && l.filter.overdue.None?
    ensures SameListing(past, w, l)
  {
    SameWanted(past.db.loans, w.db.loans, w.db.loanOrder, l.filter, past.now, w.now);
  }

  /** With it, that is sure when no loan was renewed and no active loan has come due in between. */
  lemma SameListingWhenNothingComesDue(past: World, w: World, l: LoanList)
    requires w.db.loans == past.db.loans && w.db.loanOrder == past.db.loanOrder && past.now <= w.now
    requires forall id | id in w.db.loans && w.db.loans[id].status.Active? ::
               !(past.now <= w.db.loans[id].dueDate < w.now)
    ensures SameListing(past, w, l)
  {
    SameWanted(past.db.loans, w.db.loans, w.db.loanOrder, l.filter, past.now, w.now);
  }

  const OVERDUE := LoanList(1, 10, LoanQuery(None, None, None, Some(true)))

  const UNTIL_DUE := Lending("u", "b") + [Wait(LOAN_DAYS * DAY)]

  /** The clock alone makes the overdue page wrong: a run that reads it at the due instant of a loan and again one
      microsecond later, with no write, no new day and no other query in between, still gets the empty page. */
  lemma OverduePageStaleInARun()
    ensures var w := Run(Opening(0), UNTIL_DUE + [ReadLoans(OVERDUE)] + [Wait(1)]);
            !SameAnswer(GetLoans(w, OVERDUE).1, UncachedLoans(w.db, OVERDUE, w.now))
  {
    LendingRuns(0, "u", "b");
    OneMore(Opening(0), Lending("u", "b"), Wait(LOAN_DAYS * DAY));
    OneMore(Opening(0), UNTIL_DUE, ReadLoans(OVERDUE));
    OneMore(Opening(0), UNTIL_DUE + [ReadLoans(OVERDUE)], Wait(1));
    var before := Run(Opening(0), UNTIL_DUE);
    var w := Run(Opening(0), UNTIL_DUE + [ReadLoans(OVERDUE)] + [Wait(1)]);
    OneLoanListed(before.db, NewLoan("u", "b", 0), OVERDUE, before.now);
    OneLoanListed(w.db, NewLoan("u", "b", 0), OVERDUE, w.now);
    assert w.db == before.db && w.now == before.now + 1;
    assert GetLoans(w, OVERDUE).1.value.loans.total == 0;
  }

  lemma OneLoanListed(db: Db, loan: Loan, l: LoanList, now: Time)
    requires db.loans == map["l" := loan] && db.loanOrder == ["l"]
    ensures ListLoans(db, l, now).total == if Wanted(loan, l.filter, now) then 1 else 0
  {
    assert ["l"][..0] == [];
    assert WantedLoans(db.loans, [], l.filter, now) == [];
  }

  // ---------- a user's pages ----------

  lemma WantedStays(db: Db, now: Time, op: Op, after: Db, p: UserLoans, id: Id, read: Time, later: Time)
    requires Perform(db, now, op) == Committed(after) && !RewritesLoansOf(op, after, p.user) && p.user != ""
    requires id in db.loans
    ensures id in after.loans
    ensures Wanted(db.loans[id], OfUser(p).filter, read) <==> Wanted(after.loans[id], OfUser(p).filter, later)
  {
    LoansStay(db, now, op, after, id);
    LoanComesFrom(db, now, op, after, id);
    if db.loans[id].userId == p.user {
      LoanOnlyRenewed(db, now, op, after, id);
    }
  }

  lemma OrderGrows(db: Db, now: Time, op: Op, after: Db)
    requires Perform(db, now, op) == Committed(after)
    ensures if op.Borrow? then op.loan !in db.loans && after.loanOrder == db.loanOrder + [op.loan]
                               && after.loans.Keys == db.loans.Keys + {op.loan}
            else after.loanOrder == db.loanOrder
  {
  }

  lemma CommitKeepsOwnIds(db: Db, now: Time, op: Op, after: Db, p: UserLoans, read: Time, later: Time)
    requires Perform(db, now, op) == Committed(after) && !RewritesLoansOf(op, after, p.user) && p.user != ""
    requires LoanOrderHolds(db)
    ensures Listed(after, OfUser(p), later) == Listed(db, OfUser(p), read)
  {
    forall id | id in db.loanOrder { WantedStays(db, now, op, after, p, id, read, later); }
    SameWanted(db.loans, after.loans, db.loanOrder, OfUser(p).filter, read, later);
    OrderGrows(db, now, op, after);
    if op.Borrow? {
      assert after.loanOrder[..|db.loanOrder|] == db.loanOrder;
      LoanComesFrom(db, now, op, after, op.loan);
    }
  }

  lemma StateKeepsOwnIds(ws: seq<World>, steps: seq<Step>, i: nat, p: UserLoans, read: Time)
    requires IsRun(ws, steps) && i < |steps| && UserLoansKey(p) in ws[i + 1].cache && p.user != ""
    requires LoanOrderHolds(ws[i].db)
    ensures Listed(ws[i + 1].db, OfUser(p), ws[i + 1].now) == Listed(ws[i].db, OfUser(p), ws[i].now)
  {
    var w, after := ws[i], ws[i + 1];
    StateCommits(ws, steps, i);
    if after.db == w.db {
      SameWanted(w.db.loans, w.db.loans, w.db.loanOrder, OfUser(p).filter, w.now, after.now);
    } else {
      UserPagesSurvivor(w.cache, steps[i].op, after.db, p);
      CommitKeepsOwnIds(w.db, w.now, steps[i].op, after.db, p, w.now, after.now);
    }
  }

  lemma {:induction false} StatesSound(ws: seq<World>, steps: seq<Step>, k: nat)
    requires IsRun(ws, steps) && Sound(ws[0].db) && k <= |steps|
    ensures Sound(ws[k].db)
  {
    if k > 0 {
      StatesSound(ws, steps, k - 1);
      StateNext(ws, steps, k - 1);
      StepKeepsSound(ws[k - 1], steps[k - 1]);
    }
  }

  // While a user's page stays cached, it would list the same loans.
  lemma {:induction false} CachedPagesKeepIds(ws: seq<World>, steps: seq<Step>, p: UserLoans, i: nat, k: nat)
    requires IsRun(ws, steps) && Sound(ws[0].db) && i <= k <= |steps| && p.user != ""
    requires Kept(ws, steps, UserLoansKey(p), i, k)
    ensures Listed(ws[k].db, OfUser(p), ws[k].now) == Listed(ws[i].db, OfUser(p), ws[i].now)
  {
    if i < k {
      CachedPagesKeepIds(ws, steps, p, i, k - 1);
      StatesSound(ws, steps, k - 1);
      StateKeepsOwnIds(ws, steps, k - 1, p, ws[k - 1].now);
    }
  }

  lemma {:induction false} OwnRowsOnlyRenewed(past: Db, w: Db, p: UserLoans, now: Time)
    requires OwnOnlyRenewed(past, w, p.user) && p.user != ""
    ensures forall id | id in PageIds(w, OfUser(p), now) :: id in past.loans && OnlyRenewed(past.loans[id], w.loans[id])
  {
    forall id | id in PageIds(w, OfUser(p), now)
      ensures id in past.loans && OnlyRenewed(past.loans[id], w.loans[id])
    {
      assert id in Listed(w, OfUser(p), now) && Wanted(w.loans[id], OfUser(p).filter, now);
    }
  }

  lemma UserPageOrigin(ws: seq<World>, steps: seq<Step>, p: UserLoans) returns (i: nat)
    requires IsRun(ws, steps) && ws[0].cache == map[]
    requires Live(ws[|steps|].cache, UserLoansKey(p), ws[|steps|].now).Some?
    ensures i < |steps| && steps[i] == ReadUserLoans(p) && Kept(ws, steps, UserLoansKey(p), i, |steps|)
    ensures ws[|steps|].now - LOAN_TTL < ws[i].now <= ws[|steps|].now
    ensures SameAnswer(GetUserLoans(ws[|steps|], p).1, UncachedUserLoans(ws[i].db, p, ws[i].now))
    ensures UserVisible(ws[i].db, p.user)
  {
    var read;
    i, read := AnswersHaveAnOrigin(ws, steps, ReadUserLoans(p));
    KindsApart(read, ReadUserLoans(p));
    UserKeyDeterminesPage(p, read.pages);
  }

  lemma UserPageCurrentAt(ws: seq<World>, steps: seq<Step>, p: UserLoans) returns (i: nat)
    requires IsRun(ws, steps) && ws[0].cache == map[] && Sound(ws[0].db) && p.user != ""
    requires Live(ws[|steps|].cache, UserLoansKey(p), ws[|steps|].now).Some?
    ensures i < |steps| && steps[i] == ReadUserLoans(p)
    ensures var w := ws[|steps|];
            && w.now - LOAN_TTL < ws[i].now <= w.now && SameListing(ws[i], w, OfUser(p))
            && (SameAnswer(GetUserLoans(w, p).1, UncachedUserLoans(w.db, p, w.now)) <==>
                UserVisible(w.db, p.user) && RowsCurrent(ws, steps, OfUser(p), i))
  {
    var w := ws[|steps|];
    i := UserPageOrigin(ws, steps, p);
    CachedPagesKeepIds(ws, steps, p, i, |steps|);
    CachedPagesOnlyRenewed(ws, steps, p, i, |steps|);
    OwnRowsOnlyRenewed(ws[i].db, w.db, p, w.now);
    StatesSound(ws, steps, |steps|);
    PageCurrentExactly(ws, steps, OfUser(p), i);
    SamePageAnswer(GetUserLoans(w, p).1, ListLoans(ws[i].db, OfUser(p), ws[i].now), ListLoans(w.db, OfUser(p), w.now));
  }

  /** A cached page of a user's loans was computed by a certain earlier read of the same page, less than 30 seconds
      ago. It is the current answer exactly when the user is still active and each loan on the page is current as a
      single loan is; the loans it shows are always the right ones. */
  lemma {:induction false} UserPageCurrentExactly(start: Time, steps: seq<Step>, p: UserLoans) returns (i: nat)
    requires p.user != ""
    requires var w := Run(Opening(start), steps); Live(w.cache, UserLoansKey(p), w.now).Some?
    ensures i < |steps| && steps[i] == ReadUserLoans(p)
    ensures var ws, w := States(start, steps), Run(Opening(start), steps);
            && w.now - LOAN_TTL < ws[i].now <= w.now && SameListing(ws[i], w, OfUser(p))
            && (SameAnswer(GetUserLoans(w, p).1, UncachedUserLoans(w.db, p, w.now)) <==>
                UserVisible(w.db, p.user) && RowsCurrent(ws, steps, OfUser(p), i))
  {
    SoundInitially();
    i := UserPageCurrentAt(States(start, steps), steps, p);
  }
}
