/** The text keys under which answers are cached, and when two of them can meet. */
module CacheKeys {
  import opened Domain

  type Positive = n: int | n >= 1 witness 1

  // The parameters of `list_books_paginated`.
  datatype Query = Query(
    page: Positive, size: Positive,
    title: Option<string>, category: Option<string>, author: Option<string>, available: Option<bool>)

  const EVERYTHING := Query(1, 10, None, None, None, None)

  // The filters of `LoanService.list_paginated`; an empty user or book id is no filter.
  datatype LoanQuery = LoanQuery(
    user: Option<Id>, book: Option<Id>, status: Option<LoanStatus>, overdue: Option<bool>)

  datatype LoanList = LoanList(page: Positive, size: Positive, filter: LoanQuery)

  const EVERY_LOAN := LoanList(1, 10, LoanQuery(None, None, None, None))

  // The parameters of `list_by_user_paginated`.
  datatype UserLoans = UserLoans(user: Id, page: Positive, size: Positive, status: Option<LoanStatus>)

  function BookKey(id: Id): string { "book:" + id }

  function LoanKey(id: Id): string { "loans:item:" + id }

  function Digit(n: nat): char
    requires n < 10
  {
    "0123456789"[n]
  }

  function Decimal(n: nat): string {
    if n < 10 then [Digit(n)] else Decimal(n / 10) + [Digit(n % 10)]
  }

  function OptionText(o: Option<string>): string {
    if o.None? then "None" else o.value
  }

  function FlagText(o: Option<bool>): string {
    if o.None? then "None" else if o.value then "True" else "False"
  }

  // Four fields, and a page of something, joined by colons.
  function Fields(a: string, b: string, c: string, d: string): string {
    a + ":" + (b + ":" + (c + ":" + d))
  }

  function Paged(page: Positive, size: Positive, rest: string): string {
    Decimal(page) + ":" + (Decimal(size) + ":" + rest)
  }

  function FilterText(q: Query): string {
    Fields(OptionText(q.title), OptionText(q.category), OptionText(q.author), FlagText(q.available))
  }

  function ListKey(q: Query): string {
    "books:list:" + Paged(q.page, q.size, FilterText(q))
  }

  function StatusText(o: Option<LoanStatus>): string {
    match o
    case None => "None"
    case Some(Active) => "ACTIVE"
    case Some(Returned) => "RETURNED"
    case Some(Cancelled) => "CANCELLED"
  }

  function LoanFilterText(q: LoanQuery): string {
    Fields(OptionText(q.user), OptionText(q.book), StatusText(q.status), FlagText(q.overdue))
  }

  function LoanListKey(l: LoanList): string {
    "loans:list:" + Paged(l.page, l.size, LoanFilterText(l.filter))
  }

  function UserLoansKey(p: UserLoans): string {
    UserPrefix(p.user) + Paged(p.page, p.size, StatusText(p.status))
  }

  function UserPrefix(user: Id): string { "loans:user:" + user + ":" }

  // ---------- families of keys ----------

  predicate HasPrefix(prefix: string, key: string) {
    prefix <= key
  }

  lemma KeysOfOneFamily(a: Id, b: Id)
    ensures BookKey(a) == BookKey(b) ==> a == b
    ensures LoanKey(a) == LoanKey(b) ==> a == b
  {
    assert BookKey(a)[5..] == a && BookKey(b)[5..] == b;
    assert LoanKey(a)[11..] == a && LoanKey(b)[11..] == b;
  }

  lemma BookKeyForms(id: Id, q: Query)
    ensures BookKey(id)[0] == 'b' && BookKey(id)[4] == ':' && ListKey(q)[0] == 'b' && ListKey(q)[4] == 's'
    ensures HasPrefix("book:", BookKey(id)) && HasPrefix("books:list", ListKey(q))
  {
  }

  lemma LoanKeyForms(id: Id, l: LoanList, p: UserLoans)
    ensures LoanKey(id)[0] == 'l' && LoanKey(id)[6] == 'i'
    ensures LoanListKey(l)[0] == 'l' && LoanListKey(l)[6] == 'l' && HasPrefix("loans:list", LoanListKey(l))
    ensures UserLoansKey(p)[0] == 'l' && UserLoansKey(p)[6] == 'u' && HasPrefix(UserPrefix(p.user), UserLoansKey(p))
  {
    assert UserLoansKey(p)[..|UserPrefix(p.user)|] == UserPrefix(p.user);
    assert UserPrefix(p.user)[0] == 'l' && UserPrefix(p.user)[6] == 'u';
  }

  lemma PatternForms(user: Id, key: string)
    ensures HasPrefix("book:", key) ==> key[0] == 'b' && key[4] == ':'
    ensures HasPrefix("books:list", key) ==> key[0] == 'b' && key[4] == 's'
    ensures HasPrefix("loans:list", key) ==> key[0] == 'l' && key[6] == 'l'
    ensures HasPrefix(UserPrefix(user), key) ==> key[0] == 'l' && key[6] == 'u'
  {
    assert "book:"[4] == ':' && "books:list"[4] == 's' && "loans:list"[6] == 'l';
    assert UserPrefix(user)[0] == 'l' && UserPrefix(user)[6] == 'u';
  }

  /** Which pattern deletions reach which keys: `book:*` only single books, `books:list*` only lists of
      books, the two loan patterns only lists of loans, and nothing single loans. */
  lemma FamiliesApart(book: Id, q: Query, loan: Id, l: LoanList, p: UserLoans, user: Id)
    ensures HasPrefix("book:", BookKey(book)) && HasPrefix("books:list", ListKey(q))
    ensures HasPrefix("loans:list", LoanListKey(l)) && HasPrefix(UserPrefix(p.user), UserLoansKey(p))
    ensures forall key | key in {ListKey(q), LoanKey(loan), LoanListKey(l), UserLoansKey(p)} ::
              !HasPrefix("book:", key) && key != BookKey(book)
    ensures forall key | key in {BookKey(book), LoanKey(loan), LoanListKey(l), UserLoansKey(p)} ::
              !HasPrefix("books:list", key) && key != ListKey(q)
    ensures forall key | key in {BookKey(book), ListKey(q), LoanKey(loan), UserLoansKey(p)} ::
              !HasPrefix("loans:list", key) && key != LoanListKey(l)
    ensures forall key | key in {BookKey(book), ListKey(q), LoanKey(loan), LoanListKey(l)} ::
              !HasPrefix(UserPrefix(user), key) && key != UserLoansKey(p)
  {
    BookKeyForms(book, q);
    LoanKeyForms(loan, l, p);
    PatternForms(user, BookKey(book));
    PatternForms(user, ListKey(q));
    PatternForms(user, LoanKey(loan));
    PatternForms(user, LoanListKey(l));
    PatternForms(user, UserLoansKey(p));
  }

  // ---------- splitting a key ----------

  predicate NoColon(s: string) {
    ':' !in s
  }

  function Colons(s: string): nat {
    multiset(s)[':']
  }

  lemma {:induction false} DecimalHasNoColon(n: nat)
    ensures NoColon(Decimal(n)) && |Decimal(n)| > 0
    ensures n >= 10 ==> |Decimal(n)| > 1
  {
    if n >= 10 {
      DecimalHasNoColon(n / 10);
    }
  }

  lemma DigitInjective(a: nat, b: nat)
    requires a < 10 && b < 10 && Digit(a) == Digit(b)
    ensures a == b
  {
  }

  lemma {:induction false} DecimalInjective(a: nat, b: nat)
    requires Decimal(a) == Decimal(b)
    ensures a == b
  {
    DecimalHasNoColon(a);
    DecimalHasNoColon(b);
    if a < 10 {
      DigitInjective(a, b);
    } else {
      var ta, tb := Decimal(a), Decimal(b);
      assert ta[..|ta| - 1] == Decimal(a / 10) && ta[|ta| - 1] == Digit(a % 10);
      assert tb[..|tb| - 1] == Decimal(b / 10) && tb[|tb| - 1] == Digit(b % 10);
      DecimalInjective(a / 10, b / 10);
      DigitInjective(a % 10, b % 10);
    }
  }

  lemma {:induction false} FirstColonSplits(a: string, x: string, b: string, y: string)
    requires NoColon(a) && NoColon(b) && a + ":" + x == b + ":" + y
    ensures a == b && x == y
  {
    var s := a + ":" + x;
    assert s[|a|] == ':' && s[|b|] == ':';
    assert forall i | 0 <= i < |a| :: s[i] == a[i];
    assert forall i | 0 <= i < |b| :: s[i] == b[i];
    assert |a| == |b|;
    assert s[..|a|] == a && s[..|b|] == b;
    assert s[|a| + 1..] == x && s[|b| + 1..] == y;
  }

  lemma {:induction false} LastColonSplits(x: string, a: string, y: string, b: string)
    requires NoColon(a) && NoColon(b) && x + ":" + a == y + ":" + b
    ensures x == y && a == b
  {
    var s := x + ":" + a;
    assert s[|x|] == ':' && s[|y|] == ':';
    assert forall i | |x| < i < |s| :: s[i] == a[i - |x| - 1];
    assert forall i | |y| < i < |s| :: s[i] == b[i - |y| - 1];
    assert |x| == |y|;
    assert s[..|x|] == x && s[..|y|] == y;
    assert s[|x| + 1..] == a && s[|y| + 1..] == b;
  }

  lemma PagedDetermines(page: Positive, size: Positive, rest: string, page2: Positive, size2: Positive, rest2: string)
    requires Paged(page, size, rest) == Paged(page2, size2, rest2)
    ensures page == page2 && size == size2 && rest == rest2
  {
    DecimalHasNoColon(page);
    DecimalHasNoColon(page2);
    DecimalHasNoColon(size);
    DecimalHasNoColon(size2);
    FirstColonSplits(Decimal(page), Decimal(size) + ":" + rest, Decimal(page2), Decimal(size2) + ":" + rest2);
    FirstColonSplits(Decimal(size), rest, Decimal(size2), rest2);
    DecimalInjective(page, page2);
    DecimalInjective(size, size2);
  }

  lemma FieldsWithoutColons(a: string, b: string, c: string, d: string, a2: string, b2: string, c2: string, d2: string)
    requires NoColon(a) && NoColon(b) && NoColon(c) && NoColon(a2) && NoColon(b2) && NoColon(c2)
    requires Fields(a, b, c, d) == Fields(a2, b2, c2, d2)
    ensures a == a2 && b == b2 && c == c2 && d == d2
  {
    FirstColonSplits(a, b + ":" + (c + ":" + d), a2, b2 + ":" + (c2 + ":" + d2));
    FirstColonSplits(b, c + ":" + d, b2, c2 + ":" + d2);
    FirstColonSplits(c, d, c2, d2);
  }

  lemma FieldsAssociate(a: string, b: string, c: string, d: string)
    ensures Fields(a, b, c, d) == (a + ":" + b + ":" + c) + ":" + d
  {
  }

  // The last two fields can be read off if they have no colon, whatever the first two are.
  lemma FieldsFromTheRight(a: string, b: string, c: string, d: string, a2: string, b2: string, c2: string, d2: string)
    requires NoColon(c) && NoColon(d) && NoColon(c2) && NoColon(d2)
    requires Fields(a, b, c, d) == Fields(a2, b2, c2, d2)
    ensures a + ":" + b == a2 + ":" + b2 && c == c2 && d == d2
  {
    FieldsAssociate(a, b, c, d);
    FieldsAssociate(a2, b2, c2, d2);
    LastColonSplits(a + ":" + b + ":" + c, d, a2 + ":" + b2 + ":" + c2, d2);
    LastColonSplits(a + ":" + b, c, a2 + ":" + b2, c2);
  }

  lemma ColonsOfFields(a: string, b: string, c: string, d: string)
    ensures Colons(Fields(a, b, c, d)) == Colons(a) + Colons(b) + Colons(c) + Colons(d) + 3
  {
    assert Colons(Fields(a, b, c, d)) == Colons(a) + Colons(":") + Colons(b + ":" + (c + ":" + d));
    assert Colons(b + ":" + (c + ":" + d)) == Colons(b) + Colons(":") + Colons(c + ":" + d);
    assert Colons(c + ":" + d) == Colons(c) + Colons(":") + Colons(d);
  }

  lemma NoColonIsNone(s: string)
    ensures NoColon(s) <==> Colons(s) == 0
  {
  }

  // Colon-free fields are the only ones with their text.
  lemma FieldsByColons(a: string, b: string, c: string, d: string, a2: string, b2: string, c2: string, d2: string)
    requires NoColon(a) && NoColon(b) && NoColon(c) && NoColon(d)
    requires Fields(a, b, c, d) == Fields(a2, b2, c2, d2)
    ensures a == a2 && b == b2 && c == c2 && d == d2
  {
    ColonsOfFields(a, b, c, d);
    ColonsOfFields(a2, b2, c2, d2);
    NoColonIsNone(a);
    NoColonIsNone(b);
    NoColonIsNone(c);
    NoColonIsNone(d);
    NoColonIsNone(a2);
    NoColonIsNone(b2);
    NoColonIsNone(c2);
    FieldsWithoutColons(a, b, c, d, a2, b2, c2, d2);
  }

  lemma FlagTextInjective(o: Option<bool>, p: Option<bool>)
    ensures NoColon(FlagText(o))
    ensures FlagText(o) == FlagText(p) ==> o == p
  {
    assert "None"[0] == 'N' && "True"[0] == 'T' && "False"[0] == 'F';
  }

  lemma StatusTextInjective(o: Option<LoanStatus>, p: Option<LoanStatus>)
    ensures NoColon(StatusText(o))
    ensures StatusText(o) == StatusText(p) ==> o == p
  {
    assert "None"[0] == 'N' && "ACTIVE"[0] == 'A' && "RETURNED"[0] == 'R' && "CANCELLED"[0] == 'C';
  }

  // ---------- which filters a key tells apart ----------

  // A filter value that cannot be confused with a separator or with an absent filter.
  predicate CleanText(o: Option<string>) {
    o.Some? ==> NoColon(o.value) && o.value != "None"
  }

  // And that is there, so that the word None of another query cannot be confused with it.
  predicate Plain(o: Option<string>) {
    o.Some? && CleanText(o)
  }

  lemma CleanTextHasNoColon(o: Option<string>)
    requires CleanText(o)
    ensures NoColon(OptionText(o))
  {
  }

  lemma OptionTextDetermines(o: Option<string>, p: Option<string>)
    requires Plain(o) || (CleanText(o) && CleanText(p))
    requires OptionText(o) == OptionText(p)
    ensures o == p
  {
  }

  predicate Clean(q: Query) {
    CleanText(q.title) && CleanText(q.category) && CleanText(q.author)
  }

  predicate OwnsItsKey(q: Query) {
    Plain(q.title) && Plain(q.category) && Plain(q.author)
  }

  lemma SameKeySamePage(q: Query, r: Query)
    requires ListKey(q) == ListKey(r)
    ensures q.page == r.page && q.size == r.size && FilterText(q) == FilterText(r) && q.available == r.available
  {
    var n := |"books:list:"|;
    assert ListKey(q)[n..] == Paged(q.page, q.size, FilterText(q));
    assert ListKey(r)[n..] == Paged(r.page, r.size, FilterText(r));
    PagedDetermines(q.page, q.size, FilterText(q), r.page, r.size, FilterText(r));
    FlagTextInjective(q.available, r.available);
    FlagTextInjective(r.available, q.available);
    var x := OptionText(q.title) + ":" + (OptionText(q.category) + ":" + OptionText(q.author));
    var y := OptionText(r.title) + ":" + (OptionText(r.category) + ":" + OptionText(r.author));
    assert FilterText(q) == x + ":" + FlagText(q.available);
    assert FilterText(r) == y + ":" + FlagText(r.available);
    LastColonSplits(x, FlagText(q.available), y, FlagText(r.available));
  }

  lemma FilterTextDetermines(q: Query, r: Query)
    requires OwnsItsKey(q) || (Clean(q) && Clean(r))
    requires FilterText(q) == FilterText(r)
    ensures q.title == r.title && q.category == r.category && q.author == r.author
  {
    var t, c, a, f := OptionText(q.title), OptionText(q.category), OptionText(q.author), FlagText(q.available);
    var t2, c2, a2, f2 := OptionText(r.title), OptionText(r.category), OptionText(r.author), FlagText(r.available);
    CleanTextHasNoColon(q.title);
    CleanTextHasNoColon(q.category);
    CleanTextHasNoColon(q.author);
    FlagTextInjective(q.available, r.available);
    FieldsByColons(t, c, a, f, t2, c2, a2, f2);
    OptionTextDetermines(q.title, r.title);
    OptionTextDetermines(q.category, r.category);
    OptionTextDetermines(q.author, r.author);
  }

  /** A query with its three text filters present, free of colons and not the word None, shares its key
      with no other query whatever. Queries that only leave filters out do not share keys among themselves. */
  lemma KeyDeterminesQuery(q: Query, r: Query)
    requires OwnsItsKey(q) || (Clean(q) && Clean(r))
    requires ListKey(q) == ListKey(r)
    ensures q == r
  {
    SameKeySamePage(q, r);
    FilterTextDetermines(q, r);
  }

  lemma ColonSplits(s: string) returns (before: string, after: string)
    requires !NoColon(s)
    ensures s == before + ":" + after && |before| < |s|
  {
    var i :| 0 <= i < |s| && s[i] == ':';
    before, after := s[..i], s[i + 1..];
  }

  // An absent filter and the word None have one text.
  function OtherNone(o: Option<string>): Option<string> {
    if o.None? then Some("None") else None
  }

  lemma ColonTwin(q: Query) returns (r: Query)
    requires !Clean(q) && q.title != Some("None") && q.category != Some("None") && q.author != Some("None")
    ensures r != q && ListKey(r) == ListKey(q)
  {
    var flag := FlagText(q.available);
    if !CleanText(q.title) {
      var x, y := ColonSplits(q.title.value);
      var c := y + ":" + OptionText(q.category);
      var rest := OptionText(q.author) + ":" + flag;
      r := q.(title := Some(x), category := Some(c));
      assert x + ":" + (c + ":" + rest) == (x + ":" + y) + ":" + (OptionText(q.category) + ":" + rest);
    } else if !CleanText(q.category) {
      var x, y := ColonSplits(q.category.value);
      var a := y + ":" + OptionText(q.author);
      r := q.(category := Some(x), author := Some(a));
      assert x + ":" + (a + ":" + flag) == (x + ":" + y) + ":" + (OptionText(q.author) + ":" + flag);
    } else {
      var x, y := ColonSplits(q.author.value);
      var c := OptionText(q.category) + ":" + x;
      r := q.(category := Some(c), author := Some(y));
      assert c + ":" + (y + ":" + flag) == OptionText(q.category) + ":" + ((x + ":" + y) + ":" + flag);
      assert r.author != q.author;
    }
    assert FilterText(r) == FilterText(q);
  }

  /** And every other query shares its key with some different query. */
  lemma TwinOf(q: Query) returns (r: Query)
    requires !OwnsItsKey(q)
    ensures r != q && ListKey(r) == ListKey(q)
  {
    if q.title.None? || q.title.value == "None" {
      r := q.(title := OtherNone(q.title));
    } else if q.category.None? || q.category.value == "None" {
      r := q.(category := OtherNone(q.category));
    } else if q.author.None? || q.author.value == "None" {
      r := q.(author := OtherNone(q.author));
    } else {
      r := ColonTwin(q);
    }
  }

  // ---------- the lists of loans ----------

  predicate CleanLoans(l: LoanList) {
    CleanText(l.filter.user) && CleanText(l.filter.book)
  }

  predicate OwnsLoanKey(l: LoanList) {
    Plain(l.filter.user) && Plain(l.filter.book)
  }

  /** The same for the lists of loans: ids without a colon, other than the word None. */
  lemma LoanKeyDeterminesList(l: LoanList, m: LoanList)
    requires OwnsLoanKey(l) || (CleanLoans(l) && CleanLoans(m))
    requires LoanListKey(l) == LoanListKey(m)
    ensures l == m
  {
    var n, f, g := |"loans:list:"|, l.filter, m.filter;
    assert LoanListKey(l)[n..] == Paged(l.page, l.size, LoanFilterText(f));
    assert LoanListKey(m)[n..] == Paged(m.page, m.size, LoanFilterText(g));
    PagedDetermines(l.page, l.size, LoanFilterText(f), m.page, m.size, LoanFilterText(g));
    CleanTextHasNoColon(f.user);
    CleanTextHasNoColon(f.book);
    StatusTextInjective(f.status, g.status);
    FlagTextInjective(f.overdue, g.overdue);
    FieldsByColons(OptionText(f.user), OptionText(f.book), StatusText(f.status), FlagText(f.overdue),
                   OptionText(g.user), OptionText(g.book), StatusText(g.status), FlagText(g.overdue));
    OptionTextDetermines(f.user, g.user);
    OptionTextDetermines(f.book, g.book);
  }

  lemma SameLoanKeySamePage(l: LoanList, m: LoanList)
    requires LoanListKey(l) == LoanListKey(m)
    ensures l.page == m.page && l.size == m.size
    ensures l.filter.status == m.filter.status && l.filter.overdue == m.filter.overdue
    ensures OptionText(l.filter.user) + ":" + OptionText(l.filter.book)
         == OptionText(m.filter.user) + ":" + OptionText(m.filter.book)
  {
    var n, f, g := |"loans:list:"|, l.filter, m.filter;
    assert LoanListKey(l)[n..] == Paged(l.page, l.size, LoanFilterText(f));
    assert LoanListKey(m)[n..] == Paged(m.page, m.size, LoanFilterText(g));
    PagedDetermines(l.page, l.size, LoanFilterText(f), m.page, m.size, LoanFilterText(g));
    StatusTextInjective(f.status, g.status);
    StatusTextInjective(g.status, f.status);
    FlagTextInjective(f.overdue, g.overdue);
    FlagTextInjective(g.overdue, f.overdue);
    FieldsFromTheRight(OptionText(f.user), OptionText(f.book), StatusText(f.status), FlagText(f.overdue),
                       OptionText(g.user), OptionText(g.book), StatusText(g.status), FlagText(g.overdue));
  }

  /** And every other list of loans shares its key with some different one. */
  lemma LoanTwinOf(l: LoanList) returns (m: LoanList)
    requires !OwnsLoanKey(l)
    ensures m != l && LoanListKey(m) == LoanListKey(l)
  {
    var q := l.filter;
    var rest := StatusText(q.status) + ":" + FlagText(q.overdue);
    if q.user.None? || q.user.value == "None" {
      m := l.(filter := q.(user := OtherNone(q.user)));
    } else if q.book.None? || q.book.value == "None" {
      m := l.(filter := q.(book := OtherNone(q.book)));
    } else if !NoColon(q.user.value) {
      var x, y := ColonSplits(q.user.value);
      var b := y + ":" + q.book.value;
      m := l.(filter := q.(user := Some(x), book := Some(b)));
      assert x + ":" + (b + ":" + rest) == (x + ":" + y) + ":" + (q.book.value + ":" + rest);
      assert LoanFilterText(m.filter) == LoanFilterText(q);
    } else {
      var x, y := ColonSplits(q.book.value);
      var u := q.user.value + ":" + x;
      m := l.(filter := q.(user := Some(u), book := Some(y)));
      assert u + ":" + (y + ":" + rest) == q.user.value + ":" + ((x + ":" + y) + ":" + rest);
      assert LoanFilterText(m.filter) == LoanFilterText(q);
      assert m.filter.book != q.book;
    }
  }

  lemma UserKeyFields(p: UserLoans)
    ensures UserLoansKey(p)[|"loans:user:"|..]
         == Fields(p.user, Decimal(p.page), Decimal(p.size), StatusText(p.status))
  {
  }

  /** The key of a user's loans always tells which user and which page it is. */
  lemma UserKeyDeterminesPage(p: UserLoans, r: UserLoans)
    requires UserLoansKey(p) == UserLoansKey(r)
    ensures p == r
  {
    UserKeyFields(p);
    UserKeyFields(r);
    StatusTextInjective(p.status, r.status);
    StatusTextInjective(r.status, p.status);
    DecimalHasNoColon(p.page);
    DecimalHasNoColon(r.page);
    DecimalHasNoColon(p.size);
    DecimalHasNoColon(r.size);
    FieldsFromTheRight(p.user, Decimal(p.page), Decimal(p.size), StatusText(p.status),
                       r.user, Decimal(r.page), Decimal(r.size), StatusText(r.status));
    LastColonSplits(p.user, Decimal(p.page), r.user, Decimal(r.page));
    DecimalInjective(p.size, r.size);
    DecimalInjective(p.page, r.page);
  }
}
