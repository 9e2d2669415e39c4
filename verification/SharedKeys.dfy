/** Lists of books whose key another query shares: exactly they can be answered with the wrong page. */
module SharedKeys {
  import opened Domain
  import opened Circulation
  import opened CacheKeys
  import opened Views
  import opened Library
  import opened CacheCoherence

  // ---------- queries that own their key ----------

  lemma OwnedKeysHaveNoTwins(steps: seq<Step>, q: Query)
    requires OwnsItsKey(q)
    ensures NoTwinRead(steps, ReadBooks(q))
  {
    forall i | 0 <= i < |steps| && IsRead(steps[i]) && KeyOf(steps[i]) == ListKey(q)
      ensures steps[i] == ReadBooks(q)
    {
      KindsApart(steps[i], ReadBooks(q));
      KeyDeterminesQuery(q, steps[i].query);
    }
  }

  predicate CleanReads(steps: seq<Step>) {
    forall i | 0 <= i < |steps| && steps[i].ReadBooks? :: Clean(steps[i].query)
  }

  /** If no client ever filters by a text with a colon or by the word None, every list is transparent. */
  lemma {:induction false} CleanClientsSeeCurrentLists(start: Time, steps: seq<Step>, q: Query)
    requires CleanReads(steps) && Clean(q)
    ensures Transparent(Run(Opening(start), steps), ReadBooks(q))
  {
    forall i | 0 <= i < |steps| && IsRead(steps[i]) && KeyOf(steps[i]) == ListKey(q)
      ensures steps[i] == ReadBooks(q)
    {
      KindsApart(steps[i], ReadBooks(q));
      KeyDeterminesQuery(q, steps[i].query);
    }
    CachingListsIsTransparent(start, steps, q);
  }

  // ---------- a library with one book ----------

  datatype Sample = Sample(title: string, category: string, author: string, total: int)

  predicate Fits(q: Query, s: Sample) {
    && (Given(q.title) ==> Like(s.title, q.title.value))
    && (Given(q.category) ==> s.category == q.category.value)
    && (Given(q.author) ==> Like(s.author, q.author.value))
    && (q.available == Some(true) ==> s.total > 0)
    && (q.available == Some(false) ==> s.total == 0)
  }

  function Stocking(s: Sample): seq<Step> {
    [Write(AddAuthor("a", s.author, None)), Write(AddBook("b", s.title, "1", s.category, s.total, "a"))]
  }

  function OneBook(start: Time, s: Sample): Db {
    EMPTY_DB.(authors := map["a" := Author(s.author, None, true)],
              books := map["b" := Book(s.title, "1", s.category, s.total, s.total, "a", start, true)],
              bookOrder := ["b"])
  }

  lemma StockingGivesOneBook(start: Time, s: Sample)
    ensures Run(Opening(start), Stocking(s)) == World(start, OneBook(start, s), map[], [])
  {
    var w0, s1, s2 := Opening(start), Stocking(s)[0], Stocking(s)[1];
    OneMore(w0, [], s1);
    OneMore(w0, [s1], s2);
    assert [] + [s1] == [s1] && [s1] + [s2] == Stocking(s);
    var w1 := Next(w0, s1);
    assert w1 == World(start, EMPTY_DB.(authors := map["a" := Author(s.author, None, true)]), map[], []);
    assert WithoutPrefix(w1.cache, "books:list") == map[];
    assert [] + ["b"] == ["b"];
  }

  lemma OneBookListed(start: Time, s: Sample, q: Query)
    ensures ListBooks(OneBook(start, s), q).total == if Fits(q, s) then 1 else 0
  {
    var db := OneBook(start, s);
    assert ["b"][..0] == [];
    assert ListedViews(db, q, []) == [];
    assert Lists(db, q, "b") == Fits(q, s);
  }

  // ---------- two queries with one key ----------

  function FilterValue(o: Option<string>): string {
    if Given(o) then o.value else ""
  }

  // A book that `q` lists, with a category chosen against `r` where `q` leaves it open.
  function SampleFor(q: Query, r: Query): Sample {
    Sample(FilterValue(q.title),
           if Given(q.category) then q.category.value else FilterValue(r.category) + "x",
           FilterValue(q.author),
           if q.available == Some(false) then 0 else 1)
  }

  lemma LikeItself(text: string)
    ensures Like(text, text)
  {
    assert OccursAt(Folded(text), Folded(text), 0);
  }

  lemma LikeIsShorter(text: string, part: string)
    requires Like(text, part)
    ensures |part| <= |text|
  {
  }

  lemma SampleFits(q: Query, r: Query)
    ensures Fits(q, SampleFor(q, r))
  {
    LikeItself(FilterValue(q.title));
    LikeItself(FilterValue(q.author));
  }

  // Texts of one length that start the same key are the same filter.
  lemma SameFirstFilter(o: Option<string>, x: string, p: Option<string>, y: string)
    requires OptionText(o) + ":" + x == OptionText(p) + ":" + y && |FilterValue(o)| == |FilterValue(p)|
    ensures o == p && x == y
  {
    var s := OptionText(o) + ":" + x;
    if Given(o) {
      assert s[..|OptionText(o)|] == o.value && s[..|OptionText(p)|] == p.value;
    } else {
      assert s[0] == if o.None? then 'N' else ':';
      assert s[0] == if p.None? then 'N' else ':';
    }
    assert s[|OptionText(o)| + 1..] == x && s[|OptionText(p)| + 1..] == y;
  }

  lemma NotBothFit(q: Query, r: Query)
    requires q != r && ListKey(q) == ListKey(r)
    ensures !(Fits(r, SampleFor(q, r)) && Fits(q, SampleFor(r, q)))
  {
    SameKeySamePage(q, r);
    if Fits(r, SampleFor(q, r)) && Fits(q, SampleFor(r, q)) {
      if Given(r.title) { LikeIsShorter(FilterValue(q.title), r.title.value); }
      if Given(q.title) { LikeIsShorter(FilterValue(r.title), q.title.value); }
      if Given(r.author) { LikeIsShorter(FilterValue(q.author), r.author.value); }
      if Given(q.author) { LikeIsShorter(FilterValue(r.author), q.author.value); }
      assert forall o: Option<string> :: |FilterValue(o) + "x"| != |FilterValue(o)|;
      assert |FilterValue(q.category)| == |FilterValue(r.category)|;
      var q2 := OptionText(q.author) + ":" + FlagText(q.available);
      var r2 := OptionText(r.author) + ":" + FlagText(r.available);
      SameFirstFilter(q.title, OptionText(q.category) + ":" + q2, r.title, OptionText(r.category) + ":" + r2);
      SameFirstFilter(q.category, q2, r.category, r2);
      SameFirstFilter(q.author, FlagText(q.available), r.author, FlagText(r.available));
    }
  }

  // A book that exactly one of the two queries lists.
  lemma TellingBook(q: Query, r: Query) returns (s: Sample)
    requires q != r && ListKey(q) == ListKey(r)
    ensures Fits(q, s) != Fits(r, s)
  {
    SampleFits(q, r);
    SampleFits(r, q);
    NotBothFit(q, r);
    s := if Fits(r, SampleFor(q, r)) then SampleFor(r, q) else SampleFor(q, r);
  }

  /** Any two different queries with one key: a run of three steps from the empty library after which one is
      answered with the page of the other, and the two pages differ in their total. */
  lemma {:induction false} WrongPageServed(start: Time, q: Query, r: Query) returns (steps: seq<Step>)
    requires q != r && ListKey(q) == ListKey(r)
    ensures |steps| == 3 && steps[2] == ReadBooks(r)
    ensures var w := Run(Opening(start), steps);
            && GetBooks(w, q).1 == Ok(Json(PageAnswer(ListBooks(w.db, r))))
            && ListBooks(w.db, r).total != ListBooks(w.db, q).total
            && !Transparent(w, ReadBooks(q))
  {
    var s := TellingBook(q, r);
    steps := Stocking(s) + [ReadBooks(r)];
    OneMore(Opening(start), Stocking(s), ReadBooks(r));
    StockingGivesOneBook(start, s);
    OneBookListed(start, s, q);
    OneBookListed(start, s, r);
  }

  /** The word None and no filter at all, in both directions: each can be answered with the other's page. */
  lemma {:induction false} LiteralNoneIsServedEverything(start: Time) returns (steps: seq<Step>, others: seq<Step>)
    ensures !Transparent(Run(Opening(start), steps), ReadBooks(EVERYTHING.(category := Some("None"))))
    ensures !Transparent(Run(Opening(start), others), ReadBooks(EVERYTHING))
  {
    var filtered := EVERYTHING.(category := Some("None"));
    steps := WrongPageServed(start, filtered, EVERYTHING);
    others := WrongPageServed(start, EVERYTHING, filtered);
  }

  ghost predicate AlwaysTransparent(q: Query) {
    forall start: Time, steps: seq<Step> :: TransparentAfter(start, steps, q)
  }

  predicate TransparentAfter(start: Time, steps: seq<Step>, q: Query) {
    Transparent(Run(Opening(start), steps), ReadBooks(q))
  }

  /** Exactly the queries that own their key (all three text filters present, without a colon, not the word
      None) are answered currently in every run, whatever other clients read before. */
  lemma {:induction false} ListsTransparentExactly(q: Query)
    ensures AlwaysTransparent(q) <==> OwnsItsKey(q)
  {
    if OwnsItsKey(q) {
      forall start: Time, steps: seq<Step>
        ensures TransparentAfter(start, steps, q)
      {
        OwnedKeysHaveNoTwins(steps, q);
        CachingListsIsTransparent(start, steps, q);
      }
    } else {
      var r := TwinOf(q);
      var steps := WrongPageServed(0, q, r);
      assert !TransparentAfter(0, steps, q);
    }
  }
}
