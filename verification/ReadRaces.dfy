/** One cached key when reads and writes overlap: a read is a query and, later, a store of what it found; a write
    is a commit and, later, a deletion of the entry. */
module ReadRaces {
  import opened Domain
  import opened Library

  // What a reader found, and when.
  datatype Found<V> = Found(value: V, at: Time)

  datatype Slot<V> = Slot(found: Found<V>, storedAt: Time)

  // `value` is what an uncached read would answer now; `readers` are those between query and store; `pending`
  // writers have committed and not yet deleted the entry.
  datatype Race<V> = Race(now: Time, value: V, slot: Option<Slot<V>>, readers: map<nat, Found<V>>, pending: nat)

  datatype Event<V> = Query(t: nat) | Store(t: nat) | Commit(value: V) | Delete | Pass(duration: nat)

  function After<V>(s: Race<V>, e: Event<V>): Race<V> {
    match e
    case Query(t) => s.(readers := s.readers[t := Found(s.value, s.now)])
    case Store(t) =>
      if t in s.readers then s.(slot := Some(Slot(s.readers[t], s.now)), readers := s.readers - {t}) else s
    case Commit(v) => s.(value := v, pending := s.pending + 1)
    case Delete => if s.pending > 0 then s.(slot := None, pending := s.pending - 1) else s
    case Pass(duration) => s.(now := s.now + duration)
  }

  function Raced<V>(s: Race<V>, events: seq<Event<V>>): Race<V> {
    if events == [] then s else After(Raced(s, events[..|events| - 1]), events[|events| - 1])
  }

  // The cached answer, if one is served.
  function Hit<V>(s: Race<V>): Option<V> {
    if s.slot.Some? && s.now < s.slot.value.storedAt + BOOK_TTL then Some(s.slot.value.found.value) else None
  }

  // ---------- what is left in every schedule ----------

  ghost predicate WasAnswer<V(!new)>(s: Race<V>, events: seq<Event<V>>, found: Found<V>) {
    exists i: nat :: i <= |events| && WasAt(s, events, found, i)
  }

  predicate WasAt<V(==)>(s: Race<V>, events: seq<Event<V>>, found: Found<V>, i: nat)
    requires i <= |events|
  {
    Raced(s, events[..i]).value == found.value && Raced(s, events[..i]).now == found.at
  }

  lemma WasAnswerLonger<V(!new)>(s: Race<V>, events: seq<Event<V>>, found: Found<V>)
    requires events != [] && WasAnswer(s, events[..|events| - 1], found)
    ensures WasAnswer(s, events, found)
  {
    var i: nat :| i <= |events| - 1 && WasAt(s, events[..|events| - 1], found, i);
    assert events[..|events| - 1][..i] == events[..i];
    assert WasAt(s, events, found, i);
  }

  // Nothing is cached or under way.
  predicate Idle<V>(s: Race<V>) {
    s.slot.None? && s.readers == map[] && s.pending == 0
  }

  ghost predicate Sourced<V(!new)>(s: Race<V>, events: seq<Event<V>>) {
    var r := Raced(s, events);
    && (forall t | t in r.readers :: WasAnswer(s, events, r.readers[t]))
    && (r.slot.Some? ==> WasAnswer(s, events, r.slot.value.found) && r.slot.value.storedAt <= r.now)
  }

  /** In every schedule, whatever is cached or about to be was the right answer when its reader queried. */
  lemma {:induction false} EverythingIsSourced<V(!new)>(s: Race<V>, events: seq<Event<V>>)
    requires Idle(s)
    ensures Sourced(s, events)
  {
    if events != [] {
      var earlier, last := events[..|events| - 1], events[|events| - 1];
      var before, after := Raced(s, earlier), Raced(s, events);
      EverythingIsSourced(s, earlier);
      forall found | WasAnswer(s, earlier, found) { WasAnswerLonger(s, events, found); }
      if last.Query? {
        assert earlier == events[..|earlier|];
        assert WasAt(s, events, Found(before.value, before.now), |earlier|);
      }
    }
  }

  /** So an answer served from the cache was right at its reader's query, and was stored less than 300 seconds ago:
      it is older than that by no more than the reader took between query and store. */
  lemma ServedWasRight<V(!new)>(s: Race<V>, events: seq<Event<V>>)
    requires Idle(s) && Hit(Raced(s, events)).Some?
    ensures var r := Raced(s, events);
            && WasAnswer(s, events, r.slot.value.found) && Hit(r) == Some(r.slot.value.found.value)
            && r.now - r.slot.value.found.at < BOOK_TTL + (r.slot.value.storedAt - r.slot.value.found.at)
  {
    EverythingIsSourced(s, events);
  }

  // ---------- exactly when a wrong answer can be served for long ----------

  predicate Quiet<V>(events: seq<Event<V>>) {
    forall i | 0 <= i < |events| :: !events[i].Commit?
  }

  // With every deletion done, a served answer is right.
  predicate SettledRight<V(==)>(s: Race<V>) {
    s.pending == 0 && Hit(s).Some? ==> Hit(s) == Some(s.value)
  }

  ghost predicate SettlesRight<V(!new)>(s: Race<V>) {
    forall events | Quiet(events) :: SettledRight(Raced(s, events))
  }

  // No reader holds an outdated answer, and a wrong entry still has a deletion coming.
  predicate NothingOutdated<V(==)>(s: Race<V>) {
    && (forall t | t in s.readers :: s.readers[t].value == s.value)
    && (Hit(s).Some? && Hit(s) != Some(s.value) ==> s.pending > 0)
  }

  lemma {:induction false} NothingOutdatedStays<V(!new)>(s: Race<V>, events: seq<Event<V>>)
    requires NothingOutdated(s) && Quiet(events)
    ensures NothingOutdated(Raced(s, events)) && Raced(s, events).value == s.value
  {
    if events != [] {
      NothingOutdatedStays(s, events[..|events| - 1]);
    }
  }

  // All pending deletions happen.
  lemma {:induction false} Settle<V(!new)>(s: Race<V>, n: nat) returns (events: seq<Event<V>>)
    requires n <= s.pending
    ensures Quiet(events)
    ensures Raced(s, events) == s.(slot := if n > 0 then None else s.slot, pending := s.pending - n)
  {
    if n == 0 {
      events := [];
    } else {
      var fewer := Settle(s, n - 1);
      events := fewer + [Delete];
      assert events[..|fewer|] == fewer;
    }
  }

  lemma OutdatedReaderStores<V(!new)>(s: Race<V>, t: nat) returns (events: seq<Event<V>>)
    requires t in s.readers && s.readers[t].value != s.value
    ensures Quiet(events) && !SettledRight(Raced(s, events))
  {
    var deletions := Settle(s, s.pending);
    events := deletions + [Store(t)];
    assert events[..|deletions|] == deletions;
    assert Raced(s, events) == After(Raced(s, deletions), Store(t));
  }

  /** From any state, if no further write commits: every schedule settles on right answers if and only if no reader
      holds an answer that a commit has outdated since its query, and a wrong entry still has a deletion coming. */
  lemma {:induction false} SettlesRightExactly<V(!new)>(s: Race<V>)
    ensures SettlesRight(s) <==> NothingOutdated(s)
  {
    if NothingOutdated(s) {
      forall events | Quiet(events)
        ensures SettledRight(Raced(s, events))
      {
        NothingOutdatedStays(s, events);
      }
    } else if t :| t in s.readers && s.readers[t].value != s.value {
      var events := OutdatedReaderStores(s, t);
    } else {
      assert Quiet<V>([]) && Raced(s, []) == s;
      assert !SettledRight(Raced(s, []));
    }
  }

  /** The failing schedule: query, commit, delete, store. The old answer is then served for the whole 300 seconds,
      although every deletion is done. */
  lemma OldAnswerServed<V(!new)>(now: Time, before: V, after: V, wait: nat)
    requires before != after && wait < BOOK_TTL
    ensures var events := [Query(0)] + [Commit(after)] + [Delete] + [Store(0)] + [Pass(wait)];
            var r := Raced(Race(now, before, None, map[], 0), events);
            r.pending == 0 && r.readers == map[] && r.value == after && Hit(r) == Some(before)
  {
    var s := Race(now, before, None, map[], 0);
    var e1: seq<Event<V>> := [Query(0)];
    var e2 := e1 + [Commit(after)];
    var e3 := e2 + [Delete];
    var e4 := e3 + [Store(0)];
    var e5 := e4 + [Pass(wait)];
    assert e5[..4] == e4 && e4[..3] == e3 && e3[..2] == e2 && e2[..1] == e1 && e1[..0] == [];
    assert Raced(s, e1) == After(s, Query(0));
    assert Raced(s, e2) == After(Raced(s, e1), Commit(after));
    assert Raced(s, e3) == After(Raced(s, e2), Delete);
    assert Raced(s, e4) == After(Raced(s, e3), Store(0));
    assert Raced(s, e5) == After(Raced(s, e4), Pass(wait));
  }
}
