/**
 Expiring trash: every event older than the age limit goes, then, oldest first,
 as many more as it takes to bring the trash under the size limit. Events go
 whole, and the newest is never removed for its size.
 */
module Sweep {
  datatype Event = Event(id: string, at: int, size: nat)

  function Total(events: seq<Event>): nat {
    if events == [] then 0 else events[0].size + Total(events[1..])
  }

  lemma TotalConcat(a: seq<Event>, b: seq<Event>)
    ensures Total(a + b) == Total(a) + Total(b)
  {
    if a == [] {
      assert a + b == b;
    } else {
      assert (a + b)[1..] == a[1..] + b;
      TotalConcat(a[1..], b);
    }
  }

  // --- Oldest first -----------------------------------------------------------------------------

  ghost predicate ByAge(events: seq<Event>) {
    forall i, j :: 0 <= i < j < |events| ==> events[i].at <= events[j].at
  }

  /** Puts an event behind every event of its age or older. */
  function InsertByAge(e: Event, events: seq<Event>): (r: seq<Event>)
    ensures multiset(r) == multiset(events) + multiset{e}
  {
    if events == [] then [e]
    else
      var n := |events| - 1;
      assert events == events[..n] + [events[n]];
      if events[n].at <= e.at then events + [e] else InsertByAge(e, events[..n]) + [events[n]]
  }

  function SortByAge(events: seq<Event>): (r: seq<Event>)
    ensures multiset(r) == multiset(events)
  {
    if events == [] then []
    else
      assert events == events[..|events| - 1] + [events[|events| - 1]];
      InsertByAge(events[|events| - 1], SortByAge(events[..|events| - 1]))
  }

  /** Nothing in the list is younger than `at`. */
  ghost predicate UpTo(events: seq<Event>, at: int) { forall i :: 0 <= i < |events| ==> events[i].at <= at }

  lemma AppendKeepsAge(events: seq<Event>, e: Event, at: int)
    requires ByAge(events) && UpTo(events, e.at) && e.at <= at
    ensures ByAge(events + [e]) && UpTo(events + [e], at)
  {
  }

  lemma {:induction false} InsertKeepsAge(e: Event, events: seq<Event>, at: int)
    requires ByAge(events) && UpTo(events, at) && e.at <= at
    ensures ByAge(InsertByAge(e, events)) && UpTo(InsertByAge(e, events), at)
  {
    if events == [] {
      assert InsertByAge(e, events) == [e];
    } else {
      var n := |events| - 1;
      assert UpTo(events, events[n].at) && ByAge(events[..n]) && UpTo(events[..n], events[n].at);
      if e.at < events[n].at {
        InsertKeepsAge(e, events[..n], events[n].at);
        AppendKeepsAge(InsertByAge(e, events[..n]), events[n], at);
      } else {
        AppendKeepsAge(events, e, at);
      }
    }
  }

  lemma Youngest(events: seq<Event>, e: Event) returns (at: int)
    requires ByAge(events)
    ensures UpTo(events, at) && e.at <= at
  {
    at := if events != [] && events[|events| - 1].at > e.at then events[|events| - 1].at else e.at;
  }

  lemma {:induction false} SortsByAge(events: seq<Event>)
    ensures ByAge(SortByAge(events))
  {
    if events != [] {
      var n := |events| - 1;
      SortsByAge(events[..n]);
      var at := Youngest(SortByAge(events[..n]), events[n]);
      InsertKeepsAge(events[n], SortByAge(events[..n]), at);
    }
  }

  // --- What a sweep removes ----------------------------------------------------------------------

  predicate Expired(e: Event, now: int, maxAge: int) { maxAge > 0 && e.at < now - maxAge }

  /**
   A sweep that removes the oldest `k` of `events` and does so rightly: nothing
   expired is left, what is left fits or is one event at most, and each event
   that was not expired had to go, because it and everything newer did not fit.
   */
  ghost predicate Justified(events: seq<Event>, k: nat, now: int, maxAge: int, maxBytes: int) {
    && k <= |events|
    && (forall i :: k <= i < |events| ==> !Expired(events[i], now, maxAge))
    && (Total(events[k..]) <= maxBytes || |events| - k <= 1)
    && (forall i :: 0 <= i < k && !Expired(events[i], now, maxAge) ==> Total(events[i..]) > maxBytes && i < |events| - 1)
  }

  lemma RemovesAsMuch(events: seq<Event>, k: nat, k': nat, now: int, maxAge: int, maxBytes: int)
    requires Justified(events, k, now, maxAge, maxBytes) && Justified(events, k', now, maxAge, maxBytes)
    ensures k' <= k
  {
    if k < |events| {
      var e, rest := events[k], Total(events[k..]);
    }
  }

  /** There is only one such sweep. */
  lemma JustifiedIsUnique(events: seq<Event>, k: nat, k': nat, now: int, maxAge: int, maxBytes: int)
    requires Justified(events, k, now, maxAge, maxBytes) && Justified(events, k', now, maxAge, maxBytes)
    ensures k == k'
  {
    RemovesAsMuch(events, k, k', now, maxAge, maxBytes);
    RemovesAsMuch(events, k', k, now, maxAge, maxBytes);
  }

  method Measure(events: seq<Event>) returns (size: int)
    ensures size == Total(events)
  {
    size := 0;
    for i := 0 to |events|
      invariant size == Total(events[..i])
    {
      assert events[..i + 1] == events[..i] + [events[i]];
      TotalConcat(events[..i], [events[i]]);
      size := size + events[i].size;
    }
    assert events[..|events|] == events;
  }

  // --- The sweep, with removals that may fail -----------------------------------------------------

  /** Bytes of the first `n` events that are not among the removed ones. */
  function LeftSize(events: seq<Event>, removed: set<nat>, n: nat): nat
    requires n <= |events|
  {
    if n == 0 then 0 else LeftSize(events, removed, n - 1) + if n - 1 in removed then 0 else events[n - 1].size
  }

  function Before(removed: set<nat>, i: nat): set<nat> { set j | j in removed && j < i }

  /** The sweep has to remove event `i`, given what it removed before it. */
  predicate Due(events: seq<Event>, removed: set<nat>, i: nat, now: int, maxAge: int, maxBytes: int)
    requires i < |events|
  {
    Expired(events[i], now, maxAge) || (LeftSize(events, Before(removed, i), |events|) > maxBytes && i < |events| - 1)
  }

  /** Of the first `n` events, those removed are exactly the ones that were due and could be removed. */
  ghost predicate RemovesTheDue(events: seq<Event>, removed: set<nat>, stuck: set<nat>, n: nat, now: int, maxAge: int, maxBytes: int)
    requires n <= |events|
  {
    && (forall i :: i in removed ==> i < n)
    && forall i :: 0 <= i < n ==> (i in removed <==> i !in stuck && Due(events, removed, i, now, maxAge, maxBytes))
  }

  /** Removing one event more takes its size off. */
  lemma {:induction false} LeftWithout(events: seq<Event>, removed: set<nat>, i: nat, n: nat)
    requires i < |events| && n <= |events| && i !in removed
    ensures LeftSize(events, removed, n) == LeftSize(events, removed + {i}, n) + if i < n then events[i].size else 0
  {
    if n > 0 { LeftWithout(events, removed, i, n - 1); }
  }

  lemma {:induction false} LeftShrinks(events: seq<Event>, a: set<nat>, b: set<nat>, n: nat)
    requires n <= |events| && a <= b
    ensures LeftSize(events, b, n) <= LeftSize(events, a, n)
  {
    if n > 0 { LeftShrinks(events, a, b, n - 1); }
  }

  lemma {:induction false} LeftOfNone(events: seq<Event>, n: nat)
    requires n <= |events|
    ensures LeftSize(events, {}, n) == Total(events[..n])
  {
    if n > 0 {
      LeftOfNone(events, n - 1);
      assert events[..n] == events[..n - 1] + [events[n - 1]];
      TotalConcat(events[..n - 1], [events[n - 1]]);
    } else {
      assert events[..0] == [];
    }
  }

  lemma NextDue(events: seq<Event>, removed: set<nat>, stuck: set<nat>, i: nat, now: int, maxAge: int, maxBytes: int)
    requires i < |events| && RemovesTheDue(events, removed, stuck, i, now, maxAge, maxBytes)
    ensures var due := Due(events, removed, i, now, maxAge, maxBytes);
            && (due <==> Expired(events[i], now, maxAge) || (LeftSize(events, removed, |events|) > maxBytes && i < |events| - 1))
            && RemovesTheDue(events, if due && i !in stuck then removed + {i} else removed, stuck, i + 1, now, maxAge, maxBytes)
  {
    assert Before(removed, i) == removed;
    assert forall j :: 0 <= j <= i ==> Before(removed + {i}, j) == Before(removed, j);
  }

  /** `stuck` are the events, by age, whose removal fails. */
  method SweepOldestFirst(events: seq<Event>, now: int, maxAge: int, maxBytes: int, stuck: set<nat>)
    returns (removed: set<nat>, size: int)
    ensures RemovesTheDue(events, removed, stuck, |events|, now, maxAge, maxBytes)
    ensures size == LeftSize(events, removed, |events|)
  {
    size := Measure(events);
    removed := {};
    LeftOfNone(events, |events|);
    assert events[..|events|] == events;
    for i := 0 to |events|
      invariant RemovesTheDue(events, removed, stuck, i, now, maxAge, maxBytes)
      invariant size == LeftSize(events, removed, |events|)
    {
      NextDue(events, removed, stuck, i, now, maxAge, maxBytes);
      var expired := maxAge > 0 && events[i].at < now - maxAge;
      var overSize := size > maxBytes && i < |events| - 1;
      if !expired && !overSize { continue; }
      if i in stuck { continue; }
      LeftWithout(events, removed, i, |events|);
      size := size - events[i].size;
      removed := removed + {i};
    }
  }

  /**
   Whatever removals fail, the newest event goes only for its age, and unless
   what is left fits, every older event that was kept is one that failed to go.
   */
  lemma SweepKeepsNoMoreThanItMust(events: seq<Event>, removed: set<nat>, stuck: set<nat>, now: int, maxAge: int, maxBytes: int)
    requires RemovesTheDue(events, removed, stuck, |events|, now, maxAge, maxBytes)
    ensures events != [] && |events| - 1 in removed ==> maxAge > 0 && now - events[|events| - 1].at > maxAge
    ensures forall i :: 0 <= i < |events| && i !in removed && maxAge > 0 && now - events[i].at > maxAge ==> i in stuck
    ensures LeftSize(events, removed, |events|) > maxBytes ==> forall i :: 0 <= i < |events| - 1 && i !in removed ==> i in stuck
  {
    if LeftSize(events, removed, |events|) > maxBytes {
      forall i | 0 <= i < |events| - 1 && i !in removed ensures i in stuck {
        LeftShrinks(events, Before(removed, i), removed, |events|);
        assert i in stuck || !Due(events, removed, i, now, maxAge, maxBytes);
      }
    }
  }

  // --- When every removal succeeds -------------------------------------------------------------------

  function Firsts(k: nat): (s: set<nat>)
    ensures forall i: nat :: i in s <==> i < k
  {
    if k == 0 then {} else Firsts(k - 1) + {k - 1}
  }

  lemma {:induction false} LeftOfFirsts(events: seq<Event>, k: nat, n: nat)
    requires k <= n <= |events|
    ensures LeftSize(events, Firsts(k), n) == Total(events[k..n])
    decreases n
  {
    if k < n {
      LeftOfFirsts(events, k, n - 1);
      assert events[k..n] == events[k..n - 1] + [events[n - 1]];
      TotalConcat(events[k..n - 1], [events[n - 1]]);
    } else {
      LeftOfFirstsIsNone(events, k);
      assert events[k..n] == [];
    }
  }

  lemma {:induction false} LeftOfFirstsIsNone(events: seq<Event>, k: nat)
    requires k <= |events|
    ensures LeftSize(events, Firsts(k), k) == 0
  {
    AllGone(events, Firsts(k), k);
  }

  lemma {:induction false} AllGone(events: seq<Event>, removed: set<nat>, n: nat)
    requires n <= |events| && forall i :: 0 <= i < n ==> i in removed
    ensures LeftSize(events, removed, n) == 0
  {
    if n > 0 { AllGone(events, removed, n - 1); }
  }

  /** The events removed among the first `n` are then an age-ordered prefix, and nothing after it was due. */
  lemma {:induction false} RemovedIsAPrefix(events: seq<Event>, removed: set<nat>, n: nat, now: int, maxAge: int, maxBytes: int)
    returns (k: nat)
    requires ByAge(events) && n <= |events| && RemovesTheDue(events, removed, {}, |events|, now, maxAge, maxBytes)
    ensures k <= n && Before(removed, n) == Firsts(k)
    ensures k < n ==> !Due(events, removed, k, now, maxAge, maxBytes)
  {
    if n == 0 {
      k := 0;
    } else {
      k := RemovedIsAPrefix(events, removed, n - 1, now, maxAge, maxBytes);
      var i := n - 1;
      assert Before(removed, n) == if i in removed then Before(removed, i) + {i} else Before(removed, i);
      if k < i {
        assert Before(removed, k) == Firsts(k);
        assert events[k].at <= events[i].at;
        assert !Due(events, removed, i, now, maxAge, maxBytes);
      } else if i in removed {
        assert Firsts(k) + {i} == Firsts(k + 1);
        k := k + 1;
      }
    }
  }

  lemma DueInPrefix(events: seq<Event>, k: nat, i: nat, now: int, maxAge: int, maxBytes: int)
    requires i <= k && i < |events|
    ensures Due(events, Firsts(k), i, now, maxAge, maxBytes)
       <==> Expired(events[i], now, maxAge) || (Total(events[i..]) > maxBytes && i < |events| - 1)
  {
    assert Before(Firsts(k), i) == Firsts(i);
    LeftOfFirsts(events, i, |events|);
    assert events[i..|events|] == events[i..];
  }

  lemma PrefixIsJustified(events: seq<Event>, k: nat, now: int, maxAge: int, maxBytes: int)
    requires k <= |events| && RemovesTheDue(events, Firsts(k), {}, |events|, now, maxAge, maxBytes)
    ensures Justified(events, k, now, maxAge, maxBytes)
  {
    forall i | 0 <= i < k && !Expired(events[i], now, maxAge) ensures Total(events[i..]) > maxBytes && i < |events| - 1 {
      assert i in Firsts(k);
      DueInPrefix(events, k, i, now, maxAge, maxBytes);
    }
    forall i | k <= i < |events| ensures !Expired(events[i], now, maxAge) {
      assert i !in Firsts(k);
    }
    if k < |events| {
      assert k !in Firsts(k);
      DueInPrefix(events, k, k, now, maxAge, maxBytes);
    } else {
      assert events[k..] == [];
    }
  }

  /** The whole sweep. When every removal succeeds it takes a justified, age-ordered prefix. */
  method Sweep(list: seq<Event>, now: int, maxAge: int, maxBytes: int, stuck: set<nat>)
    returns (removed: set<nat>, size: int, ghost k: nat)
    ensures RemovesTheDue(SortByAge(list), removed, stuck, |SortByAge(list)|, now, maxAge, maxBytes)
    ensures size == LeftSize(SortByAge(list), removed, |SortByAge(list)|)
    ensures stuck == {} ==> removed == Firsts(k) && Justified(SortByAge(list), k, now, maxAge, maxBytes)
  {
    var events := SortByAge(list);
    SortsByAge(list);
    removed, size := SweepOldestFirst(events, now, maxAge, maxBytes, stuck);
    k := 0;
    if stuck == {} {
      k := RemovedIsAPrefix(events, removed, |events|, now, maxAge, maxBytes);
      assert Before(removed, |events|) == removed;
      PrefixIsJustified(events, k, now, maxAge, maxBytes);
    }
  }
}
