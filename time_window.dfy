/** The trailing time window both `/readings` and `/analysis` apply to the
    stored readings, and the ordering by timestamp they apply after it. */
module TimeWindow {
  import opened Readings

  /** The instant `hours` hours before `now`; readings strictly after it
      belong to the window. */
  function Cutoff(now: int, hours: int): int
  {
    now - hours * MICROS_PER_HOUR
  }

  predicate InWindow(r: Reading, cutoff: int)
  {
    r.timestamp > cutoff
  }

  /** The readings of `rs` after `cutoff`, in the order `rs` lists them. */
  function Recent(rs: seq<Reading>, cutoff: int): (w: seq<Reading>)
    ensures |w| <= |rs|
  {
    if rs == [] then []
    else
      var last := rs[|rs| - 1];
      Recent(rs[..|rs| - 1], cutoff) + (if InWindow(last, cutoff) then [last] else [])
  }

  /** The window holds each reading of `rs` after the cutoff as often as `rs`
      does, and nothing else. */
  lemma {:induction false} RecentExact(rs: seq<Reading>, cutoff: int)
    ensures forall r :: multiset(Recent(rs, cutoff))[r] ==
              if InWindow(r, cutoff) then multiset(rs)[r] else 0
    ensures forall r :: r in Recent(rs, cutoff) <==> r in rs && InWindow(r, cutoff)
  {
    if rs != [] {
      var init, last := rs[..|rs| - 1], rs[|rs| - 1];
      assert rs == init + [last];
      RecentExact(init, cutoff);
    }
  }

  /** The filter loop: scans the store once and appends each reading that is
      after the cutoff. */
  method FilterWindow(store: seq<Reading>, cutoff: int) returns (w: seq<Reading>)
    ensures w == Recent(store, cutoff)
  {
    w := [];
    var i := 0;
    while i < |store|
      invariant 0 <= i <= |store|
      invariant w == Recent(store[..i], cutoff)
    {
      var seen := store[..i + 1];
      assert seen[..|seen| - 1] == store[..i] && seen[|seen| - 1] == store[i];
      if InWindow(store[i], cutoff) {
        w := w + [store[i]];
      }
      i := i + 1;
    }
    assert store[..i] == store;
  }

  predicate Sorted(rs: seq<Reading>)
  {
    forall i, j :: 0 <= i < j < |rs| ==> rs[i].timestamp <= rs[j].timestamp
  }

  /** Places `r` ahead of the first reading whose timestamp is not smaller, so
      that among equal timestamps `r` comes first. */
  function Insert(r: Reading, s: seq<Reading>): seq<Reading>
  {
    if s == [] then [r]
    else if r.timestamp <= s[0].timestamp then [r] + s
    else [s[0]] + Insert(r, s[1..])
  }

  /** Inserting adds exactly one occurrence of `r`. */
  lemma {:induction false} InsertCount(r: Reading, s: seq<Reading>)
    ensures multiset(Insert(r, s)) == multiset(s) + multiset{r}
  {
    if s != [] && r.timestamp > s[0].timestamp {
      InsertCount(r, s[1..]);
      assert s == [s[0]] + s[1..];
    }
  }

  /** A reading no later than everything in an ordered list may lead it. */
  lemma SortedCons(x: Reading, t: seq<Reading>)
    requires Sorted(t)
    requires forall y :: y in t ==> x.timestamp <= y.timestamp
    ensures Sorted([x] + t)
  {
    var u := [x] + t;
    forall i, j | 0 <= i < j < |u|
      ensures u[i].timestamp <= u[j].timestamp
    {
      assert u[j] == t[j - 1];
      if i > 0 {
        assert u[i] == t[i - 1];
      } else {
        assert t[j - 1] in t;
      }
    }
  }

  lemma {:induction false} InsertSorted(r: Reading, s: seq<Reading>)
    requires Sorted(s)
    ensures Sorted(Insert(r, s))
  {
    if s == [] {
    } else if r.timestamp <= s[0].timestamp {
      forall y | y in s
        ensures r.timestamp <= y.timestamp
      {
        var j :| 0 <= j < |s| && s[j] == y;
      }
      SortedCons(r, s);
    } else {
      var tail := s[1..];
      var rest := Insert(r, tail);
      assert Sorted(tail) by {
        forall i, j | 0 <= i < j < |tail|
          ensures tail[i].timestamp <= tail[j].timestamp
        {
          assert tail[i] == s[i + 1] && tail[j] == s[j + 1];
        }
      }
      InsertSorted(r, tail);
      InsertCount(r, tail);
      forall y | y in rest
        ensures s[0].timestamp <= y.timestamp
      {
        assert y in multiset(rest);
        if y != r {
          assert y in multiset(tail);
          var j :| 0 <= j < |tail| && tail[j] == y;
          assert s[j + 1] == y;
        }
      }
      SortedCons(s[0], rest);
    }
  }

  /** Inserting into a time-ordered list keeps it ordered and adds exactly `r`,
      which either leads the result or follows the old first reading. */
  lemma InsertCorrect(r: Reading, s: seq<Reading>)
    requires Sorted(s)
    ensures Sorted(Insert(r, s))
    ensures multiset(Insert(r, s)) == multiset(s) + multiset{r}
    ensures Insert(r, s)[0] == r || (s != [] && Insert(r, s)[0] == s[0])
  {
    InsertSorted(r, s);
    InsertCount(r, s);
  }

  /** Python's `sorted` with the timestamp as key: a stable sort. */
  function SortByTime(s: seq<Reading>): seq<Reading>
  {
    if s == [] then [] else Insert(s[0], SortByTime(s[1..]))
  }

  /** The result is ordered by timestamp and is a permutation of the input. */
  lemma {:induction false} SortByTimeCorrect(s: seq<Reading>)
    ensures Sorted(SortByTime(s))
    ensures multiset(SortByTime(s)) == multiset(s)
    ensures |SortByTime(s)| == |s|
  {
    if s != [] {
      SortByTimeCorrect(s[1..]);
      InsertCorrect(s[0], SortByTime(s[1..]));
      assert s == [s[0]] + s[1..];
    }
    assert |multiset(SortByTime(s))| == |SortByTime(s)|;
  }

  /** Readings already in time order are left as they are. */
  lemma {:induction false} SortedUnchanged(s: seq<Reading>)
    requires Sorted(s)
    ensures SortByTime(s) == s
  {
    if s != [] {
      SortedUnchanged(s[1..]);
      assert s == [s[0]] + s[1..];
    }
  }

  /** The readings of `s` stamped exactly `k`, in their order in `s`. */
  function StampedAt(s: seq<Reading>, k: int): seq<Reading>
  {
    if s == [] then []
    else (if s[0].timestamp == k then [s[0]] else []) + StampedAt(s[1..], k)
  }

  lemma StampedAtCons(x: Reading, t: seq<Reading>, k: int)
    ensures StampedAt([x] + t, k) == (if x.timestamp == k then [x] else []) + StampedAt(t, k)
  {
    assert ([x] + t)[1..] == t;
  }

  /** Putting an earlier reading `x` in front of both sides keeps `r` ahead of
      the readings stamped like it. */
  lemma StampedAtPrepend(x: Reading, r: Reading, t: seq<Reading>, u: seq<Reading>, k: int)
    requires x.timestamp < r.timestamp
    requires StampedAt(u, k) == (if r.timestamp == k then [r] else []) + StampedAt(t, k)
    ensures StampedAt([x] + u, k) == (if r.timestamp == k then [r] else []) + StampedAt([x] + t, k)
  {
    StampedAtCons(x, u, k);
    StampedAtCons(x, t, k);
  }

  lemma {:induction false} StampedAtInsert(r: Reading, s: seq<Reading>, k: int)
    ensures StampedAt(Insert(r, s), k) ==
              (if r.timestamp == k then [r] else []) + StampedAt(s, k)
  {
    if s == [] {
      StampedAtCons(r, [], k);
    } else if r.timestamp <= s[0].timestamp {
      StampedAtCons(r, s, k);
    } else {
      var rest := Insert(r, s[1..]);
      assert Insert(r, s) == [s[0]] + rest;
      StampedAtInsert(r, s[1..], k);
      StampedAtPrepend(s[0], r, s[1..], rest, k);
      assert s == [s[0]] + s[1..];
    }
  }

  /** Stability: readings with the same timestamp keep their relative order. */
  lemma {:induction false} SortByTimeStable(s: seq<Reading>, k: int)
    ensures StampedAt(SortByTime(s), k) == StampedAt(s, k)
  {
    if s != [] {
      SortByTimeStable(s[1..], k);
      StampedAtInsert(s[0], SortByTime(s[1..]), k);
    }
  }

  /** What `/readings` returns: the window over the store, ordered by time. */
  function ReadingsView(store: seq<Reading>, hours: int, now: int): seq<Reading>
  {
    SortByTime(Recent(store, Cutoff(now, hours)))
  }

  /** The listed readings: ordered by time, and each stored reading strictly
      after the cutoff as often as stored, and nothing else. */
  lemma ReadingsViewExact(store: seq<Reading>, hours: int, now: int)
    ensures Sorted(ReadingsView(store, hours, now))
    ensures forall r :: multiset(ReadingsView(store, hours, now))[r] ==
              if r.timestamp > now - hours * MICROS_PER_HOUR then multiset(store)[r] else 0
  {
    var w := Recent(store, Cutoff(now, hours));
    RecentExact(store, Cutoff(now, hours));
    SortByTimeCorrect(w);
  }

  /** `/readings`: an empty store gives an empty list; otherwise the window,
      ordered by time. */
  method GetReadings(store: seq<Reading>, hours: int := DEFAULT_WINDOW_HOURS, now: int) returns (rs: seq<Reading>)
    ensures rs == ReadingsView(store, hours, now)
    ensures Sorted(rs)
    ensures forall r :: multiset(rs)[r] ==
              if r.timestamp > now - hours * MICROS_PER_HOUR then multiset(store)[r] else 0
  {
    ReadingsViewExact(store, hours, now);
    if store == [] {
      return [];
    }
    var w := FilterWindow(store, Cutoff(now, hours));
    rs := SortByTime(w);
  }

  /** A reading stamped exactly at the cutoff is not in the window. */
  lemma CutoffExcluded(store: seq<Reading>, r: Reading, hours: int, now: int)
    requires r in store && r.timestamp == now - hours * MICROS_PER_HOUR
    ensures r !in ReadingsView(store, hours, now)
  {
    ReadingsViewExact(store, hours, now);
    assert multiset(ReadingsView(store, hours, now))[r] == 0;
  }

  /** A reading stamped `now` is seen by every window of a positive length
      computed at `now`. */
  lemma FreshReadingVisible(store: seq<Reading>, r: Reading, hours: int)
    requires r in store && hours > 0
    ensures r in ReadingsView(store, hours, r.timestamp)
  {
    ReadingsViewExact(store, hours, r.timestamp);
    assert multiset(store)[r] > 0;
  }
}
