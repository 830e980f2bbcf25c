/**
 * The leaderboard of the clear screen. The fetched results of the level
 * and one record for the player who has just finished are sorted by time
 * (a stable sort, as JavaScript's `Array.prototype.sort` is), the first
 * three are kept, and each kept record is given a rank: 1 for the first,
 * `index + 1` when its time differs from the previous record's, and
 * otherwise the `rank` field of the previous record as it was BEFORE the
 * ranks were assigned.
 */
module Clear {
  import opened Wrappers

  /**
   * One leaderboard record. A fetched result carries no `rank` field, so
   * its `rank` is None (JavaScript's `undefined`); `username` is None when
   * the query string has no `username` parameter.
   */
  datatype Entry = Entry(username: Option<string>, time: int, rank: Option<int>)

  /** How many records the leaderboard shows. */
  const TOP: nat := 3

  // ---------------------------------------------------------------------
  // The pool: the fetched results and the current player's record
  // ---------------------------------------------------------------------

  /** The fetched results followed by one record for the current player. */
  function Pool(results: seq<Entry>, username: Option<string>, time: int): (pool: seq<Entry>)
    ensures |pool| == |results| + 1
    ensures pool[..|results|] == results
    ensures pool[|results|] == Entry(username, time, None)
  {
    results + [Entry(username, time, None)]
  }

  // ---------------------------------------------------------------------
  // The stable sort by time
  // ---------------------------------------------------------------------

  predicate SortedByTime(s: seq<Entry>) {
    forall i, j :: 0 <= i < j < |s| ==> s[i].time <= s[j].time
  }

  /** The records of s whose time is t, in their order in s. */
  function WithTime(s: seq<Entry>, t: int): (r: seq<Entry>)
    ensures |r| <= |s|
  {
    if s == [] then []
    else (if s[0].time == t then [s[0]] else []) + WithTime(s[1..], t)
  }

  lemma {:induction false} WithTimeAppend(a: seq<Entry>, b: seq<Entry>, t: int)
    ensures WithTime(a + b, t) == WithTime(a, t) + WithTime(b, t)
    decreases |a|
  {
    if a != [] {
      assert (a + b)[1..] == a[1..] + b;
      WithTimeAppend(a[1..], b, t);
    } else {
      assert a + b == b;
    }
  }

  /** The first record's time has at least one record. */
  lemma WithTimeHead(s: seq<Entry>)
    requires s != []
    ensures WithTime(s, s[0].time) != []
  {
  }

  /** No record of s has time t. */
  lemma {:induction false} WithTimeNone(s: seq<Entry>, t: int)
    requires forall i :: 0 <= i < |s| ==> s[i].time != t
    ensures WithTime(s, t) == []
    decreases |s|
  {
    if s != [] {
      WithTimeNone(s[1..], t);
    }
  }

  /** Puts e after every leading record of xs whose time is not larger than e's. */
  function Insert(e: Entry, xs: seq<Entry>): seq<Entry>
    decreases |xs|
  {
    if xs == [] || e.time < xs[0].time then [e] + xs else [xs[0]] + Insert(e, xs[1..])
  }

  /** Inserting adds exactly e. */
  lemma {:induction false} InsertPerm(e: Entry, xs: seq<Entry>)
    ensures multiset(Insert(e, xs)) == multiset(xs) + multiset{e}
    decreases |xs|
  {
    if xs != [] && xs[0].time <= e.time {
      InsertPerm(e, xs[1..]);
      assert xs == [xs[0]] + xs[1..];
    }
  }

  /** Inserting into a sorted sequence keeps it sorted. */
  lemma {:induction false} InsertSorted(e: Entry, xs: seq<Entry>)
    requires SortedByTime(xs)
    ensures SortedByTime(Insert(e, xs))
    decreases |xs|
  {
    if xs != [] && xs[0].time <= e.time {
      var rest := Insert(e, xs[1..]);
      InsertSorted(e, xs[1..]);
      InsertPerm(e, xs[1..]);
      forall j | 0 <= j < |rest| ensures xs[0].time <= rest[j].time {
        assert rest[j] in multiset(rest);
        if rest[j] != e {
          assert rest[j] in multiset(xs[1..]);
        }
      }
    }
  }

  /** Inserting e appends it to the records of its own time and leaves the other times alone. */
  lemma {:induction false} InsertWithTime(e: Entry, xs: seq<Entry>, t: int)
    requires SortedByTime(xs)
    ensures WithTime(Insert(e, xs), t) == WithTime(xs, t) + (if e.time == t then [e] else [])
    decreases |xs|
  {
    var mine: seq<Entry> := if e.time == t then [e] else [];
    if xs == [] {
      WithTimeCons(e, xs, t);
    } else if e.time < xs[0].time {
      assert Insert(e, xs) == [e] + xs;
      InsertFrontWithTime(e, xs, t);
    } else {
      InsertWithTime(e, xs[1..], t);
      InsertLaterWithTime(e, xs, t);
    }
  }

  /** The step of InsertWithTime past a first record that is not slower than e. */
  lemma InsertLaterWithTime(e: Entry, xs: seq<Entry>, t: int)
    requires SortedByTime(xs) && xs != [] && xs[0].time <= e.time
    requires WithTime(Insert(e, xs[1..]), t) == WithTime(xs[1..], t) + (if e.time == t then [e] else [])
    ensures WithTime(Insert(e, xs), t) == WithTime(xs, t) + (if e.time == t then [e] else [])
  {
    var rest := Insert(e, xs[1..]);
    assert Insert(e, xs) == [xs[0]] + rest;
    WithTimeCons(xs[0], rest, t);
    assert xs == [xs[0]] + xs[1..];
    WithTimeCons(xs[0], xs[1..], t);
  }

  /** e goes in front of xs when it is faster than all of xs, so it is the only record of its time. */
  lemma InsertFrontWithTime(e: Entry, xs: seq<Entry>, t: int)
    requires SortedByTime(xs) && xs != [] && e.time < xs[0].time
    ensures WithTime([e] + xs, t) == WithTime(xs, t) + (if e.time == t then [e] else [])
  {
    WithTimeCons(e, xs, t);
    if e.time == t {
      WithTimeNone(xs, t);
    }
  }

  lemma WithTimeCons(x: Entry, s: seq<Entry>, t: int)
    ensures WithTime([x] + s, t) == (if x.time == t then [x] else []) + WithTime(s, t)
  {
    assert ([x] + s)[1..] == s;
  }

  /**
   * The comparator sort `(a, b) => a.time - b.time`: an insertion sort that
   * takes the records left to right and puts each after the equal times
   * already placed, so records of equal time keep their order.
   */
  function SortByTime(s: seq<Entry>): (r: seq<Entry>)
    ensures SortedByTime(r)
    ensures multiset(r) == multiset(s)
    decreases |s|
  {
    if s == [] then []
    else
      var init := s[..|s| - 1];
      assert s == init + [s[|s| - 1]];
      InsertSorted(s[|s| - 1], SortByTime(init));
      InsertPerm(s[|s| - 1], SortByTime(init));
      Insert(s[|s| - 1], SortByTime(init))
  }

  /** Stability: for every time, the records of that time appear in the sorted output in their input order. */
  lemma {:induction false} SortByTimeStable(s: seq<Entry>, t: int)
    ensures WithTime(SortByTime(s), t) == WithTime(s, t)
    decreases |s|
  {
    if s != [] {
      var init, last := s[..|s| - 1], s[|s| - 1];
      assert s == init + [last];
      WithTimeAppend(init, [last], t);
      var sortedInit := SortByTime(init);
      var tail: seq<Entry> := if last.time == t then [last] else [];
      assert SortByTime(s) == Insert(last, sortedInit);
      InsertWithTime(last, sortedInit, t);
      SortByTimeStable(init, t);
      assert WithTime(SortByTime(s), t) == WithTime(init, t) + tail;
      assert WithTime([last], t) == tail + WithTime([], t);
    }
  }

  /**
   * Sortedness and stability determine the result: any sorted sequence
   * that lists the records of every time in their input order is the
   * output of SortByTime.
   */
  lemma {:induction false} StableSortUnique(a: seq<Entry>, b: seq<Entry>)
    requires SortedByTime(a) && SortedByTime(b)
    requires forall t :: WithTime(a, t) == WithTime(b, t)
    ensures a == b
    decreases |a| + |b|
  {
    if a == [] || b == [] {
      if a != [] {
        WithTimeHead(a);
      } else if b != [] {
        WithTimeHead(b);
      }
    } else {
      var ta, tb := a[0].time, b[0].time;
      if ta < tb {
        assert WithTime(a, ta) == WithTime(b, ta);
        WithTimeNone(b, ta);
        assert false;
      } else if tb < ta {
        assert WithTime(a, tb) == WithTime(b, tb);
        WithTimeNone(a, tb);
        assert false;
      } else {
        assert WithTime(a, ta) == [a[0]] + WithTime(a[1..], ta);
        assert WithTime(b, ta) == [b[0]] + WithTime(b[1..], ta);
        assert WithTime(a, ta) == WithTime(b, ta);
        assert a[0] == WithTime(a, ta)[0] == b[0];
        forall t ensures WithTime(a[1..], t) == WithTime(b[1..], t) {
          var p: seq<Entry> := if a[0].time == t then [a[0]] else [];
          assert WithTime(a, t) == p + WithTime(a[1..], t);
          assert WithTime(b, t) == p + WithTime(b[1..], t);
          assert WithTime(a, t) == WithTime(b, t);
          assert WithTime(a[1..], t) == WithTime(a, t)[|p|..];
          assert WithTime(b[1..], t) == WithTime(b, t)[|p|..];
        }
        StableSortUnique(a[1..], b[1..]);
        assert a == [a[0]] + a[1..] && b == [b[0]] + b[1..];
      }
    }
  }

  // ---------------------------------------------------------------------
  // The top three and the ranks
  // ---------------------------------------------------------------------

  /** `slice(0, 3)`: the first three records, or all of them when there are fewer. */
  function Top(sorted: seq<Entry>): (top: seq<Entry>)
    ensures |top| == if |sorted| < TOP then |sorted| else TOP
    ensures top == sorted[..|top|]
  {
    if |sorted| < TOP then sorted else sorted[..TOP]
  }

  /** The rank the map callback gives the record at index i of arr, the array before the map. */
  function RankAt(arr: seq<Entry>, i: nat): Option<int>
    requires i < |arr|
  {
    if i > 0 && arr[i].time == arr[i - 1].time then arr[i - 1].rank else Some(i + 1)
  }

  /** `map((result, index, arr) => ({...result, rank: ...}))`: every field is copied, `rank` is set. */
  function AssignRanks(arr: seq<Entry>): (ranked: seq<Entry>)
    ensures |ranked| == |arr|
    ensures forall i :: 0 <= i < |arr| ==>
      ranked[i].username == arr[i].username && ranked[i].time == arr[i].time
    ensures |arr| > 0 ==> ranked[0].rank == Some(1)
    ensures forall i :: 0 < i < |arr| && arr[i].time != arr[i - 1].time ==> ranked[i].rank == Some(i + 1)
    ensures forall i :: 0 < i < |arr| && arr[i].time == arr[i - 1].time ==> ranked[i].rank == arr[i - 1].rank
  {
    seq(|arr|, i requires 0 <= i < |arr| => arr[i].(rank := RankAt(arr, i)))
  }

  /** The ranking the clear screen shows, for the fetched results and the player's name and time. */
  function FetchRanking(results: seq<Entry>, username: Option<string>, time: int): seq<Entry>
  {
    AssignRanks(Top(SortByTime(Pool(results, username, time))))
  }

  /**
   * What the ranking is made of: as many records as the pool has, up to
   * three; in time order; the leading records of the stably sorted pool
   * with their names and times; and no record left out is faster than one
   * kept.
   */
  lemma RankingShape(results: seq<Entry>, username: Option<string>, time: int)
    ensures var pool := Pool(results, username, time);
            var sorted := SortByTime(pool);
            var out := FetchRanking(results, username, time);
            && |out| == (if |results| + 1 < TOP then |results| + 1 else TOP)
            && (forall i, j :: 0 <= i < j < |out| ==> out[i].time <= out[j].time)
            && (forall i :: 0 <= i < |out| ==>
                  out[i].username == sorted[i].username && out[i].time == sorted[i].time)
            && (forall i, j :: 0 <= i < |out| <= j < |sorted| ==> out[i].time <= sorted[j].time)
  {
    var sorted := SortByTime(Pool(results, username, time));
    var top := Top(sorted);
    var out := AssignRanks(top);
    assert |sorted| == |multiset(sorted)| == |multiset(Pool(results, username, time))| == |results| + 1;
    assert forall i :: 0 <= i < |top| ==> top[i] == sorted[i];
    assert forall i :: 0 <= i < |out| ==> out[i].time == sorted[i].time;
  }

  /** The current player's record always takes part: when it is among the fastest three, it is shown. */
  lemma PlayerInPool(results: seq<Entry>, username: Option<string>, time: int)
    ensures Entry(username, time, None) in multiset(SortByTime(Pool(results, username, time)))
  {
    var pool := Pool(results, username, time);
    assert pool[|results|] in multiset(pool);
  }

  /**
   * The tie rule reads the rank of the previous record before the map, so
   * when no fetched record carries a rank, a record whose time equals the
   * one before it gets no rank at all.
   */
  lemma TiedRankMissing(results: seq<Entry>, username: Option<string>, time: int, i: nat)
    requires forall e :: e in results ==> e.rank.None?
    requires 0 < i < |FetchRanking(results, username, time)|
    requires FetchRanking(results, username, time)[i].time == FetchRanking(results, username, time)[i - 1].time
    ensures FetchRanking(results, username, time)[i].rank == None
  {
    var pool := Pool(results, username, time);
    var sorted := SortByTime(pool);
    var top := Top(sorted);
    assert forall e: Entry :: e in multiset(pool) ==> e.rank.None?;
    assert top[i - 1] in multiset(sorted);
  }

  /** A concrete tie: one fetched record and the player share the time 10, and the player is shown without a rank. */
  lemma TieExample()
    ensures var out := FetchRanking([Entry(Some("alice"), 10, None)], Some("bob"), 10);
            && |out| == 2 && out[0].rank == Some(1)
            && out[1].username == Some("bob") && out[1].time == 10 && out[1].rank == None
  {
    var pool := Pool([Entry(Some("alice"), 10, None)], Some("bob"), 10);
    assert pool[..1] == [Entry(Some("alice"), 10, None)];
    assert SortByTime(pool[..1]) == [Entry(Some("alice"), 10, None)];
  }

  // ---------------------------------------------------------------------
  // The evidently intended tie rule
  // ---------------------------------------------------------------------

  /** The ranks with ties inheriting the rank computed for the previous record. */
  function RankIntended(arr: seq<Entry>): (ranked: seq<Entry>)
    ensures |ranked| == |arr|
    ensures forall i :: 0 <= i < |arr| ==>
      ranked[i].username == arr[i].username && ranked[i].time == arr[i].time && ranked[i].rank.Some?
    decreases |arr|
  {
    if arr == [] then []
    else
      var prev := RankIntended(arr[..|arr| - 1]);
      var i := |arr| - 1;
      var last := arr[i];
      prev + [last.(rank := if i > 0 && last.time == arr[i - 1].time then prev[i - 1].rank else Some(i + 1))]
  }

  /** How many records of arr are strictly faster than time t. */
  function Faster(arr: seq<Entry>, t: int): (n: nat)
    ensures n <= |arr|
  {
    if arr == [] then 0 else (if arr[0].time < t then 1 else 0) + Faster(arr[1..], t)
  }

  lemma {:induction false} FasterAppend(a: seq<Entry>, e: Entry, t: int)
    ensures Faster(a + [e], t) == Faster(a, t) + (if e.time < t then 1 else 0)
    decreases |a|
  {
    if a == [] {
      assert [e][1..] == [];
    } else {
      assert (a + [e])[1..] == a[1..] + [e];
      FasterAppend(a[1..], e, t);
    }
  }

  /** In a sorted sequence whose last time is below t, every record is faster than t. */
  lemma {:induction false} FasterAll(a: seq<Entry>, t: int)
    requires forall i :: 0 <= i < |a| ==> a[i].time < t
    ensures Faster(a, t) == |a|
    decreases |a|
  {
    if a != [] {
      FasterAll(a[1..], t);
    }
  }

  /**
   * With the intended rule the ranks of a time-sorted list are competition
   * ranks: one more than the number of strictly faster records, so tied
   * records share a rank and the next distinct time skips the places they
   * used up.
   */
  lemma {:induction false} RankIntendedIsCompetition(arr: seq<Entry>)
    requires SortedByTime(arr)
    ensures forall i :: 0 <= i < |arr| ==> RankIntended(arr)[i].rank == Some(1 + Faster(arr, arr[i].time))
    decreases |arr|
  {
    if arr != [] {
      var n := |arr| - 1;
      var init, last := arr[..n], arr[n];
      assert SortedByTime(init);
      RankIntendedIsCompetition(init);
      forall i | 0 <= i < n
        ensures RankIntended(arr)[i].rank == Some(1 + Faster(arr, arr[i].time))
      {
        assert init[i] == arr[i];
        CompetitionEarlier(arr, i);
      }
      if n > 0 && last.time == arr[n - 1].time {
        assert init[n - 1] == arr[n - 1];
        CompetitionTied(arr);
      } else {
        SortedBelow(init, last.time);
        FasterAll(init, last.time);
        CompetitionNew(arr);
      }
    }
  }

  /** An earlier record keeps its competition rank when a record no faster is appended. */
  lemma CompetitionEarlier(arr: seq<Entry>, i: nat)
    requires i < |arr| - 1 && arr[i].time <= arr[|arr| - 1].time
    requires RankIntended(arr[..|arr| - 1])[i].rank == Some(1 + Faster(arr[..|arr| - 1], arr[i].time))
    ensures RankIntended(arr)[i].rank == Some(1 + Faster(arr, arr[i].time))
  {
    RankIntendedInit(arr, i);
    FasterSnoc(arr, arr[i].time);
  }

  /** A last record tied with the one before it gets that record's competition rank. */
  lemma CompetitionTied(arr: seq<Entry>)
    requires |arr| > 1 && arr[|arr| - 1].time == arr[|arr| - 2].time
    requires RankIntended(arr[..|arr| - 1])[|arr| - 2].rank == Some(1 + Faster(arr[..|arr| - 1], arr[|arr| - 2].time))
    ensures RankIntended(arr)[|arr| - 1].rank == Some(1 + Faster(arr, arr[|arr| - 1].time))
  {
    RankIntendedLast(arr);
    FasterSnoc(arr, arr[|arr| - 1].time);
  }

  /** A last record with a new time, after n strictly faster records, gets rank n + 1. */
  lemma CompetitionNew(arr: seq<Entry>)
    requires |arr| > 0 && (|arr| > 1 ==> arr[|arr| - 1].time != arr[|arr| - 2].time)
    requires Faster(arr[..|arr| - 1], arr[|arr| - 1].time) == |arr| - 1
    ensures RankIntended(arr)[|arr| - 1].rank == Some(1 + Faster(arr, arr[|arr| - 1].time))
  {
    RankIntendedLast(arr);
    FasterSnoc(arr, arr[|arr| - 1].time);
  }

  /** The intended rank of an earlier record does not depend on the records after it. */
  lemma RankIntendedInit(arr: seq<Entry>, i: nat)
    requires i < |arr| - 1
    ensures RankIntended(arr)[i] == RankIntended(arr[..|arr| - 1])[i]
  {
  }

  /** The intended rank of the last record: its predecessor's on a tie, its place otherwise. */
  lemma RankIntendedLast(arr: seq<Entry>)
    requires |arr| > 0
    ensures RankIntended(arr)[|arr| - 1].rank
         == if |arr| > 1 && arr[|arr| - 1].time == arr[|arr| - 2].time
            then RankIntended(arr[..|arr| - 1])[|arr| - 2].rank else Some(|arr|)
  {
  }

  /** Counting the faster records of arr: those of all but its last, plus the last if it is faster. */
  lemma FasterSnoc(arr: seq<Entry>, t: int)
    requires |arr| > 0
    ensures Faster(arr, t) == Faster(arr[..|arr| - 1], t) + (if arr[|arr| - 1].time < t then 1 else 0)
  {
    assert arr == arr[..|arr| - 1] + [arr[|arr| - 1]];
    FasterAppend(arr[..|arr| - 1], arr[|arr| - 1], t);
  }

  /** Every record of a sorted list is faster than a time above its last one. */
  lemma SortedBelow(s: seq<Entry>, t: int)
    requires SortedByTime(s) && (s != [] ==> s[|s| - 1].time < t)
    ensures forall i :: 0 <= i < |s| ==> s[i].time < t
  {
  }

  /** The ranking with the intended tie rule. */
  function FetchRankingIntended(results: seq<Entry>, username: Option<string>, time: int): seq<Entry>
  {
    RankIntended(Top(SortByTime(Pool(results, username, time))))
  }

  /** Every record of the intended ranking has a rank, and a tied record has its predecessor's rank. */
  lemma IntendedRanks(results: seq<Entry>, username: Option<string>, time: int)
    ensures var out := FetchRankingIntended(results, username, time);
            && (forall i :: 0 <= i < |out| ==> out[i].rank.Some?)
            && (|out| > 0 ==> out[0].rank == Some(1))
            && (forall i :: 0 < i < |out| && out[i].time == out[i - 1].time ==> out[i].rank == out[i - 1].rank)
            && (forall i :: 0 < i < |out| && out[i].time != out[i - 1].time ==> out[i].rank == Some(i + 1))
  {
    var top := Top(SortByTime(Pool(results, username, time)));
    RankIntendedIsCompetition(top);
    var out := RankIntended(top);
    if top != [] {
      FasterNone(top, top[0].time);
    }
    forall i | 0 < i < |out| && out[i].time != out[i - 1].time
      ensures out[i].rank == Some(i + 1)
    {
      FasterAll(top[..i], top[i].time);
      FasterPrefix(top, i);
    }
  }

  /** In a sorted list, the records faster than the one at i are among the first i, and all of them if the time before i is smaller. */
  lemma {:induction false} FasterPrefix(arr: seq<Entry>, i: nat)
    requires SortedByTime(arr)
    requires 0 < i < |arr| && arr[i - 1].time < arr[i].time
    ensures Faster(arr, arr[i].time) == i
  {
    var t := arr[i].time;
    assert arr == arr[..i] + arr[i..];
    FasterAll(arr[..i], t);
    FasterNone(arr[i..], t);
    FasterConcat(arr[..i], arr[i..], t);
  }

  lemma {:induction false} FasterNone(a: seq<Entry>, t: int)
    requires forall i :: 0 <= i < |a| ==> a[i].time >= t
    ensures Faster(a, t) == 0
    decreases |a|
  {
    if a != [] {
      FasterNone(a[1..], t);
    }
  }

  lemma {:induction false} FasterConcat(a: seq<Entry>, b: seq<Entry>, t: int)
    ensures Faster(a + b, t) == Faster(a, t) + Faster(b, t)
    decreases |a|
  {
    if a == [] {
      assert a + b == b;
    } else {
      assert (a + b)[1..] == a[1..] + b;
      FasterConcat(a[1..], b, t);
    }
  }
}
