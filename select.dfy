/**
 * The select screen's total play time: the times of the player's results
 * are added up from 0 with `reduce`, and the sum of seconds is shown in
 * whole minutes, rounded up.
 */
module Select {

  /** One of the player's results; the total reads only its `time`, in seconds. */
  datatype PlayResult = PlayResult(time: int)

  /** `reduce((acc, result) => acc + result.time, acc)`: the fold from the left. */
  function Reduce(acc: int, results: seq<PlayResult>): int
    decreases |results|
  {
    if results == [] then acc else Reduce(acc + results[0].time, results[1..])
  }

  /** The sum of the times, as a reference definition independent of the fold's order. */
  function Sum(results: seq<PlayResult>): int
    decreases |results|
  {
    if results == [] then 0 else Sum(results[..|results| - 1]) + results[|results| - 1].time
  }

  lemma {:induction false} SumAppend(a: seq<PlayResult>, b: seq<PlayResult>)
    ensures Sum(a + b) == Sum(a) + Sum(b)
    decreases |b|
  {
    if b == [] {
      assert a + b == a;
    } else {
      var init := b[..|b| - 1];
      assert a + b == (a + init) + [b[|b| - 1]];
      assert (a + b)[..|a + b| - 1] == a + init;
      SumAppend(a, init);
    }
  }

  /** The fold adds every time to the starting value. */
  lemma {:induction false} ReduceIsSum(acc: int, results: seq<PlayResult>)
    ensures Reduce(acc, results) == acc + Sum(results)
    decreases |results|
  {
    if results != [] {
      ReduceIsSum(acc + results[0].time, results[1..]);
      assert results == [results[0]] + results[1..];
      SumAppend([results[0]], results[1..]);
      assert [results[0]][..0] == [];
    }
  }

  /** The total of the results' times. */
  function TotalTime(results: seq<PlayResult>): (total: int)
    ensures total == Sum(results)
    ensures results == [] ==> total == 0
  {
    ReduceIsSum(0, results);
    Reduce(0, results)
  }

  /** The total does not depend on the order of the results. */
  lemma {:induction false} TotalTimeOrderFree(a: seq<PlayResult>, b: seq<PlayResult>)
    requires multiset(a) == multiset(b)
    ensures TotalTime(a) == TotalTime(b)
    decreases |a|
  {
    if a != [] {
      var x := a[0];
      assert x in multiset(b);
      var k :| 0 <= k < |b| && b[k] == x;
      var rest := b[..k] + b[k + 1..];
      assert b == b[..k] + [x] + b[k + 1..];
      assert a == [x] + a[1..];
      assert multiset(b) == multiset(b[..k]) + multiset{x} + multiset(b[k + 1..]);
      assert multiset(a) == multiset{x} + multiset(a[1..]);
      assert multiset(rest) == multiset(b[..k]) + multiset(b[k + 1..]);
      assert multiset(a[1..]) == multiset(a) - multiset{x};
      assert multiset(a[1..]) == multiset(rest);
      TotalTimeOrderFree(a[1..], rest);
      SumAppend([x], a[1..]);
      SumAppend(b[..k] + [x], b[k + 1..]);
      SumAppend(b[..k], [x]);
      SumAppend(b[..k], b[k + 1..]);
      assert Sum([x]) == x.time;
    }
  }

  /** `Math.ceil(total / 60)` on a whole number of seconds. */
  function CeilMinutes(total: int): (minutes: int)
    ensures minutes * 60 >= total
    ensures (minutes - 1) * 60 < total
  {
    (total + 59) / 60
  }

  /** Whole hours of minutes are exact, any time up to a minute shows as one minute, and no time shows as zero. */
  lemma CeilMinutesExamples(k: int, s: int)
    requires 1 <= s <= 60
    ensures CeilMinutes(60 * k) == k
    ensures CeilMinutes(s) == 1
    ensures CeilMinutes(0) == 0
  {
  }

  /** The minutes shown on the select screen for the player's results. */
  function TotalPlayMinutes(results: seq<PlayResult>): (minutes: int)
    ensures results == [] ==> minutes == 0
    ensures minutes * 60 >= Sum(results) && (minutes - 1) * 60 < Sum(results)
    ensures Sum(results) >= 0 ==> minutes >= 0
  {
    CeilMinutes(TotalTime(results))
  }
}
