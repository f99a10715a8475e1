/**
 * A user's message log: the array of unix-second timestamps that the cache
 * appends to, counts in, sorts and trims. These are the pure facts about
 * such a log that the `User` class relies on.
 */
module Logs {
  import opened Wrappers
  import opened Sorting

  /** The order the cache assumes of every log (not enforced on append). */
  predicate Ascending(ts: seq<int>)
  {
    forall i, j :: 0 <= i < j < |ts| ==> ts[i] <= ts[j]
  }

  /** Number of entries strictly before `x`. */
  function CountBelow(ts: seq<int>, x: int): (n: nat)
    ensures n <= |ts|
  {
    if ts == [] then 0 else (if ts[0] < x then 1 else 0) + CountBelow(ts[1..], x)
  }

  /** Number of entries at or before `x`. */
  function CountAtMost(ts: seq<int>, x: int): (n: nat)
    ensures n <= |ts|
  {
    if ts == [] then 0 else (if ts[0] <= x then 1 else 0) + CountAtMost(ts[1..], x)
  }

  /** Number of entries inside the inclusive window [lo, hi]: the count a linear scan gives. */
  function CountBetween(ts: seq<int>, lo: int, hi: int): (n: nat)
    ensures n <= |ts|
  {
    if ts == [] then 0 else (if lo <= ts[0] <= hi then 1 else 0) + CountBetween(ts[1..], lo, hi)
  }

  /** On an ascending log the entries before `x` are exactly the first `CountBelow(ts, x)`. */
  lemma {:induction false} CountBelowSplits(ts: seq<int>, x: int)
    requires Ascending(ts)
    ensures forall i :: 0 <= i < CountBelow(ts, x) ==> ts[i] < x
    ensures forall i :: CountBelow(ts, x) <= i < |ts| ==> x <= ts[i]
  {
    if ts != [] {
      assert Ascending(ts[1..]);
      CountBelowSplits(ts[1..], x);
    }
  }

  /** On an ascending log the entries at or before `x` are exactly the first `CountAtMost(ts, x)`. */
  lemma {:induction false} CountAtMostSplits(ts: seq<int>, x: int)
    requires Ascending(ts)
    ensures forall i :: 0 <= i < CountAtMost(ts, x) ==> ts[i] <= x
    ensures forall i :: CountAtMost(ts, x) <= i < |ts| ==> x < ts[i]
  {
    if ts != [] {
      assert Ascending(ts[1..]);
      CountAtMostSplits(ts[1..], x);
    }
  }

  /** A partition point of `t < x` is the count of entries below `x`. */
  lemma {:induction false} CountBelowAt(ts: seq<int>, x: int, p: int)
    requires 0 <= p <= |ts|
    requires forall i :: 0 <= i < p ==> ts[i] < x
    requires forall i :: p <= i < |ts| ==> x <= ts[i]
    ensures CountBelow(ts, x) == p
  {
    if ts != [] {
      CountBelowAt(ts[1..], x, if p > 0 then p - 1 else 0);
    }
  }

  /** A partition point of `t <= x` is the count of entries at or before `x`. */
  lemma {:induction false} CountAtMostAt(ts: seq<int>, x: int, p: int)
    requires 0 <= p <= |ts|
    requires forall i :: 0 <= i < p ==> ts[i] <= x
    requires forall i :: p <= i < |ts| ==> x < ts[i]
    ensures CountAtMost(ts, x) == p
  {
    if ts != [] {
      CountAtMostAt(ts[1..], x, if p > 0 then p - 1 else 0);
    }
  }

  /** For a non-empty window, what lies in it is what lies at or before `hi` less what lies before `lo`. */
  lemma {:induction false} CountBetweenSplit(ts: seq<int>, lo: int, hi: int)
    requires lo <= hi
    ensures CountBetween(ts, lo, hi) == CountAtMost(ts, hi) - CountBelow(ts, lo)
  {
    if ts != [] {
      CountBetweenSplit(ts[1..], lo, hi);
    }
  }

  /** Fewer entries lie at or before `y` than before any later `x`. */
  lemma {:induction false} CountAtMostBelow(ts: seq<int>, y: int, x: int)
    requires y < x
    ensures CountAtMost(ts, y) <= CountBelow(ts, x)
  {
    if ts != [] {
      CountAtMostBelow(ts[1..], y, x);
    }
  }

  /** The guard of `numMsgBetween`: a non-empty log that the window does not obviously miss. */
  predicate WindowMayHit(ts: seq<int>, start: int, end: int)
  {
    |ts| != 0 && ts[|ts| - 1] >= start && end >= ts[0]
  }

  /**
   * What `numMsgBetween(start, end)` returns on an ascending log: zero when
   * the guard fails, otherwise `mx - mi + 1` where `mi` is the first index
   * at or after `start` and `mx` the last index at or before `end`.
   */
  function WindowCount(ts: seq<int>, start: int, end: int): int
  {
    if WindowMayHit(ts, start, end) then CountAtMost(ts, end) - CountBelow(ts, start) else 0
  }

  /** On an ascending log and a well-formed window, the binary-search count is the linear-scan count. */
  lemma WindowCountIsCount(ts: seq<int>, start: int, end: int)
    requires Ascending(ts) && start <= end
    ensures WindowCount(ts, start, end) == CountBetween(ts, start, end)
  {
    CountBetweenSplit(ts, start, end);
    if |ts| != 0 && ts[|ts| - 1] < start {
      CountBelowAt(ts, start, |ts|);
    } else if |ts| != 0 && end < ts[0] {
      CountAtMostAt(ts, end, 0);
    }
  }

  /** A window with `start > end` that passes the guard counts zero or less, never more. */
  lemma WindowCountInverted(ts: seq<int>, start: int, end: int)
    requires end < start
    ensures WindowCount(ts, start, end) <= 0
  {
    CountAtMostBelow(ts, end, start);
  }

  /** An inverted window that still passes the guard: the count comes out negative. */
  lemma WindowCountNegativeExample()
    ensures WindowMayHit([1, 5, 9], 6, 4)
    ensures WindowCount([1, 5, 9], 6, 4) == -1
  {
    CountAtMostAt([1, 5, 9], 4, 1);
    CountBelowAt([1, 5, 9], 6, 2);
  }

  /** The last entry, or none for an empty log (`lastTimestamp()` returns `null`). */
  function Last(ts: seq<int>): (r: Option<int>)
    ensures r.None? <==> ts == []
    ensures r.Some? ==> r.value in ts
    ensures r.Some? && Ascending(ts) ==> forall t :: t in ts ==> t <= r.value
  {
    if ts == [] then None else Some(ts[|ts| - 1])
  }

  function IntLe(a: int, b: int): bool { a <= b }

  lemma IntLeTotalPreorder()
    ensures TotalPreorder(IntLe)
  {
  }

  /** The log `sort((a, b) => a - b)` leaves: the entries in ascending order. */
  function SortAscending(ts: seq<int>): (r: seq<int>)
    ensures Ascending(r)
    ensures multiset(r) == multiset(ts)
  {
    IntLeTotalPreorder();
    SortBySorted(ts, IntLe);
    SortBy(ts, IntLe)
  }

  /** An ascending log has one ascending arrangement: itself. */
  lemma {:induction false} AscendingPermutationUnique(s: seq<int>, t: seq<int>)
    requires Ascending(s) && Ascending(t)
    requires multiset(s) == multiset(t)
    ensures s == t
  {
    if s == [] {
      assert |t| == |multiset(t)| == 0;
    } else {
      assert t != [] by { assert s[0] in multiset(t); }
      FirstIsLeast(s, t[0]);
      FirstIsLeast(t, s[0]);
      TailsPermuted(s, t);
      assert Ascending(s[1..]) && Ascending(t[1..]);
      AscendingPermutationUnique(s[1..], t[1..]);
      assert s == [s[0]] + s[1..];
      assert t == [t[0]] + t[1..];
    }
  }

  lemma TailsPermuted(s: seq<int>, t: seq<int>)
    requires s != [] && t != [] && s[0] == t[0]
    requires multiset(s) == multiset(t)
    ensures multiset(s[1..]) == multiset(t[1..])
  {
    assert s == [s[0]] + s[1..];
    assert t == [t[0]] + t[1..];
    assert multiset(s[1..]) == multiset(s) - multiset{s[0]};
    assert multiset(t[1..]) == multiset(t) - multiset{t[0]};
  }

  /** The first entry of an ascending log is at or before every entry it holds. */
  lemma FirstIsLeast(s: seq<int>, x: int)
    requires Ascending(s) && x in multiset(s)
    ensures s[0] <= x
  {
    var i :| 0 <= i < |s| && s[i] == x;
  }

  /** Sorting any order of the same entries gives the same log, so the sort algorithm is immaterial. */
  lemma SortAscendingUnique(ts: seq<int>, r: seq<int>)
    requires Ascending(r) && multiset(r) == multiset(ts)
    ensures r == SortAscending(ts)
  {
    AscendingPermutationUnique(r, SortAscending(ts));
  }

  /** Re-sorting is idempotent. */
  lemma SortAscendingIdempotent(ts: seq<int>)
    ensures SortAscending(SortAscending(ts)) == SortAscending(ts)
  {
    SortAscendingUnique(SortAscending(ts), SortAscending(ts));
  }

  /**
   * The intended eviction: drop the longest prefix of entries strictly
   * before `time`.
   */
  function EvictBefore(ts: seq<int>, time: int): (r: seq<int>)
    ensures |r| <= |ts| && r == ts[|ts| - |r|..]
  {
    ts[CountBelow(ts, time)..]
  }

  /** On an ascending log, eviction removes exactly the entries before `time` and keeps the rest in order. */
  lemma EvictBeforeExact(ts: seq<int>, time: int)
    requires Ascending(ts)
    ensures var r := EvictBefore(ts, time);
            && Ascending(r)
            && (forall t :: t in r ==> time <= t)
            && (forall i :: 0 <= i < |ts| - |r| ==> ts[i] < time)
            && |r| == |ts| - CountBelow(ts, time)
  {
    CountBelowSplits(ts, time);
  }

  /**
   * `clearTimestampBefore(time)` as written: nothing happens on an empty log
   * or when `time < ts[0]`; otherwise it cuts after the index `bsearchMax`
   * finds, which on an ascending log keeps `ts[max(1, CountBelow)..]`.
   */
  function ClearAsWritten(ts: seq<int>, time: int): (r: seq<int>)
    ensures |r| <= |ts| && r == ts[|ts| - |r|..]
  {
    if |ts| == 0 || time < ts[0] then ts
    else
      var n := CountBelow(ts, time);
      ts[if n < 1 then 1 else n..]
  }

  /**
   * The relation between a log before and after the corrected
   * `clearTimestampBefore(time)`, whose guard is `time > ts[0]`: for any log,
   * a no-op or the removal of a non-empty prefix; for an ascending log,
   * exactly `EvictBefore`.
   */
  ghost predicate Cleared(before: seq<int>, after: seq<int>, time: int)
  {
    if |before| == 0 || time <= before[0] then after == before
    else
      && |after| < |before|
      && after == before[|before| - |after|..]
      && (Ascending(before) ==> after == EvictBefore(before, time))
  }

  /** Away from `time == ts[0]`, the code evicts exactly what is intended. */
  lemma ClearAsWrittenIsEvict(ts: seq<int>, time: int)
    requires Ascending(ts)
    requires |ts| == 0 || time != ts[0]
    ensures ClearAsWritten(ts, time) == EvictBefore(ts, time)
  {
    if |ts| != 0 && time < ts[0] {
      CountBelowAt(ts, time, 0);
    } else if |ts| != 0 {
      CountBelowSplits(ts, time);
    }
  }

  /** At `time == ts[0]` the code drops the first entry, although it is not before `time`. */
  lemma ClearAsWrittenOverEvicts(ts: seq<int>)
    requires Ascending(ts) && |ts| != 0
    ensures ClearAsWritten(ts, ts[0]) == ts[1..]
    ensures EvictBefore(ts, ts[0]) == ts
  {
    CountBelowAt(ts, ts[0], 0);
  }

  /** A concrete log on which the code and the intent differ. */
  lemma OverEvictionExample()
    ensures ClearAsWritten([5, 5, 7], 5) == [5, 7]
    ensures EvictBefore([5, 5, 7], 5) == [5, 5, 7]
  {
    ClearAsWrittenOverEvicts([5, 5, 7]);
  }

  /** Clearing keeps a log ascending and never lengthens it, and on an ascending log a no-op is eviction too. */
  lemma ClearedKeepsAscending(before: seq<int>, after: seq<int>, time: int)
    requires Cleared(before, after, time)
    ensures |after| <= |before|
    ensures Ascending(before) ==> Ascending(after) && after == EvictBefore(before, time)
  {
    if Ascending(before) && |before| != 0 && time <= before[0] {
      CountBelowAt(before, time, 0);
    }
  }
}
