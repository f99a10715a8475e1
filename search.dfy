/**
 * The two boundary searches of the cache (`bsearchMin`, `bsearchMax`).
 *
 * `test` is a partial function: it need only be defined strictly between
 * `a` and `b`, because those are the only indices the loops probe. Dafny
 * checks every call `test(mid)` against that, so a `test` that reads
 * `ts[i]` is never asked about an index outside the log.
 * `(lo + hi) / 2` is Euclidean division by a positive number, which is
 * JavaScript's `Math.floor((a + b) / 2)` for negative sums as well.
 */
module Search {

  /** `test` only switches from false to true on the open interval (a, b). */
  ghost predicate IncreasingOn(test: int --> bool, a: int, b: int)
    requires forall i :: a < i < b ==> test.requires(i)
  {
    forall i, j :: a < i <= j < b && test(i) ==> test(j)
  }

  /** `test` only switches from true to false on the open interval (a, b). */
  ghost predicate DecreasingOn(test: int --> bool, a: int, b: int)
    requires forall i :: a < i < b ==> test.requires(i)
  {
    forall i, j :: a < i <= j < b && test(j) ==> test(i)
  }

  /**
   * `bsearchMin(a, b, test)`: treating `b` as true, the smallest index in
   * (a, b] from which `test` holds.
   */
  method BsearchMin(a: int, b: int, test: int --> bool) returns (r: int)
    requires forall i :: a < i < b ==> test.requires(i)
    ensures a < b ==> a < r <= b
    ensures b <= a ==> r == b
    ensures a < b && IncreasingOn(test, a, b) ==>
              (forall i :: a < i < r ==> !test(i)) && (forall i :: r <= i < b ==> test(i))
  {
    var lo, hi := a, b;
    while hi - lo > 1
      invariant a <= lo && hi <= b
      invariant a < b ==> lo < hi
      invariant b <= a ==> lo == a && hi == b
      invariant lo == a || (a < lo < b && !test(lo))
      invariant hi == b || (a < hi < b && test(hi))
      decreases hi - lo
    {
      var mid := (lo + hi) / 2;
      if test(mid) {
        hi := mid;
      } else {
        lo := mid;
      }
    }
    r := hi;
  }

  /**
   * `bsearchMax(a, b, test)`: treating `a` as true, the largest index in
   * [a, b) up to which `test` holds.
   */
  method BsearchMax(a: int, b: int, test: int --> bool) returns (r: int)
    requires forall i :: a < i < b ==> test.requires(i)
    ensures a < b ==> a <= r < b
    ensures b <= a ==> r == a
    ensures a < b && DecreasingOn(test, a, b) ==>
              (forall i :: a < i <= r ==> test(i)) && (forall i :: r < i < b ==> !test(i))
  {
    var lo, hi := a, b;
    while hi - lo > 1
      invariant a <= lo && hi <= b
      invariant a < b ==> lo < hi
      invariant b <= a ==> lo == a && hi == b
      invariant lo == a || (a < lo < b && test(lo))
      invariant hi == b || (a < hi < b && !test(hi))
      decreases hi - lo
    {
      var mid := (lo + hi) / 2;
      if test(mid) {
        lo := mid;
      } else {
        hi := mid;
      }
    }
    r := lo;
  }
}
