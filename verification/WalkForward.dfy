/** backend/app/backtesting/engine.py, `walk_forward_splits`: rolling train, validation and test
    ranges over a history. */
module WalkForward {
  import opened Common
  import opened Integers

  /** `range(from, to)` */
  datatype Range = Range(from: int, to: int)

  datatype Split = Split(train: Range, validation: Range, test: Range)

  /** Split k of a rolling scheme: three adjacent ranges, shifted by k test lengths. */
  predicate IsSplit(s: Split, k: nat, train: int, validation: int, test: int) {
    && s.train.from == k * test && s.train.to == s.train.from + train
    && s.validation.from == s.train.to && s.validation.to == s.validation.from + validation
    && s.test.from == s.validation.to && s.test.to == s.test.from + test
  }

  function CountFor(length: int, train: int, validation: int, test: int): nat
    requires test > 0
  {
    var spare := length - train - validation - test;
    if spare < 0 then 0 else spare / test + 1
  }

  /** None stands for the ValueError on a size that is not positive. */
  method WalkForwardSplits(length: int, train: int, validation: int, test: int)
    returns (r: Option<seq<Split>>)
    ensures r.None? <==> length <= 0 || train <= 0 || validation <= 0 || test <= 0
    ensures r.Some? ==>
              && |r.value| == CountFor(length, train, validation, test)
              && forall k :: 0 <= k < |r.value| ==> IsSplit(r.value[k], k, train, validation, test)
  {
    if length <= 0 || train <= 0 || validation <= 0 || test <= 0 {
      return None;
    }
    var splits: seq<Split> := [];
    var start := 0;
    while start + train + validation + test <= length
      invariant start == |splits| * test
      invariant |splits| > 0 ==> start + train + validation <= length
      invariant forall k :: 0 <= k < |splits| ==> IsSplit(splits[k], k, train, validation, test)
    {
      splits := splits + [Split(Range(start, start + train),
                                Range(start + train, start + train + validation),
                                Range(start + train + validation,
                                      start + train + validation + test))];
      start := start + test;
    }
    CountReached(length - train - validation - test, test, |splits|);
    return Some(splits);
  }

  /** The loop stops at the first start beyond the spare length: after floor + 1 rounds. */
  lemma CountReached(spare: int, test: int, n: nat)
    requires test > 0 && n * test > spare && (n > 0 ==> n * test - test <= spare)
    ensures n == if spare < 0 then 0 else spare / test + 1
  {
    assert (n - 1) * test == n * test - test;
    ProductSign(n, test);
    ProductSign(n - 1, test);
    if spare >= 0 {
      QuotientUnique(spare, test, n - 1);
    }
  }

  ghost predicate InRange(i: int, r: Range) {
    r.from <= i < r.to
  }

  /** There are as many splits as fit: split k is there exactly if it ends inside the history. */
  lemma AsManyAsFit(length: int, train: int, validation: int, test: int, k: nat)
    requires train > 0 && validation > 0 && test > 0
    ensures k < CountFor(length, train, validation, test)
       <==> k * test + train + validation + test <= length
  {
    var spare := length - train - validation - test;
    if spare >= 0 {
      assert spare == spare / test * test + spare % test;
      if k <= spare / test {
        ProductMonotone(k, spare / test, test);
      } else {
        ProductMonotone(spare / test + 1, k, test);
      }
    } else {
      ProductMonotone(0, k, test);
    }
  }

  /** Every split's ranges are non-empty, adjacent, disjoint and inside the history. */
  lemma SplitsInBounds(length: int, train: int, validation: int, test: int,
                       splits: seq<Split>, k: nat)
    requires length > 0 && train > 0 && validation > 0 && test > 0
    requires |splits| == CountFor(length, train, validation, test) && k < |splits|
    requires forall j :: 0 <= j < |splits| ==> IsSplit(splits[j], j, train, validation, test)
    ensures var s := splits[k];
            && 0 <= s.train.from < s.train.to == s.validation.from < s.validation.to
               == s.test.from < s.test.to <= length
            && forall i :: !(InRange(i, s.train) && InRange(i, s.validation))
                        && !(InRange(i, s.train) && InRange(i, s.test))
                        && !(InRange(i, s.validation) && InRange(i, s.test))
  {
    var spare := length - train - validation - test;
    ProductMonotone(k, spare / test, test);
    ProductMonotone(0, k, test);
    assert spare / test * test <= spare;
    assert IsSplit(splits[k], k, train, validation, test);
  }

  /** The test ranges tile one interval: every index from the end of the first validation range
      to the end of the last test range lies in the test range of exactly one split. */
  lemma TestRangesTile(length: int, train: int, validation: int, test: int,
                       splits: seq<Split>, i: int)
    requires length > 0 && train > 0 && validation > 0 && test > 0
    requires |splits| == CountFor(length, train, validation, test) > 0
    requires forall j :: 0 <= j < |splits| ==> IsSplit(splits[j], j, train, validation, test)
    requires train + validation <= i < splits[|splits| - 1].test.to
    ensures exists k :: 0 <= k < |splits| && InRange(i, splits[k].test)
    ensures forall j, k :: 0 <= j < k < |splits| ==>
              !(InRange(i, splits[j].test) && InRange(i, splits[k].test))
  {
    var x := i - train - validation;
    var k := x / test;
    assert x == k * test + x % test;
    var n := |splits|;
    assert IsSplit(splits[n - 1], n - 1, train, validation, test);
    assert x < (n - 1) * test + test == n * test;
    if k >= n {
      ProductMonotone(n, k, test);
    }
    assert InRange(i, splits[k].test);
    forall j | 0 <= j < n && InRange(i, splits[j].test)
      ensures j == k
    {
      assert IsSplit(splits[j], j, train, validation, test);
      assert j * test <= x < j * test + test;
      QuotientUnique(x, test, j);
    }
  }

  /** What is left behind the last test range is shorter than one test range. */
  lemma TailIsShort(length: int, train: int, validation: int, test: int, splits: seq<Split>)
    requires length > 0 && train > 0 && validation > 0 && test > 0
    requires |splits| == CountFor(length, train, validation, test) > 0
    requires forall j :: 0 <= j < |splits| ==> IsSplit(splits[j], j, train, validation, test)
    ensures 0 <= length - splits[|splits| - 1].test.to < test
  {
    var spare := length - train - validation - test;
    assert spare == spare / test * test + spare % test;
    assert IsSplit(splits[|splits| - 1], |splits| - 1, train, validation, test);
  }
}
