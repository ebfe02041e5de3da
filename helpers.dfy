/** Stateless helpers of the backend (backend/app/utils/helpers.py): option shuffling
    with its index mapping, scoring, duration formatting and the helper timer checks. */
module Helpers {
  import opened Wrappers
  import opened Numeric
  import TimerService

  /** The indices 0, 1, …, n-1 in order. */
  function Range(n: nat): (r: seq<int>)
    ensures |r| == n
    ensures forall i :: 0 <= i < n ==> r[i] == i
  {
    seq(n, i => i)
  }

  /** `p` is a rearrangement of 0..n-1: the outcome `random.shuffle` may produce. */
  ghost predicate IsPermutation(p: seq<int>, n: nat) {
    multiset(p) == multiset(Range(n))
  }

  /** No index is picked twice: the outcome `random.sample` guarantees. */
  ghost predicate Distinct(s: seq<int>) {
    forall i, j :: 0 <= i < j < |s| ==> s[i] != s[j]
  }

  ghost predicate AllBelow(s: seq<int>, n: int) {
    forall i :: 0 <= i < |s| ==> 0 <= s[i] < n
  }

  lemma {:induction false} RangeMultiplicity(n: nat, x: int)
    ensures multiset(Range(n))[x] == if 0 <= x < n then 1 else 0
  {
    if n > 0 {
      assert Range(n) == Range(n - 1) + [n - 1];
      RangeMultiplicity(n - 1, x);
    }
  }

  /** A permutation of 0..n-1 has n entries, each below n. */
  lemma PermutationBounds(p: seq<int>, n: nat)
    requires IsPermutation(p, n)
    ensures |p| == n
    ensures AllBelow(p, n)
  {
    assert |p| == |multiset(p)| == |multiset(Range(n))| == n;
    forall i | 0 <= i < |p| ensures 0 <= p[i] < n {
      assert p[i] in multiset(p);
      RangeMultiplicity(n, p[i]);
    }
  }

  /** No entry of a permutation is repeated. */
  lemma PermutationDistinct(p: seq<int>, n: nat)
    requires IsPermutation(p, n)
    ensures Distinct(p)
  {
    forall i, j | 0 <= i < j < |p| ensures p[i] != p[j] {
      if p[i] == p[j] {
        var x := p[i];
        assert p == p[..j] + [p[j]] + p[j + 1..];
        assert x in multiset(p[..j]) by { assert p[..j][i] == x; }
        assert multiset(p)[x] == multiset(p[..j])[x] + 1 + multiset(p[j + 1..])[x];
        RangeMultiplicity(n, x);
        assert false;
      }
    }
  }

  /** The elements of `s` at the positions listed in `p`. */
  function Permute<T>(s: seq<T>, p: seq<int>): (r: seq<T>)
    requires AllBelow(p, |s|)
    ensures |r| == |p|
    ensures forall i :: 0 <= i < |p| ==> r[i] == s[p[i]]
  {
    seq(|p|, i requires 0 <= i < |p| => s[p[i]])
  }

  lemma RemoveAtMultiset<T>(s: seq<T>, k: int)
    requires 0 <= k < |s|
    ensures multiset(s[..k] + s[k + 1..]) == multiset(s) - multiset{s[k]}
  {
    assert s == s[..k] + [s[k]] + s[k + 1..];
  }

  /** Taking the largest index out of a permutation of 0..n-1 leaves one of 0..n-2. */
  lemma RemoveLargest(p: seq<int>, n: nat, k: int)
    requires IsPermutation(p, n)
    requires 0 <= k < |p| && p[k] == n - 1
    ensures IsPermutation(p[..k] + p[k + 1..], n - 1)
  {
    RemoveAtMultiset(p, k);
    assert Range(n) == Range(n - 1) + [n - 1];
    assert multiset(Range(n)) == multiset(Range(n - 1)) + multiset{n - 1};
  }

  /** Dropping the position that picks the last element, from the order and from the
      rearranged sequence, gives the rearrangement of the shorter sequence. */
  lemma PermuteRemoveLast<T>(s: seq<T>, p: seq<int>, k: int)
    requires |s| > 0 && AllBelow(p, |s|) && 0 <= k < |p| && p[k] == |s| - 1
    requires AllBelow(p[..k] + p[k + 1..], |s| - 1)
    ensures Permute(s, p)[..k] + Permute(s, p)[k + 1..] == Permute(s[..|s| - 1], p[..k] + p[k + 1..])
  {
    var r, q, t := Permute(s, p), p[..k] + p[k + 1..], s[..|s| - 1];
    var lhs := r[..k] + r[k + 1..];
    forall i | 0 <= i < |lhs| ensures lhs[i] == Permute(t, q)[i] {
      if i < k {
        assert lhs[i] == r[i] && q[i] == p[i];
      } else {
        assert lhs[i] == r[i + 1] && q[i] == p[i + 1];
      }
    }
  }

  /** A permutation of 0..n-1 with n > 0 holds n-1 somewhere. */
  lemma LargestPosition(p: seq<int>, n: nat) returns (k: int)
    requires IsPermutation(p, n) && n > 0
    ensures 0 <= k < |p| && p[k] == n - 1
  {
    RangeMultiplicity(n, n - 1);
    assert n - 1 in multiset(p);
    k :| 0 <= k < |p| && p[k] == n - 1;
  }

  lemma MultisetFromRemoval<T>(r: seq<T>, k: int, s: seq<T>)
    requires 0 <= k < |r| && |s| > 0 && r[k] == s[|s| - 1]
    requires multiset(r[..k] + r[k + 1..]) == multiset(s[..|s| - 1])
    ensures multiset(r) == multiset(s)
  {
    RemoveAtMultiset(r, k);
    assert s == s[..|s| - 1] + [s[|s| - 1]];
  }

  /** Rearranging by a permutation keeps every element and its multiplicity. */
  lemma {:induction false} PermutePreservesMultiset<T>(s: seq<T>, p: seq<int>)
    requires IsPermutation(p, |s|)
    ensures AllBelow(p, |s|)
    ensures multiset(Permute(s, p)) == multiset(s)
    decreases |s|
  {
    PermutationBounds(p, |s|);
    var n := |s|;
    if n > 0 {
      var k := LargestPosition(p, n);
      var p' := p[..k] + p[k + 1..];
      RemoveLargest(p, n, k);
      PermutationBounds(p', n - 1);
      PermutePreservesMultiset(s[..n - 1], p');
      PermuteRemoveLast(s, p, k);
      MultisetFromRemoval(Permute(s, p), k, s);
    }
  }

  /** Rearranging distinct values by a permutation keeps them distinct. */
  lemma DistinctPermute(s: seq<int>, p: seq<int>)
    requires Distinct(s) && AllBelow(p, |s|) && Distinct(p)
    ensures Distinct(Permute(s, p))
  {
    var r := Permute(s, p);
    forall i, j | 0 <= i < j < |r| ensures r[i] != r[j] {
      assert r[i] == s[p[i]] && r[j] == s[p[j]];
    }
  }

  /** `list(enumerate(items))`. */
  function Enumerate<T>(items: seq<T>): (r: seq<(int, T)>)
    ensures |r| == |items|
    ensures forall i :: 0 <= i < |items| ==> r[i] == (i, items[i])
  {
    seq(|items|, i requires 0 <= i < |items| => (i, items[i]))
  }

  /** `shuffle_list`: the indexed items are rearranged by `order` (the outcome of
      `random.shuffle`), then split into the shuffled items and the mapping. */
  function ShuffleList<T>(items: seq<T>, order: seq<int>): (r: (seq<T>, seq<int>))
    requires IsPermutation(order, |items|)
    ensures |r.0| == |r.1| == |items|
    ensures IsPermutation(r.1, |items|)
    ensures forall i :: 0 <= i < |items| ==> 0 <= r.1[i] < |items| && r.0[i] == items[r.1[i]]
  {
    PermutationBounds(order, |items|);
    var indexed := Permute(Enumerate(items), order);
    var shuffled := seq(|indexed|, i requires 0 <= i < |indexed| => indexed[i].1);
    var mapping := seq(|indexed|, i requires 0 <= i < |indexed| => indexed[i].0);
    assert mapping == order;
    (shuffled, mapping)
  }

  /** The shuffled options are the original options, each exactly as often. */
  lemma ShuffleKeepsItems<T>(items: seq<T>, order: seq<int>)
    requires IsPermutation(order, |items|)
    ensures multiset(ShuffleList(items, order).0) == multiset(items)
  {
    PermutationBounds(order, |items|);
    assert ShuffleList(items, order).0 == Permute(items, order);
    PermutePreservesMultiset(items, order);
  }

  /** `get_original_index`: Python list indexing, so a negative index counts from
      the end and an index out of range raises (here `None`). */
  function GetOriginalIndex(shuffledIndex: int, mapping: seq<int>): (r: Option<int>)
    ensures r.Some? <==> -|mapping| <= shuffledIndex < |mapping|
    ensures 0 <= shuffledIndex < |mapping| ==> r == Some(mapping[shuffledIndex])
  {
    if 0 <= shuffledIndex < |mapping| then Some(mapping[shuffledIndex])
    else if -|mapping| <= shuffledIndex < 0 then Some(mapping[|mapping| + shuffledIndex])
    else None
  }

  /** Mapping a shuffled position back through `get_original_index` finds the item
      that is shown at that position. */
  lemma OriginalIndexRoundTrip<T>(items: seq<T>, order: seq<int>, i: int)
    requires IsPermutation(order, |items|)
    requires 0 <= i < |items|
    ensures var (shuffled, mapping) := ShuffleList(items, order);
      && GetOriginalIndex(i, mapping).Some?
      && 0 <= GetOriginalIndex(i, mapping).value < |items|
      && items[GetOriginalIndex(i, mapping).value] == shuffled[i]
  {
  }

  /** The three shapes `format_duration` picks between; the numbers are those the
      f-strings show. The one-decimal rendering of the first shape is not modelled. */
  datatype Duration =
    | SecondsForm(seconds: real)
    | MinutesSeconds(minutes: int, secs: int)
    | HoursMinutes(hours: int, minutes: int)

  /** `format_duration`: Python's `//` and `%` on a non-negative float floor, and
      `int()` of a non-negative value is its floor. */
  function FormatDuration(seconds: real): (d: Duration)
    ensures seconds < 60.0 <==> d.SecondsForm?
    ensures 60.0 <= seconds < 3600.0 <==> d.MinutesSeconds?
    ensures 3600.0 <= seconds <==> d.HoursMinutes?
  {
    if seconds < 60.0 then SecondsForm(seconds)
    else if seconds < 3600.0 then
      var minutes := (seconds / 60.0).Floor;
      MinutesSeconds(minutes, Trunc(seconds - 60.0 * minutes as real))
    else
      var hours := (seconds / 3600.0).Floor;
      var rest := seconds - 3600.0 * hours as real;
      HoursMinutes(hours, (rest / 60.0).Floor)
  }

  /** The minutes-and-seconds form splits the duration into whole minutes and the whole
      seconds left over; the hours-and-minutes form drops the leftover seconds. */
  lemma FormatDurationSplits(seconds: real)
    ensures match FormatDuration(seconds)
      case SecondsForm(s) => s == seconds && s < 60.0
      case MinutesSeconds(m, s) =>
        && 1 <= m < 60 && 0 <= s < 60
        && (60 * m + s) as real <= seconds < (60 * m + s + 1) as real
      case HoursMinutes(h, m) =>
        && 1 <= h && 0 <= m < 60
        && (3600 * h + 60 * m) as real <= seconds < (3600 * h + 60 * m + 60) as real
  {
    if 60.0 <= seconds < 3600.0 {
      var m := (seconds / 60.0).Floor;
      assert m as real <= seconds / 60.0 < m as real + 1.0;
      assert 60.0 * m as real <= seconds < 60.0 * m as real + 60.0;
    } else if 3600.0 <= seconds {
      var h := (seconds / 3600.0).Floor;
      assert h as real <= seconds / 3600.0 < h as real + 1.0;
      var rest := seconds - 3600.0 * h as real;
      assert 0.0 <= rest < 3600.0;
      var m := (rest / 60.0).Floor;
      assert m as real <= rest / 60.0 < m as real + 1.0;
      assert 60.0 * m as real <= rest < 60.0 * m as real + 60.0;
    }
  }

  /** `calculate_score` before rounding to two decimals. */
  function CalculateScore(correct: int, total: int): (s: real)
    ensures total == 0 ==> s == 0.0
    ensures total != 0 ==> s * total as real == 100.0 * correct as real
  {
    if total == 0 then 0.0 else (correct as real / total as real) * 100.0
  }

  /** A score is a percentage: between 0 and 100 for at most `total` correct answers,
      100 when all are correct, and it grows with the number of correct answers. */
  lemma ScoreIsPercentage(correct: int, total: int)
    requires 0 <= correct <= total
    ensures 0.0 <= CalculateScore(correct, total) <= 100.0
    ensures total > 0 && correct == total ==> CalculateScore(correct, total) == 100.0
    ensures correct < total ==> CalculateScore(correct, total) < CalculateScore(correct + 1, total)
  {
    if total > 0 {
      var t := total as real;
      assert CalculateScore(correct, total) == 100.0 * correct as real / t;
      assert CalculateScore(correct + 1, total) == 100.0 * (correct + 1) as real / t;
    }
  }

  /** `is_valid_time_submission`, whose maximum defaults to 10 s: one second of grace. */
  function IsValidTimeSubmission(elapsed: real, maxSeconds: int := 10): (b: bool)
    ensures b <==> elapsed <= (maxSeconds + 1) as real
  {
    elapsed <= (maxSeconds + 1) as real
  }

  /** `get_remaining_time` of the helpers, maximum defaulting to 10 s. */
  function GetRemainingTime(elapsed: real, maxSeconds: int := 10): (r: int)
    ensures r >= 0
    ensures r == Max(0, (maxSeconds as real - elapsed).Floor)
  {
    ClampedTruncIsClampedFloor(maxSeconds as real - elapsed);
    Max(0, Trunc(maxSeconds as real - elapsed))
  }

  /** The helper's remaining time and the timer service's agree for the same maximum. */
  lemma RemainingTimeAgreesWithService(elapsed: real, maxSeconds: int)
    requires maxSeconds != 0
    ensures GetRemainingTime(elapsed, maxSeconds)
         == TimerService.GetRemainingTime(TimerService.NewTimer(Some(maxSeconds)), elapsed)
  {
    TimerService.RemainingTimeBounds(TimerService.NewTimer(Some(maxSeconds)), elapsed);
  }

  /** The helper grants one second of grace where the timer service grants 1.5 s: every
      submission the helper accepts, the service accepts, but not conversely. */
  lemma HelperGraceIsTighter(elapsed: real, maxSeconds: int)
    requires maxSeconds != 0
    ensures IsValidTimeSubmission(elapsed, maxSeconds)
        ==> TimerService.ValidateSubmissionTime(TimerService.NewTimer(Some(maxSeconds)), elapsed).isValid
    ensures var late := maxSeconds as real + 1.25;
      !IsValidTimeSubmission(late, maxSeconds)
      && TimerService.ValidateSubmissionTime(TimerService.NewTimer(Some(maxSeconds)), late).isValid
  {
  }
}
