/**
 * Completion status of a HIT (appraise/wmt13/models.py:286-392): items done
 * against items in the HIT, the completion band shown in the progress bar,
 * and the average duration of the judged items.
 */
module Status {
  import opened Basics
  import opened Clock

  /** The progress-bar class: ` progress-danger`, `-warning` or `-success`. */
  datatype Band = ProgressDanger | ProgressWarning | ProgressSuccess

  /** What the status row shows; `done`/`items` are the `'{0}/{1}'` text. */
  datatype Status = Status(done: nat, items: nat, percentage: real, band: Band, averageDuration: real)

  /** `items or 1`. */
  function OrOne(n: nat): (r: nat)
    ensures r >= 1
  {
    if n == 0 then 1 else n
  }

  /** `100*done/float(items or 1)`. */
  function Percentage(done: nat, items: nat): real
  {
    100.0 * done as real / OrOne(items) as real
  }

  function BandOf(percentage: real): Band
  {
    if percentage < 33.0 then ProgressDanger
    else if percentage < 66.0 then ProgressWarning
    else ProgressSuccess
  }

  /** The durations the average counts: stored ones that Python 2 finds true (not midnight). */
  function Counted(durations: seq<Option<Time>>): (r: seq<Time>)
    ensures |r| <= |durations|
    ensures forall t :: t in r <==> Some(t) in durations && !t.IsMidnight()
  {
    if |durations| == 0 then []
    else
      var rest := Counted(durations[1..]);
      assert forall d :: d in durations <==> d == durations[0] || d in durations[1..];
      if durations[0].Some? && !durations[0].value.IsMidnight() then [durations[0].value] + rest else rest
  }

  /** Each duration that is not midnight is counted as often as it was stored. */
  lemma {:induction false} CountedMultiplicity(durations: seq<Option<Time>>)
    ensures forall t :: multiset(Counted(durations))[t] == if t.IsMidnight() then 0 else multiset(durations)[Some(t)]
    decreases |durations|
  {
    if |durations| > 0 {
      CountedMultiplicity(durations[1..]);
      assert durations == [durations[0]] + durations[1..];
    }
  }

  /** Filtering two stretches of durations keeps the order: the first stretch's, then the second's. */
  lemma {:induction false} CountedAppend(a: seq<Option<Time>>, b: seq<Option<Time>>)
    ensures Counted(a + b) == Counted(a) + Counted(b)
    decreases |a|
  {
    if |a| > 0 {
      assert (a + b)[0] == a[0];
      assert (a + b)[1..] == a[1..] + b;
      CountedAppend(a[1..], b);
      var head := if a[0].Some? && !a[0].value.IsMidnight() then [a[0].value] else [];
      assert Counted(a) == head + Counted(a[1..]);
      assert Counted(a + b) == head + Counted(a[1..] + b);
    } else {
      assert a + b == b;
    }
  }

  lemma {:induction false} SumAppend(a: seq<Time>, b: seq<Time>, toSeconds: Time -> real)
    ensures Sum(a + b, toSeconds) == Sum(a, toSeconds) + Sum(b, toSeconds)
    decreases |a|
  {
    if |a| > 0 {
      assert (a + b)[0] == a[0];
      assert (a + b)[1..] == a[1..] + b;
      SumAppend(a[1..], b, toSeconds);
    } else {
      assert a + b == b;
    }
  }

  function Sum(ts: seq<Time>, toSeconds: Time -> real): real
  {
    if |ts| == 0 then 0.0 else toSeconds(ts[0]) + Sum(ts[1..], toSeconds)
  }

  /**
   * `sum(durations) / (float(len(durations)) or 1)` over the counted
   * durations, converted by `toSeconds` (`datetime_to_seconds`).
   */
  function AverageSeconds(durations: seq<Option<Time>>, toSeconds: Time -> real): (r: real)
    ensures |Counted(durations)| == 0 ==> r == 0.0
    ensures r * OrOne(|Counted(durations)|) as real == Sum(Counted(durations), toSeconds)
  {
    var ts := Counted(durations);
    Sum(ts, toSeconds) / OrOne(|ts|) as real
  }

  /**
   * The status row for `done` of `items` items and the durations the
   * average is taken over: the percentage, its band and the average.
   */
  function StatusOf(done: nat, items: nat, durations: seq<Option<Time>>, toSeconds: Time -> real): (r: Status)
    ensures r.done == done && r.items == items
    ensures r.percentage == Percentage(done, items)
    ensures r.band == ProgressDanger <==> 100 * done < 33 * OrOne(items)
    ensures r.band == ProgressWarning <==> 33 * OrOne(items) <= 100 * done < 66 * OrOne(items)
    ensures r.band == ProgressSuccess <==> 66 * OrOne(items) <= 100 * done
    ensures r.averageDuration == AverageSeconds(durations, toSeconds)
  {
    var p := Percentage(done, items);
    BandExact(done, items);
    Status(done, items, p, BandOf(p), AverageSeconds(durations, toSeconds))
  }

  /**
   * `get_status_for_user`: `results` holds the duration of each result the
   * user stored for this HIT, so its length is the number done.
   */
  function StatusForUser(items: nat, results: seq<Option<Time>>, toSeconds: Time -> real): (r: Status)
    ensures r.done == |results| && r.items == items
    ensures r.percentage == Percentage(|results|, items)
    ensures r.averageDuration == AverageSeconds(results, toSeconds)
    ensures r.band == ProgressDanger <==> 100 * |results| < 33 * OrOne(items)
    ensures r.band == ProgressWarning <==> 33 * OrOne(items) <= 100 * |results| < 66 * OrOne(items)
    ensures r.band == ProgressSuccess <==> 66 * OrOne(items) <= 100 * |results|
  {
    StatusOf(|results|, items, results, toSeconds)
  }

  /** The percentage is the share of the items done: times `items or 1` it gives `100*done`. */
  lemma PercentageScaled(done: nat, items: nat)
    ensures Percentage(done, items) * OrOne(items) as real == 100.0 * done as real
    ensures done <= items ==> Percentage(done, items) <= 100.0
  {
    var m := OrOne(items) as real;
    var x := 100.0 * done as real;
    assert Percentage(done, items) == x / m;
    if done <= items {
      DivLess(x, 100.0, m);
      assert x <= 100.0 * m;
    }
  }

  /** Scaling by a positive factor keeps a strict comparison. */
  lemma ScaleStrict(x: real, c: real, m: real)
    requires m > 0.0
    ensures x < c <==> x * m < c * m
  {
    if x < c {
      assert (c - x) * m > 0.0;
    } else {
      assert (x - c) * m >= 0.0;
    }
  }

  /** Dividing by a positive factor against a bound is multiplying the bound. */
  lemma DivLess(x: real, c: real, m: real)
    requires m > 0.0
    ensures x / m < c <==> x < c * m
  {
    var q := x / m;
    assert q * m == x;
    ScaleStrict(q, c, m);
  }

  /** The band thresholds on the percentage are exact integer comparisons. */
  lemma BandExact(done: nat, items: nat)
    ensures Percentage(done, items) < 33.0 <==> 100 * done < 33 * OrOne(items)
    ensures Percentage(done, items) < 66.0 <==> 100 * done < 66 * OrOne(items)
  {
    var k := OrOne(items);
    var m := k as real;
    var x := 100.0 * done as real;
    assert Percentage(done, items) == x / m;
    DivLess(x, 33.0, m);
    DivLess(x, 66.0, m);
    assert x == (100 * done) as real;
    assert 33.0 * m == (33 * k) as real;
    assert 66.0 * m == (66 * k) as real;
  }

  /** `min(done or [0])`. */
  function MinDone(perUser: seq<seq<Option<Time>>>): (r: nat)
    ensures forall i :: 0 <= i < |perUser| ==> r <= |perUser[i]|
    ensures |perUser| > 0 ==> exists i :: 0 <= i < |perUser| && r == |perUser[i]|
    ensures |perUser| == 0 ==> r == 0
  {
    if |perUser| == 0 then 0
    else if |perUser| == 1 then |perUser[0]|
    else
      var rest := MinDone(perUser[1..]);
      assert forall i :: 1 <= i < |perUser| ==> perUser[i] == perUser[1..][i - 1];
      if |perUser[0]| <= rest then |perUser[0]| else rest
  }

  /** `_durations.extend(...)` over the users: every user's durations, user after user. */
  function Pool(perUser: seq<seq<Option<Time>>>): (r: seq<Option<Time>>)
    ensures forall d :: d in r <==> exists i :: 0 <= i < |perUser| && d in perUser[i]
  {
    if |perUser| == 0 then []
    else
      assert forall i :: 1 <= i < |perUser| ==> perUser[i] == perUser[1..][i - 1];
      perUser[0] + Pool(perUser[1..])
  }

  /**
   * Pooling two groups of users is pooling each and concatenating; with
   * `PoolOne` this fixes the pooled list, duplicates included.
   */
  lemma {:induction false} PoolAppend(a: seq<seq<Option<Time>>>, b: seq<seq<Option<Time>>>)
    ensures Pool(a + b) == Pool(a) + Pool(b)
    decreases |a|
  {
    if |a| > 0 {
      assert (a + b)[0] == a[0];
      assert (a + b)[1..] == a[1..] + b;
      PoolAppend(a[1..], b);
    } else {
      assert a + b == b;
    }
  }

  lemma PoolOne(results: seq<Option<Time>>)
    ensures Pool([results]) == results
  {
    assert [results][1..] == [];
  }

  /**
   * The pooled average weighs every counted duration of every user once:
   * the counted durations and their total of two groups of users add up.
   */
  lemma PooledTotals(a: seq<seq<Option<Time>>>, b: seq<seq<Option<Time>>>, toSeconds: Time -> real)
    ensures |Counted(Pool(a + b))| == |Counted(Pool(a))| + |Counted(Pool(b))|
    ensures Sum(Counted(Pool(a + b)), toSeconds) == Sum(Counted(Pool(a)), toSeconds) + Sum(Counted(Pool(b)), toSeconds)
  {
    PoolAppend(a, b);
    CountedAppend(Pool(a), Pool(b));
    SumAppend(Counted(Pool(a)), Counted(Pool(b)), toSeconds);
  }

  /**
   * `get_status_for_users`: a HIT is only as complete as its slowest user,
   * and the average pools every user's durations.
   */
  function StatusForUsers(items: nat, perUser: seq<seq<Option<Time>>>, toSeconds: Time -> real): (r: Status)
    ensures r.items == items
    ensures forall i :: 0 <= i < |perUser| ==> r.done <= |perUser[i]|
    ensures |perUser| > 0 ==> exists i :: 0 <= i < |perUser| && r.done == |perUser[i]|
    ensures |perUser| == 0 ==> r.done == 0 && r.band == ProgressDanger
    ensures r.percentage == Percentage(r.done, items)
    ensures r.band == ProgressDanger <==> 100 * r.done < 33 * OrOne(items)
    ensures r.band == ProgressWarning <==> 33 * OrOne(items) <= 100 * r.done < 66 * OrOne(items)
    ensures r.band == ProgressSuccess <==> 66 * OrOne(items) <= 100 * r.done
    ensures r.averageDuration == AverageSeconds(Pool(perUser), toSeconds)
  {
    StatusOf(MinDone(perUser), items, Pool(perUser), toSeconds)
  }

  /** `is_finished_for_user`. */
  predicate IsFinished(items: nat, results: seq<Option<Time>>)
  {
    items == |results|
  }

  /** A finished, non-empty HIT shows the success band. */
  lemma FinishedIsSuccess(items: nat, results: seq<Option<Time>>, toSeconds: Time -> real)
    requires IsFinished(items, results) && items > 0
    ensures StatusForUser(items, results, toSeconds).band == ProgressSuccess
  {
  }

  /** A HIT without items counts as finished with nothing done, yet shows the danger band. */
  lemma EmptyHitFinishedButDanger(toSeconds: Time -> real)
    ensures IsFinished(0, [])
    ensures StatusForUser(0, [], toSeconds).band == ProgressDanger
  {
  }

  /** Two of three items done is 66.67%, which is not below 66: the success band. */
  lemma TwoOfThreeIsSuccess(a: Option<Time>, b: Option<Time>, toSeconds: Time -> real)
    ensures StatusForUser(3, [a, b], toSeconds).band == ProgressSuccess
  {
  }

  /** With a single assigned user, the all-users status is that user's status. */
  lemma SingleUserAgrees(items: nat, results: seq<Option<Time>>, toSeconds: Time -> real)
    ensures StatusForUsers(items, [results], toSeconds) == StatusForUser(items, results, toSeconds)
  {
    assert Pool([results]) == results + [];
    assert results + [] == results;
  }

  /** `a` added up `k` times. */
  function Repeat(a: real, k: nat): real
  {
    if k == 0 then 0.0 else Repeat(a, k - 1) + a
  }

  lemma {:induction false} RepeatIsProduct(a: real, k: nat)
    ensures Repeat(a, k) == a * k as real
  {
    if k > 0 {
      RepeatIsProduct(a, k - 1);
      assert a * k as real == a * (k - 1) as real + a;
    }
  }

  /** A sum of terms between `lo` and `hi` lies between that many copies of each. */
  lemma {:induction false} SumBounds(ts: seq<Time>, toSeconds: Time -> real, lo: real, hi: real)
    requires forall t :: t in ts ==> lo <= toSeconds(t) <= hi
    ensures Repeat(lo, |ts|) <= Sum(ts, toSeconds) <= Repeat(hi, |ts|)
  {
    if |ts| > 0 {
      var rest := ts[1..];
      assert forall t :: t in rest ==> t in ts;
      SumBounds(rest, toSeconds, lo, hi);
      assert ts[0] in ts;
    }
  }

  /** A quotient of a sum bounded by `n` times `lo` and `hi` lies between them. */
  lemma MeanBetween(q: real, sum: real, n: real, lo: real, hi: real)
    requires n > 0.0 && q * n == sum
    requires lo * n <= sum <= hi * n
    ensures lo <= q <= hi
  {
    ScaleStrict(q, lo, n);
    ScaleStrict(hi, q, n);
  }

  /** The mean of a non-empty list of bounded durations is bounded alike. */
  lemma MeanBounds(ts: seq<Time>, toSeconds: Time -> real, lo: real, hi: real)
    requires |ts| > 0
    requires forall t :: t in ts ==> lo <= toSeconds(t) <= hi
    ensures lo <= Sum(ts, toSeconds) / |ts| as real <= hi
  {
    SumBounds(ts, toSeconds, lo, hi);
    RepeatIsProduct(lo, |ts|);
    RepeatIsProduct(hi, |ts|);
    var n := |ts| as real;
    MeanBetween(Sum(ts, toSeconds) / n, Sum(ts, toSeconds), n, lo, hi);
  }

  lemma CountedBounded(durations: seq<Option<Time>>, toSeconds: Time -> real, lo: real, hi: real)
    requires forall t :: Some(t) in durations && !t.IsMidnight() ==> lo <= toSeconds(t) <= hi
    ensures forall t :: t in Counted(durations) ==> lo <= toSeconds(t) <= hi
  {
  }

  /** The average lies between the smallest and largest counted duration. */
  lemma AverageWithinBounds(durations: seq<Option<Time>>, toSeconds: Time -> real, lo: real, hi: real)
    requires |Counted(durations)| > 0
    requires forall t :: Some(t) in durations && !t.IsMidnight() ==> lo <= toSeconds(t) <= hi
    ensures lo <= AverageSeconds(durations, toSeconds) <= hi
  {
    var ts := Counted(durations);
    CountedBounded(durations, toSeconds, lo, hi);
    MeanBounds(ts, toSeconds, lo, hi);
    assert OrOne(|ts|) == |ts|;
  }
}
