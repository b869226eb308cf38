/** Splitting an ascending run of days into week-long buckets, most recent
 *  bucket first, with the week boundaries counted back from a reference date. */
module MetricsWeeks {
  import opened MetricsTypes

  /** `isoDatesDifference` on day numbers: the days from `a` to `b`, positive
   *  when `a` is older than `b`. */
  function IsoDatesDifference(a: int, b: int): (r: int)
    ensures r > 0 <==> a < b
    ensures r == 0 <==> a == b
  {
    b - a
  }

  /** `isoDateWithOffset` on day numbers: the day `offset` days after `date`. */
  function IsoDateWithOffset(date: int, offset: int): (r: int)
    ensures IsoDatesDifference(date, r) == offset
  {
    date + offset
  }

  /** `reverse()` of a list. */
  function Reversed<T>(s: seq<T>): (r: seq<T>)
    ensures |r| == |s|
  {
    seq(|s|, k requires 0 <= k < |s| => s[|s| - 1 - k])
  }

  lemma {:induction false} ReversedAppend<T>(a: seq<T>, b: seq<T>)
    ensures Reversed(a + b) == Reversed(b) + Reversed(a)
  {
    var l, r := Reversed(a + b), Reversed(b) + Reversed(a);
    forall k | 0 <= k < |l|
      ensures l[k] == r[k]
    {
      if k < |b| {
        assert l[k] == b[|b| - 1 - k];
      } else {
        assert l[k] == a[|a| - 1 - (k - |b|)];
      }
    }
  }

  lemma ReversedReversed<T>(s: seq<T>)
    ensures Reversed(Reversed(s)) == s
  {
  }

  /** The buckets laid end to end. */
  function Concat<T>(ws: seq<seq<T>>): seq<T>
  {
    if ws == [] then [] else ws[0] + Concat(ws[1..])
  }

  lemma {:induction false} ConcatAppend<T>(a: seq<seq<T>>, b: seq<seq<T>>)
    ensures Concat(a + b) == Concat(a) + Concat(b)
    decreases |a|
  {
    if a == [] {
      assert a + b == b;
    } else {
      assert (a + b)[1..] == a[1..] + b;
      ConcatAppend(a[1..], b);
    }
  }

  /** `weeks.map((week) => week.reverse())`. */
  function ReverseEach<T>(ws: seq<seq<T>>): (r: seq<seq<T>>)
    ensures |r| == |ws| && forall k :: 0 <= k < |ws| ==> r[k] == Reversed(ws[k])
  {
    seq(|ws|, k requires 0 <= k < |ws| => Reversed(ws[k]))
  }

  /** Reading the reversed buckets in reverse order undoes the reversed walk. */
  lemma {:induction false} ConcatOfReversedBuckets<T>(ws: seq<seq<T>>)
    ensures Concat(Reversed(ReverseEach(ws))) == Reversed(Concat(ws))
    decreases |ws|
  {
    if ws != [] {
      var w, t := ws[0], ws[1..];
      assert ReverseEach(ws) == [Reversed(w)] + ReverseEach(t);
      ReversedAppend([Reversed(w)], ReverseEach(t));
      assert Reversed([Reversed(w)]) == [Reversed(w)];
      ConcatAppend(Reversed(ReverseEach(t)), [Reversed(w)]);
      assert Concat([Reversed(w)]) == Reversed(w) by {
        assert [Reversed(w)][1..] == [];
      }
      ConcatOfReversedBuckets(t);
      ReversedAppend(w, Concat(t));
    }
  }

  /** Pushing a day onto the last bucket appends it to the buckets' contents. */
  lemma {:induction false} PushOntoLast<T>(ws: seq<seq<T>>, d: T)
    requires |ws| >= 1
    ensures Concat(ws[..|ws| - 1] + [ws[|ws| - 1] + [d]]) == Concat(ws) + [d]
  {
    var init, last := ws[..|ws| - 1], ws[|ws| - 1];
    assert ws == init + [last];
    ConcatAppend(init, [last]);
    ConcatAppend(init, [last + [d]]);
    assert Concat([last]) == last by {
      assert [last][1..] == [];
    }
    assert Concat([last + [d]]) == last + [d] by {
      assert [last + [d]][1..] == [];
    }
  }

  /** Every bucket after the first was opened by a day older than the cutoff in
   *  force then: `lastDate - 7 * k` for bucket `k` (buckets most recent first,
   *  each in walk order, its opener first). */
  ghost predicate OpenedByOlderDay<V>(ws: seq<seq<DayOfMetricData<V>>>, lastDate: int)
  {
    forall k :: 1 <= k < |ws| ==> ws[k] != [] && ws[k][0].date < lastDate - 7 * k
  }

  /** Every day of bucket `k` except its opener is no older than the cutoff
   *  `lastDate - 7 * (k + 1)` in force while the bucket was being filled. */
  ghost predicate NotOlderThanCutoff<V>(ws: seq<seq<DayOfMetricData<V>>>, lastDate: int)
  {
    forall k, j :: 0 <= k < |ws| && 0 <= j < |ws[k]| && (k == 0 || j > 0) ==>
      ws[k][j].date >= lastDate - 7 * (k + 1)
  }

  /** One day of the backwards walk keeps the contents and both bucket
   *  invariants. */
  lemma {:induction false} WalkStep<V>(ws: seq<seq<DayOfMetricData<V>>>, days: seq<DayOfMetricData<V>>, i: nat,
                                       lastDate: int, opensBucket: bool, ws': seq<seq<DayOfMetricData<V>>>)
    requires i < |days| && |ws| >= 1 && Concat(ws) == Reversed(days[i + 1..])
    requires OpenedByOlderDay(ws, lastDate) && NotOlderThanCutoff(ws, lastDate)
    requires opensBucket <==> days[i].date < lastDate - 7 * |ws|
    requires var w := if opensBucket then ws + [[]] else ws;
      ws' == w[..|w| - 1] + [w[|w| - 1] + [days[i]]]
    ensures Concat(ws') == Reversed(days[i..])
    ensures OpenedByOlderDay(ws', lastDate) && NotOlderThanCutoff(ws', lastDate)
  {
    var w := if opensBucket then ws + [[]] else ws;
    WalkStepContents(ws, days, i, w, ws');
    WalkStepCutoffs(ws, days[i], lastDate, opensBucket, w, ws');
  }

  lemma {:induction false} WalkStepContents<V>(ws: seq<seq<DayOfMetricData<V>>>, days: seq<DayOfMetricData<V>>, i: nat,
                                               w: seq<seq<DayOfMetricData<V>>>, ws': seq<seq<DayOfMetricData<V>>>)
    requires i < |days| && |ws| >= 1 && Concat(ws) == Reversed(days[i + 1..])
    requires w == ws || w == ws + [[]]
    requires ws' == w[..|w| - 1] + [w[|w| - 1] + [days[i]]]
    ensures Concat(ws') == Reversed(days[i..])
  {
    if w != ws {
      ConcatAppend(ws, [[]]);
      assert Concat<DayOfMetricData<V>>([[]]) == [];
    }
    PushOntoLast(w, days[i]);
    assert days[i..] == [days[i]] + days[i + 1..];
    ReversedAppend([days[i]], days[i + 1..]);
  }

  lemma {:induction false} WalkStepCutoffs<V>(ws: seq<seq<DayOfMetricData<V>>>, d: DayOfMetricData<V>,
                                              lastDate: int, opensBucket: bool,
                                              w: seq<seq<DayOfMetricData<V>>>, ws': seq<seq<DayOfMetricData<V>>>)
    requires |ws| >= 1
    requires OpenedByOlderDay(ws, lastDate) && NotOlderThanCutoff(ws, lastDate)
    requires opensBucket <==> d.date < lastDate - 7 * |ws|
    requires w == if opensBucket then ws + [[]] else ws
    requires ws' == w[..|w| - 1] + [w[|w| - 1] + [d]]
    ensures OpenedByOlderDay(ws', lastDate) && NotOlderThanCutoff(ws', lastDate)
  {
    assert forall k :: 0 <= k < |w| - 1 ==> ws'[k] == w[k] == ws[k];
    var n := |w| - 1;
    assert ws'[n] == w[n] + [d];
    forall j | 0 <= j < |ws'[n]| && (n == 0 || j > 0)
      ensures ws'[n][j].date >= lastDate - 7 * (n + 1)
    {
      if j < |w[n]| {
        assert ws'[n][j] == w[n][j];
      }
    }
  }

  /** Bucket by bucket reversed, each bucket's opener moves to its end and
   *  every other day keeps its cutoff. */
  lemma {:induction false} ReversedBucketsKeepCutoffs<V>(ws: seq<seq<DayOfMetricData<V>>>, lastDate: int)
    requires OpenedByOlderDay(ws, lastDate) && NotOlderThanCutoff(ws, lastDate)
    ensures var weeks := ReverseEach(ws);
      && (forall k :: 1 <= k < |weeks| ==> weeks[k] != [] && weeks[k][|weeks[k]| - 1].date < lastDate - 7 * k)
      && (forall k, j :: 0 <= k < |weeks| && 0 <= j < |weeks[k]| && (k == 0 || j < |weeks[k]| - 1) ==>
            weeks[k][j].date >= lastDate - 7 * (k + 1))
  {
    var weeks: seq<seq<DayOfMetricData<V>>> := ReverseEach(ws);
    forall k | 1 <= k < |weeks|
      ensures weeks[k] != [] && weeks[k][|weeks[k]| - 1].date < lastDate - 7 * k
    {
      assert weeks[k][|weeks[k]| - 1] == ws[k][0];
    }
    forall k, j | 0 <= k < |weeks| && 0 <= j < |weeks[k]| && (k == 0 || j < |weeks[k]| - 1)
      ensures weeks[k][j].date >= lastDate - 7 * (k + 1)
    {
      assert weeks[k][j] == ws[k][|ws[k]| - 1 - j];
    }
  }

  /** The reversed walk, bucket by bucket reversed, gives the promised buckets. */
  lemma {:induction false} WalkResult<V>(ws: seq<seq<DayOfMetricData<V>>>, days: seq<DayOfMetricData<V>>, lastDate: int)
    requires Concat(ws) == Reversed(days)
    requires OpenedByOlderDay(ws, lastDate) && NotOlderThanCutoff(ws, lastDate)
    ensures var weeks := ReverseEach(ws);
      && Concat(Reversed(weeks)) == days
      && (forall k :: 1 <= k < |weeks| ==> weeks[k] != [] && weeks[k][|weeks[k]| - 1].date < lastDate - 7 * k)
      && (forall k, j :: 0 <= k < |weeks| && 0 <= j < |weeks[k]| && (k == 0 || j < |weeks[k]| - 1) ==>
            weeks[k][j].date >= lastDate - 7 * (k + 1))
  {
    ConcatOfReversedBuckets(ws);
    ReversedReversed(days);
    ReversedBucketsKeepCutoffs(ws, lastDate);
  }

  /** `segmentDaysByWeeks`. Read in reverse, the buckets reproduce `days`.
   *  Bucket `k` covers the week ending `lastDate - 7 * k`: each of its days is
   *  no older than `lastDate - 7 * (k + 1)`, except that a bucket after the
   *  first one is opened by its most recent day, which is older than
   *  `lastDate - 7 * k`. At most one bucket is opened per day, and only the
   *  first bucket can be empty. */
  method SegmentDaysByWeeks<V>(days: seq<DayOfMetricData<V>>, lastDate: int)
    returns (weeks: seq<seq<DayOfMetricData<V>>>)
    ensures 1 <= |weeks| <= |days| + 1
    ensures days == [] ==> weeks == [[]]
    ensures Concat(Reversed(weeks)) == days
    ensures forall k :: 1 <= k < |weeks| ==>
      weeks[k] != [] && weeks[k][|weeks[k]| - 1].date < lastDate - 7 * k
    ensures forall k, j :: 0 <= k < |weeks| && 0 <= j < |weeks[k]| && (k == 0 || j < |weeks[k]| - 1) ==>
      weeks[k][j].date >= lastDate - 7 * (k + 1)
  {
    var ws: seq<seq<DayOfMetricData<V>>> := [[]];
    var cutoff := IsoDateWithOffset(lastDate, -7 * |ws|);
    var i := |days|;
    while i > 0
      invariant 0 <= i <= |days|
      invariant 1 <= |ws| <= |days| - i + 1
      invariant i == |days| ==> ws == [[]]
      invariant cutoff == lastDate - 7 * |ws|
      invariant Concat(ws) == Reversed(days[i..])
      invariant OpenedByOlderDay(ws, lastDate) && NotOlderThanCutoff(ws, lastDate)
    {
      i := i - 1;
      ghost var before := ws;
      // if date is older than cutoff, start a new week
      var opensBucket := IsoDatesDifference(days[i].date, cutoff) > 0;
      if opensBucket {
        ws := ws + [[]];
        cutoff := IsoDateWithOffset(lastDate, -7 * |ws|);
      }
      ws := ws[..|ws| - 1] + [ws[|ws| - 1] + [days[i]]];
      WalkStep(before, days, i, lastDate, opensBucket, ws);
    }
    weeks := ReverseEach(ws);
    WalkResult(ws, days, lastDate);
  }

  /** Every day of a bucket is among the buckets' contents. */
  lemma {:induction false} InConcat<T>(ws: seq<seq<T>>, m: nat, j: nat)
    requires m < |ws| && j < |ws[m]|
    ensures ws[m][j] in Concat(ws)
    decreases m
  {
    if m == 0 {
      assert Concat(ws) == ws[0] + Concat(ws[1..]);
    } else {
      assert ws[1..][m - 1] == ws[m];
      InConcat(ws[1..], m - 1, j);
    }
  }

  /** Buckets as `segmentDaysByWeeks` returns them, when no day is older than
   *  `lastDate - 7`, are a single bucket holding every day: a day exactly seven
   *  days before `lastDate` is not older than the first cutoff. */
  lemma {:induction false} NoDayOlderThanAWeekGivesOneBucket<V>(weeks: seq<seq<DayOfMetricData<V>>>,
                                                              days: seq<DayOfMetricData<V>>, lastDate: int)
    requires |weeks| >= 1 && Concat(Reversed(weeks)) == days
    requires forall k :: 1 <= k < |weeks| ==> weeks[k] != [] && weeks[k][|weeks[k]| - 1].date < lastDate - 7 * k
    requires forall i :: 0 <= i < |days| ==> days[i].date >= lastDate - 7
    ensures |weeks| == 1 && weeks[0] == days
  {
    if |weeks| > 1 {
      var w := weeks[1];
      var r := Reversed(weeks);
      assert r[|weeks| - 2] == w;
      InConcat(r, |weeks| - 2, |w| - 1);
      assert false;
    }
    assert Reversed(weeks) == [weeks[0]];
    assert Concat([weeks[0]]) == weeks[0] + Concat<DayOfMetricData<V>>([]);
  }
}
