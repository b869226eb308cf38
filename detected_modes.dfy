/** The detected modes of a trip (`getDetectedModes`): the distance of each
 *  sensed mode summed over the trip's sections, the modes by decreasing
 *  distance, and each mode's rounded share of the trip's total distance. */
module DetectedModes {
  import opened Common
  import DiaryModes

  /** A section of a trip: its sensed mode and its distance. */
  datatype Section = Section(sensedModeStr: string, distance: real)

  /** The `dists` record: each mode's summed distance, and the modes in the
   *  order they were added, which is the order `Object.entries` lists them in. */
  datatype Dists = Dists(dist: map<string, real>, order: seq<string>)

  ghost predicate Valid(d: Dists)
  {
    (forall m :: m in d.dist <==> m in d.order) && NoDuplicates(d.order)
  }

  /** The sections' modes after `filterRunning`. */
  function FilteredModes(sections: seq<Section>): (r: seq<string>)
    ensures |r| == |sections|
    ensures forall i :: 0 <= i < |sections| ==> r[i] == DiaryModes.FilterRunning(sections[i].sensedModeStr)
    decreases |sections|
  {
    if sections == [] then []
    else FilteredModes(sections[..|sections| - 1]) + [DiaryModes.FilterRunning(sections[|sections| - 1].sensedModeStr)]
  }

  /** `dists[m] || 0`: the summed distance, 0 for a mode not seen yet. */
  function DistIn(dist: map<string, real>, m: string): real
  {
    if m in dist then dist[m] else 0.0
  }

  /** `dists[m] = (dists[m] || 0) + x`. */
  function AddDistance(d: Dists, m: string, x: real): (r: Dists)
    ensures Valid(d) ==> Valid(r)
    ensures forall k :: DistIn(r.dist, k) == DistIn(d.dist, k) + (if k == m then x else 0.0)
    ensures r.order == if m in d.dist then d.order else d.order + [m]
  {
    if m in d.dist then Dists(d.dist[m := d.dist[m] + x], d.order)
    else Dists(d.dist[m := x], d.order + [m])
  }

  /** The `dists` record after the `forEach` over `sections`. */
  function Accumulate(sections: seq<Section>): (r: Dists)
    ensures Valid(r)
    decreases |sections|
  {
    if sections == [] then Dists(map[], [])
    else
      var last := sections[|sections| - 1];
      AddDistance(Accumulate(sections[..|sections| - 1]), DiaryModes.FilterRunning(last.sensedModeStr), last.distance)
  }

  /** `totalDist` after the `forEach`: all the sections' distances. */
  function TotalDistance(sections: seq<Section>): (r: real)
    ensures NonNegative(sections) ==> r >= 0.0
    decreases |sections|
  {
    if sections == [] then 0.0 else TotalDistance(sections[..|sections| - 1]) + sections[|sections| - 1].distance
  }

  /** The distance of the sections whose filtered mode is `m`. */
  function DistOf(sections: seq<Section>, m: string): real
    decreases |sections|
  {
    if sections == [] then 0.0
    else
      var last := sections[|sections| - 1];
      DistOf(sections[..|sections| - 1], m) + (if DiaryModes.FilterRunning(last.sensedModeStr) == m then last.distance else 0.0)
  }

  predicate NonNegative(sections: seq<Section>)
  {
    forall i :: 0 <= i < |sections| ==> sections[i].distance >= 0.0
  }

  /** The record lists each filtered mode once, in first-appearance order. */
  lemma {:induction false} AccumulateOrder(sections: seq<Section>)
    ensures Accumulate(sections).order == Dedup(FilteredModes(sections))
    decreases |sections|
  {
    if sections != [] {
      var init, last := sections[..|sections| - 1], sections[|sections| - 1];
      AccumulateOrder(init);
      var fm := DiaryModes.FilterRunning(last.sensedModeStr);
      var prev := Accumulate(init);
      assert Accumulate(sections) == AddDistance(prev, fm, last.distance);
      assert FilteredModes(sections) == FilteredModes(init) + [fm];
      DedupSnoc(FilteredModes(init), fm);
    }
  }

  /** The record holds, for each mode, the distance of that mode's sections. */
  lemma {:induction false} AccumulateDist(sections: seq<Section>, m: string)
    ensures DistIn(Accumulate(sections).dist, m) == DistOf(sections, m)
    decreases |sections|
  {
    if sections != [] {
      var init, last := sections[..|sections| - 1], sections[|sections| - 1];
      AccumulateDist(init, m);
      var fm := DiaryModes.FilterRunning(last.sensedModeStr);
      assert Accumulate(sections) == AddDistance(Accumulate(init), fm, last.distance);
    }
  }

  /** The record holds each filtered mode once, in first-appearance order,
   *  with the distance of that mode's sections. */
  lemma {:induction false} AccumulateMeaning(sections: seq<Section>)
    ensures var d := Accumulate(sections);
      && d.order == Dedup(FilteredModes(sections))
      && (forall m :: DistIn(d.dist, m) == DistOf(sections, m))
  {
    AccumulateOrder(sections);
    forall m ensures DistIn(Accumulate(sections).dist, m) == DistOf(sections, m) {
      AccumulateDist(sections, m);
    }
  }

  /** The sum of the distances of the keys `ks`. */
  function SumOver(ks: seq<string>, dist: map<string, real>): real
    decreases |ks|
  {
    if ks == [] then 0.0 else SumOver(ks[..|ks| - 1], dist) + DistIn(dist, ks[|ks| - 1])
  }

  /** Keys that `dist'` reads as `dist` does keep their sum. */
  lemma {:induction false} SumOverOther(ks: seq<string>, dist: map<string, real>, dist': map<string, real>, k: string)
    requires forall j :: j != k ==> DistIn(dist', j) == DistIn(dist, j)
    requires k !in ks
    ensures SumOver(ks, dist') == SumOver(ks, dist)
    decreases |ks|
  {
    if ks != [] {
      var init := ks[..|ks| - 1];
      assert ks[|ks| - 1] in ks;
      assert k !in init by {
        forall i | 0 <= i < |init| ensures init[i] != k {
          assert init[i] == ks[i];
        }
      }
      SumOverOther(init, dist, dist', k);
    }
  }

  /** Adding `x` to the distance of one of the distinct keys adds `x` to their sum. */
  lemma {:induction false} SumOverAdd(ks: seq<string>, dist: map<string, real>, dist': map<string, real>, k: string, x: real)
    requires forall j :: DistIn(dist', j) == DistIn(dist, j) + (if j == k then x else 0.0)
    requires k in ks && NoDuplicates(ks)
    ensures SumOver(ks, dist') == SumOver(ks, dist) + x
    decreases |ks|
  {
    var init, last := ks[..|ks| - 1], ks[|ks| - 1];
    assert NoDuplicates(init) by {
      forall i, j | 0 <= i < j < |init| ensures init[i] != init[j] {
        assert init[i] == ks[i] && init[j] == ks[j];
      }
    }
    if last == k {
      assert k !in init by {
        forall i | 0 <= i < |init| ensures init[i] != k {
          assert init[i] == ks[i];
        }
      }
      SumOverOther(init, dist, dist', k);
    } else {
      assert k in init by {
        var i :| 0 <= i < |ks| && ks[i] == k;
        assert init[i] == k;
      }
      SumOverAdd(init, dist, dist', k, x);
    }
  }

  /** The per-mode distances add up to the total distance. */
  lemma {:induction false} ModeDistancesSumToTotal(sections: seq<Section>)
    ensures SumOver(Accumulate(sections).order, Accumulate(sections).dist) == TotalDistance(sections)
    decreases |sections|
  {
    if sections != [] {
      var init, last := sections[..|sections| - 1], sections[|sections| - 1];
      ModeDistancesSumToTotal(init);
      var d := Accumulate(init);
      var m := DiaryModes.FilterRunning(last.sensedModeStr);
      var r := AddDistance(d, m, last.distance);
      assert Accumulate(sections) == r;
      if m in d.dist {
        assert m in d.order;
        SumOverAdd(d.order, d.dist, r.dist, m, last.distance);
      } else {
        assert r.order[..|r.order| - 1] == d.order;
        assert m !in d.order;
        SumOverOther(d.order, d.dist, r.dist, m);
      }
    }
  }

  /** With no negative distance, no mode travels farther than the whole trip. */
  lemma {:induction false} DistOfWithinTotal(sections: seq<Section>, m: string)
    requires NonNegative(sections)
    ensures 0.0 <= DistOf(sections, m) <= TotalDistance(sections)
    decreases |sections|
  {
    if sections != [] {
      DistOfWithinTotal(sections[..|sections| - 1], m);
    }
  }

  /** `ks` by decreasing distance. */
  ghost predicate SortedByDist(ks: seq<string>, dist: map<string, real>)
  {
    forall i, j :: 0 <= i < j < |ks| ==> DistIn(dist, ks[i]) >= DistIn(dist, ks[j])
  }

  /** `x` placed before the first key of `s` that is strictly shorter. */
  function InsertByDist(x: string, s: seq<string>, dist: map<string, real>): (r: seq<string>)
    ensures |r| == |s| + 1
    decreases |s|
  {
    if s == [] then [x]
    else if DistIn(dist, x) > DistIn(dist, s[0]) then [x] + s
    else [s[0]] + InsertByDist(x, s[1..], dist)
  }

  lemma {:induction false} InsertPermutes(x: string, s: seq<string>, dist: map<string, real>)
    ensures multiset(InsertByDist(x, s, dist)) == multiset(s) + multiset{x}
    decreases |s|
  {
    if s != [] && DistIn(dist, x) <= DistIn(dist, s[0]) {
      assert s == [s[0]] + s[1..];
      InsertPermutes(x, s[1..], dist);
    }
  }

  /** `Object.entries(dists).sort((a, b) => b[1] - a[1])`, keys only: a stable
   *  sort by decreasing distance. */
  function SortByDist(ks: seq<string>, dist: map<string, real>): (r: seq<string>)
    ensures |r| == |ks|
    decreases |ks|
  {
    if ks == [] then []
    else InsertByDist(ks[|ks| - 1], SortByDist(ks[..|ks| - 1], dist), dist)
  }

  /** The sort only reorders the keys. */
  lemma {:induction false} SortPermutes(ks: seq<string>, dist: map<string, real>)
    ensures multiset(SortByDist(ks, dist)) == multiset(ks)
    decreases |ks|
  {
    if ks != [] {
      var init := ks[..|ks| - 1];
      assert ks == init + [ks[|ks| - 1]];
      SortPermutes(init, dist);
      InsertPermutes(ks[|ks| - 1], SortByDist(init, dist), dist);
    }
  }

  /** Every key the insertion moves past is at least as long as `x`, and the
   *  rest follow in their old order. */
  lemma {:induction false} InsertedHead(x: string, s: seq<string>, dist: map<string, real>, j: nat)
    requires SortedByDist(s, dist) && s != [] && DistIn(dist, x) <= DistIn(dist, s[0])
    requires j < |InsertByDist(x, s[1..], dist)|
    ensures DistIn(dist, s[0]) >= DistIn(dist, InsertByDist(x, s[1..], dist)[j])
  {
    var t := s[1..];
    var it := InsertByDist(x, t, dist);
    InsertPermutes(x, t, dist);
    assert it[j] in multiset(it);
    assert it[j] in multiset(t) + multiset{x};
    if it[j] != x {
      assert it[j] in multiset(t);
      var i :| 0 <= i < |t| && t[i] == it[j];
      assert s[i + 1] == it[j];
    }
  }

  lemma {:induction false} InsertKeepsSorted(x: string, s: seq<string>, dist: map<string, real>)
    requires SortedByDist(s, dist)
    ensures SortedByDist(InsertByDist(x, s, dist), dist)
    decreases |s|
  {
    if s != [] {
      var t := s[1..];
      if DistIn(dist, x) > DistIn(dist, s[0]) {
        var r := [x] + s;
        forall i, j | 0 <= i < j < |r|
          ensures DistIn(dist, r[i]) >= DistIn(dist, r[j])
        {
          if i > 0 {
            assert r[i] == s[i - 1] && r[j] == s[j - 1];
          } else {
            assert r[j] == s[j - 1];
          }
        }
      } else {
        assert SortedByDist(t, dist) by {
          forall i, j | 0 <= i < j < |t| ensures DistIn(dist, t[i]) >= DistIn(dist, t[j]) {
            assert t[i] == s[i + 1] && t[j] == s[j + 1];
          }
        }
        InsertKeepsSorted(x, t, dist);
        var it := InsertByDist(x, t, dist);
        var r := [s[0]] + it;
        forall i, j | 0 <= i < j < |r|
          ensures DistIn(dist, r[i]) >= DistIn(dist, r[j])
        {
          if i > 0 {
            assert r[i] == it[i - 1] && r[j] == it[j - 1];
          } else {
            assert r[j] == it[j - 1];
            InsertedHead(x, s, dist, j - 1);
          }
        }
      }
    }
  }

  lemma {:induction false} SortIsSorted(ks: seq<string>, dist: map<string, real>)
    ensures SortedByDist(SortByDist(ks, dist), dist)
    decreases |ks|
  {
    if ks != [] {
      var init := ks[..|ks| - 1];
      SortIsSorted(init, dist);
      InsertKeepsSorted(ks[|ks| - 1], SortByDist(init, dist), dist);
    }
  }

  /** The keys of `ks` whose distance is `v`, in order. */
  function WithDist(ks: seq<string>, dist: map<string, real>, v: real): seq<string>
    decreases |ks|
  {
    if ks == [] then []
    else (if DistIn(dist, ks[0]) == v then [ks[0]] else []) + WithDist(ks[1..], dist, v)
  }

  lemma {:induction false} WithDistAppend(a: seq<string>, b: seq<string>, dist: map<string, real>, v: real)
    ensures WithDist(a + b, dist, v) == WithDist(a, dist, v) + WithDist(b, dist, v)
    decreases |a|
  {
    if a != [] {
      assert (a + b)[0] == a[0] && (a + b)[1..] == a[1..] + b;
      WithDistAppend(a[1..], b, dist, v);
    } else {
      assert a + b == b;
    }
  }

  /** Keys sorted by decreasing distance, all shorter than `w`, have none at `w`. */
  lemma {:induction false} NoneAtLongerDist(s: seq<string>, dist: map<string, real>, w: real)
    requires SortedByDist(s, dist)
    requires s != [] ==> DistIn(dist, s[0]) < w
    ensures WithDist(s, dist, w) == []
    decreases |s|
  {
    if s != [] {
      var t := s[1..];
      assert SortedByDist(t, dist) by {
        forall i, j | 0 <= i < j < |t| ensures DistIn(dist, t[i]) >= DistIn(dist, t[j]) {
          assert t[i] == s[i + 1] && t[j] == s[j + 1];
        }
      }
      assert t != [] ==> DistIn(dist, t[0]) <= DistIn(dist, s[0]) by {
        if t != [] { assert t[0] == s[1]; }
      }
      NoneAtLongerDist(t, dist, w);
    }
  }

  /** Inserting `x` puts it after every key of equal distance. */
  lemma {:induction false} InsertIsStable(x: string, s: seq<string>, dist: map<string, real>, v: real)
    requires SortedByDist(s, dist)
    ensures WithDist(InsertByDist(x, s, dist), dist, v) ==
      WithDist(s, dist, v) + (if DistIn(dist, x) == v then [x] else [])
    decreases |s|
  {
    if s == [] {
      assert [x][1..] == [];
    } else if DistIn(dist, x) > DistIn(dist, s[0]) {
      InsertInFront(x, s, dist, v);
    } else {
      SortedTail(s, dist);
      InsertIsStable(x, s[1..], dist, v);
      InsertBehind(x, s, dist, v);
    }
  }

  lemma {:induction false} InsertInFront(x: string, s: seq<string>, dist: map<string, real>, v: real)
    requires SortedByDist(s, dist) && s != [] && DistIn(dist, x) > DistIn(dist, s[0])
    ensures WithDist(InsertByDist(x, s, dist), dist, v) ==
      WithDist(s, dist, v) + (if DistIn(dist, x) == v then [x] else [])
  {
    NoneAtLongerDist(s, dist, DistIn(dist, x));
    assert ([x] + s)[0] == x && ([x] + s)[1..] == s;
  }

  lemma {:induction false} InsertBehind(x: string, s: seq<string>, dist: map<string, real>, v: real)
    requires s != [] && DistIn(dist, x) <= DistIn(dist, s[0])
    requires WithDist(InsertByDist(x, s[1..], dist), dist, v) ==
      WithDist(s[1..], dist, v) + (if DistIn(dist, x) == v then [x] else [])
    ensures WithDist(InsertByDist(x, s, dist), dist, v) ==
      WithDist(s, dist, v) + (if DistIn(dist, x) == v then [x] else [])
  {
    var it := InsertByDist(x, s[1..], dist);
    assert InsertByDist(x, s, dist) == [s[0]] + it;
    WithDistCons(s[0], it, dist, v);
    assert s == [s[0]] + s[1..];
    WithDistCons(s[0], s[1..], dist, v);
  }

  lemma {:induction false} WithDistCons(y: string, rest: seq<string>, dist: map<string, real>, v: real)
    ensures WithDist([y] + rest, dist, v) == (if DistIn(dist, y) == v then [y] else []) + WithDist(rest, dist, v)
  {
    assert ([y] + rest)[0] == y && ([y] + rest)[1..] == rest;
  }

  lemma SortedTail(s: seq<string>, dist: map<string, real>)
    requires SortedByDist(s, dist) && s != []
    ensures SortedByDist(s[1..], dist)
  {
    var t := s[1..];
    forall i, j | 0 <= i < j < |t| ensures DistIn(dist, t[i]) >= DistIn(dist, t[j]) {
      assert t[i] == s[i + 1] && t[j] == s[j + 1];
    }
  }

  /** The sort is stable: the keys of any one distance keep their order. */
  lemma {:induction false} SortIsStable(ks: seq<string>, dist: map<string, real>, v: real)
    ensures WithDist(SortByDist(ks, dist), dist, v) == WithDist(ks, dist, v)
    decreases |ks|
  {
    if ks != [] {
      var init, x := ks[..|ks| - 1], ks[|ks| - 1];
      SortIsStable(init, dist, v);
      SortIsSorted(init, dist);
      InsertIsStable(x, SortByDist(init, dist), dist, v);
      assert ks == init + [x];
      WithDistAppend(init, [x], dist, v);
      assert WithDist([x], dist, v) == (if DistIn(dist, x) == v then [x] else []) by {
        assert [x][1..] == [];
      }
    }
  }

  /** A percentage, or the `'<1'` shown when it rounds to 0 or is `NaN`. */
  datatype Pct = Percent(n: int) | LessThanOne

  /** `Math.round(dist / totalDist * 100) || '<1'` for `0 <= dist <= totalDist`;
   *  a zero total gives `0 / 0`, which is `NaN`. */
  function PctOf(dist: real, total: real): (r: Pct)
    requires 0.0 <= dist <= total
    ensures r.Percent? ==> 1 <= r.n <= 100
    ensures r.LessThanOne? <==> total == 0.0 || dist * 200.0 < total
    ensures r.Percent? ==> total > 0.0 && r.n == Round(dist / total * 100.0)
  {
    if total == 0.0 then LessThanOne
    else
      var y := dist / total * 100.0;
      assert 0.0 <= y <= 100.0 by {
        assert dist / total <= 1.0;
      }
      var p := Round(y);
      assert p == 0 <==> y < 0.5;
      ShareBelowHalf(dist, total);
      if p == 0 then LessThanOne else Percent(p)
  }

  lemma ShareBelowHalf(dist: real, total: real)
    requires 0.0 <= dist && 0.0 < total
    ensures dist / total * 100.0 < 0.5 <==> dist * 200.0 < total
  {
    var y := dist / total;
    assert y * total == dist;
    if y * 100.0 < 0.5 {
      assert y * 200.0 < 1.0;
      assert (y * 200.0) * total < total;
    } else {
      assert (y * 200.0) * total >= total;
    }
  }

  /** One element of the result. */
  datatype DetectedMode = DetectedMode(mode: string, icon: string, color: string, pct: Pct)

  /** `getBaseModeByKey(mode)?.color || 'black'`. */
  function ColorOf(mode: string): (r: string)
    ensures r != ""
    ensures DiaryModes.GetBaseModeByKey(mode).color != "" ==> r == DiaryModes.GetBaseModeByKey(mode).color
  {
    var c := DiaryModes.GetBaseModeByKey(mode).color;
    if c != "" then c else "black"
  }

  /** The `sortedKeys.map(...)` step. */
  function ModeEntries(keys: seq<string>, dist: map<string, real>, totalDist: real): (r: seq<DetectedMode>)
    requires forall k :: 0.0 <= DistIn(dist, k) <= totalDist
    ensures |r| == |keys|
    ensures forall i :: 0 <= i < |keys| ==> r[i].mode == keys[i] && r[i].pct == PctOf(DistIn(dist, keys[i]), totalDist)
    ensures forall i :: 0 <= i < |keys| ==>
      r[i].icon == DiaryModes.GetBaseModeByKey(keys[i]).icon && r[i].color == ColorOf(keys[i])
  {
    seq(|keys|, i requires 0 <= i < |keys| =>
      DetectedMode(keys[i], DiaryModes.GetBaseModeByKey(keys[i]).icon, ColorOf(keys[i]), PctOf(DistIn(dist, keys[i]), totalDist)))
  }

  lemma {:induction false} RecordWithinTotal(sections: seq<Section>)
    requires NonNegative(sections)
    ensures forall k :: 0.0 <= DistIn(Accumulate(sections).dist, k) <= TotalDistance(sections)
  {
    AccumulateMeaning(sections);
    forall k
      ensures 0.0 <= DistOf(sections, k) <= TotalDistance(sections)
    {
      DistOfWithinTotal(sections, k);
    }
  }

  /** `getDetectedModes` on the trip's sections; `undefined` sections are `None`. */
  function DetectedModesOf(sections: Option<seq<Section>>): (r: seq<DetectedMode>)
    requires sections.Some? ==> NonNegative(sections.value)
    ensures sections.None? || sections.value == [] ==> r == []
  {
    if sections.None? || sections.value == [] then []
    else
      RecordWithinTotal(sections.value);
      var d := Accumulate(sections.value);
      ModeEntries(SortByDist(d.order, d.dist), d.dist, TotalDistance(sections.value))
  }

  /** `getDetectedModes`: the `forEach` accumulation, the sort and the map. */
  method GetDetectedModes(sections: Option<seq<Section>>) returns (sectionPcts: seq<DetectedMode>)
    requires sections.Some? ==> NonNegative(sections.value)
    ensures sectionPcts == DetectedModesOf(sections)
  {
    if sections.None? || |sections.value| == 0 {
      return [];
    }
    var ss := sections.value;
    // sum up the distances for each mode, as well as the total distance
    var totalDist := 0.0;
    var dists := Dists(map[], []);
    var i := 0;
    while i < |ss|
      invariant 0 <= i <= |ss|
      invariant dists == Accumulate(ss[..i]) && totalDist == TotalDistance(ss[..i])
    {
      assert ss[..i + 1][..i] == ss[..i];
      var filteredMode := DiaryModes.FilterRunning(ss[i].sensedModeStr);
      dists := AddDistance(dists, filteredMode, ss[i].distance);
      totalDist := totalDist + ss[i].distance;
      i := i + 1;
    }
    assert ss[..|ss|] == ss;
    RecordWithinTotal(ss);
    // sort modes by the distance traveled (descending)
    var sortedKeys := SortByDist(dists.order, dists.dist);
    sectionPcts := ModeEntries(sortedKeys, dists.dist, totalDist);
  }

  /** The record's modes after the sort. */
  function SortedModes(sections: seq<Section>): seq<string>
  {
    SortByDist(Accumulate(sections).order, Accumulate(sections).dist)
  }

  /** The sorted modes are the filtered modes, each once, by decreasing distance. */
  lemma {:induction false} SortedModesMeaning(sections: seq<Section>)
    ensures forall m :: m in SortedModes(sections) <==> m in FilteredModes(sections)
    ensures NoDuplicates(SortedModes(sections))
    ensures forall i, j :: 0 <= i < j < |SortedModes(sections)| ==>
      DistOf(sections, SortedModes(sections)[i]) >= DistOf(sections, SortedModes(sections)[j])
  {
    var d := Accumulate(sections);
    var keys := SortedModes(sections);
    AccumulateMeaning(sections);
    SortIsSorted(d.order, d.dist);
    SortPermutes(d.order, d.dist);
    forall m ensures m in keys <==> m in FilteredModes(sections) {
      assert m in keys <==> m in multiset(keys);
      assert m in d.order <==> m in multiset(d.order);
    }
    PermutationOfDistinct(d.order, keys);
  }

  /** The result lists the sorted modes, each with its share of the total. */
  lemma {:induction false} DetectedModesListSortedModes(sections: seq<Section>)
    requires NonNegative(sections) && sections != []
    ensures forall k :: 0.0 <= DistOf(sections, k) <= TotalDistance(sections)
    ensures |DetectedModesOf(Some(sections))| == |SortedModes(sections)|
    ensures forall i :: 0 <= i < |SortedModes(sections)| ==>
      && DetectedModesOf(Some(sections))[i].mode == SortedModes(sections)[i]
      && DetectedModesOf(Some(sections))[i].pct == PctOf(DistOf(sections, SortedModes(sections)[i]), TotalDistance(sections))
  {
    var d := Accumulate(sections);
    var keys := SortedModes(sections);
    var total := TotalDistance(sections);
    RecordWithinTotal(sections);
    var r := ModeEntries(keys, d.dist, total);
    assert DetectedModesOf(Some(sections)) == r;
    forall k ensures 0.0 <= DistOf(sections, k) <= total && DistIn(d.dist, k) == DistOf(sections, k) {
      AccumulateMeaning(sections);
    }
  }

  /** The detected modes of a trip with sections are its filtered modes, each
   *  listed once. */
  lemma {:induction false} DetectedModesAreTheFilteredModes(sections: seq<Section>)
    requires NonNegative(sections) && sections != []
    ensures forall m :: m in FilteredModes(sections) <==>
      exists i :: 0 <= i < |DetectedModesOf(Some(sections))| && DetectedModesOf(Some(sections))[i].mode == m
    ensures forall i, j :: 0 <= i < j < |DetectedModesOf(Some(sections))| ==>
      DetectedModesOf(Some(sections))[i].mode != DetectedModesOf(Some(sections))[j].mode
  {
    SortedModesMeaning(sections);
    DetectedModesListSortedModes(sections);
    var r := DetectedModesOf(Some(sections));
    var keys := SortedModes(sections);
    forall m ensures m in FilteredModes(sections) <==> exists i :: 0 <= i < |r| && r[i].mode == m {
      if m in keys {
        var i :| 0 <= i < |keys| && keys[i] == m;
        assert r[i].mode == m;
      }
    }
    forall i, j | 0 <= i < j < |r| ensures r[i].mode != r[j].mode {
      assert r[i].mode == keys[i] && r[j].mode == keys[j];
    }
  }

  /** The detected modes come by decreasing distance, each with its rounded
   *  share of the trip's total distance. */
  lemma {:induction false} DetectedModesByDistanceWithShares(sections: seq<Section>)
    requires NonNegative(sections) && sections != []
    ensures forall i, j :: 0 <= i < j < |DetectedModesOf(Some(sections))| ==>
      DistOf(sections, DetectedModesOf(Some(sections))[i].mode) >= DistOf(sections, DetectedModesOf(Some(sections))[j].mode)
    ensures forall k :: 0.0 <= DistOf(sections, k) <= TotalDistance(sections)
    ensures forall i :: 0 <= i < |DetectedModesOf(Some(sections))| ==>
      DetectedModesOf(Some(sections))[i].pct == PctOf(DistOf(sections, DetectedModesOf(Some(sections))[i].mode), TotalDistance(sections))
  {
    SortedModesMeaning(sections);
    DetectedModesListSortedModes(sections);
    var r := DetectedModesOf(Some(sections));
    var keys := SortedModes(sections);
    forall i, j | 0 <= i < j < |r|
      ensures DistOf(sections, r[i].mode) >= DistOf(sections, r[j].mode)
    {
      assert r[i].mode == keys[i] && r[j].mode == keys[j];
    }
  }

  /** A permutation of a sequence without duplicates has none either. */
  lemma {:induction false} PermutationOfDistinct(a: seq<string>, b: seq<string>)
    requires multiset(a) == multiset(b) && NoDuplicates(a)
    ensures NoDuplicates(b)
  {
    forall x ensures multiset(a)[x] <= 1 {
      DistinctCount(a, x);
    }
    forall i, j | 0 <= i < j < |b| ensures b[i] != b[j] {
      if b[i] == b[j] {
        TwoOccurrences(b, i, j);
      }
    }
  }

  lemma {:induction false} DistinctCount(a: seq<string>, x: string)
    requires NoDuplicates(a)
    ensures multiset(a)[x] <= 1
    decreases |a|
  {
    if a != [] {
      var t := a[1..];
      assert a == [a[0]] + t;
      assert NoDuplicates(t) by {
        forall i, j | 0 <= i < j < |t| ensures t[i] != t[j] {
          assert t[i] == a[i + 1] && t[j] == a[j + 1];
        }
      }
      DistinctCount(t, x);
      if a[0] == x {
        assert x !in t by {
          forall i | 0 <= i < |t| ensures t[i] != x {
            assert t[i] == a[i + 1];
          }
        }
      }
    }
  }

  lemma {:induction false} TwoOccurrences(b: seq<string>, i: nat, j: nat)
    requires i < j < |b| && b[i] == b[j]
    ensures multiset(b)[b[i]] >= 2
  {
    assert b == b[..j] + [b[j]] + b[j + 1..];
    assert b[i] in b[..j];
    assert multiset(b) == multiset(b[..j]) + multiset{b[j]} + multiset(b[j + 1..]);
  }

  /** Modes of equal distance are listed in the order they first appear among
   *  the sections. */
  lemma {:induction false} DetectedModesTiesKeepFirstAppearance(sections: seq<Section>, v: real)
    ensures WithDist(SortedModes(sections), Accumulate(sections).dist, v) ==
      WithDist(Dedup(FilteredModes(sections)), Accumulate(sections).dist, v)
  {
    AccumulateMeaning(sections);
    var d := Accumulate(sections);
    SortIsStable(d.order, d.dist, v);
  }
}
