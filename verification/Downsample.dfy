/** Reducing a stored history to a budget of points without losing its peaks. */
module Downsample {
  import opened Time
  import opened Collections
  import opened Domain

  /** Which bucket a row falls in. */
  type Bucketing = QuotaSnapshot -> int

  /** `since..since + span` cut into `budget` buckets, in integer milliseconds;
      a row before `since` counts as at it, one past the end as in the last. */
  function BucketOf(since: Instant, span: int, budget: int): Bucketing
    requires span > 0
  {
    (row: QuotaSnapshot) => Min(Max(NumMilliseconds(row.ts - since), 0) * budget / span, budget - 1)
  }

  /** Where the last run of rows in one bucket begins. */
  function GroupStart(rows: seq<QuotaSnapshot>, bucket: Bucketing): (g: nat)
    requires rows != []
    ensures g < |rows|
  {
    var n := |rows|;
    if n == 1 || bucket(rows[n - 2]) != bucket(rows[n - 1]) then n - 1 else GroupStart(rows[..n - 1], bucket)
  }

  /** The first of the rows with the highest usage. */
  function PeakIndex(rows: seq<QuotaSnapshot>): (k: nat)
    requires rows != []
    ensures k < |rows|
  {
    var n := |rows|;
    if n == 1 then 0
    else
      var k := PeakIndex(rows[..n - 1]);
      if rows[n - 1].used > rows[k].used then n - 1 else k
  }

  /** The peak of every group. */
  function Peaks(rows: seq<QuotaSnapshot>, bucket: Bucketing): seq<QuotaSnapshot> {
    if rows == [] then []
    else
      var g := GroupStart(rows, bucket);
      Peaks(rows[..g], bucket) + [rows[g + PeakIndex(rows[g..])]]
  }

  /** Each group's peak, but of the last group its newest row. */
  function Picked(rows: seq<QuotaSnapshot>, bucket: Bucketing): seq<QuotaSnapshot> {
    if rows == [] then []
    else Peaks(rows[..GroupStart(rows, bucket)], bucket) + [rows[|rows| - 1]]
  }

  function Reduced(rows: seq<QuotaSnapshot>, since: Instant, span: int, budget: nat): seq<QuotaSnapshot>
    requires span > 0
  {
    if |rows| <= budget then rows else Picked(rows, BucketOf(since, span, budget))
  }

  // ----- the loop

  /** After `i` rows: the earlier groups' peaks, and the current one's so far. */
  ghost predicate Scanned(rows: seq<QuotaSnapshot>, i: nat, bucket: Bucketing, picks: seq<QuotaSnapshot>, peak: nat)
    requires 0 < i <= |rows|
  {
    var g := GroupStart(rows[..i], bucket);
    picks == Peaks(rows[..g], bucket) && peak == g + PeakIndex(rows[g..i])
  }

  lemma GroupExtends(rows: seq<QuotaSnapshot>, i: nat, bucket: Bucketing)
    requires 0 < i < |rows|
    ensures GroupStart(rows[..i + 1], bucket)
         == if bucket(rows[i - 1]) != bucket(rows[i]) then i else GroupStart(rows[..i], bucket)
  {
    assert rows[..i + 1][..i] == rows[..i];
  }

  lemma PeakExtends(group: seq<QuotaSnapshot>, row: QuotaSnapshot)
    requires group != []
    ensures PeakIndex(group + [row])
         == if row.used > group[PeakIndex(group)].used then |group| else PeakIndex(group)
  {
    assert (group + [row])[..|group|] == group;
  }

  lemma PeaksExtend(rows: seq<QuotaSnapshot>, bucket: Bucketing)
    requires rows != []
    ensures var g := GroupStart(rows, bucket);
      Peaks(rows, bucket) == Peaks(rows[..g], bucket) + [rows[g + PeakIndex(rows[g..])]]
  {
  }

  lemma SameGroup(rows: seq<QuotaSnapshot>, i: nat, bucket: Bucketing, picks: seq<QuotaSnapshot>, peak: nat)
    requires 0 < i < |rows| && Scanned(rows, i, bucket, picks, peak)
    requires bucket(rows[i - 1]) == bucket(rows[i])
    ensures peak < i
    ensures Scanned(rows, i + 1, bucket, picks, if rows[i].used > rows[peak].used then i else peak)
  {
    GroupExtends(rows, i, bucket);
    var g := GroupStart(rows[..i], bucket);
    var group := rows[g..i];
    assert rows[g..i + 1] == group + [rows[i]];
    assert group[PeakIndex(group)] == rows[peak];
    PeakExtends(group, rows[i]);
  }

  lemma NewGroup(rows: seq<QuotaSnapshot>, i: nat, bucket: Bucketing, picks: seq<QuotaSnapshot>, peak: nat)
    requires 0 < i < |rows| && Scanned(rows, i, bucket, picks, peak)
    requires bucket(rows[i - 1]) != bucket(rows[i])
    ensures peak < i
    ensures Scanned(rows, i + 1, bucket, picks + [rows[peak]], i)
  {
    GroupExtends(rows, i, bucket);
    PeaksExtend(rows[..i], bucket);
    var g := GroupStart(rows[..i], bucket);
    assert rows[..i][..g] == rows[..g] && rows[..i][g..] == rows[g..i];
    assert rows[i..i + 1] == [rows[i]];
  }

  /** What the next row does to the scan. */
  lemma ScanStep(rows: seq<QuotaSnapshot>, i: nat, bucket: Bucketing, picks: seq<QuotaSnapshot>, peak: nat)
    requires i < |rows| && (i > 0 ==> Scanned(rows, i, bucket, picks, peak))
    ensures i == 0 ==> Scanned(rows, 1, bucket, [], 0)
    ensures i > 0 ==> peak < i
    ensures i > 0 ==>
      if bucket(rows[i - 1]) != bucket(rows[i]) then Scanned(rows, i + 1, bucket, picks + [rows[peak]], i)
      else Scanned(rows, i + 1, bucket, picks, if rows[i].used > rows[peak].used then i else peak)
  {
    if i == 0 {
      assert rows[..1] == [rows[0]] && rows[0..1] == [rows[0]];
    } else if bucket(rows[i - 1]) == bucket(rows[i]) {
      SameGroup(rows, i, bucket, picks, peak);
    } else {
      NewGroup(rows, i, bucket, picks, peak);
    }
  }

  lemma ScanEnds(rows: seq<QuotaSnapshot>, bucket: Bucketing, picks: seq<QuotaSnapshot>, peak: nat)
    requires rows != [] && Scanned(rows, |rows|, bucket, picks, peak)
    ensures picks + [rows[|rows| - 1]] == Picked(rows, bucket)
  {
    assert rows[..|rows|] == rows;
  }

  method PickPeaks(rows: seq<QuotaSnapshot>, bucket: Bucketing) returns (picks: seq<QuotaSnapshot>)
    ensures picks == Picked(rows, bucket)
  {
    picks := [];
    var current: Option<int> := None;
    var peak := 0;
    for i := 0 to |rows|
      invariant i == 0 ==> current.None? && picks == []
      invariant i > 0 ==> current == Some(bucket(rows[i - 1])) && Scanned(rows, i, bucket, picks, peak)
    {
      var b := bucket(rows[i]);
      ScanStep(rows, i, bucket, picks, peak);
      if current != Some(b) {
        if current.Some? {
          picks := picks + [rows[peak]];
        }
        current := Some(b);
        peak := i;
      } else if rows[i].used > rows[peak].used {
        peak := i;
      }
    }
    if current.Some? {
      ScanEnds(rows, bucket, picks, peak);
      picks := picks + [rows[|rows| - 1]];
    }
  }

  method ReduceSeries(
      rows: seq<QuotaSnapshot>, since: Instant, span: int, budget: nat) returns (picks: seq<QuotaSnapshot>)
    requires span > 0
    ensures picks == Reduced(rows, since, span, budget)
  {
    if |rows| <= budget {
      return rows;
    }
    picks := PickPeaks(rows, BucketOf(since, span, budget));
  }

  // ----- what is kept

  /** `at` picks out `some` from `all`, in order. */
  ghost predicate Embeds(some: seq<QuotaSnapshot>, all: seq<QuotaSnapshot>, at: seq<nat>) {
    && |at| == |some|
    && (forall k :: 0 <= k < |at| ==> at[k] < |all| && all[at[k]] == some[k])
    && forall j, k :: 0 <= j < k < |at| ==> at[j] < at[k]
  }

  lemma EmbedsPush(some: seq<QuotaSnapshot>, all: seq<QuotaSnapshot>, g: nat, at: seq<nat>, i: nat)
    requires g <= i < |all| && Embeds(some, all[..g], at)
    ensures Embeds(some + [all[i]], all, at + [i])
  {
  }

  lemma {:induction false} PeaksEmbed(rows: seq<QuotaSnapshot>, bucket: Bucketing) returns (at: seq<nat>)
    ensures Embeds(Peaks(rows, bucket), rows, at)
  {
    if rows == [] {
      at := [];
    } else {
      var g := GroupStart(rows, bucket);
      at := PeaksEmbed(rows[..g], bucket);
      EmbedsPush(Peaks(rows[..g], bucket), rows, g, at, g + PeakIndex(rows[g..]));
      PeaksExtend(rows, bucket);
      at := at + [g + PeakIndex(rows[g..])];
    }
  }

  /** The buckets of a time-sorted series never fall. */
  ghost predicate Climbs(rows: seq<QuotaSnapshot>, bucket: Bucketing) {
    forall i, j :: 0 <= i <= j < |rows| ==> bucket(rows[i]) <= bucket(rows[j])
  }

  lemma {:induction false} GroupIsOneBucket(rows: seq<QuotaSnapshot>, bucket: Bucketing)
    requires rows != []
    ensures var g := GroupStart(rows, bucket);
      && (forall i :: g <= i < |rows| ==> bucket(rows[i]) == bucket(rows[|rows| - 1]))
      && (g > 0 ==> bucket(rows[g - 1]) != bucket(rows[|rows| - 1]))
  {
    var n := |rows|;
    if n > 1 && bucket(rows[n - 2]) == bucket(rows[n - 1]) {
      GroupIsOneBucket(rows[..n - 1], bucket);
    }
  }

  lemma {:induction false} PeakIsFirstHighest(rows: seq<QuotaSnapshot>)
    requires rows != []
    ensures forall i :: 0 <= i < |rows| ==> rows[i].used <= rows[PeakIndex(rows)].used
    ensures forall i :: 0 <= i < PeakIndex(rows) ==> rows[i].used < rows[PeakIndex(rows)].used
  {
    if |rows| > 1 {
      var front := rows[..|rows| - 1];
      PeakIsFirstHighest(front);
      assert forall i :: 0 <= i < |front| ==> rows[i] == front[i];
      assert PeakIndex(rows) == if rows[|front|].used > front[PeakIndex(front)].used then |front| else PeakIndex(front);
    }
  }

  /** Every row's bucket keeps a row used at least as much; of the rows that
      reach that height, the earliest. */
  lemma {:induction false} PeakFor(rows: seq<QuotaSnapshot>, bucket: Bucketing, i: nat) returns (k: nat)
    requires i < |rows|
    ensures var picks := Peaks(rows, bucket);
      k < |picks| && bucket(picks[k]) == bucket(rows[i]) && picks[k].used >= rows[i].used
  {
    var g := GroupStart(rows, bucket);
    GroupIsOneBucket(rows, bucket);
    if i < g {
      k := PeakFor(rows[..g], bucket, i);
    } else {
      var group := rows[g..];
      PeakIsFirstHighest(group);
      assert group[i - g] == rows[i] && group[PeakIndex(group)] == rows[g + PeakIndex(group)];
      k := |Peaks(rows, bucket)| - 1;
    }
  }

  /** No two peaks share a bucket. */
  lemma {:induction false} PeaksClimb(rows: seq<QuotaSnapshot>, bucket: Bucketing)
    requires Climbs(rows, bucket)
    ensures StrictlySortedBy(Peaks(rows, bucket), bucket)
    ensures forall k :: 0 <= k < |Peaks(rows, bucket)| ==> bucket(Peaks(rows, bucket)[k]) <= bucket(rows[|rows| - 1])
  {
    if rows != [] {
      var g := GroupStart(rows, bucket);
      PeaksClimb(rows[..g], bucket);
      GroupIsOneBucket(rows, bucket);
      if g > 0 {
        assert bucket(rows[g - 1]) <= bucket(rows[|rows| - 1]);
      }
    }
  }

  ghost predicate Subsequence(some: seq<QuotaSnapshot>, all: seq<QuotaSnapshot>) {
    exists at: seq<nat> :: Embeds(some, all, at)
  }

  /** A kept row of `r`'s bucket, used at least as much. */
  ghost predicate StandsFor(picks: seq<QuotaSnapshot>, r: QuotaSnapshot, bucket: Bucketing) {
    exists k :: 0 <= k < |picks| && bucket(picks[k]) == bucket(r) && picks[k].used >= r.used
  }

  lemma PickedIsSubsequence(rows: seq<QuotaSnapshot>, bucket: Bucketing)
    ensures Subsequence(Picked(rows, bucket), rows)
  {
    if rows == [] {
      assert Embeds([], rows, []);
    } else {
      var at := PeaksEmbed(rows[..GroupStart(rows, bucket)], bucket);
      assert Embeds(Picked(rows, bucket), rows, at + [|rows| - 1]);
    }
  }

  lemma PickedClimbs(rows: seq<QuotaSnapshot>, bucket: Bucketing)
    requires rows != [] && Climbs(rows, bucket)
    ensures StrictlySortedBy(Picked(rows, bucket), bucket)
  {
    var g := GroupStart(rows, bucket);
    GroupIsOneBucket(rows, bucket);
    PeaksClimb(rows[..g], bucket);
    if g > 0 {
      assert bucket(rows[g - 1]) <= bucket(rows[|rows| - 1]);
    }
  }

  lemma PickedStandsFor(rows: seq<QuotaSnapshot>, bucket: Bucketing, i: nat)
    requires i < |rows| && bucket(rows[i]) != bucket(rows[|rows| - 1])
    ensures StandsFor(Picked(rows, bucket), rows[i], bucket)
  {
    var g := GroupStart(rows, bucket);
    var earlier := rows[..g];
    GroupIsOneBucket(rows, bucket);
    var k := PeakFor(earlier, bucket, i);
    assert Picked(rows, bucket)[k] == Peaks(earlier, bucket)[k] && earlier[i] == rows[i];
  }

  /** What reducing keeps: rows of the series in its order, no two of one
      bucket, ending on the newest row, and for every row outside the newest
      one's bucket a row of the same bucket used at least as much. */
  lemma PickedKeepsPeaks(rows: seq<QuotaSnapshot>, bucket: Bucketing)
    requires rows != [] && Climbs(rows, bucket)
    ensures var picks := Picked(rows, bucket);
      && Subsequence(picks, rows) && StrictlySortedBy(picks, bucket)
      && picks[|picks| - 1] == rows[|rows| - 1]
      && forall i :: 0 <= i < |rows| && bucket(rows[i]) != bucket(rows[|rows| - 1]) ==>
           StandsFor(picks, rows[i], bucket)
  {
    PickedIsSubsequence(rows, bucket);
    PickedClimbs(rows, bucket);
    forall i | 0 <= i < |rows| && bucket(rows[i]) != bucket(rows[|rows| - 1])
      ensures StandsFor(Picked(rows, bucket), rows[i], bucket)
    {
      PickedStandsFor(rows, bucket, i);
    }
  }

  // ----- the budget

  lemma DivMonotone(a: int, b: int, d: int)
    requires a <= b && d > 0
    ensures a / d <= b / d
  {
    DivBounds(a, d);
    DivBounds(b, d);
    PositiveFactor(d, b / d + 1 - a / d);
  }

  lemma DivBounds(a: int, d: int)
    requires d > 0
    ensures d * (a / d) <= a < d * (a / d) + d
  {
  }

  lemma PositiveFactor(d: int, k: int)
    requires d > 0 && d * k > 0
    ensures k > 0
  {
  }

  lemma MulMonotone(a: int, b: int, k: int)
    requires a <= b && k >= 0
    ensures a * k <= b * k
  {
  }

  /** Later rows never fall in earlier buckets, and there are `budget` buckets. */
  lemma BucketsClimb(rows: seq<QuotaSnapshot>, since: Instant, span: int, budget: nat)
    requires span > 0 && budget > 0 && SortedBy(rows, SnapshotTs)
    ensures Climbs(rows, BucketOf(since, span, budget))
    ensures forall r <- rows :: 0 <= BucketOf(since, span, budget)(r) < budget
  {
    var bucket := BucketOf(since, span, budget);
    forall i, j | 0 <= i <= j < |rows| ensures bucket(rows[i]) <= bucket(rows[j]) {
      assert SnapshotTs(rows[i]) <= SnapshotTs(rows[j]);
      LaterRowLaterBucket(rows[i], rows[j], since, span, budget);
    }
    forall r <- rows ensures 0 <= bucket(r) < budget {
      var offset := Max(NumMilliseconds(r.ts - since), 0);
      MulMonotone(0, offset, budget);
      DivMonotone(0, offset * budget, span);
    }
  }

  lemma LaterRowLaterBucket(p: QuotaSnapshot, q: QuotaSnapshot, since: Instant, span: int, budget: nat)
    requires span > 0 && p.ts <= q.ts
    ensures BucketOf(since, span, budget)(p) <= BucketOf(since, span, budget)(q)
  {
    var a, b := Max(NumMilliseconds(p.ts - since), 0), Max(NumMilliseconds(q.ts - since), 0);
    MulMonotone(a, b, budget);
    DivMonotone(a * budget, b * budget, span);
  }

  /** Strictly climbing values below `budget` are at most `budget` many. */
  lemma {:induction false} ClimbingFits(picks: seq<QuotaSnapshot>, bucket: Bucketing, budget: nat)
    requires StrictlySortedBy(picks, bucket)
    requires forall p <- picks :: 0 <= bucket(p) < budget
    ensures |picks| <= budget
  {
    if picks != [] {
      var last := picks[|picks| - 1];
      assert last in picks;
      forall p <- picks[..|picks| - 1] ensures bucket(p) < bucket(last) {
        var i :| 0 <= i < |picks| - 1 && picks[i] == p;
        assert bucket(picks[i]) < bucket(picks[|picks| - 1]);
      }
      ClimbingFits(picks[..|picks| - 1], bucket, bucket(last));
    }
  }

  /** Reducing one time-sorted series stays within the budget. */
  lemma ReducedFitsBudget(rows: seq<QuotaSnapshot>, since: Instant, span: int, budget: nat)
    requires span > 0 && budget > 0 && SortedBy(rows, SnapshotTs)
    ensures |Reduced(rows, since, span, budget)| <= budget
    ensures Subsequence(Reduced(rows, since, span, budget), rows)
  {
    if |rows| <= budget {
      assert Embeds(rows, rows, seq(|rows|, k => k));
    } else {
      var bucket := BucketOf(since, span, budget);
      BucketsClimb(rows, since, span, budget);
      PickedKeepsPeaks(rows, bucket);
      SubsequenceMembers(Picked(rows, bucket), rows);
      ClimbingFits(Picked(rows, bucket), bucket, budget);
    }
  }

  lemma SubsequenceMembers(picks: seq<QuotaSnapshot>, rows: seq<QuotaSnapshot>)
    requires Subsequence(picks, rows)
    ensures forall p <- picks :: p in rows
  {
    var at: seq<nat> :| Embeds(picks, rows, at);
    forall p <- picks ensures p in rows {
      var k :| 0 <= k < |picks| && picks[k] == p;
      assert rows[at[k]] == p;
    }
  }

  // ----- several windows at once

  type Grouped = seq<(WindowId, seq<QuotaSnapshot>)>

  /** The first group under an id, or how many groups there are. */
  function FindGroup(groups: Grouped, id: WindowId): (k: nat)
    ensures k <= |groups|
    ensures k < |groups| ==> groups[k].0 == id
    ensures forall i :: 0 <= i < k ==> groups[i].0 != id
  {
    if groups == [] || groups[0].0 == id then 0 else 1 + FindGroup(groups[1..], id)
  }

  function Push(groups: Grouped, row: QuotaSnapshot): Grouped {
    var k := FindGroup(groups, row.window);
    if k < |groups| then groups[k := (row.window, groups[k].1 + [row])] else groups + [(row.window, [row])]
  }

  /** Rows by window, windows in the order first seen. */
  function GroupRows(rows: seq<QuotaSnapshot>): Grouped {
    if rows == [] then [] else Push(GroupRows(rows[..|rows| - 1]), rows[|rows| - 1])
  }

  /** How one window's rows are reduced. */
  type Reducer = seq<QuotaSnapshot> -> seq<QuotaSnapshot>

  function ReducerOf(since: Instant, span: int, budget: nat): Reducer
    requires span > 0
  {
    (rows: seq<QuotaSnapshot>) => Reduced(rows, since, span, budget)
  }

  function ReducedGroups(groups: Grouped, reduce: Reducer): seq<QuotaSnapshot> {
    if groups == [] then []
    else ReducedGroups(groups[..|groups| - 1], reduce) + reduce(groups[|groups| - 1].1)
  }

  function Downsampled(snapshots: seq<QuotaSnapshot>, since: Instant, until: Instant, budget: nat): seq<QuotaSnapshot> {
    var span := NumMilliseconds(until - since);
    if span <= 0 then snapshots
    else Sort(ReducedGroups(GroupRows(snapshots), ReducerOf(since, span, budget)), SnapshotTs)
  }

  lemma GroupOneMore(rows: seq<QuotaSnapshot>, i: nat)
    requires i < |rows|
    ensures GroupRows(rows[..i + 1]) == Push(GroupRows(rows[..i]), rows[i])
  {
    assert rows[..i + 1][..i] == rows[..i];
  }

  lemma ReduceOneMore(groups: Grouped, i: nat, reduce: Reducer)
    requires i < |groups|
    ensures ReducedGroups(groups[..i + 1], reduce) == ReducedGroups(groups[..i], reduce) + reduce(groups[i].1)
  {
    assert groups[..i + 1][..i] == groups[..i];
  }

  method DownsampleHistory(snapshots: seq<QuotaSnapshot>, since: Instant, until: Instant, budget: nat)
    returns (out: seq<QuotaSnapshot>)
    ensures out == Downsampled(snapshots, since, until, budget)
  {
    var span := NumMilliseconds(until - since);
    if span <= 0 {
      return snapshots;
    }
    var series: Grouped := [];
    for i := 0 to |snapshots|
      invariant series == GroupRows(snapshots[..i])
    {
      GroupOneMore(snapshots, i);
      var row := snapshots[i];
      var k := FindGroup(series, row.window);
      if k < |series| {
        series := series[k := (row.window, series[k].1 + [row])];
      } else {
        series := series + [(row.window, [row])];
      }
    }
    assert snapshots[..|snapshots|] == snapshots;
    out := [];
    ghost var reduce := ReducerOf(since, span, budget);
    for i := 0 to |series|
      invariant out == ReducedGroups(series[..i], reduce)
    {
      ReduceOneMore(series, i, reduce);
      var rows := ReduceSeries(series[i].1, since, span, budget);
      out := out + rows;
    }
    assert series[..|series|] == series;
    out := Sort(out, SnapshotTs);
  }

  /** Ids are distinct, and each group holds exactly its window's rows. */
  ghost predicate GroupsOf(groups: Grouped, rows: seq<QuotaSnapshot>) {
    && (forall i, j :: 0 <= i < j < |groups| ==> groups[i].0 != groups[j].0)
    && (forall i :: 0 <= i < |groups| ==> groups[i].1 == Filter(rows, OfWindow(groups[i].0)))
    && (forall r <- rows :: FindGroup(groups, r.window) < |groups|)
  }

  lemma {:induction false} GroupRowsShape(rows: seq<QuotaSnapshot>)
    ensures GroupsOf(GroupRows(rows), rows)
  {
    if rows != [] {
      var front, row := rows[..|rows| - 1], rows[|rows| - 1];
      GroupRowsShape(front);
      PushKeepsShape(GroupRows(front), front, row);
      assert rows == front + [row];
    }
  }

  lemma PushKeepsShape(groups: Grouped, front: seq<QuotaSnapshot>, row: QuotaSnapshot)
    requires GroupsOf(groups, front)
    ensures GroupsOf(Push(groups, row), front + [row])
  {
    var pushed := Push(groups, row);
    var all := front + [row];
    assert all[..|front|] == front;
    forall i | 0 <= i < |pushed| ensures pushed[i].1 == Filter(all, OfWindow(pushed[i].0)) {
      if FindGroup(groups, row.window) == |groups| == i {
        forall r <- front ensures !OfWindow(row.window)(r) {
          assert FindGroup(groups, r.window) < |groups|;
        }
        FilterNone(front, OfWindow(row.window));
      }
    }
    forall r <- all ensures FindGroup(pushed, r.window) < |pushed| {
      if r in front {
        var k := FindGroup(groups, r.window);
        assert pushed[k].0 == r.window;
      } else {
        assert pushed[FindGroup(groups, row.window)].0 == row.window;
      }
    }
  }

  /** A reducer adds no row of its own. */
  ghost predicate KeepsOnly(reduce: Reducer) {
    forall rows: seq<QuotaSnapshot> :: KeptFrom(reduce(rows), rows)
  }

  ghost predicate KeptFrom(kept: seq<QuotaSnapshot>, rows: seq<QuotaSnapshot>) {
    forall r <- kept :: r in rows
  }

  lemma ReducerKeepsOnly(since: Instant, span: int, budget: nat)
    requires span > 0
    ensures KeepsOnly(ReducerOf(since, span, budget))
  {
    forall rows: seq<QuotaSnapshot> ensures KeptFrom(ReducerOf(since, span, budget)(rows), rows) {
      PickedIsSubsequence(rows, BucketOf(since, span, budget));
      SubsequenceMembers(Picked(rows, BucketOf(since, span, budget)), rows);
    }
  }

  lemma WindowOfGroup(rows: seq<QuotaSnapshot>, reduce: Reducer, id: WindowId, w: WindowId)
    requires KeepsOnly(reduce)
    ensures var kept := reduce(Filter(rows, OfWindow(id)));
      Filter(kept, OfWindow(w)) == if id == w then kept else []
  {
    var mine := Filter(rows, OfWindow(id));
    FilterMembers(rows, OfWindow(id));
    assert KeptFrom(reduce(mine), mine);
    if id == w {
      FilterAll(reduce(mine), OfWindow(w));
    } else {
      FilterNone(reduce(mine), OfWindow(w));
    }
  }

  /** Selecting a window from the concatenated reductions gives its own. */
  lemma {:induction false} WindowOfGroups(
      groups: Grouped, rows: seq<QuotaSnapshot>, reduce: Reducer, w: WindowId, n: nat)
    requires GroupsOf(groups, rows) && KeepsOnly(reduce) && n <= |groups|
    ensures Filter(ReducedGroups(groups[..n], reduce), OfWindow(w))
         == if FindGroup(groups, w) < n then reduce(groups[FindGroup(groups, w)].1) else []
  {
    if n > 0 {
      WindowOfGroups(groups, rows, reduce, w, n - 1);
      WindowOfOneMore(groups, rows, reduce, w, n - 1);
      FoundAt(groups, rows, w, n - 1);
    }
  }

  lemma WindowOfOneMore(groups: Grouped, rows: seq<QuotaSnapshot>, reduce: Reducer, w: WindowId, i: nat)
    requires i < |groups| && groups[i].1 == Filter(rows, OfWindow(groups[i].0)) && KeepsOnly(reduce)
    ensures Filter(ReducedGroups(groups[..i + 1], reduce), OfWindow(w))
         == Filter(ReducedGroups(groups[..i], reduce), OfWindow(w))
            + if groups[i].0 == w then reduce(groups[i].1) else []
  {
    ReduceOneMore(groups, i, reduce);
    FilterAppend(ReducedGroups(groups[..i], reduce), reduce(groups[i].1), OfWindow(w));
    WindowOfGroup(rows, reduce, groups[i].0, w);
  }

  lemma FoundAt(groups: Grouped, rows: seq<QuotaSnapshot>, w: WindowId, i: nat)
    requires GroupsOf(groups, rows) && i < |groups|
    ensures FindGroup(groups, w) == i <==> groups[i].0 == w
  {
  }

  lemma NoRowsNoGroup(groups: Grouped, rows: seq<QuotaSnapshot>, w: WindowId)
    requires GroupsOf(groups, rows) && FindGroup(groups, w) == |groups|
    ensures Filter(rows, OfWindow(w)) == []
  {
    forall r <- rows ensures !OfWindow(w)(r) {
      assert FindGroup(groups, r.window) < |groups|;
    }
    FilterNone(rows, OfWindow(w));
  }

  lemma SubsequenceSorted(some: seq<QuotaSnapshot>, all: seq<QuotaSnapshot>)
    requires Subsequence(some, all) && SortedBy(all, SnapshotTs)
    ensures SortedBy(some, SnapshotTs)
  {
    var at: seq<nat> :| Embeds(some, all, at);
    forall j, k | 0 <= j < k < |some| ensures SnapshotTs(some[j]) <= SnapshotTs(some[k]) {
      assert at[j] < at[k] && all[at[j]] == some[j] && all[at[k]] == some[k];
      assert SnapshotTs(all[at[j]]) <= SnapshotTs(all[at[k]]);
    }
  }

  /** One window of a downsampled history is that window's rows, reduced. */
  lemma WindowOfDownsampled(
      snapshots: seq<QuotaSnapshot>, since: Instant, until: Instant, budget: nat, w: WindowId)
    requires SortedBy(snapshots, SnapshotTs) && budget > 0
    requires NumMilliseconds(until - since) > 0
    ensures Filter(Downsampled(snapshots, since, until, budget), OfWindow(w))
         == Reduced(Filter(snapshots, OfWindow(w)), since, NumMilliseconds(until - since), budget)
  {
    var span := NumMilliseconds(until - since);
    var reduce, groups := ReducerOf(since, span, budget), GroupRows(snapshots);
    var mine := Filter(snapshots, OfWindow(w));
    GroupRowsShape(snapshots);
    ReducerKeepsOnly(since, span, budget);
    assert groups[..|groups|] == groups;
    WindowOfGroups(groups, snapshots, reduce, w, |groups|);
    if FindGroup(groups, w) == |groups| {
      NoRowsNoGroup(groups, snapshots, w);
    }
    assert Filter(ReducedGroups(groups, reduce), OfWindow(w)) == reduce(mine);
    FilterSort(ReducedGroups(groups, reduce), SnapshotTs, OfWindow(w));
    FilterSorted(snapshots, OfWindow(w), SnapshotTs);
    ReducedFitsBudget(mine, since, span, budget);
    SubsequenceSorted(reduce(mine), mine);
    SortOfSorted(reduce(mine), SnapshotTs);
  }

  lemma {:induction false} FilterTwice(rows: seq<QuotaSnapshot>, w: WindowId)
    ensures Filter(Filter(rows, OfWindow(w)), OfWindow(w)) == Filter(rows, OfWindow(w))
  {
    FilterMembers(rows, OfWindow(w));
    FilterAll(Filter(rows, OfWindow(w)), OfWindow(w));
  }

  lemma DownsampledOfOneWindow(mine: seq<QuotaSnapshot>, since: Instant, until: Instant, budget: nat, w: WindowId)
    requires forall r <- mine :: r.window == w
    requires NumMilliseconds(until - since) > 0
    ensures forall r <- Downsampled(mine, since, until, budget) :: r.window == w
  {
    var span := NumMilliseconds(until - since);
    var reduce, groups := ReducerOf(since, span, budget), GroupRows(mine);
    GroupRowsShape(mine);
    ReducerKeepsOnly(since, span, budget);
    ReducedGroupsFrom(groups, mine, reduce, |groups|);
    assert groups[..|groups|] == groups;
    SortMembers(ReducedGroups(groups, reduce), SnapshotTs);
  }

  lemma {:induction false} ReducedGroupsFrom(groups: Grouped, rows: seq<QuotaSnapshot>, reduce: Reducer, n: nat)
    requires GroupsOf(groups, rows) && KeepsOnly(reduce) && n <= |groups|
    ensures forall r <- ReducedGroups(groups[..n], reduce) :: r in rows
  {
    if n > 0 {
      ReducedGroupsFrom(groups, rows, reduce, n - 1);
      ReduceOneMore(groups, n - 1, reduce);
      FilterMembers(rows, OfWindow(groups[n - 1].0));
      assert KeptFrom(reduce(groups[n - 1].1), groups[n - 1].1);
    }
  }

  /** Downsampling commutes with selecting a window, and one window's part of
      any query fits the budget. */
  lemma DownsamplingCommutesWithSelecting(
      snapshots: seq<QuotaSnapshot>, since: Instant, until: Instant, budget: nat, w: WindowId)
    requires SortedBy(snapshots, SnapshotTs) && budget > 0
    ensures Filter(Downsampled(snapshots, since, until, budget), OfWindow(w))
         == Downsampled(Filter(snapshots, OfWindow(w)), since, until, budget)
    ensures NumMilliseconds(until - since) > 0 ==>
      |Filter(Downsampled(snapshots, since, until, budget), OfWindow(w))| <= budget
  {
    var mine := Filter(snapshots, OfWindow(w));
    if NumMilliseconds(until - since) > 0 {
      FilterMembers(snapshots, OfWindow(w));
      FilterSorted(snapshots, OfWindow(w), SnapshotTs);
      WindowOfDownsampled(snapshots, since, until, budget, w);
      WindowOfDownsampled(mine, since, until, budget, w);
      FilterTwice(snapshots, w);
      DownsampledOfOneWindow(mine, since, until, budget, w);
      FilterAll(Downsampled(mine, since, until, budget), OfWindow(w));
      ReducedFitsBudget(mine, since, NumMilliseconds(until - since), budget);
    }
  }

  // ----- how near the kept row is

  /** How far into the span a row lies, in milliseconds; outside it, at its end. */
  function Offset(row: QuotaSnapshot, since: Instant, span: int): int {
    Min(Max(NumMilliseconds(row.ts - since), 0), span)
  }

  /** Bucket `b` is the `b`-th of `budget` equal parts of the span, the last one with
      the span's end. */
  lemma BucketExactly(row: QuotaSnapshot, since: Instant, span: int, budget: nat, b: int)
    requires span > 0 && budget > 0
    ensures var o := Offset(row, since, span);
      && (o < span ==> (BucketOf(since, span, budget)(row) == b <==> b * span <= o * budget < (b + 1) * span))
      && (o == span ==> BucketOf(since, span, budget)(row) == budget - 1)
  {
    var ms := Max(NumMilliseconds(row.ts - since), 0);
    if ms < span {
      WithinTheSpan(ms, span, budget, b);
    } else {
      PastTheSpan(ms, span, budget);
    }
  }

  lemma WithinTheSpan(ms: nat, span: int, budget: nat, b: int)
    requires ms < span && budget > 0
    ensures Min(ms * budget / span, budget - 1) == b <==> b * span <= ms * budget < (b + 1) * span
  {
    PartOf(ms * budget, span, b);
    MulMonotone(ms + 1, span, budget);
    PartOf(ms * budget, span, ms * budget / span);
    BelowParts(ms * budget / span, span, budget, ms * budget);
  }

  lemma PastTheSpan(ms: nat, span: int, budget: nat)
    requires 0 < span <= ms && budget > 0
    ensures Min(ms * budget / span, budget - 1) == budget - 1
  {
    MulMonotone(span, ms, budget);
    DivMonotone(span * budget, ms * budget, span);
    PartOf(span * budget, span, budget);
  }

  lemma PartOf(a: int, d: int, b: int)
    requires d > 0
    ensures a / d == b <==> b * d <= a < (b + 1) * d
  {
    DivBounds(a, d);
    if b * d <= a < (b + 1) * d {
      PositiveFactor(d, a / d + 1 - b);
      PositiveFactor(d, b + 1 - a / d);
    }
  }

  lemma BelowParts(b: int, span: int, budget: int, a: int)
    requires span > 0 && b * span <= a < span * budget
    ensures b < budget
  {
    PositiveFactor(span, budget - b);
  }

  /** Rows of one bucket lie within one budget-th of the span of each other. */
  lemma OneBucketIsNear(
      p: QuotaSnapshot, q: QuotaSnapshot, since: Instant, span: int, budget: nat)
    requires span > 0 && budget > 0
    requires BucketOf(since, span, budget)(p) == BucketOf(since, span, budget)(q)
    ensures var (o, r) := (Offset(p, since, span), Offset(q, since, span));
      -span <= (o - r) * budget <= span && (o < span && r < span ==> -span < (o - r) * budget < span)
  {
    var b := BucketOf(since, span, budget)(p);
    BucketExactly(p, since, span, budget, b);
    BucketExactly(q, since, span, budget, b);
    OffsetsOf(Offset(p, since, span), Offset(q, since, span), span, budget, b);
  }

  lemma OffsetsOf(o: int, r: int, span: int, budget: nat, b: int)
    requires 0 <= o <= span && 0 <= r <= span && span > 0 && budget > 0
    requires if o < span then b * span <= o * budget < (b + 1) * span else b == budget - 1
    requires if r < span then b * span <= r * budget < (b + 1) * span else b == budget - 1
    ensures -span <= (o - r) * budget <= span && (o < span && r < span ==> -span < (o - r) * budget < span)
  {
    assert (b + 1) * span == b * span + span;
    assert (o - r) * budget == o * budget - r * budget;
    assert o == span ==> o * budget == (b + 1) * span;
    assert r == span ==> r * budget == (b + 1) * span;
  }

  /** A row used at least as much, less than one budget-th of the span from `r`. */
  predicate StandsNear(p: QuotaSnapshot, r: QuotaSnapshot, since: Instant, span: int, budget: nat) {
    p.used >= r.used && -span < (Offset(p, since, span) - Offset(r, since, span)) * budget < span
  }

  /** More than one budget-th of the span before `newest`. */
  predicate IsEarlier(r: QuotaSnapshot, newest: QuotaSnapshot, since: Instant, span: int, budget: nat) {
    (Offset(newest, since, span) - Offset(r, since, span)) * budget > span
  }

  lemma EarlierIsElsewhere(r: QuotaSnapshot, newest: QuotaSnapshot, since: Instant, span: int, budget: nat)
    requires span > 0 && budget > 0 && IsEarlier(r, newest, since, span, budget)
    ensures BucketOf(since, span, budget)(r) != BucketOf(since, span, budget)(newest)
  {
    if BucketOf(since, span, budget)(r) == BucketOf(since, span, budget)(newest) {
      OneBucketIsNear(newest, r, since, span, budget);
    }
  }

  lemma EarlierBucketIsNear(p: QuotaSnapshot, r: QuotaSnapshot, since: Instant, span: int, budget: nat)
    requires span > 0 && budget > 0 && p.used >= r.used
    requires BucketOf(since, span, budget)(p) == BucketOf(since, span, budget)(r) < budget - 1
    ensures StandsNear(p, r, since, span, budget)
  {
    BucketExactly(p, since, span, budget, budget - 1);
    BucketExactly(r, since, span, budget, budget - 1);
    OneBucketIsNear(p, r, since, span, budget);
  }

  /** A row in an earlier bucket than the newest one's keeps a row of its bucket. */
  lemma KeptForEarlier(rows: seq<QuotaSnapshot>, bucket: Bucketing, r: QuotaSnapshot) returns (p: QuotaSnapshot)
    requires r in rows && bucket(r) != bucket(rows[|rows| - 1])
    ensures p in Picked(rows, bucket) && bucket(p) == bucket(r) && p.used >= r.used
  {
    var i :| 0 <= i < |rows| && rows[i] == r;
    PickedStandsFor(rows, bucket, i);
    var k :| 0 <= k < |Picked(rows, bucket)| && bucket(Picked(rows, bucket)[k]) == bucket(r)
           && Picked(rows, bucket)[k].used >= r.used;
    p := Picked(rows, bucket)[k];
  }

  lemma EarlierIsBefore(rows: seq<QuotaSnapshot>, bucket: Bucketing, r: QuotaSnapshot, budget: nat)
    requires r in rows && Climbs(rows, bucket) && bucket(r) != bucket(rows[|rows| - 1])
    requires forall q <- rows :: 0 <= bucket(q) < budget
    ensures bucket(r) < budget - 1
  {
    var i :| 0 <= i < |rows| && rows[i] == r;
    assert bucket(rows[i]) <= bucket(rows[|rows| - 1]) && rows[|rows| - 1] in rows;
  }

  /** A row more than one budget-th of the span older than the newest one has a kept
      row near it, used at least as much. */
  lemma PeakNearby(rows: seq<QuotaSnapshot>, since: Instant, span: int, budget: nat, r: QuotaSnapshot)
    returns (p: QuotaSnapshot)
    requires span > 0 && budget > 0 && SortedBy(rows, SnapshotTs) && r in rows
    requires IsEarlier(r, rows[|rows| - 1], since, span, budget)
    ensures p in Reduced(rows, since, span, budget) && StandsNear(p, r, since, span, budget)
  {
    if |rows| <= budget {
      p := r;
    } else {
      var bucket := BucketOf(since, span, budget);
      BucketsClimb(rows, since, span, budget);
      EarlierIsElsewhere(r, rows[|rows| - 1], since, span, budget);
      EarlierIsBefore(rows, bucket, r, budget);
      p := KeptForEarlier(rows, bucket, r);
      EarlierBucketIsNear(p, r, since, span, budget);
    }
  }

  lemma NewestIsKept(rows: seq<QuotaSnapshot>, since: Instant, span: int, budget: nat)
    requires rows != [] && span > 0
    ensures rows[|rows| - 1] in Reduced(rows, since, span, budget)
  {
    var picks := Picked(rows, BucketOf(since, span, budget));
    assert picks[|picks| - 1] == rows[|rows| - 1];
  }

  /** A kept row of `r`'s window near it, used at least as much. */
  ghost predicate HasPeakNear(
      out: seq<QuotaSnapshot>, r: QuotaSnapshot, since: Instant, span: int, budget: nat)
  {
    exists p :: p in out && p.window == r.window && StandsNear(p, r, since, span, budget)
  }

  /** The newest row of each window is kept, and every row more than one budget-th of
      the span before it has a kept row of its window near it, used at least as
      much. */
  lemma HistoryKeepsPeaks(snapshots: seq<QuotaSnapshot>, since: Instant, until: Instant, budget: nat, w: WindowId)
    requires SortedBy(snapshots, SnapshotTs) && budget > 0 && NumMilliseconds(until - since) > 0
    requires Filter(snapshots, OfWindow(w)) != []
    ensures var (mine, out) := (Filter(snapshots, OfWindow(w)), Downsampled(snapshots, since, until, budget));
      var (newest, span) := (mine[|mine| - 1], NumMilliseconds(until - since));
      && newest in out
      && forall r <- mine :: IsEarlier(r, newest, since, span, budget) ==> HasPeakNear(out, r, since, span, budget)
  {
    var span := NumMilliseconds(until - since);
    var (mine, out) := (Filter(snapshots, OfWindow(w)), Downsampled(snapshots, since, until, budget));
    FilterMembers(snapshots, OfWindow(w));
    FilterMembers(out, OfWindow(w));
    FilterSorted(snapshots, OfWindow(w), SnapshotTs);
    WindowOfDownsampled(snapshots, since, until, budget, w);
    NewestIsKept(mine, since, span, budget);
    forall r <- mine | IsEarlier(r, mine[|mine| - 1], since, span, budget)
      ensures HasPeakNear(out, r, since, span, budget)
    {
      var p := PeakNearby(mine, since, span, budget, r);
      assert p in Filter(out, OfWindow(w));
    }
  }

  /** A downsampled history is in order of time and made of rows of the history. */
  lemma HistoryStaysInOrder(snapshots: seq<QuotaSnapshot>, since: Instant, until: Instant, budget: nat)
    requires SortedBy(snapshots, SnapshotTs)
    ensures var out := Downsampled(snapshots, since, until, budget);
      SortedBy(out, SnapshotTs) && forall r <- out :: r in snapshots
  {
    var span := NumMilliseconds(until - since);
    if span > 0 {
      var reduce, groups := ReducerOf(since, span, budget), GroupRows(snapshots);
      GroupRowsShape(snapshots);
      ReducerKeepsOnly(since, span, budget);
      ReducedGroupsFrom(groups, snapshots, reduce, |groups|);
      assert groups[..|groups|] == groups;
      SortSorted(ReducedGroups(groups, reduce), SnapshotTs);
      SortMembers(ReducedGroups(groups, reduce), SnapshotTs);
    }
  }

  /** A window with no more rows than the budget is kept whole; and with no time
      between the ends, everything is. */
  lemma ShortSeriesAreWhole(
      snapshots: seq<QuotaSnapshot>, since: Instant, until: Instant, budget: nat, w: WindowId)
    requires SortedBy(snapshots, SnapshotTs) && budget > 0
    ensures |Filter(snapshots, OfWindow(w))| <= budget ==>
      Filter(Downsampled(snapshots, since, until, budget), OfWindow(w)) == Filter(snapshots, OfWindow(w))
    ensures until - since < 1_000_000 ==> Downsampled(snapshots, since, until, budget) == snapshots
  {
    if NumMilliseconds(until - since) > 0 {
      WindowOfDownsampled(snapshots, since, until, budget, w);
    }
  }
}
