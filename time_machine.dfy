/**
 * The "rolodex" view of the post index: which card is active, how far the
 * active card is being dragged, and the timeline scrubber beside the cards.
 *
 * A post enters this model only through its date: `None` when the post has
 * no (truthy) date, else the millisecond time stamp of that date.
 */
module TimeMachine {
  import opened Wrappers

  /** Scroll tension a release must exceed to move to the neighbouring card. */
  const SnapThreshold: real := 0.25

  const DayMs: int := 1000 * 60 * 60 * 24

  /** A timeline tick marks a post when the post lies strictly within this distance. */
  const NearWindowMs: int := DayMs * 4

  function Min(a: int, b: int): int { if a <= b then a else b }
  function Max(a: int, b: int): int { if a >= b then a else b }
  function RMin(a: real, b: real): real { if a <= b then a else b }
  function RMax(a: real, b: real): real { if a >= b then a else b }
  function RAbs(x: real): real { if x < 0.0 then -x else x }

  /** `Math.max(0, Math.min(count - 1, index + direction))`. */
  function StepIndex(index: int, direction: int, count: nat): int
  {
    Max(0, Min(count - 1, index + direction))
  }

  /** The index a state must keep: a card when there are cards, `-1` or `0` when there are none. */
  predicate IndexInRange(index: int, count: nat)
  {
    if count == 0 then -1 <= index <= 0 else 0 <= index < count
  }

  /** `Math.min(4, Math.floor(count / 3))`: the card shown first. */
  function InitialIndex(count: nat): (r: int)
    ensures 0 <= r <= 4
    ensures count >= 1 ==> r < count
    ensures (r == 4 && count >= 12) || 3 * r <= count < 3 * r + 3
  {
    Min(4, count / 3)
  }

  /**
   * One step from a valid index stays valid, and moves by exactly the step
   * unless it would leave the cards, in which case it stays at the end.
   */
  lemma {:induction false} StepIndexStaysInRange(index: int, direction: int, count: nat)
    requires IndexInRange(index, count)
    requires direction == 1 || direction == -1
    ensures IndexInRange(StepIndex(index, direction, count), count)
    ensures count >= 1 && 0 <= index + direction < count ==> StepIndex(index, direction, count) == index + direction
    ensures count >= 1 && !(0 <= index + direction < count) ==> StepIndex(index, direction, count) == index
  {
  }

  /** The card stack's interactive state. */
  class Rolodex {
    /** `posts.length`. */
    const count: nat
    var activeIndex: int
    /** Tension before a snap, in `[-1, 1]`. */
    var dragProgress: real
    /** `scrollAccumulator.current`: wheel movement not yet folded into `dragProgress`. */
    var scrollAccumulator: real

    ghost predicate Valid()
      reads this
    {
      IndexInRange(activeIndex, count)
      && -1.0 <= dragProgress <= 1.0
      && scrollAccumulator == 0.0
    }

    constructor (postCount: nat)
      ensures Valid()
      ensures count == postCount
      ensures activeIndex == InitialIndex(postCount)
      ensures dragProgress == 0.0
    {
      count := postCount;
      activeIndex := InitialIndex(postCount);
      dragProgress := 0.0;
      scrollAccumulator := 0.0;
    }

    /** `handleRelease`: snap to the neighbour past the threshold; the tension always resets. */
    method Release()
      requires Valid()
      modifies this
      ensures Valid()
      ensures dragProgress == 0.0
      ensures RAbs(old(dragProgress)) > SnapThreshold ==>
        activeIndex == StepIndex(old(activeIndex), if old(dragProgress) > 0.0 then 1 else -1, count)
      ensures RAbs(old(dragProgress)) <= SnapThreshold ==> activeIndex == old(activeIndex)
    {
      if RAbs(dragProgress) > SnapThreshold {
        var direction := if dragProgress > 0.0 then 1 else -1;
        StepIndexStaysInRange(activeIndex, direction, count);
        var newIndex := StepIndex(activeIndex, direction, count);
        activeIndex := newIndex;
      }
      dragProgress := 0.0;
    }

    /** `handleKeyDown`: the arrow keys move one card, saturating at either end. */
    method KeyDown(key: string)
      requires Valid()
      modifies this
      ensures Valid()
      ensures dragProgress == old(dragProgress)
      ensures key == "ArrowUp" || key == "ArrowLeft" ==> activeIndex == Max(0, old(activeIndex) - 1)
      ensures key == "ArrowDown" || key == "ArrowRight" ==> activeIndex == Min(count - 1, old(activeIndex) + 1)
      ensures key !in {"ArrowUp", "ArrowLeft", "ArrowDown", "ArrowRight"} ==> activeIndex == old(activeIndex)
    {
      if key == "ArrowUp" || key == "ArrowLeft" {
        activeIndex := Max(0, activeIndex - 1);
      } else if key == "ArrowDown" || key == "ArrowRight" {
        activeIndex := Min(count - 1, activeIndex + 1);
      }
    }

    /**
     * `handleWheel`, given the wheel movement already scaled to card units:
     * a total past either end snaps to the neighbouring card and clears the
     * tension, anything else becomes the new tension.
     */
    method Wheel(delta: real)
      requires Valid()
      modifies this
      ensures Valid()
      ensures -1.0 <= dragProgress <= 1.0
      ensures RAbs(old(dragProgress) + delta) > 1.0 ==>
        dragProgress == 0.0
        && activeIndex == StepIndex(old(activeIndex), if old(dragProgress) + delta > 0.0 then 1 else -1, count)
      ensures RAbs(old(dragProgress) + delta) <= 1.0 ==>
        dragProgress == old(dragProgress) + delta && activeIndex == old(activeIndex)
    {
      scrollAccumulator := scrollAccumulator + delta;
      var newProgress := dragProgress + scrollAccumulator;
      scrollAccumulator := 0.0;
      if RAbs(newProgress) > 1.0 {
        var direction := if newProgress > 0.0 then 1 else -1;
        StepIndexStaysInRange(activeIndex, direction, count);
        var newIndex := StepIndex(activeIndex, direction, count);
        // the source defers these two updates with a zero-delay timer
        activeIndex := newIndex;
        dragProgress := 0.0;
      } else {
        dragProgress := RMax(-1.0, RMin(1.0, newProgress));
      }
    }

    /** Dragging on the timeline makes the dated post nearest the pointer's time active. */
    method Scrub(dates: seq<Option<int>>, targetTime: real)
      requires Valid()
      requires |dates| == count
      modifies this
      ensures Valid()
      ensures dragProgress == old(dragProgress)
      ensures NearestTo(dates, targetTime, activeIndex)
    {
      var nearestIndex := NearestPost(dates, targetTime);
      activeIndex := nearestIndex;
    }
  }

  // ---------------------------------------------------------------------------
  // Timeline scrubber
  // ---------------------------------------------------------------------------

  function Diff(time: int, target: real): real
  {
    RAbs(time as real - target)
  }

  predicate NoneDated(dates: seq<Option<int>>)
  {
    forall i :: 0 <= i < |dates| ==> dates[i].None?
  }

  /**
   * `k` is what the nearest-post search must return: `0` when no post is
   * dated, else a dated post with the least distance to `target`, and no
   * earlier dated post as close.
   */
  predicate NearestTo(dates: seq<Option<int>>, target: real, k: int)
  {
    if NoneDated(dates) then k == 0
    else
      0 <= k < |dates| && dates[k].Some?
      && (forall j :: 0 <= j < |dates| && dates[j].Some? ==> Diff(dates[k].value, target) <= Diff(dates[j].value, target))
      && (forall j :: 0 <= j < k && dates[j].Some? ==> Diff(dates[k].value, target) < Diff(dates[j].value, target))
  }

  /** The `forEach` search for the post nearest `target`; `None` plays `Infinity`. */
  method NearestPost(dates: seq<Option<int>>, target: real) returns (nearestIndex: nat)
    ensures NearestTo(dates, target, nearestIndex)
    ensures |dates| > 0 ==> nearestIndex < |dates|
  {
    nearestIndex := 0;
    var nearestDiff: Option<real> := None;
    for i := 0 to |dates|
      invariant nearestDiff.None? <==> forall j :: 0 <= j < i ==> dates[j].None?
      invariant nearestDiff.None? ==> nearestIndex == 0
      invariant nearestDiff.Some? ==>
        nearestIndex < i && dates[nearestIndex].Some?
        && nearestDiff.value == Diff(dates[nearestIndex].value, target)
        && (forall j :: 0 <= j < i && dates[j].Some? ==> nearestDiff.value <= Diff(dates[j].value, target))
        && (forall j :: 0 <= j < nearestIndex && dates[j].Some? ==> nearestDiff.value < Diff(dates[j].value, target))
    {
      if dates[i].Some? {
        var diff := Diff(dates[i].value, target);
        if nearestDiff.None? || diff < nearestDiff.value {
          nearestDiff := Some(diff);
          nearestIndex := i;
        }
      }
    }
  }

  // ---------------------------------------------------------------------------
  // Timeline ticks
  // ---------------------------------------------------------------------------

  /** The time stamps of the dated posts, in post order. */
  function DatedTimes(dates: seq<Option<int>>): (r: seq<int>)
    ensures |r| <= |dates|
  {
    if dates == [] then []
    else (if dates[0].Some? then [dates[0].value] else []) + DatedTimes(dates[1..])
  }

  /**
   * `DatedTimes` keeps post order and every dated post: the dated times of a
   * concatenation are those of each part in turn, and one post contributes its
   * time exactly when it is dated.
   */
  lemma {:induction false} DatedTimesAppend(a: seq<Option<int>>, b: seq<Option<int>>)
    ensures DatedTimes(a + b) == DatedTimes(a) + DatedTimes(b)
  {
    if a == [] {
      assert a + b == b;
    } else {
      var c := a + b;
      assert c[0] == a[0] && c[1..] == a[1..] + b;
      DatedTimesAppend(a[1..], b);
      var head := if a[0].Some? then [a[0].value] else [];
      assert head + (DatedTimes(a[1..]) + DatedTimes(b)) == (head + DatedTimes(a[1..])) + DatedTimes(b);
    }
  }

  /** The dated times of one post, and of none. */
  lemma DatedTimesSingle(d: Option<int>)
    ensures DatedTimes([d]) == if d.Some? then [d.value] else []
    ensures DatedTimes([]) == []
  {
    assert [d][1..] == [];
  }

  predicate Ascending(s: seq<int>)
  {
    forall i, j :: 0 <= i < j < |s| ==> s[i] <= s[j]
  }

  /** Insertion for the ascending comparator `a - b`: before the first strictly later time. */
  function InsertAscending(x: int, s: seq<int>): (r: seq<int>)
    requires Ascending(s)
    ensures Ascending(r)
    ensures multiset(r) == multiset(s) + multiset{x}
  {
    if s == [] then [x]
    else if x < s[0] then [x] + s
    else
      var rest := InsertAscending(x, s[1..]);
      AscendingCons(s, x, rest);
      [s[0]] + rest
  }

  /** Putting the head of a sorted run back in front of the insertion into its tail keeps it sorted. */
  lemma AscendingCons(s: seq<int>, x: int, rest: seq<int>)
    requires s != [] && Ascending(s) && s[0] <= x
    requires multiset(rest) == multiset(s[1..]) + multiset{x}
    requires Ascending(rest)
    ensures Ascending([s[0]] + rest)
    ensures multiset([s[0]] + rest) == multiset(s) + multiset{x}
  {
    assert s == [s[0]] + s[1..];
    forall k | 0 <= k < |rest| ensures s[0] <= rest[k] {
      HeadBelowInserted(s, x, rest, k);
    }
    var r := [s[0]] + rest;
    forall i, j | 0 <= i < j < |r| ensures r[i] <= r[j] {
      if i == 0 {
        assert r[j] == rest[j - 1];
      } else {
        assert r[i] == rest[i - 1] && r[j] == rest[j - 1];
      }
    }
  }

  /** Every element of the insertion into the tail of a sorted run is at least the run's head. */
  lemma HeadBelowInserted(s: seq<int>, x: int, rest: seq<int>, k: nat)
    requires s != [] && Ascending(s) && s[0] <= x
    requires multiset(rest) == multiset(s[1..]) + multiset{x}
    requires k < |rest|
    ensures s[0] <= rest[k]
  {
    var v := rest[k];
    assert v in multiset(rest);
    if v != x {
      assert v in multiset(s[1..]);
      assert v in s[1..];
      var m := MemberIndex(s[1..], v);
      assert s[m + 1] == v;
    }
  }

  function SortAscending(s: seq<int>): (r: seq<int>)
    ensures Ascending(r)
    ensures multiset(r) == multiset(s)
  {
    if s == [] then []
    else
      assert s == s[..|s| - 1] + [s[|s| - 1]];
      InsertAscending(s[|s| - 1], SortAscending(s[..|s| - 1]))
  }

  /** The dates of `sortedByDate`: the dated posts' time stamps, oldest first. */
  function SortedByDate(dates: seq<Option<int>>): (r: seq<int>)
    ensures Ascending(r)
    ensures multiset(r) == multiset(DatedTimes(dates))
  {
    SortAscending(DatedTimes(dates))
  }

  /** The oldest post's time, or `now` when no post is dated. */
  function OldestTime(dates: seq<Option<int>>, now: int): int
  {
    var sorted := SortedByDate(dates);
    if sorted == [] then now else sorted[0]
  }

  /** The newest post's time, or `now` when no post is dated. */
  function NewestTime(dates: seq<Option<int>>, now: int): int
  {
    var sorted := SortedByDate(dates);
    if sorted == [] then now else sorted[|sorted| - 1]
  }

  lemma {:induction false} DatedTimesMembers(dates: seq<Option<int>>)
    ensures forall i :: 0 <= i < |dates| && dates[i].Some? ==> dates[i].value in DatedTimes(dates)
    ensures forall t :: t in DatedTimes(dates) ==> exists i :: 0 <= i < |dates| && dates[i] == Some(t)
    ensures DatedTimes(dates) == [] <==> NoneDated(dates)
  {
    if dates != [] {
      DatedTimesMembers(dates[1..]);
      forall t | t in DatedTimes(dates) ensures exists i :: 0 <= i < |dates| && dates[i] == Some(t) {
        if !(dates[0].Some? && t == dates[0].value) {
          assert t in DatedTimes(dates[1..]);
          var i :| 0 <= i < |dates[1..]| && dates[1..][i] == Some(t);
          assert dates[i + 1] == Some(t);
        }
      }
      forall i | 0 <= i < |dates| && dates[i].Some? ensures dates[i].value in DatedTimes(dates) {
        if i > 0 { assert dates[1..][i - 1] == dates[i]; }
      }
      if NoneDated(dates) {
        assert NoneDated(dates[1..]) by {
          forall i | 0 <= i < |dates[1..]| ensures dates[1..][i].None? { assert dates[1..][i] == dates[i + 1]; }
        }
      }
    }
  }

  /**
   * The timeline spans the posts: the oldest and newest times bound every
   * dated post, are themselves post dates when any post is dated, and are in
   * order.
   */
  lemma TimelineBounds(dates: seq<Option<int>>, now: int)
    ensures OldestTime(dates, now) <= NewestTime(dates, now)
    ensures forall i :: 0 <= i < |dates| && dates[i].Some? ==>
      OldestTime(dates, now) <= dates[i].value <= NewestTime(dates, now)
    ensures NoneDated(dates) ==> OldestTime(dates, now) == now == NewestTime(dates, now)
    ensures !NoneDated(dates) ==>
      (exists i :: 0 <= i < |dates| && dates[i] == Some(OldestTime(dates, now)))
      && (exists i :: 0 <= i < |dates| && dates[i] == Some(NewestTime(dates, now)))
  {
    var sorted := SortedByDate(dates);
    SortedEmptyIff(dates);
    forall i | 0 <= i < |dates| && dates[i].Some?
      ensures OldestTime(dates, now) <= dates[i].value <= NewestTime(dates, now)
    {
      DatedWithinBounds(dates, now, i);
    }
    if sorted != [] {
      assert sorted[0] in multiset(sorted);
      SortedIsPostDate(dates, sorted[0]);
      assert sorted[|sorted| - 1] in multiset(sorted);
      SortedIsPostDate(dates, sorted[|sorted| - 1]);
    }
  }

  lemma SortedEmptyIff(dates: seq<Option<int>>)
    ensures SortedByDate(dates) == [] <==> NoneDated(dates)
  {
    var sorted := SortedByDate(dates);
    DatedTimesMembers(dates);
    assert |sorted| == |multiset(sorted)| == |multiset(DatedTimes(dates))| == |DatedTimes(dates)|;
  }

  lemma DatedWithinBounds(dates: seq<Option<int>>, now: int, i: int)
    requires 0 <= i < |dates| && dates[i].Some?
    ensures OldestTime(dates, now) <= dates[i].value <= NewestTime(dates, now)
  {
    DatedTimeListed(dates, i);
    SortedSpans(dates, dates[i].value);
  }

  /** The sorted dated times run from at most to at least each dated time. */
  lemma SortedSpans(dates: seq<Option<int>>, t: int)
    requires t in DatedTimes(dates)
    ensures SortedByDate(dates) != []
    ensures SortedByDate(dates)[0] <= t <= SortedByDate(dates)[|SortedByDate(dates)| - 1]
  {
    var sorted := SortedByDate(dates);
    assert t in multiset(DatedTimes(dates));
    assert t in sorted;
    var k := MemberIndex(sorted, t);
    AscendingBounds(sorted, k);
  }

  lemma AscendingBounds(s: seq<int>, k: nat)
    requires Ascending(s) && k < |s|
    ensures s[0] <= s[k] <= s[|s| - 1]
  {
  }

  /** A dated post's time is among the dated times. */
  lemma {:induction false} DatedTimeListed(dates: seq<Option<int>>, i: nat)
    requires i < |dates| && dates[i].Some?
    ensures dates[i].value in DatedTimes(dates)
  {
    if i > 0 {
      assert dates[1..][i - 1] == dates[i];
      DatedTimeListed(dates[1..], i - 1);
    }
  }

  lemma SortedIsPostDate(dates: seq<Option<int>>, v: int)
    requires v in multiset(SortedByDate(dates))
    ensures exists i :: 0 <= i < |dates| && dates[i] == Some(v)
  {
    DatedTimesMembers(dates);
    assert v in DatedTimes(dates);
  }

  /** `Math.ceil(a / b)` for a positive divisor (Dafny's `/` rounds down for `b > 0`). */
  function CeilDiv(a: int, b: int): (r: int)
    requires b > 0
    ensures (r - 1) * b < a <= r * b
  {
    -((-a) / b)
  }

  /** `totalDays`: the days between the oldest and newest post, rounded up. */
  function TotalDays(dates: seq<Option<int>>, now: int): int
  {
    CeilDiv(NewestTime(dates, now) - OldestTime(dates, now), DayMs)
  }

  /** `tickCount`: one tick per week of the span, clamped to `[10, 40]`. */
  function TickCount(totalDays: int): (r: int)
    ensures 10 <= r <= 40
    ensures CeilDiv(totalDays, 7) <= 10 ==> r == 10
    ensures CeilDiv(totalDays, 7) >= 40 ==> r == 40
    ensures 10 <= CeilDiv(totalDays, 7) <= 40 ==> r == CeilDiv(totalDays, 7)
  {
    Min(Max(CeilDiv(totalDays, 7), 10), 40)
  }

  datatype Tick = Tick(time: real, hasPost: bool, postIndex: int, position: real)

  /** A post is near a tick when dated and strictly within four days of the tick's time. */
  predicate NearTick(date: Option<int>, tickTime: real)
  {
    date.Some? && RAbs(date.value as real - tickTime) < NearWindowMs as real
  }

  /** `posts.findIndex(...)` from `from` on: the first post near `tickTime`, or `-1`. */
  function FirstNearFrom(dates: seq<Option<int>>, tickTime: real, from: nat): (r: int)
    decreases |dates| - from
    ensures r == -1 || from <= r < |dates|
    ensures r == -1 <==> forall j :: from <= j < |dates| ==> !NearTick(dates[j], tickTime)
    ensures r != -1 ==> NearTick(dates[r], tickTime)
    ensures r != -1 ==> forall j :: from <= j < r ==> !NearTick(dates[j], tickTime)
  {
    if from >= |dates| then -1
    else if NearTick(dates[from], tickTime) then from
    else FirstNearFrom(dates, tickTime, from + 1)
  }

  /** The time of tick `i` of `tickCount` ticks spread evenly from `oldest` to `newest`. */
  function TickTime(i: int, tickCount: int, oldest: int, newest: int): real
    requires tickCount > 0
  {
    oldest as real + (i as real / tickCount as real) * ((newest - oldest) as real)
  }

  /** The first tick lies at the oldest time and the last at the newest. */
  lemma TickTimeEnds(tickCount: int, oldest: int, newest: int)
    requires tickCount > 0
    ensures TickTime(0, tickCount, oldest, newest) == oldest as real
    ensures TickTime(tickCount, tickCount, oldest, newest) == newest as real
  {
    assert 0 as real / tickCount as real == 0.0;
    assert tickCount as real / tickCount as real == 1.0;
  }

  /** Tick `i` of the timeline is the one the source builds for that position. */
  predicate IsTick(t: Tick, i: int, tickCount: int, dates: seq<Option<int>>, oldest: int, newest: int)
    requires tickCount > 0
  {
    t.time == TickTime(i, tickCount, oldest, newest)
    && t.postIndex == FirstNearFrom(dates, t.time, 0)
    && t.hasPost == (t.postIndex != -1)
    && t.position == i as real / tickCount as real
  }

  /** Appending the next tick keeps a run of ticks what the tick loop builds. */
  lemma AppendTick(ticks: seq<Tick>, tick: Tick, tickCount: int, dates: seq<Option<int>>, oldest: int, newest: int)
    requires tickCount > 0
    requires forall k :: 0 <= k < |ticks| ==> IsTick(ticks[k], k, tickCount, dates, oldest, newest)
    requires tick.time == TickTime(|ticks|, tickCount, oldest, newest)
    requires tick.postIndex == FirstNearFrom(dates, tick.time, 0)
    requires tick.hasPost == (tick.postIndex != -1)
    requires tick.position == |ticks| as real / tickCount as real
    ensures forall k :: 0 <= k < |ticks| + 1 ==> IsTick((ticks + [tick])[k], k, tickCount, dates, oldest, newest)
  {
    var r := ticks + [tick];
    forall k | 0 <= k < |r| ensures IsTick(r[k], k, tickCount, dates, oldest, newest) {
      if k < |ticks| {
        assert r[k] == ticks[k];
      }
    }
  }

  /** The tick loop: `tickCount + 1` ticks, from the oldest post's time to the newest's. */
  method BuildTicks(dates: seq<Option<int>>, now: int) returns (ticks: seq<Tick>)
    ensures |ticks| == TickCount(TotalDays(dates, now)) + 1
    ensures 11 <= |ticks| <= 41
    ensures forall i :: 0 <= i < |ticks| ==>
      IsTick(ticks[i], i, |ticks| - 1, dates, OldestTime(dates, now), NewestTime(dates, now))
    ensures ticks[0].time == OldestTime(dates, now) as real
    ensures ticks[|ticks| - 1].time == NewestTime(dates, now) as real
    ensures forall i :: 0 <= i < |ticks| ==>
      (ticks[i].hasPost <==> exists j :: 0 <= j < |dates| && NearTick(dates[j], ticks[i].time))
  {
    var oldest := OldestTime(dates, now);
    var newest := NewestTime(dates, now);
    var totalDays := TotalDays(dates, now);
    var tickCount := TickCount(totalDays);
    ticks := [];
    for i := 0 to tickCount + 1
      invariant |ticks| == i
      invariant forall k :: 0 <= k < i ==> IsTick(ticks[k], k, tickCount, dates, oldest, newest)
    {
      var tickTime := TickTime(i, tickCount, oldest, newest);
      var postIndex := FirstNearFrom(dates, tickTime, 0);
      var tick := Tick(tickTime, postIndex != -1, postIndex, i as real / tickCount as real);
      AppendTick(ticks, tick, tickCount, dates, oldest, newest);
      ticks := ticks + [tick];
    }
    TickTimeEnds(tickCount, oldest, newest);
  }
}
