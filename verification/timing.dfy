/**
 The pause/resume engine: the `beforeTask` (Enter) and `afterTask` (Exit)
 hooks of every stats zone, over a natural-number clock reading `now`.

 Entering a zone pauses the zone on top of that zone's stack and starts the
 entered one; exiting stops the exiting zone and restarts the zone below it.
 The invariants proved here are that only the top of a stack is ever timing,
 and that every step hands time from one zone to the next without losing or
 duplicating any: the time banked in totals plus the time the top has been
 running is unchanged by a step (`Charged`).
 */
module Timing {
  import opened Wrappers
  import opened ScopeTree

  /**
   StackMismatch is the console.assert of afterTask: the popped zone is not
   the exiting one. NotAStatsZone is a hook event for a zone without the
   stats hooks, which this model does not run.
   */
  datatype Error = StackMismatch | NotAStatsZone

  /** `z` is a zone carrying the stats hooks (every zone but the root). */
  predicate IsStatsZone(s: State, z: ZoneId) {
    z in s.zones && s.zones[z].hooks.Some?
  }

  /** The stack the hooks of stats zone `z` push onto. */
  function KindOf(s: State, z: ZoneId): StackKind
    requires IsStatsZone(s, z)
  {
    s.zones[z].hooks.value
  }

  function Top(st: seq<ZoneId>): ZoneId
    requires |st| > 0
  {
    st[|st| - 1]
  }

  /** The time zone `z` has been timing at clock `now`; 0 when it is not timing. */
  function Elapsed(s: State, z: ZoneId, now: nat): int
    requires z in s.zones
  {
    if Rec(s, z).startTime > 0 then now - Rec(s, z).startTime else 0
  }

  /** Banks `now - startTime` into the total of `z` and marks it not timing. */
  function StopTimer(s: State, z: ZoneId, now: nat): (r: State)
    requires z in s.zones
    ensures SameShape(s, r) && Rec(r, z).startTime == 0
    ensures Rec(r, z).totalTime == Rec(s, z).totalTime + (now - Rec(s, z).startTime)
    ensures forall y :: y in s.zones && y != z ==> r.zones[y] == s.zones[y]
    ensures r.tagStack == s.tagStack && r.callbackStack == s.callbackStack
  {
    var st := Rec(s, z);
    SetRec(s, z, st.(totalTime := st.totalTime + (now - st.startTime), startTime := 0))
  }

  /** Marks `z` as timing from `now` on. */
  function StartTimer(s: State, z: ZoneId, now: nat): (r: State)
    requires z in s.zones
    ensures SameShape(s, r) && Rec(r, z) == Rec(s, z).(startTime := now)
    ensures forall y :: y in s.zones && y != z ==> r.zones[y] == s.zones[y]
    ensures r.tagStack == s.tagStack && r.callbackStack == s.callbackStack
  {
    SetRec(s, z, Rec(s, z).(startTime := now))
  }

  /** Shape-preserving changes compose. */
  lemma SameShapeTrans(a: State, b: State, c: State)
    requires SameShape(a, b) && SameShape(b, c)
    ensures SameShape(a, c)
  {
  }

  /**
   Well-formedness depends only on the shape of the heap and on which zones
   the stacks hold: a state of the same shape as a valid one, whose stacks
   hold zones bound to them, is valid.
   */
  lemma ShapeKeepsValid(s: State, r: State, k: StackKind, st: seq<ZoneId>)
    requires Valid(s) && SameShape(s, r)
    requires forall i :: 0 <= i < |st| ==> OnStack(s, st[i], k)
    requires Stack(r, k) == st
    requires forall k' :: k' != k ==> Stack(r, k') == Stack(s, k')
    ensures Valid(r)
  {
    forall y | y in r.zones
      ensures y < r.next && Closed(r.zones.Keys, r.zones[y])
    {
      assert Shape(r.zones[y]) == Shape(s.zones[y]);
      assert Closed(s.zones.Keys, s.zones[y]);
    }
    forall t | t in r.tagZones
      ensures r.tagZones[t] in r.zones && r.zones[r.tagZones[t]].stats.count.Some?
    {
      assert Shape(r.zones[s.tagZones[t]]) == Shape(s.zones[s.tagZones[t]]);
    }
    forall i | 0 <= i < |r.tagStack|
      ensures OnStack(r, r.tagStack[i], TagStack)
    {
      var y := r.tagStack[i];
      assert OnStack(s, y, TagStack) by {
        if k == TagStack {
          assert y == st[i];
        } else {
          assert Stack(r, TagStack) == Stack(s, TagStack);
          assert y == s.tagStack[i];
        }
      }
      assert Shape(r.zones[y]) == Shape(s.zones[y]);
    }
    forall i | 0 <= i < |r.callbackStack|
      ensures OnStack(r, r.callbackStack[i], CallbackStack)
    {
      var y := r.callbackStack[i];
      assert OnStack(s, y, CallbackStack) by {
        if k == CallbackStack {
          assert y == st[i];
        } else {
          assert Stack(r, CallbackStack) == Stack(s, CallbackStack);
          assert y == s.callbackStack[i];
        }
      }
      assert Shape(r.zones[y]) == Shape(s.zones[y]);
    }
  }

  /** Pauses the top of `st` if it is timing, as the first half of beforeTask does. */
  function PauseTop(s: State, st: seq<ZoneId>, now: nat): (r: State)
    requires forall i :: 0 <= i < |st| ==> st[i] in s.zones
    ensures SameShape(s, r)
    ensures r.tagStack == s.tagStack && r.callbackStack == s.callbackStack
    ensures |st| > 0 ==>
      && Rec(r, Top(st)).startTime == 0
      && Rec(r, Top(st)).totalTime == Rec(s, Top(st)).totalTime + Elapsed(s, Top(st), now)
      && Rec(r, Top(st)).(startTime := 0, totalTime := 0) == Rec(s, Top(st)).(startTime := 0, totalTime := 0)
    ensures forall y :: y in s.zones && (|st| == 0 || y != Top(st)) ==> r.zones[y] == s.zones[y]
  {
    if |st| > 0 && Rec(s, Top(st)).startTime > 0 then StopTimer(s, Top(st), now) else s
  }

  /** Restarts the top of `st`, if any, as the last part of afterTask does. */
  function ResumeTop(s: State, st: seq<ZoneId>, now: nat): (r: State)
    requires forall i :: 0 <= i < |st| ==> st[i] in s.zones
    ensures SameShape(s, r)
    ensures r.tagStack == s.tagStack && r.callbackStack == s.callbackStack
    ensures |st| > 0 ==> Rec(r, Top(st)) == Rec(s, Top(st)).(startTime := now)
    ensures forall y :: y in s.zones && (|st| == 0 || y != Top(st)) ==> r.zones[y] == s.zones[y]
  {
    if |st| > 0 then StartTimer(s, Top(st), now) else s
  }

  /**
   beforeTask of zone `z` at clock `now`: if its stack is not empty and the
   zone on top is timing, that zone is paused (its elapsed time is banked);
   then `z` starts timing and is pushed.
   */
  function Enter(s: State, z: ZoneId, now: nat): (r: State)
    requires Valid(s) && IsStatsZone(s, z)
    ensures Valid(r) && SameShape(s, r)
    ensures Stack(r, KindOf(s, z)) == Stack(s, KindOf(s, z)) + [z]
    ensures forall k :: k != KindOf(s, z) ==> Stack(r, k) == Stack(s, k)
    ensures Rec(r, z).startTime == now
    ensures var st := Stack(s, KindOf(s, z));
      // the previous top, if it is another zone, is paused with its time banked
      && (|st| > 0 && Top(st) != z ==>
            && Rec(r, Top(st)).startTime == 0
            && Rec(r, Top(st)).totalTime == Rec(s, Top(st)).totalTime + Elapsed(s, Top(st), now))
      // a zone re-entering itself banks its own running time first
      && Rec(r, z).totalTime == Rec(s, z).totalTime + (if |st| > 0 && Top(st) == z then Elapsed(s, z, now) else 0)
      // no other record changes
      && (forall y :: y in s.zones && y != z && (|st| == 0 || y != Top(st)) ==> Rec(r, y) == Rec(s, y))
  {
    var k := KindOf(s, z);
    var st := Stack(s, k);
    assert forall i :: 0 <= i < |st| ==> OnStack(s, st[i], k);
    var paused := PauseTop(s, st, now);
    var started := StartTimer(paused, z, now);
    SameShapeTrans(s, paused, started);
    var r := WithStack(started, k, st + [z]);
    SameShapeTrans(s, started, r);
    PushOnStack(s, st, z, k);
    ShapeKeepsValid(s, r, k, st + [z]);
    r
  }

  /**
   The bookkeeping of afterTask once the popped zone is known to be `z`:
   banks `now - startTime` into the total of `z` and marks it not timing,
   then, if the stack is not empty, restarts the zone now on top.
   */
  function Pop(s: State, z: ZoneId, now: nat): (r: State)
    requires Valid(s) && IsStatsZone(s, z)
    requires |Stack(s, KindOf(s, z))| > 0 && Top(Stack(s, KindOf(s, z))) == z
    ensures Valid(r) && SameShape(s, r)
    ensures var st := Stack(s, KindOf(s, z)); Stack(r, KindOf(s, z)) == st[..|st| - 1]
    ensures forall k :: k != KindOf(s, z) ==> Stack(r, k) == Stack(s, k)
    ensures Rec(r, z).totalTime == Rec(s, z).totalTime + (now - Rec(s, z).startTime)
    // the exiting zone stops timing, unless it is also the one resumed below it
    ensures var st := Stack(s, KindOf(s, z));
      Rec(r, z).startTime == (if |st| > 1 && st[|st| - 2] == z then now else 0)
    // the zone below is resumed from now on
    ensures var st := Stack(s, KindOf(s, z));
      |st| > 1 && st[|st| - 2] != z ==> Rec(r, st[|st| - 2]) == Rec(s, st[|st| - 2]).(startTime := now)
    // no other record changes
    ensures var st := Stack(s, KindOf(s, z));
      forall y :: y in s.zones && y != z && (|st| < 2 || y != st[|st| - 2]) ==> Rec(r, y) == Rec(s, y)
  {
    var k := KindOf(s, z);
    var st := Stack(s, k);
    var rest := st[..|st| - 1];
    assert forall i :: 0 <= i < |st| ==> OnStack(s, st[i], k);
    assert |rest| > 0 ==> Top(rest) == st[|st| - 2];
    var timed := PopRecords(s, z, rest, now);
    var r := WithStack(timed, k, rest);
    SameShapeTrans(s, timed, r);
    DropTopOnStack(s, st, rest, k);
    ShapeKeepsValid(s, r, k, rest);
    r
  }

  /** Pushing a zone with hooks of kind `k` keeps a stack of kind `k` on it. */
  lemma PushOnStack(s: State, st: seq<ZoneId>, z: ZoneId, k: StackKind)
    requires OnStack(s, z, k) && forall i :: 0 <= i < |st| ==> OnStack(s, st[i], k)
    ensures forall i :: 0 <= i < |st + [z]| ==> OnStack(s, (st + [z])[i], k)
  {
  }

  /** What is below the top of a stack of kind `k` is still on it. */
  lemma DropTopOnStack(s: State, st: seq<ZoneId>, rest: seq<ZoneId>, k: StackKind)
    requires |st| > 0 && rest == st[..|st| - 1] && forall i :: 0 <= i < |st| ==> OnStack(s, st[i], k)
    ensures forall i :: 0 <= i < |rest| ==> OnStack(s, rest[i], k)
  {
  }

  /**
   The record changes of `Pop`, with `below` the stack left once `z` is
   popped: `z` banks its running time and stops, then the new top resumes.
   */
  function PopRecords(s: State, z: ZoneId, below: seq<ZoneId>, now: nat): (r: State)
    requires z in s.zones && forall i :: 0 <= i < |below| ==> below[i] in s.zones
    ensures SameShape(s, r) && r.tagStack == s.tagStack && r.callbackStack == s.callbackStack
    ensures Rec(r, z).totalTime == Rec(s, z).totalTime + (now - Rec(s, z).startTime)
    ensures Rec(r, z).startTime == (if |below| > 0 && Top(below) == z then now else 0)
    ensures |below| > 0 && Top(below) != z ==> Rec(r, Top(below)) == Rec(s, Top(below)).(startTime := now)
    ensures forall y :: y in s.zones && y != z && (|below| == 0 || y != Top(below)) ==> Rec(r, y) == Rec(s, y)
  {
    var stopped := StopTimer(s, z, now);
    var r := ResumeTop(stopped, below, now);
    SameShapeTrans(s, stopped, r);
    r
  }

  /**
   afterTask of zone `z` at clock `now`: pops the stack, which must yield
   `z` (a mismatch, or an empty stack, is the StackMismatch error), then
   does the bookkeeping of `Pop`.
   */
  function Exit(s: State, z: ZoneId, now: nat): (r: Result<State, Error>)
    requires Valid(s) && IsStatsZone(s, z)
    ensures var st := Stack(s, KindOf(s, z));
      r.Err? <==> |st| == 0 || Top(st) != z
    ensures r.Ok? ==> r.value == Pop(s, z, now)
  {
    var st := Stack(s, KindOf(s, z));
    if |st| == 0 || Top(st) != z then Err(StackMismatch) else Ok(Pop(s, z, now))
  }

  // ----- Only the top of a stack is timing -----

  /** No zone of stack `k` is timing except the one on top of it. */
  predicate OnlyTopTiming(s: State, k: StackKind) {
    forall y :: y in s.zones && OnStack(s, y, k) && Rec(s, y).startTime > 0 ==>
      |Stack(s, k)| > 0 && Top(Stack(s, k)) == y
  }

  /** The zone on top of stack `k`, if any, is timing. */
  predicate TopTiming(s: State, k: StackKind) {
    |Stack(s, k)| > 0 ==> Top(Stack(s, k)) in s.zones && Rec(s, Top(Stack(s, k))).startTime > 0
  }

  /**
   The timing invariant of a well-formed state: on each stack the zone on
   top, if any, is timing, and no other zone of that stack is.
   */
  predicate TimingInvariant(s: State) {
    && Valid(s)
    && OnlyTopTiming(s, TagStack) && OnlyTopTiming(s, CallbackStack)
    && TopTiming(s, TagStack) && TopTiming(s, CallbackStack)
  }

  lemma InitTimingInvariant()
    ensures TimingInvariant(Init())
  {
  }

  /**
   A change that keeps stack `j`, keeps the hooks and start times of every
   existing zone and adds only zones that are not timing keeps the timing
   invariant of stack `j`.
   */
  lemma TimingFrame(s: State, r: State, j: StackKind)
    requires Valid(s) && OnlyTopTiming(s, j) && TopTiming(s, j)
    requires Stack(r, j) == Stack(s, j) && s.zones.Keys <= r.zones.Keys
    requires forall y :: y in s.zones ==>
      r.zones[y].hooks == s.zones[y].hooks && Rec(r, y).startTime == Rec(s, y).startTime
    requires forall y :: y in r.zones && y !in s.zones ==> Rec(r, y).startTime == 0
    ensures OnlyTopTiming(r, j) && TopTiming(r, j)
  {
    var sj := Stack(s, j);
    if |sj| > 0 {
      assert OnStack(s, sj[|sj| - 1], j);
    }
    forall y | y in r.zones && OnStack(r, y, j) && Rec(r, y).startTime > 0
      ensures |Stack(r, j)| > 0 && Top(Stack(r, j)) == y
    {
      assert y in s.zones;
    }
  }

  /**
   A shape-preserving change that keeps stack `j` and the start times of
   its zones keeps the timing invariant of stack `j`.
   */
  lemma OtherStackFrame(s: State, r: State, j: StackKind)
    requires Valid(s) && OnlyTopTiming(s, j) && TopTiming(s, j)
    requires SameShape(s, r) && Stack(r, j) == Stack(s, j)
    requires forall y :: y in s.zones && OnStack(s, y, j) ==> Rec(r, y).startTime == Rec(s, y).startTime
    ensures OnlyTopTiming(r, j) && TopTiming(r, j)
  {
    var sj := Stack(s, j);
    if |sj| > 0 {
      assert OnStack(s, sj[|sj| - 1], j);
    }
    forall y | y in r.zones && OnStack(r, y, j) && Rec(r, y).startTime > 0
      ensures |Stack(r, j)| > 0 && Top(Stack(r, j)) == y
    {
      assert Shape(r.zones[y]) == Shape(s.zones[y]);
    }
  }

  /** Entering at a positive clock reading leaves only the entered zone timing on its stack. */
  lemma EnterKeepsOwnStack(s: State, z: ZoneId, now: nat)
    requires Valid(s) && IsStatsZone(s, z) && now > 0
    requires OnlyTopTiming(s, KindOf(s, z))
    ensures OnlyTopTiming(Enter(s, z, now), KindOf(s, z)) && TopTiming(Enter(s, z, now), KindOf(s, z))
  {
    var r := Enter(s, z, now);
    var k := KindOf(s, z);
    var st := Stack(s, k);
    forall y | y in r.zones && OnStack(r, y, k) && y != z
      ensures Rec(r, y).startTime == 0
    {
      if |st| == 0 || y != Top(st) {
        assert Rec(r, y) == Rec(s, y);
      }
    }
  }

  /** Entering a zone of one stack leaves the timing of the other stack alone. */
  lemma EnterKeepsOtherStack(s: State, z: ZoneId, now: nat, j: StackKind)
    requires Valid(s) && IsStatsZone(s, z) && j != KindOf(s, z)
    requires OnlyTopTiming(s, j) && TopTiming(s, j)
    ensures OnlyTopTiming(Enter(s, z, now), j) && TopTiming(Enter(s, z, now), j)
  {
    var r := Enter(s, z, now);
    var k := KindOf(s, z);
    var st := Stack(s, k);
    assert |st| > 0 ==> OnStack(s, st[|st| - 1], k);
    forall y | y in s.zones && OnStack(s, y, j)
      ensures Rec(r, y).startTime == Rec(s, y).startTime
    {
      assert y != z && (|st| == 0 || y != Top(st));
    }
    OtherStackFrame(s, r, j);
  }

  /** Entering at a positive clock reading keeps the timing invariant. */
  lemma EnterKeepsTiming(s: State, z: ZoneId, now: nat)
    requires TimingInvariant(s) && IsStatsZone(s, z) && now > 0
    ensures TimingInvariant(Enter(s, z, now))
  {
    EnterKeepsOwnStack(s, z, now);
    if KindOf(s, z) == TagStack {
      EnterKeepsOtherStack(s, z, now, CallbackStack);
    } else {
      EnterKeepsOtherStack(s, z, now, TagStack);
    }
  }

  /** A pop at a positive clock reading leaves only the resumed zone timing on its stack. */
  lemma PopKeepsOwnStack(s: State, z: ZoneId, now: nat)
    requires Valid(s) && IsStatsZone(s, z) && now > 0
    requires |Stack(s, KindOf(s, z))| > 0 && Top(Stack(s, KindOf(s, z))) == z
    requires OnlyTopTiming(s, KindOf(s, z))
    ensures OnlyTopTiming(Pop(s, z, now), KindOf(s, z)) && TopTiming(Pop(s, z, now), KindOf(s, z))
  {
    var r := Pop(s, z, now);
    var k := KindOf(s, z);
    var st := Stack(s, k);
    if |st| > 1 {
      assert OnStack(s, st[|st| - 2], k);
    }
    forall y | y in r.zones && OnStack(r, y, k) && (|st| < 2 || y != st[|st| - 2])
      ensures Rec(r, y).startTime == 0
    {
      if y != z {
        assert Rec(r, y) == Rec(s, y);
      }
    }
  }

  /** Popping a zone of one stack leaves the timing of the other stack alone. */
  lemma PopKeepsOtherStack(s: State, z: ZoneId, now: nat, j: StackKind)
    requires Valid(s) && IsStatsZone(s, z) && j != KindOf(s, z)
    requires |Stack(s, KindOf(s, z))| > 0 && Top(Stack(s, KindOf(s, z))) == z
    requires OnlyTopTiming(s, j) && TopTiming(s, j)
    ensures OnlyTopTiming(Pop(s, z, now), j) && TopTiming(Pop(s, z, now), j)
  {
    var r := Pop(s, z, now);
    var k := KindOf(s, z);
    var st := Stack(s, k);
    assert |st| > 1 ==> OnStack(s, st[|st| - 2], k);
    forall y | y in s.zones && OnStack(s, y, j)
      ensures Rec(r, y).startTime == Rec(s, y).startTime
    {
      assert y != z && (|st| < 2 || y != st[|st| - 2]);
    }
    OtherStackFrame(s, r, j);
  }

  /** A successful exit at a positive clock reading keeps the timing invariant. */
  lemma ExitKeepsTiming(s: State, z: ZoneId, now: nat)
    requires TimingInvariant(s) && IsStatsZone(s, z) && now > 0
    requires Exit(s, z, now).Ok?
    ensures TimingInvariant(Exit(s, z, now).value)
  {
    PopKeepsOwnStack(s, z, now);
    if KindOf(s, z) == TagStack {
      PopKeepsOtherStack(s, z, now, CallbackStack);
    } else {
      PopKeepsOtherStack(s, z, now, TagStack);
    }
  }

  // ----- Conservation of time -----

  /** The sum of the totals of the zones of stack `k` among ids below `n`. */
  function SumTotal(zones: map<ZoneId, Zone>, k: StackKind, n: nat): int
  {
    if n == 0 then 0
    else
      var own := if n - 1 in zones && zones[n - 1].hooks == Some(k) then zones[n - 1].stats.totalTime else 0;
      SumTotal(zones, k, n - 1) + own
  }

  /** The sum of the totals of all zones, of either stack or of none, among ids below `n`. */
  function SumAll(zones: map<ZoneId, Zone>, n: nat): int
  {
    if n == 0 then 0
    else SumAll(zones, n - 1) + (if n - 1 in zones then zones[n - 1].stats.totalTime else 0)
  }

  /** The time banked so far by all zones. */
  function GrandTotal(s: State): int {
    SumAll(s.zones, s.next)
  }

  /**
   When only totals of zones of stack `k` change, the sum over all zones
   changes by as much as the sum over the zones of stack `k`.
   */
  lemma {:induction false} SumAllFollowsStack(zones: map<ZoneId, Zone>, zones': map<ZoneId, Zone>,
                                              k: StackKind, n: nat)
    requires zones'.Keys == zones.Keys
    requires forall y :: y in zones ==> zones'[y].hooks == zones[y].hooks
    requires forall y :: y in zones && zones[y].hooks != Some(k) ==>
      zones'[y].stats.totalTime == zones[y].stats.totalTime
    ensures SumAll(zones', n) - SumAll(zones, n) == SumTotal(zones', k, n) - SumTotal(zones, k, n)
    decreases n
  {
    if n > 0 {
      SumAllFollowsStack(zones, zones', k, n - 1);
    }
  }

  /** The time banked so far by all zones of stack `k`. */
  function TotalTime(s: State, k: StackKind): int {
    SumTotal(s.zones, k, s.next)
  }

  /** The time the top of stack `k` has been running at clock `now`, not yet banked. */
  function Pending(s: State, k: StackKind, now: nat): int
    requires Valid(s)
  {
    var st := Stack(s, k);
    if |st| > 0 then
      assert OnStack(s, st[|st| - 1], k);
      Elapsed(s, Top(st), now)
    else 0
  }

  /** All time charged to stack `k` by clock `now`: banked plus running. */
  function Charged(s: State, k: StackKind, now: nat): int
    requires Valid(s)
  {
    TotalTime(s, k) + Pending(s, k, now)
  }

  /** Changing the record of one zone changes the sum by the change of its total. */
  lemma {:induction false} SumTotalOneRecord(zones: map<ZoneId, Zone>, zones': map<ZoneId, Zone>,
                                             z: ZoneId, k: StackKind, n: nat)
    requires z in zones && zones'.Keys == zones.Keys
    requires forall y :: y in zones && y != z ==> zones'[y] == zones[y]
    requires zones'[z].hooks == zones[z].hooks
    ensures SumTotal(zones', k, n) == SumTotal(zones, k, n) +
      (if z < n && zones[z].hooks == Some(k) then zones'[z].stats.totalTime - zones[z].stats.totalTime else 0)
    decreases n
  {
    if n > 0 {
      SumTotalOneRecord(zones, zones', z, k, n - 1);
    }
  }

  /** Leaving every total of stack `k` alone leaves their sum alone. */
  lemma {:induction false} SumTotalSameTotals(zones: map<ZoneId, Zone>, zones': map<ZoneId, Zone>,
                                              k: StackKind, n: nat)
    requires zones'.Keys == zones.Keys
    requires forall y :: y in zones ==> zones'[y].hooks == zones[y].hooks
    requires forall y :: y in zones && zones[y].hooks == Some(k) ==>
      zones'[y].stats.totalTime == zones[y].stats.totalTime
    ensures SumTotal(zones', k, n) == SumTotal(zones, k, n)
    decreases n
  {
    if n > 0 {
      SumTotalSameTotals(zones, zones', k, n - 1);
    }
  }

  /**
   While stack `k` is not empty, its charge grows exactly with the clock;
   while it is empty, nothing is charged to it.
   */
  lemma ClockAdvances(s: State, k: StackKind, t1: nat, t2: nat)
    requires TimingInvariant(s)
    ensures Charged(s, k, t2) == Charged(s, k, t1) + (if |Stack(s, k)| > 0 then t2 - t1 else 0)
  {
  }

  /** A change to records of other stacks leaves the charge of stack `j` alone. */
  lemma OtherStackUncharged(s: State, r: State, j: StackKind, now: nat)
    requires Valid(s) && Valid(r) && SameShape(s, r) && Stack(r, j) == Stack(s, j)
    requires forall y :: y in s.zones && s.zones[y].hooks == Some(j) ==> Rec(r, y) == Rec(s, y)
    ensures Charged(r, j, now) == Charged(s, j, now)
  {
    var sj := Stack(s, j);
    if |sj| > 0 {
      assert OnStack(s, sj[|sj| - 1], j);
    }
    SumTotalSameTotals(s.zones, r.zones, j, s.next);
  }

  /**
   Entering at a positive clock reading moves the running time of the old
   top into its total and starts the new top from zero, so the time charged
   to every stack is unchanged at that instant.
   */
  lemma EnterConserves(s: State, z: ZoneId, now: nat, j: StackKind)
    requires Valid(s) && IsStatsZone(s, z) && now > 0
    ensures Charged(Enter(s, z, now), j, now) == Charged(s, j, now)
  {
    var r := Enter(s, z, now);
    var k := KindOf(s, z);
    var st := Stack(s, k);
    assert |st| > 0 ==> OnStack(s, st[|st| - 1], k);
    if j == k {
      if |st| > 0 && Top(st) != z {
        var top := Top(st);
        var mid := s.zones[top := r.zones[top]];
        SumTotalOneRecord(s.zones, mid, top, k, s.next);
        SumTotalOneRecord(mid, r.zones, z, k, s.next);
      } else {
        SumTotalOneRecord(s.zones, r.zones, z, k, s.next);
      }
    } else {
      forall y | y in s.zones && s.zones[y].hooks == Some(j)
        ensures Rec(r, y) == Rec(s, y)
      {
        assert y != z && (|st| == 0 || y != Top(st));
      }
      OtherStackUncharged(s, r, j, now);
    }
  }

  /** The own-stack half of `PopConserves`. */
  lemma PopConservesOwnStack(s: State, z: ZoneId, now: nat)
    requires Valid(s) && IsStatsZone(s, z) && now > 0
    requires |Stack(s, KindOf(s, z))| > 0 && Top(Stack(s, KindOf(s, z))) == z
    requires Rec(s, z).startTime > 0
    ensures Charged(Pop(s, z, now), KindOf(s, z), now) == Charged(s, KindOf(s, z), now)
  {
    var r := Pop(s, z, now);
    var k := KindOf(s, z);
    var st := Stack(s, k);
    var d := now - Rec(s, z).startTime;
    assert Pending(s, k, now) == d;
    var rest := Stack(r, k);
    assert rest == st[..|st| - 1];
    if |st| > 1 && st[|st| - 2] != z {
      var below := st[|st| - 2];
      assert OnStack(s, below, k);
      var mid := s.zones[z := r.zones[z]];
      SumTotalOneRecord(s.zones, mid, z, k, s.next);
      SumTotalOneRecord(mid, r.zones, below, k, s.next);
      assert TotalTime(r, k) == TotalTime(s, k) + d;
      TopOfPrefix(st, rest);
      assert Pending(r, k, now) == 0;
    } else {
      SumTotalOneRecord(s.zones, r.zones, z, k, s.next);
      assert TotalTime(r, k) == TotalTime(s, k) + d;
      if |rest| > 0 {
        TopOfPrefix(st, rest);
      }
      assert Pending(r, k, now) == 0;
    }
  }

  /** The top of a stack with its top popped is the element below the old top. */
  lemma TopOfPrefix(st: seq<ZoneId>, rest: seq<ZoneId>)
    requires |st| > 1 && rest == st[..|st| - 1]
    ensures Top(rest) == st[|st| - 2]
  {
  }

  /**
   Popping a timing zone at a positive clock reading moves its running time
   into its total and starts the zone below from zero, so the time charged
   to every stack is unchanged at that instant.
   */
  lemma PopConserves(s: State, z: ZoneId, now: nat, j: StackKind)
    requires Valid(s) && IsStatsZone(s, z) && now > 0
    requires |Stack(s, KindOf(s, z))| > 0 && Top(Stack(s, KindOf(s, z))) == z
    requires Rec(s, z).startTime > 0
    ensures Charged(Pop(s, z, now), j, now) == Charged(s, j, now)
  {
    var k := KindOf(s, z);
    if j == k {
      PopConservesOwnStack(s, z, now);
    } else {
      var r := Pop(s, z, now);
      var st := Stack(s, k);
      assert |st| > 1 ==> OnStack(s, st[|st| - 2], k);
      forall y | y in s.zones && s.zones[y].hooks == Some(j)
        ensures Rec(r, y) == Rec(s, y)
      {
        assert y != z && (|st| < 2 || y != st[|st| - 2]);
      }
      OtherStackUncharged(s, r, j, now);
    }
  }

  /** Every start time is at or before clock reading `clock`. */
  predicate StartedBy(s: State, clock: nat) {
    forall y :: y in s.zones ==> Rec(s, y).startTime <= clock
  }

  /**
   With a clock that never runs backwards, entering never lowers a total
   and every start time stays at or before the clock.
   */
  lemma EnterWithMonotonicClock(s: State, z: ZoneId, clock: nat, now: nat)
    requires Valid(s) && IsStatsZone(s, z) && StartedBy(s, clock) && clock <= now
    ensures StartedBy(Enter(s, z, now), now)
    ensures forall y :: y in s.zones ==> Rec(Enter(s, z, now), y).totalTime >= Rec(s, y).totalTime
  {
    var st := Stack(s, KindOf(s, z));
    assert |st| > 0 ==> OnStack(s, st[|st| - 1], KindOf(s, z));
  }

  /**
   With a clock that never runs backwards, a pop never lowers a total and
   every start time stays at or before the clock.
   */
  lemma PopWithMonotonicClock(s: State, z: ZoneId, clock: nat, now: nat)
    requires Valid(s) && IsStatsZone(s, z) && StartedBy(s, clock) && clock <= now
    requires |Stack(s, KindOf(s, z))| > 0 && Top(Stack(s, KindOf(s, z))) == z
    ensures StartedBy(Pop(s, z, now), now)
    ensures forall y :: y in s.zones ==> Rec(Pop(s, z, now), y).totalTime >= Rec(s, y).totalTime
  {
    var st := Stack(s, KindOf(s, z));
    var r := Pop(s, z, now);
    assert |st| > 1 ==> OnStack(s, st[|st| - 2], KindOf(s, z));
    forall y | y in r.zones
      ensures Rec(r, y).startTime <= now && Rec(r, y).totalTime >= Rec(s, y).totalTime
    {
      if y != z && (|st| < 2 || y != st[|st| - 2]) {
        assert Rec(r, y) == Rec(s, y);
      }
    }
  }
}
