/**
 Runs of hook events: the beforeTask and afterTask calls zone.js makes
 around the tasks bound to stats zones, and the count increment of the
 wrapped createdCallback. A run is replayed event by event; nested tasks
 replay to balanced runs that never hit the stack-mismatch assertion and
 charge their stack exactly the clock time they span.
 */
module Runs {
  import opened Wrappers
  import opened ScopeTree
  import opened Timing
  import opened Registry

  /** One hook event: a task of `zone` starts or ends at a clock reading, or a creation is counted. */
  datatype Event =
    | Entered(zone: ZoneId, at: nat)
    | Exited(zone: ZoneId, at: nat)
    | Counted(tagZone: ZoneId)

  /** `count++` in JavaScript: a missing count is undefined, and undefined + 1 is NaN, kept as None. */
  function Bump(c: Option<nat>, n: nat): (r: Option<nat>)
    ensures c.None? ==> r.None?
    ensures c.Some? ==> r == Some(c.value + n)
  {
    if c.Some? then Some(c.value + n) else None
  }

  /** The wrapped createdCallback's `tagZone.stats.count++`. */
  function Count(s: State, tz: ZoneId): (r: State)
    requires tz in s.zones
    ensures r.zones.Keys == s.zones.Keys && r.next == s.next && r.tagZones == s.tagZones
    ensures Stack(r, TagStack) == Stack(s, TagStack) && Stack(r, CallbackStack) == Stack(s, CallbackStack)
    ensures Rec(r, tz) == Rec(s, tz).(count := Bump(Rec(s, tz).count, 1))
    ensures forall y :: y in s.zones && y != tz ==> r.zones[y] == s.zones[y]
    ensures r.zones[tz].hooks == s.zones[tz].hooks && r.zones[tz].children == s.zones[tz].children
  {
    SetRec(s, tz, Rec(s, tz).(count := Bump(Rec(s, tz).count, 1)))
  }

  lemma CountKeepsValid(s: State, tz: ZoneId)
    requires Valid(s) && tz in s.zones
    ensures Valid(Count(s, tz))
  {
    var r := Count(s, tz);
    assert forall i :: 0 <= i < |s.tagStack| ==> OnStack(s, s.tagStack[i], TagStack);
    assert forall i :: 0 <= i < |s.callbackStack| ==> OnStack(s, s.callbackStack[i], CallbackStack);
    assert forall t :: t in r.tagZones ==> s.tagZones[t] in s.zones;
  }

  /** One event. An exit that does not pop its own zone is the StackMismatch error. */
  function Step(s: State, e: Event): (r: Result<State, Error>)
    requires Valid(s)
    ensures r.Ok? ==> Valid(r.value)
  {
    match e
    case Entered(z, at) => if IsStatsZone(s, z) then Ok(Enter(s, z, at)) else Err(NotAStatsZone)
    case Exited(z, at) => if IsStatsZone(s, z) then Exit(s, z, at) else Err(NotAStatsZone)
    case Counted(tz) =>
      if tz in s.zones then CountKeepsValid(s, tz); Ok(Count(s, tz)) else Err(NotAStatsZone)
  }

  /** The event concerns a zone with stats hooks, or counts for an allocated zone. */
  predicate Known(s: State, e: Event) {
    match e
    case Entered(z, _) => IsStatsZone(s, z)
    case Exited(z, _) => IsStatsZone(s, z)
    case Counted(tz) => tz in s.zones
  }

  /** The event is an exit whose zone is not the top of its stack. */
  predicate Mismatched(s: State, e: Event)
    requires Known(s, e)
  {
    e.Exited? && var st := Stack(s, KindOf(s, e.zone)); |st| == 0 || Top(st) != e.zone
  }

  /**
   A step fails exactly on an event for a zone without stats hooks
   (NotAStatsZone) or on an exit that does not pop its own zone
   (StackMismatch); a count or an enter of a stats zone always succeeds.
   */
  lemma StepFails(s: State, e: Event)
    requires Valid(s)
    ensures Step(s, e) == Err(NotAStatsZone) <==> !Known(s, e)
    ensures Step(s, e) == Err(StackMismatch) <==> Known(s, e) && Mismatched(s, e)
    ensures Step(s, e).Ok? <==> Known(s, e) && !Mismatched(s, e)
  {
  }

  /** No hook event and no count moves a zone to another stack or changes a child cache. */
  lemma StepKeepsScopes(s: State, e: Event)
    requires Valid(s) && ScopesOnCallbackStack(s) && Step(s, e).Ok?
    ensures ScopesOnCallbackStack(Step(s, e).value)
  {
    var r := Step(s, e).value;
    if !e.Counted? {
      forall y | y in s.zones ensures r.zones[y].hooks == s.zones[y].hooks && r.zones[y].children == s.zones[y].children {
        assert Shape(r.zones[y]) == Shape(s.zones[y]);
      }
    }
    StructureKeepsScopes(s, r);
  }

  /** A count changes only the count of one record, so every parent still exposes its cached children. */
  lemma CountKeepsAliased(s: State, tz: ZoneId)
    requires Valid(s) && tz in s.zones && Aliased(s)
    ensures Aliased(Count(s, tz))
  {
    var r := Count(s, tz);
    forall y | y in r.zones ensures ZoneAliased(r.zones[y]) {
      assert ZoneAliased(s.zones[y]);
    }
  }

  /** No hook event and no count breaks the aliasing of exposed records and child caches. */
  lemma StepKeepsAliased(s: State, e: Event)
    requires Valid(s) && Aliased(s) && Step(s, e).Ok?
    ensures Aliased(Step(s, e).value)
  {
    match e
    case Entered(z, at) => SameShapeKeepsAliased(s, Step(s, e).value);
    case Exited(z, at) => SameShapeKeepsAliased(s, Step(s, e).value);
    case Counted(tz) => CountKeepsAliased(s, tz);
  }

  /** Replays a run of events, stopping at the first error. */
  function Replay(s: State, evs: seq<Event>): (r: Result<State, Error>)
    requires Valid(s)
    ensures r.Ok? ==> Valid(r.value)
    decreases |evs|
  {
    if evs == [] then Ok(s)
    else
      match Step(s, evs[0])
      case Err(e) => Err(e)
      case Ok(s1) => Replay(s1, evs[1..])
  }

  /** Replaying two runs back to back is replaying the second from where the first left off. */
  lemma {:induction false} ReplayAppend(s: State, a: seq<Event>, b: seq<Event>)
    requires Valid(s)
    ensures Replay(s, a + b) ==
      match Replay(s, a)
      case Err(e) => Err(e)
      case Ok(s1) => Replay(s1, b)
    decreases |a|
  {
    if a == [] {
      assert a + b == b;
    } else {
      assert (a + b)[0] == a[0];
      assert (a + b)[1..] == a[1..] + b;
      match Step(s, a[0])
      case Err(e) =>
      case Ok(s1) => ReplayAppend(s1, a[1..], b);
    }
  }

  /** A run of one event is that event's step. */
  lemma ReplayOne(s: State, e: Event)
    requires Valid(s)
    ensures Replay(s, [e]) == Step(s, e)
  {
    assert [e][1..] == [];
  }

  /** A whole run that replays cleanly keeps the aliasing, so the stats stay readable after callbacks run. */
  lemma {:induction false} ReplayKeepsAliased(s: State, evs: seq<Event>)
    requires Valid(s) && Aliased(s) && Replay(s, evs).Ok?
    ensures Aliased(Replay(s, evs).value)
    decreases |evs|
  {
    if evs != [] {
      var s1 := Step(s, evs[0]).value;
      StepKeepsAliased(s, evs[0]);
      ReplayKeepsAliased(s1, evs[1..]);
    }
  }

  // ----- Counting creations -----

  /** The number of creations counted for `tz` in a run. */
  function CountsIn(evs: seq<Event>, tz: ZoneId): nat
    decreases |evs|
  {
    if evs == [] then 0
    else (if evs[0] == Counted(tz) then 1 else 0) + CountsIn(evs[1..], tz)
  }

  /** A replayed run adds to the count of every zone exactly the creations counted for it. */
  lemma {:induction false} ReplayCounts(s: State, evs: seq<Event>, tz: ZoneId)
    requires Valid(s) && tz in s.zones && Replay(s, evs).Ok?
    ensures tz in Replay(s, evs).value.zones
    ensures Rec(Replay(s, evs).value, tz).count == Bump(Rec(s, tz).count, CountsIn(evs, tz))
    decreases |evs|
  {
    if evs != [] {
      var s1 := Step(s, evs[0]).value;
      assert Replay(s, evs) == Replay(s1, evs[1..]);
      StepCounts(s, evs[0], tz);
      ReplayCounts(s1, evs[1..], tz);
      BumpCompose(Rec(s, tz).count, Rec(s1, tz).count, Rec(Replay(s1, evs[1..]).value, tz).count,
                  if evs[0] == Counted(tz) then 1 else 0, CountsIn(evs[1..], tz), CountsIn(evs, tz));
    } else {
      assert Replay(s, evs) == Ok(s);
      BumpTwice(Rec(s, tz).count, 0, 0);
    }
  }

  /** Two bumps in a row are one bump by their sum. */
  lemma BumpCompose(c0: Option<nat>, c1: Option<nat>, c2: Option<nat>, d: nat, n: nat, total: nat)
    requires c1 == Bump(c0, d) && c2 == Bump(c1, n) && total == d + n
    ensures c2 == Bump(c0, total)
  {
  }

  lemma BumpTwice(c: Option<nat>, a: nat, b: nat)
    ensures Bump(Bump(c, a), b) == Bump(c, a + b) && Bump(c, 0) == c
  {
  }

  /** One event changes a count only by a counted creation, and allocates nothing. */
  lemma StepCounts(s: State, e: Event, tz: ZoneId)
    requires Valid(s) && tz in s.zones && Step(s, e).Ok?
    ensures Step(s, e).value.zones.Keys == s.zones.Keys
    ensures Rec(Step(s, e).value, tz).count == Bump(Rec(s, tz).count, if e == Counted(tz) then 1 else 0)
  {
    var r := Step(s, e).value;
    match e
    case Entered(z, at) =>
      assert Shape(r.zones[tz]) == Shape(s.zones[tz]);
    case Exited(z, at) =>
      assert Shape(r.zones[tz]) == Shape(s.zones[tz]);
    case Counted(c) =>
  }

  // ----- Nested tasks -----

  /**
   A task bound to a stats zone: it starts at clock `enter`, optionally
   counts a creation for a tag zone (the wrapped createdCallback), runs the
   nested tasks `inner` one after another, and ends at clock `exit`.
   */
  datatype Task = Task(zone: ZoneId, enter: nat, counted: Option<ZoneId>, inner: seq<Task>, exit: nat)

  /**
   The hook events zone.js issues for a task: beforeTask of its zone first,
   afterTask of its zone last, and in between its own count and the events
   of its nested tasks.
   */
  function Events(t: Task): (evs: seq<Event>)
    ensures |evs| >= 2 && evs[0] == Entered(t.zone, t.enter) && evs[|evs| - 1] == Exited(t.zone, t.exit)
    decreases t
  {
    Prologue(t) + EventsOf(t.inner) + [Exited(t.zone, t.exit)]
  }

  /** The events of a task before its nested tasks run. */
  function Prologue(t: Task): seq<Event> {
    if t.counted.Some? then [Entered(t.zone, t.enter), Counted(t.counted.value)] else [Entered(t.zone, t.enter)]
  }

  /** The hook events of tasks run one after another. */
  function EventsOf(ts: seq<Task>): seq<Event>
    decreases ts
  {
    if ts == [] then [] else Events(ts[0]) + EventsOf(ts[1..])
  }

  /**
   Every task of the tree is bound to a stats zone of stack `k`, reads the
   clock at positive values and counts only allocated zones.
   */
  predicate TaskOn(s: State, t: Task, k: StackKind)
    decreases t
  {
    && OnStack(s, t.zone, k) && t.enter > 0 && t.exit > 0
    && (t.counted.Some? ==> t.counted.value in s.zones)
    && TasksOn(s, t.inner, k)
  }

  predicate TasksOn(s: State, ts: seq<Task>, k: StackKind)
    decreases ts
  {
    forall i :: 0 <= i < |ts| ==> TaskOn(s, ts[i], k)
  }

  /** The clock reading at which tasks run after `from` end. */
  function EndOf(ts: seq<Task>, from: nat): nat {
    if ts == [] then from else ts[|ts| - 1].exit
  }

  /** Splitting off the first task: the rest run from its end and end where all of them end. */
  lemma EndOfTail(ts: seq<Task>, from: nat)
    requires ts != []
    ensures EndOf(ts[1..], ts[0].exit) == EndOf(ts, from)
  {
  }

  /** The same zones with the same hooks. */
  predicate SameHooks(s: State, r: State) {
    && r.zones.Keys == s.zones.Keys
    && forall y :: y in s.zones ==> r.zones[y].hooks == s.zones[y].hooks
  }

  /** `r` is a state a balanced run from `s` can end in: invariant kept, stacks restored. */
  predicate Restored(s: State, r: State) {
    && TimingInvariant(r) && SameHooks(s, r)
    && Stack(r, TagStack) == Stack(s, TagStack) && Stack(r, CallbackStack) == Stack(s, CallbackStack)
  }

  lemma {:induction false} TaskOnTransfer(s: State, r: State, t: Task, k: StackKind)
    requires SameHooks(s, r) && TaskOn(s, t, k)
    ensures TaskOn(r, t, k)
    decreases t
  {
    TasksOnTransfer(s, r, t.inner, k);
  }

  lemma {:induction false} TasksOnTransfer(s: State, r: State, ts: seq<Task>, k: StackKind)
    requires SameHooks(s, r) && TasksOn(s, ts, k)
    ensures TasksOn(r, ts, k)
    decreases ts
  {
    forall i | 0 <= i < |ts| ensures TaskOn(r, ts[i], k) {
      TaskOnTransfer(s, r, ts[i], k);
    }
  }

  /** Counting a creation keeps the timing invariant. */
  lemma CountKeepsTiming(s: State, tz: ZoneId)
    requires TimingInvariant(s) && tz in s.zones
    ensures TimingInvariant(Count(s, tz)) && SameHooks(s, Count(s, tz))
  {
    var r := Count(s, tz);
    CountKeepsValid(s, tz);
    TimingFrame(s, r, TagStack);
    TimingFrame(s, r, CallbackStack);
  }

  /** The state once a task has entered its zone and counted its creation. */
  function Opened(s: State, t: Task): (r: State)
    requires Valid(s) && IsStatsZone(s, t.zone) && (t.counted.Some? ==> t.counted.value in s.zones)
    ensures Valid(r)
  {
    var s1 := Enter(s, t.zone, t.enter);
    if t.counted.Some? then CountKeepsValid(s1, t.counted.value); Count(s1, t.counted.value) else s1
  }

  /** The prologue of a task replays to the opened state. */
  lemma OpenedReplays(s: State, t: Task)
    requires Valid(s) && IsStatsZone(s, t.zone) && (t.counted.Some? ==> t.counted.value in s.zones)
    ensures Replay(s, Prologue(t)) == Ok(Opened(s, t))
  {
    if t.counted.Some? {
      PrologueCounted(s, t.zone, t.enter, t.counted.value);
    } else {
      ReplayOne(s, Entered(t.zone, t.enter));
    }
  }

  lemma PrologueCounted(s: State, z: ZoneId, at: nat, tz: ZoneId)
    requires Valid(s) && IsStatsZone(s, z) && tz in s.zones
    ensures Replay(s, [Entered(z, at), Counted(tz)]) == Ok(Count(Enter(s, z, at), tz))
  {
    var s1 := Enter(s, z, at);
    assert Step(s, Entered(z, at)) == Ok(s1);
    assert SameShape(s, s1);
    StepCounted(s1, tz);
    ReplayTwo(s, Entered(z, at), Counted(tz), s1, Count(s1, tz));
  }

  /** Counting a creation for an allocated zone is a successful step. */
  lemma StepCounted(s: State, tz: ZoneId)
    requires Valid(s) && tz in s.zones
    ensures Step(s, Counted(tz)) == Ok(Count(s, tz))
  {
  }

  /** A run of two events that both succeed ends where the second step does. */
  lemma ReplayTwo(s: State, e1: Event, e2: Event, s1: State, s2: State)
    requires Valid(s) && Step(s, e1) == Ok(s1) && Valid(s1) && Step(s1, e2) == Ok(s2)
    ensures Replay(s, [e1, e2]) == Ok(s2)
  {
    ReplayCons(s, [e1, e2], s1);
    assert [e1, e2][1..] == [e2];
    ReplayCons(s1, [e2], s2);
    assert [e2][1..] == [];
  }

  /** Entering keeps the zones and their hooks. */
  lemma EnterSameHooks(s: State, z: ZoneId, now: nat)
    requires Valid(s) && IsStatsZone(s, z)
    ensures SameHooks(s, Enter(s, z, now))
  {
    var s1 := Enter(s, z, now);
    forall y | y in s.zones ensures s1.zones[y].hooks == s.zones[y].hooks {
      assert Shape(s1.zones[y]) == Shape(s.zones[y]);
    }
  }

  /** After its prologue the timing invariant holds and the zones and hooks are the same. */
  lemma OpenedTiming(s: State, t: Task)
    requires TimingInvariant(s) && IsStatsZone(s, t.zone) && t.enter > 0
    requires t.counted.Some? ==> t.counted.value in s.zones
    ensures TimingInvariant(Opened(s, t)) && SameHooks(s, Opened(s, t))
  {
    var s1 := Enter(s, t.zone, t.enter);
    EnterKeepsTiming(s, t.zone, t.enter);
    EnterSameHooks(s, t.zone, t.enter);
    if t.counted.Some? {
      CountKeepsTiming(s1, t.counted.value);
      SameHooksTrans(s, s1, Count(s1, t.counted.value));
    }
  }

  /** The prologue pushes the task's zone on its own stack and leaves the other alone. */
  lemma OpenedStacks(s: State, t: Task, k: StackKind)
    requires Valid(s) && OnStack(s, t.zone, k)
    requires t.counted.Some? ==> t.counted.value in s.zones
    ensures Stack(Opened(s, t), k) == Stack(s, k) + [t.zone]
    ensures forall j :: j != k ==> Stack(Opened(s, t), j) == Stack(s, j)
  {
  }

  /** The prologue charges nothing at its instant. */
  lemma OpenedCharged(s: State, t: Task, k: StackKind)
    requires TimingInvariant(s) && OnStack(s, t.zone, k) && t.enter > 0
    requires t.counted.Some? ==> t.counted.value in s.zones
    ensures Charged(Opened(s, t), k, t.enter) == Charged(s, k, t.enter)
  {
    var s1 := Enter(s, t.zone, t.enter);
    EnterConserves(s, t.zone, t.enter, k);
    if t.counted.Some? {
      CountCharged(s1, t.counted.value, k, t.enter);
    }
  }

  lemma CountCharged(s: State, tz: ZoneId, k: StackKind, now: nat)
    requires Valid(s) && tz in s.zones
    ensures Valid(Count(s, tz)) && Charged(Count(s, tz), k, now) == Charged(s, k, now)
  {
    var r := Count(s, tz);
    CountKeepsValid(s, tz);
    SumTotalSameTotals(s.zones, r.zones, k, s.next);
    var st := Stack(s, k);
    if |st| > 0 {
      assert OnStack(s, st[|st| - 1], k) by {
        if k == TagStack {} else {}
      }
    }
  }

  /** The last event of a task pops its zone and charges nothing at its instant. */
  lemma ClosedFacts(s: State, z: ZoneId, k: StackKind, base: seq<ZoneId>, now: nat)
    requires TimingInvariant(s) && OnStack(s, z, k) && now > 0 && Stack(s, k) == base + [z]
    ensures Replay(s, [Exited(z, now)]).Ok?
    ensures var r := Replay(s, [Exited(z, now)]).value;
      && TimingInvariant(r) && SameHooks(s, r)
      && Stack(r, k) == base
      && (forall j :: j != k ==> Stack(r, j) == Stack(s, j))
      && Charged(r, k, now) == Charged(s, k, now)
  {
    var st := Stack(s, k);
    assert Top(st) == z;
    var r := Pop(s, z, now);
    assert Exit(s, z, now) == Ok(r);
    ReplayOne(s, Exited(z, now));
    ExitKeepsTiming(s, z, now);
    PopConserves(s, z, now, k);
    assert st[..|st| - 1] == base;
    assert SameHooks(s, r) by {
      forall y | y in s.zones ensures r.zones[y].hooks == s.zones[y].hooks {
        assert Shape(r.zones[y]) == Shape(s.zones[y]);
      }
    }
  }

  lemma SameHooksTrans(a: State, b: State, c: State)
    requires SameHooks(a, b) && SameHooks(b, c)
    ensures SameHooks(a, c)
  {
  }

  /**
   `r` allocates nothing and keeps the times of every zone that is not on
   stack `k`, the root among them.
   */
  predicate OthersUntouched(s: State, r: State, k: StackKind) {
    && r.next == s.next
    && forall y :: y in s.zones && s.zones[y].hooks != Some(k) ==>
         y in r.zones && Rec(r, y).totalTime == Rec(s, y).totalTime && Rec(r, y).startTime == Rec(s, y).startTime
  }

  lemma UntouchedTrans(a: State, b: State, c: State, k: StackKind)
    requires SameHooks(a, b) && OthersUntouched(a, b, k) && OthersUntouched(b, c, k)
    ensures OthersUntouched(a, c, k)
  {
  }

  /** A task's prologue touches only zones of its own stack. */
  lemma OpenedUntouched(s: State, t: Task, k: StackKind)
    requires Valid(s) && OnStack(s, t.zone, k)
    requires t.counted.Some? ==> t.counted.value in s.zones
    ensures OthersUntouched(s, Opened(s, t), k)
  {
    var s1 := Enter(s, t.zone, t.enter);
    var st := Stack(s, k);
    assert |st| > 0 ==> OnStack(s, st[|st| - 1], k);
    forall y | y in s.zones && s.zones[y].hooks != Some(k)
      ensures Rec(s1, y) == Rec(s, y)
    {
      assert y != t.zone && (|st| == 0 || y != Top(st));
    }
  }

  /** A task's last event touches only zones of its own stack. */
  lemma ClosedUntouched(s: State, z: ZoneId, k: StackKind, now: nat)
    requires Valid(s) && OnStack(s, z, k) && |Stack(s, k)| > 0 && Top(Stack(s, k)) == z
    ensures Replay(s, [Exited(z, now)]).Ok?
    ensures OthersUntouched(s, Replay(s, [Exited(z, now)]).value, k)
  {
    var r := Pop(s, z, now);
    assert Exit(s, z, now) == Ok(r);
    ReplayOne(s, Exited(z, now));
    var st := Stack(s, k);
    assert |st| > 1 ==> OnStack(s, st[|st| - 2], k);
    forall y | y in s.zones && s.zones[y].hooks != Some(k)
      ensures Rec(r, y) == Rec(s, y)
    {
      assert y != z && (|st| < 2 || y != st[|st| - 2]);
    }
  }

  /**
   A task replays without a stack mismatch, restores both stacks and the
   timing invariant, and charges its stack exactly the clock time it spans.
   */
  lemma {:induction false} TaskRun(s: State, t: Task, k: StackKind)
    requires TimingInvariant(s) && TaskOn(s, t, k)
    ensures Replay(s, Events(t)).Ok?
    ensures Restored(s, Replay(s, Events(t)).value)
    ensures Charged(Replay(s, Events(t)).value, k, t.exit) == Charged(s, k, t.enter) + (t.exit - t.enter)
    decreases t, 1
  {
    OpenedReplays(s, t);
    OpenedTiming(s, t);
    OpenedStacks(s, t, k);
    OpenedCharged(s, t, k);
    var s2 := Opened(s, t);
    TasksOnTransfer(s, s2, t.inner, k);
    TasksRun(s2, t.inner, k, t.enter);
    var s3 := Replay(s2, EventsOf(t.inner)).value;
    var end := EndOf(t.inner, t.enter);
    ClockAdvances(s3, k, end, t.exit);
    assert Stack(s3, k) == Stack(s, k) + [t.zone];
    assert OnStack(s3, t.zone, k);
    ClosedFacts(s3, t.zone, k, Stack(s, k), t.exit);
    var ex := [Exited(t.zone, t.exit)];
    var s4 := Replay(s3, ex).value;
    ReplayAppend(s, Prologue(t), EventsOf(t.inner));
    ReplayAppend(s, Prologue(t) + EventsOf(t.inner), ex);
    TaskFrames(s, s2, s3, s4, k);
  }

  /** The stack bookkeeping of TaskRun: the prologue, the nested tasks and the exit, composed. */
  lemma TaskFrames(s: State, s2: State, s3: State, s4: State, k: StackKind)
    requires SameHooks(s, s2) && SameHooks(s2, s3) && SameHooks(s3, s4)
    requires forall j :: j != k ==> Stack(s2, j) == Stack(s, j)
    requires Stack(s3, TagStack) == Stack(s2, TagStack) && Stack(s3, CallbackStack) == Stack(s2, CallbackStack)
    requires forall j :: j != k ==> Stack(s4, j) == Stack(s3, j)
    ensures SameHooks(s, s4)
    ensures forall j :: j != k ==> Stack(s4, j) == Stack(s, j)
  {
    forall j | j != k ensures Stack(s4, j) == Stack(s, j) {
      assert Stack(s3, j) == Stack(s2, j) by { if j == TagStack {} else {} }
    }
  }

  /**
   Tasks run one after another inside an open task replay without a
   mismatch, restore both stacks and charge their stack the clock time from
   `from` to the end of the last one (the gaps are charged to the enclosing
   task).
   */
  lemma {:induction false} TasksRun(s: State, ts: seq<Task>, k: StackKind, from: nat)
    requires TimingInvariant(s) && |Stack(s, k)| > 0 && TasksOn(s, ts, k)
    ensures Replay(s, EventsOf(ts)).Ok?
    ensures Restored(s, Replay(s, EventsOf(ts)).value)
    ensures Charged(Replay(s, EventsOf(ts)).value, k, EndOf(ts, from))
         == Charged(s, k, from) + (EndOf(ts, from) - from)
    decreases ts, 1
  {
    if ts == [] {
      assert EventsOf(ts) == [];
    } else {
      TasksRunCons(s, ts, k, from);
    }
  }

  /** The step of TasksRun that runs the first task and then the rest. */
  lemma {:induction false} TasksRunCons(s: State, ts: seq<Task>, k: StackKind, from: nat)
    requires TimingInvariant(s) && |Stack(s, k)| > 0 && TasksOn(s, ts, k) && ts != []
    ensures Replay(s, EventsOf(ts)).Ok?
    ensures Restored(s, Replay(s, EventsOf(ts)).value)
    ensures Charged(Replay(s, EventsOf(ts)).value, k, EndOf(ts, from))
         == Charged(s, k, from) + (EndOf(ts, from) - from)
    decreases ts, 0
  {
    var t := ts[0];
    assert TaskOn(s, t, k);
    ClockAdvances(s, k, from, t.enter);
    TaskRun(s, t, k);
    var s1 := Replay(s, Events(t)).value;
    TasksOnTransfer(s, s1, ts[1..], k) by {
      assert TasksOn(s, ts[1..], k) by {
        forall i | 0 <= i < |ts[1..]| ensures TaskOn(s, ts[1..][i], k) {
          assert ts[1..][i] == ts[i + 1];
        }
      }
    }
    TasksRun(s1, ts[1..], k, t.exit);
    ReplayAppend(s, Events(t), EventsOf(ts[1..]));
    EndOfTail(ts, from);
    SameHooksTrans(s, s1, Replay(s1, EventsOf(ts[1..])).value);
  }

  /** The event concerns a zone of stack `k`, or is a count. */
  predicate EventOn(s: State, e: Event, k: StackKind) {
    match e
    case Entered(z, _) => OnStack(s, z, k)
    case Exited(z, _) => OnStack(s, z, k)
    case Counted(_) => true
  }

  predicate EventsOn(s: State, evs: seq<Event>, k: StackKind) {
    forall i :: 0 <= i < |evs| ==> EventOn(s, evs[i], k)
  }

  /** One event of stack `k` touches no zone off that stack. */
  lemma StepUntouched(s: State, e: Event, k: StackKind)
    requires Valid(s) && EventOn(s, e, k) && Step(s, e).Ok?
    ensures OthersUntouched(s, Step(s, e).value, k) && SameHooks(s, Step(s, e).value)
  {
    var r := Step(s, e).value;
    match e
    case Entered(z, at) =>
      var t := Task(z, at, None, [], at);
      assert Opened(s, t) == r;
      OpenedUntouched(s, t, k);
      EnterSameHooks(s, z, at);
    case Exited(z, at) =>
      ReplayOne(s, e);
      ClosedUntouched(s, z, k, at);
      assert SameShape(s, r);
      forall y | y in s.zones ensures r.zones[y].hooks == s.zones[y].hooks {
        assert Shape(r.zones[y]) == Shape(s.zones[y]);
      }
    case Counted(tz) =>
  }

  /** A run of events of stack `k` touches no zone off that stack. */
  lemma {:induction false} ReplayUntouched(s: State, evs: seq<Event>, k: StackKind)
    requires Valid(s) && EventsOn(s, evs, k) && Replay(s, evs).Ok?
    ensures OthersUntouched(s, Replay(s, evs).value, k) && SameHooks(s, Replay(s, evs).value)
    decreases |evs|
  {
    if evs == [] {
      assert Replay(s, evs) == Ok(s);
    } else {
      assert EventOn(s, evs[0], k);
      var s1 := Step(s, evs[0]).value;
      ReplayCons(s, evs, s1);
      StepUntouched(s, evs[0], k);
      forall i | 0 <= i < |evs[1..]| ensures EventOn(s1, evs[1..][i], k) {
        assert EventOn(s, evs[i + 1], k);
      }
      ReplayUntouched(s1, evs[1..], k);
      UntouchedTrans(s, s1, Replay(s1, evs[1..]).value, k);
      SameHooksTrans(s, s1, Replay(s1, evs[1..]).value);
    }
  }

  lemma EventsOnAppend(s: State, a: seq<Event>, b: seq<Event>, k: StackKind)
    requires EventsOn(s, a, k) && EventsOn(s, b, k)
    ensures EventsOn(s, a + b, k)
  {
    forall i | 0 <= i < |a + b| ensures EventOn(s, (a + b)[i], k) {
      if i < |a| { assert (a + b)[i] == a[i]; } else { assert (a + b)[i] == b[i - |a|]; }
    }
  }

  /** Every event of a task tree on stack `k` concerns a zone of stack `k`. */
  lemma {:induction false} TaskEventsOn(s: State, t: Task, k: StackKind)
    requires TaskOn(s, t, k)
    ensures EventsOn(s, Events(t), k)
    decreases t, 1
  {
    TasksEventsOn(s, t.inner, k);
    EventsOnAppend(s, Prologue(t), EventsOf(t.inner), k);
    EventsOnAppend(s, Prologue(t) + EventsOf(t.inner), [Exited(t.zone, t.exit)], k);
  }

  lemma {:induction false} TasksEventsOn(s: State, ts: seq<Task>, k: StackKind)
    requires TasksOn(s, ts, k)
    ensures EventsOn(s, EventsOf(ts), k)
    decreases ts, 1
  {
    if ts != [] {
      assert TaskOn(s, ts[0], k);
      TaskEventsOn(s, ts[0], k);
      assert TasksOn(s, ts[1..], k) by {
        forall i | 0 <= i < |ts[1..]| ensures TaskOn(s, ts[1..][i], k) {
          assert ts[1..][i] == ts[i + 1];
        }
      }
      TasksEventsOn(s, ts[1..], k);
      EventsOnAppend(s, Events(ts[0]), EventsOf(ts[1..]), k);
    }
  }

  /**
   A task started on an idle stack adds to the totals of that stack exactly
   the clock time from its start to its end, however its nested tasks are
   arranged; the other stack's totals and the root's do not change, so the
   totals of all zones together grow by that same time.
   */
  lemma IdleTaskCharges(s: State, t: Task, k: StackKind)
    requires TimingInvariant(s) && TaskOn(s, t, k) && |Stack(s, k)| == 0
    ensures Replay(s, Events(t)).Ok?
    ensures TotalTime(Replay(s, Events(t)).value, k) == TotalTime(s, k) + (t.exit - t.enter)
    ensures forall j :: j != k ==> TotalTime(Replay(s, Events(t)).value, j) == TotalTime(s, j)
    ensures forall y :: y in s.zones && s.zones[y].hooks != Some(k) ==>
      y in Replay(s, Events(t)).value.zones && Rec(Replay(s, Events(t)).value, y).totalTime == Rec(s, y).totalTime
    ensures GrandTotal(Replay(s, Events(t)).value) == GrandTotal(s) + (t.exit - t.enter)
  {
    TaskRun(s, t, k);
    TaskEventsOn(s, t, k);
    ReplayUntouched(s, Events(t), k);
    var r := Replay(s, Events(t)).value;
    IdleTotals(s, r, k, t.exit - t.enter);
  }

  /**
   The bookkeeping of IdleTaskCharges: a change that keeps the hooks and
   the times off stack `k`, and raises the totals of stack `k` by `d`,
   keeps every other stack's totals and raises the grand total by `d`.
   */
  lemma IdleTotals(s: State, r: State, k: StackKind, d: int)
    requires SameHooks(s, r) && OthersUntouched(s, r, k)
    requires TotalTime(r, k) == TotalTime(s, k) + d
    ensures forall j :: j != k ==> TotalTime(r, j) == TotalTime(s, j)
    ensures GrandTotal(r) == GrandTotal(s) + d
  {
    forall j | j != k ensures TotalTime(r, j) == TotalTime(s, j) {
      SumTotalSameTotals(s.zones, r.zones, j, s.next);
    }
    SumAllFollowsStack(s.zones, r.zones, k, s.next);
  }

  /** Counting distributes over back-to-back runs. */
  lemma {:induction false} CountsInAppend(a: seq<Event>, b: seq<Event>, tz: ZoneId)
    ensures CountsIn(a + b, tz) == CountsIn(a, tz) + CountsIn(b, tz)
    decreases |a|
  {
    if a == [] {
      assert a + b == b;
    } else {
      assert (a + b)[1..] == a[1..] + b;
      CountsInAppend(a[1..], b, tz);
    }
  }

  /** The creations a task's events count for `tz`: its own, if any, and its nested tasks'. */
  lemma EventsCounts(t: Task, tz: ZoneId)
    ensures CountsIn(Events(t), tz) == (if t.counted == Some(tz) then 1 else 0) + CountsIn(EventsOf(t.inner), tz)
  {
    var ex := [Exited(t.zone, t.exit)];
    CountsInAppend(Prologue(t), EventsOf(t.inner), tz);
    CountsInAppend(Prologue(t) + EventsOf(t.inner), ex, tz);
    if t.counted.Some? {
      assert Prologue(t) == [Entered(t.zone, t.enter), Counted(t.counted.value)];
      assert Prologue(t)[1..] == [Counted(t.counted.value)];
    } else {
      assert Prologue(t) == [Entered(t.zone, t.enter)];
    }
    assert ex[1..] == [];
  }

  /**
   A call of the wrapped createdCallback (a task that counts a creation for
   its tag zone) adds one to the tag zone's count, plus whatever creations
   the tasks nested in it count.
   */
  lemma CreatedCallbackCounts(s: State, t: Task, k: StackKind)
    requires TimingInvariant(s) && TaskOn(s, t, k) && t.counted.Some?
    ensures Replay(s, Events(t)).Ok?
    ensures t.counted.value in Replay(s, Events(t)).value.zones
    ensures var tz := t.counted.value;
      Rec(Replay(s, Events(t)).value, tz).count
        == Bump(Rec(s, tz).count, 1 + CountsIn(EventsOf(t.inner), tz))
  {
    TaskRun(s, t, k);
    ReplayCounts(s, Events(t), t.counted.value);
    EventsCounts(t, t.counted.value);
  }

  /**
   `t` is one call of the wrapped createdCallback of `w`: a task of the
   created scope that counts a creation for the tag zone.
   */
  predicate CreatedCall(w: Wrapping, t: Task) {
    w.created.Some? && t.zone == w.created.value && t.counted == Some(w.tagZone)
  }

  /**
   A call of the created wrapper, with the created scope on the callback
   stack, replays cleanly and adds one to its tag zone's count plus the
   creations counted by the tasks nested in it.
   */
  lemma CreatedWrapperCounts(r: State, w: Wrapping, t: Task)
    requires TimingInvariant(r) && CreatedCall(w, t) && OnStack(r, w.created.value, CallbackStack)
    requires w.tagZone in r.zones && t.enter > 0 && t.exit > 0 && TasksOn(r, t.inner, CallbackStack)
    ensures TaskOn(r, t, CallbackStack) && Replay(r, Events(t)).Ok?
    ensures w.tagZone in Replay(r, Events(t)).value.zones
    ensures Rec(Replay(r, Events(t)).value, w.tagZone).count
         == Bump(Rec(r, w.tagZone).count, 1 + CountsIn(EventsOf(t.inner), w.tagZone))
  {
    assert TaskOn(r, t, CallbackStack);
    TaskRun(r, t, CallbackStack);
    ReplayCounts(r, Events(t), w.tagZone);
    EventsCounts(t, w.tagZone);
  }

  /**
   After a registration of a prototype with a createdCallback, each call of
   the wrapped createdCallback is a task on the callback stack that adds one
   to the tag zone's count, plus the creations nested in it.
   */
  lemma RegisteredCreatedCounts(s: State, current: ZoneId, tag: string, p: Proto, r: State, w: Wrapping, t: Task)
    requires TimingInvariant(s) && current in s.zones && ScopesOnCallbackStack(s)
    requires (r, w) == RegisterElement(s, current, tag, p)
    requires CreatedCall(w, t) && t.enter > 0 && t.exit > 0 && TasksOn(r, t.inner, CallbackStack)
    ensures TaskOn(r, t, CallbackStack) && Replay(r, Events(t)).Ok?
    ensures w.tagZone in Replay(r, Events(t)).value.zones
    ensures Rec(Replay(r, Events(t)).value, w.tagZone).count
         == Bump(Rec(r, w.tagZone).count, 1 + CountsIn(EventsOf(t.inner), w.tagZone))
  {
    RegisterKeepsTiming(s, current, tag, p);
    RegisterBindsCallbackStack(s, current, tag, p);
    CreatedWrapperCounts(r, w, t);
  }

  /** Replaying a run whose first event steps to `s1` is replaying the rest from `s1`. */
  lemma ReplayCons(s: State, evs: seq<Event>, s1: State)
    requires Valid(s) && evs != [] && Step(s, evs[0]) == Ok(s1)
    ensures Replay(s, evs) == Replay(s1, evs[1..])
  {
  }

  /** Entering a zone on an idle stack. */
  lemma EnterIdle(s: State, z: ZoneId, k: StackKind, now: nat)
    requires Valid(s) && OnStack(s, z, k) && Stack(s, k) == []
    ensures Step(s, Entered(z, now)) == Ok(Enter(s, z, now))
    ensures var r := Enter(s, z, now);
      && Stack(r, k) == [z] && Rec(r, z).startTime == now && Rec(r, z).totalTime == Rec(s, z).totalTime
      && forall y :: y in s.zones && y != z ==> y in r.zones && Rec(r, y) == Rec(s, y)
  {
  }

  /** Entering zone `z` on a stack holding only the timing zone `c`. */
  lemma EnterOver(s: State, c: ZoneId, z: ZoneId, k: StackKind, now: nat)
    requires Valid(s) && OnStack(s, z, k) && OnStack(s, c, k) && Stack(s, k) == [c] && c != z
    requires Rec(s, c).startTime > 0
    ensures Step(s, Entered(z, now)) == Ok(Enter(s, z, now))
    ensures var r := Enter(s, z, now);
      && Stack(r, k) == [c, z] && Rec(r, z).startTime == now && Rec(r, z).totalTime == Rec(s, z).totalTime
      && c in r.zones && Rec(r, c).totalTime == Rec(s, c).totalTime + (now - Rec(s, c).startTime)
  {
  }

  /** Exiting `z` from the stack `[c, z]` resumes `c`. */
  lemma ExitTo(s: State, c: ZoneId, z: ZoneId, k: StackKind, now: nat)
    requires Valid(s) && OnStack(s, z, k) && OnStack(s, c, k) && Stack(s, k) == [c, z] && c != z
    ensures Step(s, Exited(z, now)) == Ok(Pop(s, z, now))
    ensures var r := Pop(s, z, now);
      && Stack(r, k) == [c] && Rec(r, z).totalTime == Rec(s, z).totalTime + (now - Rec(s, z).startTime)
      && c in r.zones && Rec(r, c).startTime == now && Rec(r, c).totalTime == Rec(s, c).totalTime
  {
    assert Stack(s, k)[..1] == [c];
  }

  /** Exiting `z` from the stack `[z]` leaves the stack idle. */
  lemma ExitLast(s: State, z: ZoneId, k: StackKind, now: nat)
    requires Valid(s) && OnStack(s, z, k) && Stack(s, k) == [z]
    ensures Step(s, Exited(z, now)) == Ok(Pop(s, z, now))
    ensures var r := Pop(s, z, now);
      && Stack(r, k) == [] && Rec(r, z).totalTime == Rec(s, z).totalTime + (now - Rec(s, z).startTime)
      && forall y :: y in s.zones && y != z ==> y in r.zones && Rec(r, y) == Rec(s, y)
  {
  }

  /** The state at the end of the nested-callbacks run. */
  function NestedEnd(s: State, c: ZoneId, a: ZoneId): (r: State)
    requires Valid(s) && c != a && Stack(s, CallbackStack) == []
    requires OnStack(s, c, CallbackStack) && OnStack(s, a, CallbackStack)
    ensures Valid(r) && c in r.zones && a in r.zones
  {
    var k := CallbackStack;
    EnterIdle(s, c, k, 1);
    var s1 := Enter(s, c, 1);
    EnterOver(s1, c, a, k, 4);
    var s2 := Enter(s1, a, 4);
    ExitTo(s2, c, a, k, 7);
    var s3 := Pop(s2, a, 7);
    ExitLast(s3, c, k, 11);
    Pop(s3, c, 11)
  }

  lemma NestedReplay(s: State, c: ZoneId, a: ZoneId)
    requires Valid(s) && c != a && Stack(s, CallbackStack) == []
    requires OnStack(s, c, CallbackStack) && OnStack(s, a, CallbackStack)
    ensures Replay(s, [Entered(c, 1), Entered(a, 4), Exited(a, 7), Exited(c, 11)]) == Ok(NestedEnd(s, c, a))
  {
    var k := CallbackStack;
    var evs := [Entered(c, 1), Entered(a, 4), Exited(a, 7), Exited(c, 11)];
    EnterIdle(s, c, k, 1);
    var s1 := Enter(s, c, 1);
    ReplayCons(s, evs, s1);
    NestedReplayFrom(s1, c, a);
    assert evs[1..] == [Entered(a, 4), Exited(a, 7), Exited(c, 11)];
  }

  /** The last three events of the nested-callbacks run, from the created callback's entry. */
  lemma NestedReplayFrom(s1: State, c: ZoneId, a: ZoneId)
    requires Valid(s1) && c != a && OnStack(s1, c, CallbackStack) && OnStack(s1, a, CallbackStack)
    requires Stack(s1, CallbackStack) == [c] && Rec(s1, c).startTime == 1
    ensures Replay(s1, [Entered(a, 4), Exited(a, 7), Exited(c, 11)]).Ok?
    ensures Replay(s1, [Entered(a, 4), Exited(a, 7), Exited(c, 11)]).value
         == Pop(Pop(Enter(s1, a, 4), a, 7), c, 11)
  {
    var k := CallbackStack;
    var evs := [Entered(a, 4), Exited(a, 7), Exited(c, 11)];
    EnterOver(s1, c, a, k, 4);
    var s2 := Enter(s1, a, 4);
    ExitTo(s2, c, a, k, 7);
    var s3 := Pop(s2, a, 7);
    ExitLast(s3, c, k, 11);
    var s4 := Pop(s3, c, 11);
    ReplayCons(s1, evs, s2);
    ReplayCons(s2, evs[1..], s3);
    ReplayOne(s3, Exited(c, 11));
    assert evs[1..][1..] == [Exited(c, 11)];
  }

  lemma NestedTotals(s: State, c: ZoneId, a: ZoneId)
    requires Valid(s) && c != a && Stack(s, CallbackStack) == []
    requires OnStack(s, c, CallbackStack) && OnStack(s, a, CallbackStack)
    ensures Rec(NestedEnd(s, c, a), c).totalTime == Rec(s, c).totalTime + 7
    ensures Rec(NestedEnd(s, c, a), a).totalTime == Rec(s, a).totalTime + 3
  {
    var k := CallbackStack;
    EnterIdle(s, c, k, 1);
    var s1 := Enter(s, c, 1);
    EnterOver(s1, c, a, k, 4);
    var s2 := Enter(s1, a, 4);
    ExitTo(s2, c, a, k, 7);
    var s3 := Pop(s2, a, 7);
    ExitLast(s3, c, k, 11);
  }

  /**
   The created callback of an element, entered at clock 1, runs the
   attached callback from 4 to 7 and ends at 11: attached is charged 3 and
   created 7, the time outside its nested task.
   */
  lemma NestedCallbacks(s: State, c: ZoneId, a: ZoneId)
    requires Valid(s) && c != a && Stack(s, CallbackStack) == []
    requires OnStack(s, c, CallbackStack) && OnStack(s, a, CallbackStack)
    ensures var evs := [Entered(c, 1), Entered(a, 4), Exited(a, 7), Exited(c, 11)];
      && Replay(s, evs).Ok? && c in Replay(s, evs).value.zones && a in Replay(s, evs).value.zones
      && Rec(Replay(s, evs).value, c).totalTime == Rec(s, c).totalTime + 7
      && Rec(Replay(s, evs).value, a).totalTime == Rec(s, a).totalTime + 3
  {
    NestedReplay(s, c, a);
    NestedTotals(s, c, a);
  }
}
