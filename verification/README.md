# element-zones in Dafny

element-zones measures how much time a page spends in the code of each
custom element. When an element is registered it gets a *tag zone*, a
zone.js zone keyed by the tag name. Under the tag zone sit named *callback
scopes* (`created`, `attached`, `detached`, `attributeChanged`, `data`,
`register`), and the element's lifecycle callbacks are bound to them. Every
stats zone carries a stats record (`totalTime`, `startTime`, plus `count`
and `tagName` on tag zones). Its `beforeTask`/`afterTask` hooks pause and
resume timers on one of two global stacks (tag zones on the tag stack,
callback scopes on the callback stack), so only the innermost active zone
of a stack is timing at any moment. A message listener answers
`get-element-stats` and `clear-element-stats` requests with a snapshot of
every tag's record.

The model has five modules:

- `ScopeTree` (scope_tree.dfy) holds the zone heap and `forkStatsZone`. It
  covers the child cache keyed by the JavaScript property key of the name:
  an unnamed fork is keyed `"undefined"`. It also covers the aliasing of a
  named child's record into its parent's record, which every fork,
  registration, hook event, count and clear keeps.
- `Timing` (timing.dfy) holds the two hooks: `Enter` is `beforeTask`, and
  `Exit`/`Pop` are `afterTask`.
  - It proves the invariant that only the top of a stack is timing and the
    top is timing.
  - It proves that time is conserved: banked totals plus the top's running
    time change only with the clock.
- `Registry` (registry.dfy) holds `getTagZone` and the selection logic of
  the `document.registerElement` replacement, i.e. which scopes are forked
  and which wrapper runs in which scope. It also proves that every callback
  scope is a zone on the callback stack, an invariant that registration,
  every hook event and a clear keep.
- `Runs` (runs.dfy) replays sequences of hook events. That covers nested
  tasks and the `count++` of the wrapped `createdCallback`. Balanced runs
  never hit the stack assertion and charge their stack exactly the clock
  time they span.
- `Query` (query.dfy) holds `clearStats`, `gatherStats` and the message
  dispatch.

Clock readings are parameters (`now`, or the `at` of an event). The clock
is a natural number, and a start time of 0 means "not timing", as in the
source. Replies are returned values rather than posted messages.

`getTagZone` forks the tag zone without a name (lib/element-zones.js:86),
so every new tag met in the same current zone gets the one zone cached
under `"undefined"`. The second tag relabels that zone and resets its count
(`Registry.DistinctTagsShareAZone`). No lemma claims that distinct tags get
distinct zones.

## Model

| member | source | states |
|---|---|---|
| ScopeTree.Init | lib/element-zones.js:14-16 | the start state is well formed with only the root zone, an empty tag registry and two empty stacks |
| ScopeTree.ForkStatsZone | lib/element-zones.js:23-78 | an existing child cached under the name's key is returned with nothing changed; otherwise one new zone is allocated with hooks on the given stack and a zeroed record, it is cached under the parent, and if the name is truthy it is exposed in the parent's record and named; no other zone, tag or stack changes |
| ScopeTree.ForkKeepsValid | lib/element-zones.js:23-78 | forking keeps the heap well formed (every referenced id allocated, tag zones carry counts, stacks hold stats zones) |
| ScopeTree.ForkIsMemoised | lib/element-zones.js:24-26 | forking the same name from the same parent a second time, even for the other stack, returns the same zone and changes nothing |
| ScopeTree.ForkExposesChildRecord | lib/element-zones.js:67-76 | a fresh named fork is exposed as the parent's record entry under that name and its record starts with zero total and start time, no count and no tag name |
| ScopeTree.ForkKeepsAliased | lib/element-zones.js:67-76 | after a fork every exposed name still reaches the very child cached under it, and every truthy-named cached child is exposed |
| ScopeTree.SameShapeKeepsAliased | lib/element-zones.js:69-76 | changes to timing fields alone never break the aliasing between exposed records and cached children |
| Timing.Enter | lib/element-zones.js:29-47 | the entered zone is pushed on its own stack and starts timing at now; the previous top, if another zone, banks now - startTime into its total and stops; a zone re-entering itself banks its own time; the other stack and all other records are unchanged |
| Timing.Pop | lib/element-zones.js:54-64 | the exiting zone banks now - startTime into its total and stops, the stack loses its top, the zone below restarts at now, and nothing else changes |
| Timing.Exit | lib/element-zones.js:49-65 | afterTask fails with StackMismatch exactly when the stack is empty or its top is not the exiting zone, and otherwise is the Pop bookkeeping |
| Timing.InitTimingInvariant | lib/element-zones.js:14-16 | the start state satisfies the timing invariant on both stacks |
| Timing.EnterKeepsOwnStack | lib/element-zones.js:32-46 | after beforeTask at a positive clock the entered zone is the only timing zone of its stack, and it is timing |
| Timing.EnterKeepsOtherStack | lib/element-zones.js:29-47 | beforeTask leaves the timing invariant of the other stack intact |
| Timing.EnterKeepsTiming | lib/element-zones.js:29-47 | beforeTask at a positive clock keeps the timing invariant on both stacks |
| Timing.PopKeepsOwnStack | lib/element-zones.js:54-64 | after afterTask at a positive clock only the resumed zone below, if any, is timing on that stack |
| Timing.PopKeepsOtherStack | lib/element-zones.js:49-65 | afterTask leaves the timing invariant of the other stack intact |
| Timing.ExitKeepsTiming | lib/element-zones.js:49-65 | a successful afterTask at a positive clock keeps the timing invariant on both stacks |
| Timing.ClockAdvances | lib/element-zones.js:38-40 | while a stack is non-empty its charged time (banked totals plus the top's running time) grows exactly with the clock; while it is empty nothing is charged |
| Timing.SumAllFollowsStack | lib/element-zones.js:29-65 | when only totals of one stack's zones change, the sum over all zones changes by as much as the sum over that stack |
| Timing.OtherStackUncharged | lib/element-zones.js:29-65 | changing only records of other stacks leaves a stack's charged time unchanged |
| Timing.EnterConserves | lib/element-zones.js:32-46 | beforeTask at a positive clock leaves the charged time of every stack unchanged at that instant |
| Timing.PopConservesOwnStack | lib/element-zones.js:54-64 | afterTask of a timing top leaves its own stack's charged time unchanged at that instant |
| Timing.PopConserves | lib/element-zones.js:49-65 | afterTask of a timing top leaves the charged time of every stack unchanged at that instant |
| Timing.EnterWithMonotonicClock | lib/element-zones.js:37-45 | with a clock that never runs backwards, beforeTask lowers no total and keeps every start time at or before the clock |
| Timing.PopWithMonotonicClock | lib/element-zones.js:55-63 | with a clock that never runs backwards, afterTask lowers no total and keeps every start time at or before the clock |
| Registry.GetTagZone | lib/element-zones.js:80-91 | a known tag is answered from the registry with nothing changed; a new tag gets the current zone's unnamed fork, labelled with the tag and a zero count, and registered |
| Registry.RegisterTag | lib/element-zones.js:87-89 | labelling sets the record's tag name and a zero count, registers the zone under the tag, and touches no other zone or stack |
| Registry.GetTagZoneFrame | lib/element-zones.js:80-91 | the tag registry grows by exactly the asked tag and rebinds no known tag; no zone is removed, no hook changes, no stack and no timing field changes |
| Registry.GetTagZoneForksUnnamed | lib/element-zones.js:86 | a new tag gets the current zone's child cached under "undefined" if there is one, else a new tag-stack zone with zeroed times |
| Registry.GetTagZoneNewIsIdle | lib/element-zones.js:69-72 | every zone getTagZone allocates is not timing |
| Registry.GetTagZoneIsStable | lib/element-zones.js:81-83 | asking again for a tag, from any current zone, returns the same zone and changes nothing |
| Registry.DistinctTagsShareAZone | lib/element-zones.js:86-89 | from the start state, "x-a" then "x-b" met in the root zone share one zone, both are registered to it, and it ends up labelled "x-b" |
| Registry.GetTagZoneKeepsTiming | lib/element-zones.js:80-91 | getTagZone keeps the timing invariant on both stacks |
| Registry.GetTagZoneKeepsAliased | lib/element-zones.js:80-91 | getTagZone keeps the aliasing of exposed records |
| Registry.ForkIf | lib/element-zones.js:98-126 | a callback scope is handed out exactly when the prototype member is present; a scope not yet cached under the tag zone is a new zone on the callback stack, a cached one is reused with nothing changed; the tag zone's own counters and label are untouched |
| Registry.RegisterElement | lib/element-zones.js:93-137 | the element gets its registered tag zone, labelled with the tag and a count of 0 when the tag is new; exactly the present created/attached/detached/attributeChanged callbacks and data members are wrapped; both data members share one scope; the host registration runs inside the register scope exactly when the current zone is not already that scope |
| Registry.ForkScopes | lib/element-zones.js:98-137 | the wrappers and the run-in-register decision, for a given tag zone, with the same presence rules as RegisterElement; the tag zone's record changes only in the names it exposes |
| Registry.ForkScopesUsesNamedScopes | lib/element-zones.js:98-130 | every wrapper runs in the tag zone's child of its callback's name; the data members in "data", the registration in "register" |
| Registry.RegisterUsesNamedScopes | lib/element-zones.js:93-130 | after a registration every wrapper runs in the tag zone's child of its callback's name |
| Registry.ForkScopesAddsOnlyWanted | lib/element-zones.js:98-130 | the tag zone's children grow by exactly register plus the names of the present callbacks (and data when a property setter or notifyPath is present) |
| Registry.ForkIfChildren | lib/element-zones.js:98-126 | a present member's scope is cached under its name and earlier cached children keep their zones |
| Registry.ForkIfKeys | lib/element-zones.js:98-126 | a fork adds its name to the tag zone's children exactly when the member is present |
| Registry.ForkIfKeepsTiming | lib/element-zones.js:98-126 | forking one callback scope keeps the timing invariant on both stacks |
| Registry.ForkIfKeepsAliased | lib/element-zones.js:98-126 | forking one callback scope keeps the aliasing of exposed records |
| Registry.ForkScopesKeepsTiming | lib/element-zones.js:98-130 | forking all callback scopes keeps the timing invariant on both stacks |
| Registry.ForkScopesKeepsAliased | lib/element-zones.js:98-130 | forking all callback scopes keeps the aliasing of exposed records |
| Registry.RegisterKeepsTiming | lib/element-zones.js:93-137 | registering an element keeps the timing invariant on both stacks |
| Registry.RegisterKeepsAliased | lib/element-zones.js:93-137 | registering an element keeps the aliasing of exposed records |
| Registry.InitScopesOnCallbackStack | lib/element-zones.js:14-16 | at the start no zone caches a callback scope off the callback stack |
| Registry.StructureKeepsScopes | lib/element-zones.js:29-65 | a change that keeps every zone's hooks and child cache keeps every stat-named child on the callback stack |
| Registry.ChildAddedKeepsScopes | lib/element-zones.js:23-78 | caching one more child, on the callback stack or under a key that is not a stat name, keeps every stat-named child on the callback stack |
| Registry.GetTagZoneKeepsScopes | lib/element-zones.js:80-91 | getTagZone caches only an unnamed child, so every stat-named child stays on the callback stack |
| Registry.ForkIfKeepsScopes | lib/element-zones.js:98-126 | a callback-scope fork keeps every stat-named child on the callback stack |
| Registry.ForkScopesKeepsScopes | lib/element-zones.js:98-130 | all callback-scope forks keep every stat-named child on the callback stack |
| Registry.RegisterKeepsScopes | lib/element-zones.js:93-137 | registering an element keeps every stat-named child on the callback stack |
| Registry.NamedScopesOnCallbackStack | lib/element-zones.js:98-130 | wrappers bound to the stat-named children of the tag zone run in zones on the callback stack |
| Registry.RegisterBindsCallbackStack | lib/element-zones.js:98-130 | every callback a registration wraps, and the host registration, runs in a zone on the callback stack |
| Runs.Count | lib/element-zones.js:101 | a counted creation bumps the tag zone's count by one and changes nothing else |
| Runs.CountKeepsValid | lib/element-zones.js:101 | counting keeps the heap well formed |
| Runs.CountKeepsTiming | lib/element-zones.js:101 | counting keeps the timing invariant and every hook |
| Runs.CountCharged | lib/element-zones.js:101 | counting leaves every stack's charged time unchanged |
| Runs.Step | lib/element-zones.js:29-65 | one hook event (beforeTask, afterTask, or the count++ at line 101) applied to the state; a successful step keeps the heap well formed |
| Runs.StepFails | lib/element-zones.js:29-65 | one hook event fails with NotAStatsZone exactly when its zone has no stats hooks (or a count names an unallocated zone), fails with StackMismatch exactly when it is an exit whose zone is not the top of its stack, and succeeds otherwise |
| Runs.StepKeepsScopes | lib/element-zones.js:29-65 | no hook event or count moves a zone to another stack or changes a child cache, so callback scopes stay on the callback stack |
| Runs.CountKeepsAliased | lib/element-zones.js:101 | a `count++` on a tag zone keeps every parent's exposed named records identical to its cached children, both directions |
| Runs.StepKeepsAliased | lib/element-zones.js:29-65 | a successful beforeTask, afterTask or count keeps the aliasing of exposed records and child caches (lines 69-76) |
| Runs.Replay | lib/element-zones.js:29-65 | a successful replay of events in order ends in a well-formed heap (how replays compose is ReplayAppend) |
| Runs.ReplayAppend | lib/element-zones.js:29-65 | replaying two runs back to back is replaying the second from where the first ended, and an error in the first stops the whole |
| Runs.ReplayKeepsAliased | lib/element-zones.js:29-65 | a run of hook events that replays cleanly keeps the aliasing, so the gather lemmas apply after callbacks have run |
| Runs.StepCounts | lib/element-zones.js:101 | one event allocates nothing and changes a count only by a counted creation for that zone |
| Runs.ReplayCounts | lib/element-zones.js:99-103 | a replayed run adds to each zone's count exactly the creations counted for it |
| Runs.OpenedReplays | lib/element-zones.js:29-47 | the prologue of a task (enter, then the optional count) replays without error |
| Runs.PrologueCounted | lib/element-zones.js:99-101 | entering the created scope and counting replays to the count applied after the enter |
| Runs.OpenedTiming | lib/element-zones.js:29-47 | opening a task at a positive clock keeps the timing invariant and every hook |
| Runs.OpenedStacks | lib/element-zones.js:46 | opening a task pushes its zone on its stack and leaves the other stack alone |
| Runs.OpenedCharged | lib/element-zones.js:32-46 | opening a task leaves its stack's charged time unchanged at the enter instant |
| Runs.ClosedFacts | lib/element-zones.js:49-65 | closing a task whose zone is on top succeeds, restores the stack below, keeps the invariant and hooks, and leaves the charged time unchanged at that instant |
| Runs.TaskRun | lib/element-zones.js:29-65 | a task with its nested tasks replays without a stack mismatch, restores both stacks, keeps the invariant, and charges its stack exactly exit - enter |
| Runs.TasksRun | lib/element-zones.js:29-65 | tasks run one after another under an active zone replay without error, restore the stacks, and charge the stack exactly the time from the start to the last exit |
| Runs.IdleTaskCharges | lib/element-zones.js:29-65 | a task started on an idle stack adds exactly exit - enter to the banked total of that stack, leaves the other stack's totals and every zone off its stack (the root among them) unchanged, so the totals of all zones together grow by exit - enter |
| Runs.IdleTotals | lib/element-zones.js:29-65 | when only zones of one stack change their totals, the other stack's totals stay and the grand total moves with that stack's |
| Runs.OpenedUntouched | lib/element-zones.js:29-47 | beforeTask and the count of a task touch the times of no zone off the task's stack |
| Runs.ClosedUntouched | lib/element-zones.js:49-65 | afterTask of the top zone succeeds and touches the times of no zone off its stack |
| Runs.StepUntouched | lib/element-zones.js:29-65 | one event of a stack's zone touches the times of no zone off that stack and keeps every hook |
| Runs.ReplayUntouched | lib/element-zones.js:29-65 | a run of events of one stack's zones touches the times of no zone off that stack and keeps every hook |
| Runs.TaskEventsOn | lib/element-zones.js:100-134 | every event of a task tree on one stack concerns a zone of that stack or is a count |
| Runs.TasksEventsOn | lib/element-zones.js:100-134 | every event of tasks on one stack concerns a zone of that stack or is a count |
| Runs.CountsInAppend | lib/element-zones.js:101 | the creations counted in two runs back to back add up |
| Runs.Events | lib/element-zones.js:100-134 | the events zone.js issues for a task bound with `bind` or run with `run`: beforeTask of its zone first, afterTask of its zone last |
| Runs.EventsCounts | lib/element-zones.js:99-103 | a task's events count its own creation once plus those of its nested tasks |
| Runs.CreatedCallbackCounts | lib/element-zones.js:99-103 | running a wrapped createdCallback adds exactly one plus the nested creations to its tag zone's count |
| Runs.CreatedWrapperCounts | lib/element-zones.js:99-103 | a call of a wrapping's created callback, whose scope is on the callback stack, replays cleanly and adds one plus the nested creations to that wrapping's tag zone count |
| Runs.RegisteredCreatedCounts | lib/element-zones.js:93-103 | after a registration, each call of the wrapped createdCallback is a task on the callback stack that replays cleanly and adds one plus the nested creations to the tag zone's count |
| Runs.EnterIdle | lib/element-zones.js:45-46 | entering on an empty stack pushes the zone and starts it at now, changing no other record |
| Runs.EnterOver | lib/element-zones.js:32-46 | entering over another timing zone banks that zone's running time and starts the new one |
| Runs.ExitTo | lib/element-zones.js:51-64 | exiting back to the zone below banks the exiting zone's time and restarts the one below at now |
| Runs.ExitLast | lib/element-zones.js:51-58 | exiting the last zone banks its time, empties the stack and changes no other record |
| Runs.NestedCallbacks | lib/element-zones.js:29-65 | a callback entered at 1 that runs another from 4 to 7 and exits at 11 is charged 7 (its own time, not the inner 3) and the inner one 3 |
| Query.ClearZone | lib/element-zones.js:143-152 | clearing a zone keeps its name, hooks, children, tag name and exposed records; only counters and timing fields may change |
| Query.ClearStats | lib/element-zones.js:140-155 | clearing keeps every zone, the registry and both stacks, changes each zone only as ClearZone does, and keeps the heap well formed |
| Query.ClearKeepsStructure | lib/element-zones.js:140-155 | clearing keeps every name, hook, child cache, exposed record and tag name |
| Query.ClearZeroesTags | lib/element-zones.js:144-146 | after clearing, every tag zone's count, total and start time are 0 |
| Query.ClearZeroesScopes | lib/element-zones.js:147-152 | after clearing, every record a tag exposes under one of the six stat names has total and start time 0 |
| Query.ClearLeavesOthers | lib/element-zones.js:140-155 | a record neither registered for a tag nor exposed by one under a stat name is left as it was |
| Query.ClearThenGatherIsZero | lib/element-zones.js:140-163 | stats gathered right after a clear list every tag with count 0, zero own times and zero times for every stat-named scope |
| Query.ClearKeepsAliased | lib/element-zones.js:140-155 | clearing keeps the aliasing of exposed records |
| Query.ClearKeepsScopes | lib/element-zones.js:140-155 | clearing keeps every stat-named child on the callback stack |
| Query.ClearIsIdempotent | lib/element-zones.js:140-155 | clearing twice is clearing once |
| Query.ClearKeepsOnlyTopTiming | lib/element-zones.js:140-155 | clearing never makes a non-top zone timing |
| Query.ClearWhenIdleKeepsTiming | lib/element-zones.js:140-155 | a clear while both stacks are empty keeps the whole timing invariant |
| Query.ClearMidFlight | lib/element-zones.js:146 | a clear while a tag zone is timing zeroes its start time, so the top is no longer timing and the following afterTask at 9 banks the full 9 |
| Query.SnapshotOf | lib/element-zones.js:160 | a tag's snapshot carries its record's tag name, count and times; through the aliasing of lines 69-75 its scopes are exactly the truthy-named children (other than "undefined") the zone caches, each with that child's own times |
| Query.GatherStats | lib/element-zones.js:157-163 | the gathered data has exactly the registered tags as keys, each mapped to the snapshot of its tag zone's record |
| Query.GatherShowsScope | lib/element-zones.js:157-163 | a gather shows under a tag each truthy-named child scope of its zone with that child's own times |
| Query.GatherReportsScopes | lib/element-zones.js:157-163 | a gather shows under a tag the times of every scope the tag's wrappers run in |
| Query.RegisterThenGather | lib/element-zones.js:93-163 | after a registration, a gather reports under the tag the times of each scope a wrapper was bound to |
| Query.Dispatch | lib/element-zones.js:223-235 | a message gets a reply exactly when its type is get-element-stats or clear-element-stats; a clear request clears first and any other message changes nothing; the reply is element-stats with the data gathered afterwards |
| Query.DispatchClearReportsZeros | lib/element-zones.js:227-233 | a clear request is answered by an element-stats reply listing every tag with count 0 and zero times |
| Query.DispatchAll | lib/element-zones.js:223-235 | handling messages in order ends in a well-formed heap (which replies come back is OneReplyPerRequest) |
| Query.OneReplyPerRequest | lib/element-zones.js:223-235 | a sequence of messages gets exactly one reply per stats request, and every reply is element-stats |

## Left out

- zone.js itself (`fork`, `bind`, `run`, task scheduling and error propagation) is not part of this model. A bound callback running in a scope is a task: an enter event, its body's events and an exit event.
- zone.js prototype inheritance is left out. A forked zone inherits its parent's properties, so a child could see its parent's `_childZones`. Each zone's child cache is modelled as its own.
- The DOM, the original `document.registerElement` and the Polymer wrapper (lib/element-zones.js:165-220) are left out. Registration stops at choosing the wrappers and the zone to run in.
- Calling the original callbacks is left out. The wrapped `createdCallback` is modelled only by its count increment.
- `postMessage` transport is left out. `Dispatch` returns the reply.
- `window._printElementStats` is left out, because it is console output only.
- The `console.log` calls are left out.
- Clock readings are natural numbers, not floating-point milliseconds.
- Each hook reads the clock once. The source reads `performance.now()` twice in `beforeTask` and twice in `afterTask`, so real readings differ by the time spent between the reads.
- Timing.Exit: the `console.assert` of afterTask is modelled as the StackMismatch error that stops a run. A browser would log and carry on with the wrong zone.
- Runs.Step: a hook event for a zone without stats hooks, or a count for an unallocated zone, is the NotAStatsZone error. Only stats zones have these hooks in the source, so such events do not arise there.
- ScopeTree.ForkStatsZone: the source would throw a TypeError on a named fork of the root zone, because the root zone has no stats record to expose the child in. The model gives the root a record, so that fork succeeds. element-zones itself forks named zones only under tag zones (lib/element-zones.js:98-130).
- A record's named entries are a separate map. In the source they share one property namespace with `totalTime`, `startTime`, `count` and `tagName`. element-zones itself only uses the six stat names (lib/element-zones.js:98-130), which never clash with those.
- Query.GatherStats: it returns a snapshot of each record one level deep (own times plus the times of the exposed records). The source returns the live record objects.
- Runs.Bump: a JavaScript count that became NaN (`undefined + 1`) is kept as None.
- Runs.TaskRun: the conservation theorem covers task trees whose zones all sit on one stack, not trees that mix tag and callback zones. `Timing.EnterConserves` and `Timing.PopConserves` still cover each step of a mixed run, for both stacks.
- Distinct scopes for distinct tags are not modelled, because `getTagZone` shares one unnamed zone among the new tags met in the same current zone (lib/element-zones.js:86).
