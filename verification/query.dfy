/**
 The reporting side: clearStats, gatherStats and the handler of the
 window messages that ask for them.
 */
module Query {
  import opened Wrappers
  import opened ScopeTree
  import opened Timing
  import opened Registry

  // ----- clearStats -----

  /** The zones registered for some tag. */
  function TagZoneSet(s: State): set<ZoneId> {
    s.tagZones.Values
  }

  /** The records a tag zone exposes under one of the stat names. */
  function StatScopes(s: State): set<ZoneId>
    requires Valid(s)
  {
    set x, n | x in s.tagZones.Values && n in Rec(s, x).named && n in StatNames :: Rec(s, x).named[n]
  }

  /** `a` and `b` differ at most in the count and the times of their records. */
  predicate SameButCounters(a: Zone, b: Zone) {
    && a.name == b.name && a.hooks == b.hooks && a.children == b.children
    && a.stats.named == b.stats.named && a.stats.tagName == b.stats.tagName
  }

  /** The cleared form of zone `y`: only its count and times may change. */
  function ClearZone(s: State, y: ZoneId): (r: Zone)
    requires Valid(s) && y in s.zones
    ensures SameButCounters(r, s.zones[y])
  {
    var zn := s.zones[y];
    if y in TagZoneSet(s) then zn.(stats := zn.stats.(count := Some(0), totalTime := 0, startTime := 0))
    else if y in StatScopes(s) then zn.(stats := zn.stats.(totalTime := 0, startTime := 0))
    else zn
  }

  /**
   clearStats: for every registered tag, its zone's count, total and start
   time become 0, and so do the total and start time of each record it
   exposes under a stat name. Every write is a constant, so the order in
   which tags are visited does not matter.
   */
  function ClearStats(s: State): (r: State)
    requires Valid(s)
    ensures r.zones.Keys == s.zones.Keys && r.next == s.next && r.tagZones == s.tagZones
    ensures r.tagStack == s.tagStack && r.callbackStack == s.callbackStack
    ensures forall y :: y in s.zones ==> r.zones[y] == ClearZone(s, y)
    ensures Valid(r)
  {
    var r := s.(zones := map y | y in s.zones :: ClearZone(s, y));
    ClearedIsValid(s, r);
    r
  }

  /** A heap whose zones are the cleared forms of a well-formed heap's zones is well formed. */
  lemma ClearedIsValid(s: State, r: State)
    requires Valid(s)
    requires r.zones.Keys == s.zones.Keys && r.next == s.next && r.tagZones == s.tagZones
    requires r.tagStack == s.tagStack && r.callbackStack == s.callbackStack
    requires forall y :: y in s.zones ==> r.zones[y] == ClearZone(s, y)
    ensures Valid(r)
  {
    assert forall i :: 0 <= i < |s.tagStack| ==> OnStack(s, s.tagStack[i], TagStack);
    assert forall i :: 0 <= i < |s.callbackStack| ==> OnStack(s, s.callbackStack[i], CallbackStack);
    forall t | t in r.tagZones ensures r.tagZones[t] in r.zones && Rec(r, r.tagZones[t]).count.Some? {
      assert s.tagZones[t] in TagZoneSet(s);
    }
    forall y | y in r.zones ensures Closed(r.zones.Keys, r.zones[y]) {
      assert Closed(s.zones.Keys, s.zones[y]);
    }
  }

  /** Clearing keeps every name, hook, child cache, exposed record and tag name. */
  lemma ClearKeepsStructure(s: State)
    requires Valid(s)
    ensures var r := ClearStats(s);
      forall y :: y in s.zones ==>
        && r.zones[y].name == s.zones[y].name && r.zones[y].hooks == s.zones[y].hooks
        && r.zones[y].children == s.zones[y].children
        && Rec(r, y).named == Rec(s, y).named && Rec(r, y).tagName == Rec(s, y).tagName
  {
  }

  /** Clearing keeps every callback scope on the callback stack. */
  lemma ClearKeepsScopes(s: State)
    requires Valid(s) && ScopesOnCallbackStack(s)
    ensures ScopesOnCallbackStack(ClearStats(s))
  {
    StructureKeepsScopes(s, ClearStats(s));
  }

  /** Clearing zeroes the count and times of every tag's record. */
  lemma ClearZeroesTags(s: State, t: string)
    requires Valid(s) && t in s.tagZones
    ensures var z := s.tagZones[t];
      && Rec(ClearStats(s), z).count == Some(0)
      && Rec(ClearStats(s), z).totalTime == 0 && Rec(ClearStats(s), z).startTime == 0
  {
    assert s.tagZones[t] in TagZoneSet(s);
  }

  /** Clearing zeroes the times of every record a tag exposes under a stat name. */
  lemma ClearZeroesScopes(s: State, t: string, n: string)
    requires Valid(s) && t in s.tagZones && n in Rec(s, s.tagZones[t]).named && n in StatNames
    ensures Rec(s, s.tagZones[t]).named[n] in s.zones
    ensures var y := Rec(s, s.tagZones[t]).named[n];
      Rec(ClearStats(s), y).totalTime == 0 && Rec(ClearStats(s), y).startTime == 0
  {
    var x := s.tagZones[t];
    assert Closed(s.zones.Keys, s.zones[x]);
    assert Rec(s, x).named[n] in StatScopes(s);
  }

  /** Clearing leaves every record that is neither a tag's nor exposed by one under a stat name. */
  lemma ClearLeavesOthers(s: State, y: ZoneId)
    requires Valid(s) && y in s.zones && y !in TagZoneSet(s) && y !in StatScopes(s)
    ensures Rec(ClearStats(s), y) == Rec(s, y)
  {
  }

  // ----- gatherStats -----

  /** The two timing fields of a record as they appear in a reply. */
  datatype Times = Times(totalTime: int, startTime: nat)

  /**
   A tag's entry in a stats reply: its record, with the records it exposes
   by name one level down.
   */
  datatype Snapshot = Snapshot(tagName: Option<string>, count: Option<nat>, own: Times, scopes: map<string, Times>)

  function TimesOf(st: Stats): Times {
    Times(st.totalTime, st.startTime)
  }

  /** The reply entry for zone `z`. */
  function SnapshotOf(s: State, z: ZoneId): (r: Snapshot)
    requires Valid(s) && z in s.zones
    ensures r.tagName == Rec(s, z).tagName && r.count == Rec(s, z).count
    ensures r.own == TimesOf(Rec(s, z)) && r.scopes.Keys == Rec(s, z).named.Keys
    ensures forall n :: n in r.scopes ==> r.scopes[n] == TimesOf(Rec(s, Rec(s, z).named[n]))
    // through the aliasing, each scope in the reply is the record of the child cached under its name
    ensures Aliased(s) ==> forall n :: n in r.scopes ==>
      n in s.zones[z].children && r.scopes[n] == TimesOf(Rec(s, s.zones[z].children[n]))
    // and every child cached under a truthy name other than "undefined" is in the reply
    ensures Aliased(s) ==> forall key :: key in s.zones[z].children && key != "undefined" && key != "" ==>
      key in r.scopes && r.scopes[key] == TimesOf(Rec(s, s.zones[z].children[key]))
  {
    var st := Rec(s, z);
    assert Closed(s.zones.Keys, s.zones[z]);
    assert Aliased(s) ==> ZoneAliased(s.zones[z]);
    Snapshot(st.tagName, st.count, TimesOf(st), map n | n in st.named :: TimesOf(Rec(s, st.named[n])))
  }

  /**
   gatherStats: one entry per registered tag, the record of its zone. The
   contract only fixes the shape of the reply; what the reply means is stated
   by GatherShowsScope (each callback scope shows with its own times),
   RegisterThenGather (a registration's scopes are reported) and
   ClearThenGatherIsZero (after a clear everything reads zero).
   */
  function GatherStats(s: State): (r: map<string, Snapshot>)
    requires Valid(s)
    ensures r.Keys == s.tagZones.Keys
    ensures forall t :: t in r ==> r[t] == SnapshotOf(s, s.tagZones[t])
  {
    map t | t in s.tagZones :: SnapshotOf(s, s.tagZones[t])
  }

  /**
   Through the aliasing, a gather shows under a tag every truthy-named
   child scope of its zone, with that child's own times.
   */
  lemma GatherShowsScope(s: State, tag: string, key: string)
    requires Valid(s) && Aliased(s) && tag in s.tagZones
    requires key in s.zones[s.tagZones[tag]].children && key != "undefined" && key != ""
    ensures var c := s.zones[s.tagZones[tag]].children;
      && c[key] in s.zones
      && key in GatherStats(s)[tag].scopes
      && GatherStats(s)[tag].scopes[key] == TimesOf(Rec(s, c[key]))
  {
    assert Closed(s.zones.Keys, s.zones[s.tagZones[tag]]);
  }

  /**
   The scopes `g` of a reply show, under the name of each scope a wrapper of
   `w` runs in, that scope's own times.
   */
  predicate ReportsScopes(g: map<string, Times>, r: State, w: Wrapping) {
    && (w.created.Some? ==>
          w.created.value in r.zones && "created" in g && g["created"] == TimesOf(Rec(r, w.created.value)))
    && (w.attached.Some? ==>
          w.attached.value in r.zones && "attached" in g && g["attached"] == TimesOf(Rec(r, w.attached.value)))
    && (w.detached.Some? ==>
          w.detached.value in r.zones && "detached" in g && g["detached"] == TimesOf(Rec(r, w.detached.value)))
    && (w.attributeChanged.Some? ==>
          && w.attributeChanged.value in r.zones && "attributeChanged" in g
          && g["attributeChanged"] == TimesOf(Rec(r, w.attributeChanged.value)))
    && (w.propertySetter.Some? ==>
          w.propertySetter.value in r.zones && "data" in g && g["data"] == TimesOf(Rec(r, w.propertySetter.value)))
    && (w.notifyPath.Some? ==>
          w.notifyPath.value in r.zones && "data" in g && g["data"] == TimesOf(Rec(r, w.notifyPath.value)))
    && w.register in r.zones && "register" in g && g["register"] == TimesOf(Rec(r, w.register))
  }

  /** A gather shows, under a tag, the times of every scope its wrappers run in. */
  lemma GatherReportsScopes(r: State, tag: string, w: Wrapping)
    requires Valid(r) && Aliased(r) && tag in r.tagZones && r.tagZones[tag] == w.tagZone
    requires UsesNamedScopes(r, w)
    ensures ReportsScopes(GatherStats(r)[tag].scopes, r, w)
  {
    if w.created.Some? { GatherShowsScope(r, tag, "created"); }
    if w.attached.Some? { GatherShowsScope(r, tag, "attached"); }
    if w.detached.Some? { GatherShowsScope(r, tag, "detached"); }
    if w.attributeChanged.Some? { GatherShowsScope(r, tag, "attributeChanged"); }
    if w.propertySetter.Some? || w.notifyPath.Some? { GatherShowsScope(r, tag, "data"); }
    GatherShowsScope(r, tag, "register");
  }

  /**
   After a registration, a gather reports under the tag the times of each
   scope a wrapper was bound to, and, for a tag seen for the first time, its
   name and a count of 0.
   */
  lemma RegisterThenGather(s: State, current: ZoneId, tag: string, p: Proto)
    requires Valid(s) && current in s.zones && Aliased(s)
    ensures var (r, w) := RegisterElement(s, current, tag, p);
      ReportsScopes(GatherStats(r)[tag].scopes, r, w)
    ensures var (r, w) := RegisterElement(s, current, tag, p);
      tag !in s.tagZones ==> GatherStats(r)[tag].tagName == Some(tag) && GatherStats(r)[tag].count == Some(0)
  {
    var (r, w) := RegisterElement(s, current, tag, p);
    RegisterKeepsAliased(s, current, tag, p);
    RegisterUsesNamedScopes(s, current, tag, p);
    GatherReportsScopes(r, tag, w);
  }

  // ----- the message handler -----

  const GetStats := "get-element-stats"
  const ClearStatsMessage := "clear-element-stats"
  const StatsReply := "element-stats"

  /** The `messageType` of a received message, if it has one. */
  datatype Request = Request(messageType: Option<string>)

  /** A message posted back to the sender. */
  datatype Reply = Reply(messageType: string, data: map<string, Snapshot>)

  /** True for the two requests the handler answers. */
  predicate AsksForStats(req: Request) {
    req.messageType == Some(GetStats) || req.messageType == Some(ClearStatsMessage)
  }

  /**
   The message handler: a get or clear request is answered with one
   element-stats reply carrying gatherStats, after clearStats for a clear
   request; every other message is ignored.
   */
  function Dispatch(s: State, req: Request): (r: (State, Option<Reply>))
    requires Valid(s)
    ensures Valid(r.0)
    ensures r.1.Some? <==> AsksForStats(req)
    ensures r.0 == (if req.messageType == Some(ClearStatsMessage) then ClearStats(s) else s)
    ensures r.1.Some? ==> r.1.value == Reply(StatsReply, GatherStats(r.0))
  {
    match req.messageType
    case Some(m) =>
      if m != "" && (m == GetStats || m == ClearStatsMessage) then
        var s1 := if m == ClearStatsMessage then ClearStats(s) else s;
        (s1, Some(Reply(StatsReply, GatherStats(s1))))
      else (s, None)
    case None => (s, None)
  }

  // ----- properties -----

  /**
   A gather right after a clear reports every tag with count 0, zero times,
   and zero times for every stat-name record it exposes.
   */
  lemma ClearThenGatherIsZero(s: State)
    requires Valid(s)
    ensures var g := GatherStats(ClearStats(s));
      && g.Keys == s.tagZones.Keys
      && forall t :: t in g ==>
        && g[t].count == Some(0) && g[t].own == Times(0, 0)
        && forall n :: n in g[t].scopes && n in StatNames ==> g[t].scopes[n] == Times(0, 0)
  {
    ClearKeepsStructure(s);
    var r := ClearStats(s);
    var g := GatherStats(r);
    forall t | t in g
      ensures && g[t].count == Some(0) && g[t].own == Times(0, 0)
              && forall n :: n in g[t].scopes && n in StatNames ==> g[t].scopes[n] == Times(0, 0)
    {
      ClearZeroesTags(s, t);
      forall n | n in g[t].scopes && n in StatNames ensures g[t].scopes[n] == Times(0, 0) {
        ClearZeroesScopes(s, t, n);
      }
    }
  }

  /** Clearing keeps the aliasing between exposed records and cached children. */
  lemma ClearKeepsAliased(s: State)
    requires Valid(s) && Aliased(s)
    ensures Aliased(ClearStats(s))
  {
    var r := ClearStats(s);
    forall y | y in r.zones ensures ZoneAliased(r.zones[y]) {
      assert ZoneAliased(s.zones[y]);
      assert SameButCounters(r.zones[y], s.zones[y]);
    }
  }

  /** Clearing twice is clearing once. */
  lemma ClearIsIdempotent(s: State)
    requires Valid(s)
    ensures ClearStats(ClearStats(s)) == ClearStats(s)
  {
    var r := ClearStats(s);
    assert TagZoneSet(r) == TagZoneSet(s);
    assert StatScopes(r) == StatScopes(s) by {
      forall x | x in s.tagZones.Values ensures Rec(r, x).named == Rec(s, x).named {
        assert SameButCounters(r.zones[x], s.zones[x]);
      }
    }
    var rr := ClearStats(r);
    forall y | y in s.zones ensures rr.zones[y] == r.zones[y] {
    }
    assert rr.zones == r.zones;
  }

  /** Clearing only stops timers, so it keeps "only the top of a stack is timing". */
  lemma ClearKeepsOnlyTopTiming(s: State, k: StackKind)
    requires Valid(s) && OnlyTopTiming(s, k)
    ensures OnlyTopTiming(ClearStats(s), k)
  {
    var r := ClearStats(s);
    forall y | y in r.zones && OnStack(r, y, k) && Rec(r, y).startTime > 0
      ensures |Stack(r, k)| > 0 && Top(Stack(r, k)) == y
    {
      assert Rec(r, y) == Rec(s, y);
      assert Stack(r, k) == Stack(s, k);
    }
  }

  /** With both stacks idle, clearing keeps the timing invariant. */
  lemma ClearWhenIdleKeepsTiming(s: State)
    requires TimingInvariant(s) && s.tagStack == [] && s.callbackStack == []
    ensures TimingInvariant(ClearStats(s))
  {
    ClearKeepsOnlyTopTiming(s, TagStack);
    ClearKeepsOnlyTopTiming(s, CallbackStack);
  }

  /**
   A clear while a tag zone is running zeroes its start time, so the running
   task's exit adds the whole clock reading: the zone entered at 5, cleared,
   and exited at 9 reports a total of 9, and in between the zone on top of
   its stack is not timing.
   */
  lemma ClearMidFlight(s: State, t: string)
    requires TimingInvariant(s) && t in s.tagZones && s.tagStack == []
    requires OnStack(s, s.tagZones[t], TagStack)
    ensures var z := s.tagZones[t];
      var mid := ClearStats(Enter(s, z, 5));
      && !TopTiming(mid, TagStack)
      && Exit(mid, z, 9).Ok?
      && Rec(Exit(mid, z, 9).value, z).totalTime == 9
  {
    var z := s.tagZones[t];
    var e := Enter(s, z, 5);
    assert KindOf(s, z) == TagStack;
    assert Stack(e, TagStack) == [z];
    ClearZeroesTags(e, t);
    var mid := ClearStats(e);
    assert Stack(mid, TagStack) == [z] && Rec(mid, z).startTime == 0;
    assert IsStatsZone(mid, z) && KindOf(mid, z) == TagStack;
    var x := Exit(mid, z, 9);
    assert x.Ok? && x.value == Pop(mid, z, 9);
    assert Rec(x.value, z).totalTime == Rec(mid, z).totalTime + (9 - 0);
  }

  /** A clear request is answered with a report of zeros for every tag. */
  lemma DispatchClearReportsZeros(s: State)
    requires Valid(s)
    ensures var (r, reply) := Dispatch(s, Request(Some(ClearStatsMessage)));
      && reply.Some? && reply.value.messageType == StatsReply
      && reply.value.data.Keys == s.tagZones.Keys
      && forall t :: t in reply.value.data ==>
           reply.value.data[t].count == Some(0) && reply.value.data[t].own == Times(0, 0)
  {
    ClearThenGatherIsZero(s);
  }

  /** Handles a sequence of messages in order, collecting the replies. */
  function DispatchAll(s: State, reqs: seq<Request>): (r: (State, seq<Reply>))
    requires Valid(s)
    ensures Valid(r.0)
    decreases |reqs|
  {
    if reqs == [] then (s, [])
    else
      var (s1, reply) := Dispatch(s, reqs[0]);
      var (s2, replies) := DispatchAll(s1, reqs[1..]);
      (s2, (if reply.Some? then [reply.value] else []) + replies)
  }

  /** The number of messages in `reqs` that ask for stats. */
  function StatsRequests(reqs: seq<Request>): nat
    decreases |reqs|
  {
    if reqs == [] then 0 else (if AsksForStats(reqs[0]) then 1 else 0) + StatsRequests(reqs[1..])
  }

  /** Every stats request gets exactly one element-stats reply, and nothing else is answered. */
  lemma {:induction false} OneReplyPerRequest(s: State, reqs: seq<Request>)
    requires Valid(s)
    ensures |DispatchAll(s, reqs).1| == StatsRequests(reqs)
    ensures forall i :: 0 <= i < |DispatchAll(s, reqs).1| ==> DispatchAll(s, reqs).1[i].messageType == StatsReply
    decreases |reqs|
  {
    if reqs != [] {
      var (s1, reply) := Dispatch(s, reqs[0]);
      OneReplyPerRequest(s1, reqs[1..]);
      var rest := DispatchAll(s1, reqs[1..]).1;
      var head := if reply.Some? then [reply.value] else [];
      assert DispatchAll(s, reqs).1 == head + rest;
      AllStatsReplies(head, rest);
    }
  }

  /** Two runs of element-stats replies make one. */
  lemma AllStatsReplies(head: seq<Reply>, rest: seq<Reply>)
    requires forall i :: 0 <= i < |head| ==> head[i].messageType == StatsReply
    requires forall i :: 0 <= i < |rest| ==> rest[i].messageType == StatsReply
    ensures forall i :: 0 <= i < |head + rest| ==> (head + rest)[i].messageType == StatsReply
  {
    assert forall i :: 0 <= i < |head + rest| ==>
      (head + rest)[i] == (if i < |head| then head[i] else rest[i - |head|]);
  }
}
