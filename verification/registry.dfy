/**
 The per-tag registry (getTagZone) and the part of the registerElement
 replacement that decides which lifecycle callbacks are wrapped, and in
 which named child zone of the tag zone.
 */
module Registry {
  import opened Wrappers
  import opened ScopeTree
  import opened Timing

  /**
   getTagZone: the zone registered for `tag`, or, on first sight of the
   tag, the unnamed stats zone (on the tag stack) forked from the zone
   `current` the call runs in, labelled with the tag, given a count of 0 and
   registered under the tag. Because an unnamed fork is cached under the key
   "undefined" of its parent, two new tags met in the same current zone get
   the same zone, and the second one relabels it and sets its count back to 0.
   */
  function GetTagZone(s: State, current: ZoneId, tag: string): (r: (State, ZoneId))
    requires Valid(s) && current in s.zones
    ensures Valid(r.0) && r.1 in r.0.zones
    ensures tag in r.0.tagZones && r.0.tagZones[tag] == r.1
    // a known tag is answered from the registry and nothing changes
    ensures tag in s.tagZones ==> r == (s, s.tagZones[tag])
    // a new tag gets a labelled record with a zero count
    ensures tag !in s.tagZones ==>
      Rec(r.0, r.1).count == Some(0) && Rec(r.0, r.1).tagName == Some(tag)
  {
    if tag in s.tagZones then
      (s, s.tagZones[tag])
    else
      ForkKeepsValid(s, current, TagStack, None);
      var (s1, z) := ForkStatsZone(s, current, TagStack, None);
      assert forall y :: y in s.zones ==>
        s1.zones[y].hooks == s.zones[y].hooks && Rec(s1, y).(named := map[]) == Rec(s, y).(named := map[]);
      (RegisterTag(s1, z, tag), z)
  }

  /** Labels the record of zone `z` with `tag` and a count of 0, and registers `z` under `tag`. */
  function RegisterTag(s: State, z: ZoneId, tag: string): (r: State)
    requires Valid(s) && z in s.zones
    ensures Valid(r) && r.zones.Keys == s.zones.Keys
    ensures r.tagZones == s.tagZones[tag := z]
    ensures Rec(r, z) == Rec(s, z).(tagName := Some(tag), count := Some(0))
    ensures r.zones[z] == s.zones[z].(stats := Rec(r, z))
    ensures forall y :: y in s.zones && y != z ==> r.zones[y] == s.zones[y]
    ensures r.tagStack == s.tagStack && r.callbackStack == s.callbackStack
  {
    var s1 := SetRec(s, z, Rec(s, z).(tagName := Some(tag), count := Some(0)));
    var r := s1.(tagZones := s1.tagZones[tag := z]);
    RecordLabelKeepsValid(s, r, z);
    r
  }

  /**
   GetTagZone adds zones but removes none, never removes or rebinds a known
   tag, adds exactly the new tag, and touches no stack and no timing field.
   */
  lemma GetTagZoneFrame(s: State, current: ZoneId, tag: string)
    requires Valid(s) && current in s.zones
    ensures var (r, z) := GetTagZone(s, current, tag);
      && s.zones.Keys <= r.zones.Keys
      && r.tagZones.Keys == s.tagZones.Keys + {tag}
      && (forall t :: t in s.tagZones ==> r.tagZones[t] == s.tagZones[t])
      && r.tagStack == s.tagStack && r.callbackStack == s.callbackStack
      && (forall y :: y in s.zones ==>
            && r.zones[y].hooks == s.zones[y].hooks
            && Rec(r, y).totalTime == Rec(s, y).totalTime
            && Rec(r, y).startTime == Rec(s, y).startTime)
  {
    if tag !in s.tagZones {
      ForkKeepsValid(s, current, TagStack, None);
      var (s1, z) := ForkStatsZone(s, current, TagStack, None);
      var r := RegisterTag(s1, z, tag);
      assert GetTagZone(s, current, tag) == (r, z);
      UpdateKeys(s.tagZones, tag, z);
      forall y | y in s.zones
        ensures r.zones[y].hooks == s.zones[y].hooks
        ensures Rec(r, y).totalTime == Rec(s, y).totalTime && Rec(r, y).startTime == Rec(s, y).startTime
      {
        if y != current && y != z {
          assert r.zones[y] == s1.zones[y] == s.zones[y];
        }
      }
    }
  }

  /** Binding a key adds it to the keys of a map. */
  lemma UpdateKeys<K, V>(m: map<K, V>, k: K, v: V)
    ensures m[k := v].Keys == m.Keys + {k}
  {
  }

  /**
   The zone a new tag gets is the unnamed child of the current zone: the
   one already cached under "undefined" if there is one (shared with the
   tags registered before from that zone), or else a new zone on the tag
   stack with zeroed times.
   */
  lemma GetTagZoneForksUnnamed(s: State, current: ZoneId, tag: string)
    requires Valid(s) && current in s.zones && tag !in s.tagZones
    ensures var (r, z) := GetTagZone(s, current, tag);
      && ("undefined" in s.zones[current].children ==> z == s.zones[current].children["undefined"])
      && ("undefined" !in s.zones[current].children ==>
            && z !in s.zones && r.zones[z].hooks == Some(TagStack)
            && Rec(r, z).totalTime == 0 && Rec(r, z).startTime == 0)
  {
  }

  /** A zone GetTagZone allocates is not timing. */
  lemma GetTagZoneNewIsIdle(s: State, current: ZoneId, tag: string, r: State)
    requires Valid(s) && current in s.zones && r == GetTagZone(s, current, tag).0
    ensures forall y :: y in r.zones && y !in s.zones ==> Rec(r, y).startTime == 0
  {
    if tag !in s.tagZones {
      ForkKeepsValid(s, current, TagStack, None);
      var f := ForkStatsZone(s, current, TagStack, None);
      assert r == RegisterTag(f.0, f.1, tag);
      assert r.zones.Keys == f.0.zones.Keys;
      if "undefined" in s.zones[current].children {
        assert f.0 == s;
      } else {
        assert f.0.zones.Keys == s.zones.Keys + {f.1};
        assert Rec(r, f.1).startTime == Rec(f.0, f.1).startTime == 0;
      }
    }
  }

  /** Relabelling one record and registering its zone keeps the heap well formed. */
  lemma RecordLabelKeepsValid(s: State, r: State, z: ZoneId)
    requires Valid(s) && z in s.zones
    requires r.zones.Keys == s.zones.Keys && r.next == s.next
    requires r.tagStack == s.tagStack && r.callbackStack == s.callbackStack
    requires forall y :: y in s.zones && y != z ==> r.zones[y] == s.zones[y]
    requires r.zones[z].hooks == s.zones[z].hooks && r.zones[z].children == s.zones[z].children
    requires Rec(r, z).named == Rec(s, z).named && Rec(r, z).count.Some?
    requires forall t :: t in r.tagZones ==> t in s.tagZones || r.tagZones[t] == z
    requires forall t :: t in r.tagZones && t in s.tagZones && r.tagZones[t] != z ==> r.tagZones[t] == s.tagZones[t]
    ensures Valid(r)
  {
    assert forall i :: 0 <= i < |s.tagStack| ==> OnStack(s, s.tagStack[i], TagStack);
    assert forall i :: 0 <= i < |s.callbackStack| ==> OnStack(s, s.callbackStack[i], CallbackStack);
    forall t | t in r.tagZones
      ensures r.tagZones[t] in r.zones && r.zones[r.tagZones[t]].stats.count.Some?
    {
      if r.tagZones[t] != z {
        assert t in s.tagZones;
      }
    }
  }

  /** Asking twice for the same tag, from any zone, yields the same zone and no further change. */
  lemma GetTagZoneIsStable(s: State, current: ZoneId, later: ZoneId, tag: string)
    requires Valid(s) && current in s.zones && later in s.zones
    ensures var (s1, z) := GetTagZone(s, current, tag);
            later in s1.zones && GetTagZone(s1, later, tag) == (s1, z)
  {
  }

  /**
   The unnamed-fork quirk: from the initial state, tags "x-a" and then "x-b"
   met in the root zone share one zone; "x-b" relabels it, and gathering
   stats afterwards sees one record under both tags.
   */
  lemma DistinctTagsShareAZone()
    ensures var (s1, a) := GetTagZone(Init(), Root, "x-a");
            var (s2, b) := GetTagZone(s1, Root, "x-b");
            && a == b
            && s2.tagZones == map["x-a" := a, "x-b" := a]
            && Rec(s2, a).tagName == Some("x-b")
  {
    var (s1, a) := GetTagZone(Init(), Root, "x-a");
    assert "undefined" in s1.zones[Root].children;
  }

  /** Labelling a tag zone touches no timing field and no stack, so the timing invariant is kept. */
  lemma GetTagZoneKeepsTiming(s: State, current: ZoneId, tag: string)
    requires TimingInvariant(s) && current in s.zones
    ensures TimingInvariant(GetTagZone(s, current, tag).0)
  {
    var r := GetTagZone(s, current, tag).0;
    GetTagZoneFrame(s, current, tag);
    GetTagZoneNewIsIdle(s, current, tag, r);
    TimingFrame(s, r, TagStack);
    TimingFrame(s, r, CallbackStack);
  }

  /** GetTagZone keeps the aliasing of exposed records. */
  lemma GetTagZoneKeepsAliased(s: State, current: ZoneId, tag: string)
    requires Valid(s) && current in s.zones && Aliased(s)
    ensures Aliased(GetTagZone(s, current, tag).0)
  {
    if tag !in s.tagZones {
      ForkKeepsAliased(s, current, TagStack, None);
      var (s1, z) := ForkStatsZone(s, current, TagStack, None);
      var r := GetTagZone(s, current, tag).0;
      forall y | y in r.zones ensures ZoneAliased(r.zones[y]) {
        assert ZoneAliased(s1.zones[y]);
      }
    }
  }

  // ----- registerElement: which callbacks are wrapped, in which zone -----

  /** Which of the wrappable members the element prototype has. */
  datatype Proto = Proto(
    createdCallback: bool,
    attachedCallback: bool,
    detachedCallback: bool,
    attributeChangedCallback: bool,
    propertySetter: bool,
    notifyPath: bool)

  /**
   The outcome of registering a tag: its tag zone, the zone each present
   callback is now bound to (None for an absent one, which is left as it
   was), the register zone, and whether the host registration runs inside
   the register zone (it does unless that zone is already the current one).
   */
  datatype Wrapping = Wrapping(
    tagZone: ZoneId,
    created: Option<ZoneId>,
    attached: Option<ZoneId>,
    detached: Option<ZoneId>,
    attributeChanged: Option<ZoneId>,
    propertySetter: Option<ZoneId>,
    notifyPath: Option<ZoneId>,
    register: ZoneId,
    runsInRegister: bool)

  /** The named child zones a registration asks the tag zone for, given the prototype. */
  function WantedScopes(p: Proto): set<string> {
    {"register"}
      + (if p.createdCallback then {"created"} else {})
      + (if p.attachedCallback then {"attached"} else {})
      + (if p.detachedCallback then {"detached"} else {})
      + (if p.attributeChangedCallback then {"attributeChanged"} else {})
      + (if p.propertySetter || p.notifyPath then {"data"} else {})
  }

  /** The children of `z` in `s`, none if `z` is not yet allocated. */
  function ChildrenOf(s: State, z: ZoneId): map<string, ZoneId> {
    if z in s.zones then s.zones[z].children else map[]
  }

  /** Forks the named callback-stack child `name` of `tz` when `present`. */
  function ForkIf(s: State, tz: ZoneId, present: bool, name: string): (r: (State, Option<ZoneId>))
    requires Valid(s) && tz in s.zones
    ensures Valid(r.0) && tz in r.0.zones && r.0.tagZones == s.tagZones
    ensures r.1.Some? <==> present
    // a scope not yet cached is a new zone on the callback stack
    ensures present && name !in ChildrenOf(s, tz) ==>
      r.1.value in r.0.zones && r.1.value !in s.zones && r.0.zones[r.1.value].hooks == Some(CallbackStack)
    // a cached scope is reused and nothing changes
    ensures present && name in ChildrenOf(s, tz) ==> r == (s, Some(ChildrenOf(s, tz)[name]))
    // the tag zone's record changes at most in the names it exposes
    ensures Rec(r.0, tz).(named := map[]) == Rec(s, tz).(named := map[])
  {
    if present then
      ForkKeepsValid(s, tz, CallbackStack, Some(name));
      var (s1, z) := ForkStatsZone(s, tz, CallbackStack, Some(name));
      (s1, Some(z))
    else
      (s, None)
  }

  /**
   A present member gets the child of `tz` cached under its name; the
   children of `tz` grow by that one name and keep their earlier entries.
   */
  lemma ForkIfChildren(s: State, tz: ZoneId, present: bool, name: string)
    requires Valid(s) && tz in s.zones
    ensures var (r, o) := ForkIf(s, tz, present, name);
      && (present ==> name in ChildrenOf(r, tz) && ChildrenOf(r, tz)[name] == o.value)
      && (forall key :: key in ChildrenOf(s, tz) ==> key in ChildrenOf(r, tz) && ChildrenOf(r, tz)[key] == ChildrenOf(s, tz)[key])
  {
    ForkIfKeys(s, tz, present, name);
  }

  /** ForkIf adds the scope's name to the tag zone's children exactly when the callback is present. */
  lemma ForkIfKeys(s: State, tz: ZoneId, present: bool, name: string)
    requires Valid(s) && tz in s.zones
    ensures ChildrenOf(ForkIf(s, tz, present, name).0, tz).Keys
         == ChildrenOf(s, tz).Keys + (if present then {name} else {})
  {
  }

  /**
   The selection logic of the registerElement replacement: get the tag
   zone, then fork its callback scopes (ForkScopes).
   */
  function RegisterElement(s: State, current: ZoneId, tag: string, p: Proto): (r: (State, Wrapping))
    requires Valid(s) && current in s.zones
    ensures Valid(r.0)
    ensures tag in r.0.tagZones && r.0.tagZones[tag] == r.1.tagZone && r.1.tagZone in r.0.zones
    // exactly the present callbacks are wrapped
    ensures r.1.created.Some? <==> p.createdCallback
    ensures r.1.attached.Some? <==> p.attachedCallback
    ensures r.1.detached.Some? <==> p.detachedCallback
    ensures r.1.attributeChanged.Some? <==> p.attributeChangedCallback
    ensures r.1.propertySetter.Some? <==> p.propertySetter
    ensures r.1.notifyPath.Some? <==> p.notifyPath
    // both data members share the data scope
    ensures p.propertySetter && p.notifyPath ==> r.1.propertySetter == r.1.notifyPath
    ensures r.1.runsInRegister <==> current != r.1.register
    // a tag seen for the first time is labelled with its name and a count of 0
    ensures tag !in s.tagZones ==>
      Rec(r.0, r.1.tagZone).tagName == Some(tag) && Rec(r.0, r.1.tagZone).count == Some(0)
  {
    var g := GetTagZone(s, current, tag);
    ForkScopes(g.0, g.1, current, p)
  }

  /**
   Forks, under the tag zone `tz` and on the callback stack, the
   created/attached/detached/attributeChanged scopes for the callbacks the
   prototype has, the data scope if it has a property setter or notifyPath
   (both bound to that one scope), and always the register scope.
   */
  function ForkScopes(s: State, tz: ZoneId, current: ZoneId, p: Proto): (r: (State, Wrapping))
    requires Valid(s) && tz in s.zones
    ensures Valid(r.0) && r.0.tagZones == s.tagZones && r.1.tagZone == tz && tz in r.0.zones
    ensures r.1.created.Some? <==> p.createdCallback
    ensures r.1.attached.Some? <==> p.attachedCallback
    ensures r.1.detached.Some? <==> p.detachedCallback
    ensures r.1.attributeChanged.Some? <==> p.attributeChangedCallback
    ensures r.1.propertySetter.Some? <==> p.propertySetter
    ensures r.1.notifyPath.Some? <==> p.notifyPath
    ensures p.propertySetter && p.notifyPath ==> r.1.propertySetter == r.1.notifyPath
    ensures r.1.runsInRegister <==> current != r.1.register
    ensures Rec(r.0, tz).(named := map[]) == Rec(s, tz).(named := map[])
  {
    var f1 := ForkIf(s, tz, p.createdCallback, "created");
    var f2 := ForkIf(f1.0, tz, p.attachedCallback, "attached");
    var f3 := ForkIf(f2.0, tz, p.detachedCallback, "detached");
    var f4 := ForkIf(f3.0, tz, p.attributeChangedCallback, "attributeChanged");
    var f5 := ForkIf(f4.0, tz, p.propertySetter || p.notifyPath, "data");
    var f6 := ForkIf(f5.0, tz, true, "register");
    var w := Wrapping(tz, f1.1, f2.1, f3.1, f4.1,
                      if p.propertySetter then f5.1 else None,
                      if p.notifyPath then f5.1 else None,
                      f6.1.value, current != f6.1.value);
    (f6.0, w)
  }

  /**
   Every wrapper of `w` runs in the tag zone's child of the callback's name
   (the data members in the "data" child, the host registration in the
   "register" child).
   */
  predicate UsesNamedScopes(r: State, w: Wrapping) {
    var c := ChildrenOf(r, w.tagZone);
    && (w.created.Some? ==> "created" in c && c["created"] == w.created.value)
    && (w.attached.Some? ==> "attached" in c && c["attached"] == w.attached.value)
    && (w.detached.Some? ==> "detached" in c && c["detached"] == w.detached.value)
    && (w.attributeChanged.Some? ==> "attributeChanged" in c && c["attributeChanged"] == w.attributeChanged.value)
    && (w.propertySetter.Some? ==> "data" in c && c["data"] == w.propertySetter.value)
    && (w.notifyPath.Some? ==> "data" in c && c["data"] == w.notifyPath.value)
    && "register" in c && c["register"] == w.register
  }

  /** Every wrapper ForkScopes hands out runs in the tag zone's child of the callback's name. */
  lemma ForkScopesUsesNamedScopes(s: State, tz: ZoneId, current: ZoneId, p: Proto)
    requires Valid(s) && tz in s.zones
    ensures UsesNamedScopes(ForkScopes(s, tz, current, p).0, ForkScopes(s, tz, current, p).1)
  {
    var f1 := ForkIf(s, tz, p.createdCallback, "created");
    var f2 := ForkIf(f1.0, tz, p.attachedCallback, "attached");
    var f3 := ForkIf(f2.0, tz, p.detachedCallback, "detached");
    var f4 := ForkIf(f3.0, tz, p.attributeChangedCallback, "attributeChanged");
    var f5 := ForkIf(f4.0, tz, p.propertySetter || p.notifyPath, "data");
    ForkIfChildren(s, tz, p.createdCallback, "created");
    ForkIfChildren(f1.0, tz, p.attachedCallback, "attached");
    ForkIfChildren(f2.0, tz, p.detachedCallback, "detached");
    ForkIfChildren(f3.0, tz, p.attributeChangedCallback, "attributeChanged");
    ForkIfChildren(f4.0, tz, p.propertySetter || p.notifyPath, "data");
    ForkIfChildren(f5.0, tz, true, "register");
  }

  /** Every wrapper a registration hands out runs in the tag zone's child of the callback's name. */
  lemma RegisterUsesNamedScopes(s: State, current: ZoneId, tag: string, p: Proto)
    requires Valid(s) && current in s.zones
    ensures UsesNamedScopes(RegisterElement(s, current, tag, p).0, RegisterElement(s, current, tag, p).1)
  {
    var g := GetTagZone(s, current, tag);
    ForkScopesUsesNamedScopes(g.0, g.1, current, p);
  }

  /** The children ForkScopes adds to the tag zone are exactly the wanted scopes. */
  lemma ForkScopesAddsOnlyWanted(s: State, tz: ZoneId, current: ZoneId, p: Proto)
    requires Valid(s) && tz in s.zones
    ensures ChildrenOf(ForkScopes(s, tz, current, p).0, tz).Keys == ChildrenOf(s, tz).Keys + WantedScopes(p)
  {
    var f1 := ForkIf(s, tz, p.createdCallback, "created");
    var f2 := ForkIf(f1.0, tz, p.attachedCallback, "attached");
    var f3 := ForkIf(f2.0, tz, p.detachedCallback, "detached");
    var f4 := ForkIf(f3.0, tz, p.attributeChangedCallback, "attributeChanged");
    var f5 := ForkIf(f4.0, tz, p.propertySetter || p.notifyPath, "data");
    var f6 := ForkIf(f5.0, tz, true, "register");
    ForkIfKeys(s, tz, p.createdCallback, "created");
    ForkIfKeys(f1.0, tz, p.attachedCallback, "attached");
    ForkIfKeys(f2.0, tz, p.detachedCallback, "detached");
    ForkIfKeys(f3.0, tz, p.attributeChangedCallback, "attributeChanged");
    ForkIfKeys(f4.0, tz, p.propertySetter || p.notifyPath, "data");
    ForkIfKeys(f5.0, tz, true, "register");
    AddedInTurn(ChildrenOf(s, tz).Keys, ChildrenOf(f1.0, tz).Keys, ChildrenOf(f2.0, tz).Keys, ChildrenOf(f3.0, tz).Keys,
                ChildrenOf(f4.0, tz).Keys, ChildrenOf(f5.0, tz).Keys, ChildrenOf(f6.0, tz).Keys, p);
  }

  /** A fork done by ForkIf keeps the timing invariants: the new zone is not timing. */
  lemma ForkIfKeepsTiming(s: State, tz: ZoneId, present: bool, name: string)
    requires TimingInvariant(s) && tz in s.zones
    ensures TimingInvariant(ForkIf(s, tz, present, name).0)
  {
    if present {
      var r := ForkIf(s, tz, present, name).0;
      assert r == ForkStatsZone(s, tz, CallbackStack, Some(name)).0;
      assert forall y :: y in r.zones && y !in s.zones ==> Rec(r, y).startTime == 0;
      TimingFrame(s, r, TagStack);
      TimingFrame(s, r, CallbackStack);
    }
  }

  /** A fork done by ForkIf keeps the aliasing of exposed records. */
  lemma ForkIfKeepsAliased(s: State, tz: ZoneId, present: bool, name: string)
    requires Valid(s) && tz in s.zones && Aliased(s)
    ensures Aliased(ForkIf(s, tz, present, name).0)
  {
    if present {
      ForkKeepsAliased(s, tz, CallbackStack, Some(name));
    }
  }

  /** Registering an element keeps the timing invariants of both stacks. */
  lemma RegisterKeepsTiming(s: State, current: ZoneId, tag: string, p: Proto)
    requires TimingInvariant(s) && current in s.zones
    ensures TimingInvariant(RegisterElement(s, current, tag, p).0)
  {
    var g := GetTagZone(s, current, tag);
    GetTagZoneKeepsTiming(s, current, tag);
    ForkScopesKeepsTiming(g.0, g.1, current, p);
  }

  /** Forking the callback scopes keeps the timing invariants. */
  lemma ForkScopesKeepsTiming(s: State, tz: ZoneId, current: ZoneId, p: Proto)
    requires TimingInvariant(s) && tz in s.zones
    ensures TimingInvariant(ForkScopes(s, tz, current, p).0)
  {
    var f1 := ForkIf(s, tz, p.createdCallback, "created");
    var f2 := ForkIf(f1.0, tz, p.attachedCallback, "attached");
    var f3 := ForkIf(f2.0, tz, p.detachedCallback, "detached");
    var f4 := ForkIf(f3.0, tz, p.attributeChangedCallback, "attributeChanged");
    var f5 := ForkIf(f4.0, tz, p.propertySetter || p.notifyPath, "data");
    ForkIfKeepsTiming(s, tz, p.createdCallback, "created");
    ForkIfKeepsTiming(f1.0, tz, p.attachedCallback, "attached");
    ForkIfKeepsTiming(f2.0, tz, p.detachedCallback, "detached");
    ForkIfKeepsTiming(f3.0, tz, p.attributeChangedCallback, "attributeChanged");
    ForkIfKeepsTiming(f4.0, tz, p.propertySetter || p.notifyPath, "data");
    ForkIfKeepsTiming(f5.0, tz, true, "register");
  }

  /** Registering an element keeps the aliasing: every named scope it forks is exposed by record. */
  lemma RegisterKeepsAliased(s: State, current: ZoneId, tag: string, p: Proto)
    requires Valid(s) && current in s.zones && Aliased(s)
    ensures Aliased(RegisterElement(s, current, tag, p).0)
  {
    var g := GetTagZone(s, current, tag);
    GetTagZoneKeepsAliased(s, current, tag);
    ForkScopesKeepsAliased(g.0, g.1, current, p);
  }

  /** Forking the callback scopes keeps the aliasing of exposed records. */
  lemma ForkScopesKeepsAliased(s: State, tz: ZoneId, current: ZoneId, p: Proto)
    requires Valid(s) && tz in s.zones && Aliased(s)
    ensures Aliased(ForkScopes(s, tz, current, p).0)
  {
    var f1 := ForkIf(s, tz, p.createdCallback, "created");
    var f2 := ForkIf(f1.0, tz, p.attachedCallback, "attached");
    var f3 := ForkIf(f2.0, tz, p.detachedCallback, "detached");
    var f4 := ForkIf(f3.0, tz, p.attributeChangedCallback, "attributeChanged");
    var f5 := ForkIf(f4.0, tz, p.propertySetter || p.notifyPath, "data");
    ForkIfKeepsAliased(s, tz, p.createdCallback, "created");
    ForkIfKeepsAliased(f1.0, tz, p.attachedCallback, "attached");
    ForkIfKeepsAliased(f2.0, tz, p.detachedCallback, "detached");
    ForkIfKeepsAliased(f3.0, tz, p.attributeChangedCallback, "attributeChanged");
    ForkIfKeepsAliased(f4.0, tz, p.propertySetter || p.notifyPath, "data");
    ForkIfKeepsAliased(f5.0, tz, true, "register");
  }

  /** Adding the scopes one fork at a time adds exactly the wanted scopes. */
  lemma AddedInTurn(k0: set<string>, k1: set<string>, k2: set<string>, k3: set<string>,
                    k4: set<string>, k5: set<string>, k6: set<string>, p: Proto)
    requires k1 == k0 + (if p.createdCallback then {"created"} else {})
    requires k2 == k1 + (if p.attachedCallback then {"attached"} else {})
    requires k3 == k2 + (if p.detachedCallback then {"detached"} else {})
    requires k4 == k3 + (if p.attributeChangedCallback then {"attributeChanged"} else {})
    requires k5 == k4 + (if p.propertySetter || p.notifyPath then {"data"} else {})
    requires k6 == k5 + {"register"}
    ensures k6 == k0 + WantedScopes(p)
  {
  }

  // ----- every callback scope is on the callback stack -----

  /** Every child that `c` caches under a stat name is a zone on the callback stack. */
  predicate CallbackScopes(s: State, c: map<string, ZoneId>) {
    forall n :: n in c && n in StatNames ==> OnStack(s, c[n], CallbackStack)
  }

  /** Every zone's children cached under a stat name are zones on the callback stack. */
  predicate ScopesOnCallbackStack(s: State) {
    forall y :: y in s.zones ==> CallbackScopes(s, s.zones[y].children)
  }

  lemma InitScopesOnCallbackStack()
    ensures ScopesOnCallbackStack(Init())
  {
  }

  /** A change that keeps every zone's hooks and children keeps the callback scopes. */
  lemma StructureKeepsScopes(s: State, r: State)
    requires ScopesOnCallbackStack(s) && r.zones.Keys == s.zones.Keys
    requires forall y :: y in s.zones ==> r.zones[y].hooks == s.zones[y].hooks && r.zones[y].children == s.zones[y].children
    ensures ScopesOnCallbackStack(r)
  {
    forall y | y in r.zones ensures CallbackScopes(r, r.zones[y].children) {
      assert CallbackScopes(s, s.zones[y].children);
    }
  }

  /**
   Adding zones without children, and caching one more child `v` under
   `key` in `parent`, keeps the callback scopes when `v` is on the callback
   stack or `key` is not a stat name.
   */
  lemma ChildAddedKeepsScopes(s: State, r: State, parent: ZoneId, key: string, v: ZoneId)
    requires ScopesOnCallbackStack(s) && parent in s.zones && s.zones.Keys <= r.zones.Keys
    requires forall y :: y in s.zones ==> r.zones[y].hooks == s.zones[y].hooks
    requires forall y :: y in s.zones && y != parent ==> r.zones[y].children == s.zones[y].children
    requires forall y :: y in r.zones && y !in s.zones ==> r.zones[y].children == map[]
    requires r.zones[parent].children == s.zones[parent].children[key := v]
    requires key in StatNames ==> OnStack(r, v, CallbackStack)
    ensures ScopesOnCallbackStack(r)
  {
    forall y | y in r.zones ensures CallbackScopes(r, r.zones[y].children) {
      if y in s.zones {
        assert CallbackScopes(s, s.zones[y].children);
        forall n | n in r.zones[y].children && n in StatNames
          ensures OnStack(r, r.zones[y].children[n], CallbackStack)
        {
          if y != parent || n != key {
            assert r.zones[y].children[n] == s.zones[y].children[n];
          }
        }
      }
    }
  }

  lemma UndefinedIsNoStatName()
    ensures "undefined" !in StatNames
  {
  }

  /** getTagZone adds only an unnamed child, on the tag stack, so the callback scopes stay. */
  lemma GetTagZoneKeepsScopes(s: State, current: ZoneId, tag: string)
    requires Valid(s) && current in s.zones && ScopesOnCallbackStack(s)
    ensures ScopesOnCallbackStack(GetTagZone(s, current, tag).0)
  {
    if tag !in s.tagZones {
      var (s1, z) := ForkStatsZone(s, current, TagStack, None);
      var r := GetTagZone(s, current, tag).0;
      if "undefined" !in s.zones[current].children {
        UndefinedIsNoStatName();
        ChildAddedKeepsScopes(s, r, current, "undefined", z);
      } else {
        StructureKeepsScopes(s, r);
      }
    }
  }

  /** A callback-scope fork keeps the callback scopes: the new zone is on the callback stack. */
  lemma ForkIfKeepsScopes(s: State, tz: ZoneId, present: bool, name: string)
    requires Valid(s) && tz in s.zones && ScopesOnCallbackStack(s)
    ensures ScopesOnCallbackStack(ForkIf(s, tz, present, name).0)
  {
    if present && name !in ChildrenOf(s, tz) {
      var (r, o) := ForkIf(s, tz, present, name);
      assert (r, o.value) == ForkStatsZone(s, tz, CallbackStack, Some(name));
      ChildAddedKeepsScopes(s, r, tz, name, o.value);
    }
  }

  /** Forking all callback scopes keeps the callback scopes. */
  lemma ForkScopesKeepsScopes(s: State, tz: ZoneId, current: ZoneId, p: Proto)
    requires Valid(s) && tz in s.zones && ScopesOnCallbackStack(s)
    ensures ScopesOnCallbackStack(ForkScopes(s, tz, current, p).0)
  {
    var f1 := ForkIf(s, tz, p.createdCallback, "created");
    var f2 := ForkIf(f1.0, tz, p.attachedCallback, "attached");
    var f3 := ForkIf(f2.0, tz, p.detachedCallback, "detached");
    var f4 := ForkIf(f3.0, tz, p.attributeChangedCallback, "attributeChanged");
    var f5 := ForkIf(f4.0, tz, p.propertySetter || p.notifyPath, "data");
    ForkIfKeepsScopes(s, tz, p.createdCallback, "created");
    ForkIfKeepsScopes(f1.0, tz, p.attachedCallback, "attached");
    ForkIfKeepsScopes(f2.0, tz, p.detachedCallback, "detached");
    ForkIfKeepsScopes(f3.0, tz, p.attributeChangedCallback, "attributeChanged");
    ForkIfKeepsScopes(f4.0, tz, p.propertySetter || p.notifyPath, "data");
    ForkIfKeepsScopes(f5.0, tz, true, "register");
  }

  /** Registering an element keeps the callback scopes. */
  lemma RegisterKeepsScopes(s: State, current: ZoneId, tag: string, p: Proto)
    requires Valid(s) && current in s.zones && ScopesOnCallbackStack(s)
    ensures ScopesOnCallbackStack(RegisterElement(s, current, tag, p).0)
  {
    var g := GetTagZone(s, current, tag);
    GetTagZoneKeepsScopes(s, current, tag);
    ForkScopesKeepsScopes(g.0, g.1, current, p);
  }

  /** Every zone a wrapper of `w` runs in is a zone on the callback stack. */
  predicate OnCallbackStack(r: State, w: Wrapping) {
    && (w.created.Some? ==> OnStack(r, w.created.value, CallbackStack))
    && (w.attached.Some? ==> OnStack(r, w.attached.value, CallbackStack))
    && (w.detached.Some? ==> OnStack(r, w.detached.value, CallbackStack))
    && (w.attributeChanged.Some? ==> OnStack(r, w.attributeChanged.value, CallbackStack))
    && (w.propertySetter.Some? ==> OnStack(r, w.propertySetter.value, CallbackStack))
    && (w.notifyPath.Some? ==> OnStack(r, w.notifyPath.value, CallbackStack))
    && OnStack(r, w.register, CallbackStack)
  }

  /** Wrappers bound to the stat-named children of a zone run on the callback stack. */
  lemma NamedScopesOnCallbackStack(r: State, w: Wrapping)
    requires ScopesOnCallbackStack(r) && w.tagZone in r.zones && UsesNamedScopes(r, w)
    ensures OnCallbackStack(r, w)
  {
    assert CallbackScopes(r, r.zones[w.tagZone].children);
    assert ChildrenOf(r, w.tagZone) == r.zones[w.tagZone].children;
    assert "created" in StatNames && "attached" in StatNames && "detached" in StatNames;
    assert "attributeChanged" in StatNames && "data" in StatNames && "register" in StatNames;
  }

  /**
   Every callback a registration wraps, and the host registration, runs in
   a zone on the callback stack.
   */
  lemma RegisterBindsCallbackStack(s: State, current: ZoneId, tag: string, p: Proto)
    requires Valid(s) && current in s.zones && ScopesOnCallbackStack(s)
    ensures OnCallbackStack(RegisterElement(s, current, tag, p).0, RegisterElement(s, current, tag, p).1)
  {
    var (r, w) := RegisterElement(s, current, tag, p);
    RegisterKeepsScopes(s, current, tag, p);
    RegisterUsesNamedScopes(s, current, tag, p);
    NamedScopesOnCallbackStack(r, w);
  }
}
