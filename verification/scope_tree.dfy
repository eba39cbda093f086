/**
 The scope tree of element-zones: zones (measurement scopes) keyed under
 their parent by name, each with one stats record.

 Zones live in a heap `zones` indexed by `ZoneId`. A zone is given its stats
 record once, when it is forked, and the record is never replaced, so the
 record of zone `z` is `zones[z].stats`. A parent that exposes a named child's
 record (`parent.stats[name] = child.stats`) stores the child's id in
 `stats.named[name]`: reading through it reaches the very same record.
 */
module ScopeTree {
  import opened Wrappers

  type ZoneId = nat

  /** The zone.js root zone, the parent of the first tag zones. */
  const Root: ZoneId := 0

  /** The two stacks a zone's hooks can close over. */
  datatype StackKind = TagStack | CallbackStack

  /**
   A stats record. `startTime == 0` means "not timing"; otherwise it is the
   clock reading at which the current stretch of timing began. `count` and
   `tagName` are present only on tag zones' records, `named` holds the named
   child records the parent exposes.
   */
  datatype Stats = Stats(
    totalTime: int,
    startTime: nat,
    count: Option<nat>,
    tagName: Option<string>,
    named: map<string, ZoneId>)

  /**
   A zone. `hooks` names the stack its enter/exit hooks push onto and pop
   from; the root zone has no such hooks. `children` is the parent's cache of
   forked stats zones, keyed by the JavaScript property key of the name.
   */
  datatype Zone = Zone(
    name: Option<string>,
    hooks: Option<StackKind>,
    children: map<string, ZoneId>,
    stats: Stats)

  /**
   The whole instrumentation state: the zone heap with its next free id, the
   registry from tag name to tag zone, and the two stacks of active zones.
   */
  datatype State = State(
    zones: map<ZoneId, Zone>,
    next: ZoneId,
    tagZones: map<string, ZoneId>,
    tagStack: seq<ZoneId>,
    callbackStack: seq<ZoneId>)

  /** The named child records that a reset visits, in the order it visits them. */
  const StatNames: seq<string> :=
    ["register", "created", "attached", "detached", "attributeChanged", "data"]

  /** The record a freshly forked zone starts with. */
  const FreshStats: Stats := Stats(0, 0, None, None, map[])

  /** The state when the script starts: only the root zone, empty registry and stacks. */
  function Init(): (s: State)
    ensures Valid(s) && Aliased(s)
    ensures s.zones.Keys == {Root} && s.tagZones == map[]
    ensures s.tagStack == [] && s.callbackStack == []
  {
    State(map[Root := Zone(None, None, map[], FreshStats)], Root + 1, map[], [], [])
  }

  /**
   The property key a name is stored under in a plain object: a missing name
   is the key "undefined", as JavaScript converts `undefined` to a string.
   */
  function KeyOf(name: Option<string>): (key: string)
    ensures name.Some? ==> key == name.value
  {
    match name
    case Some(n) => n
    case None => "undefined"
  }

  /** JavaScript truthiness of a name: present and not the empty string. */
  predicate IsNamed(name: Option<string>) {
    name.Some? && name.value != ""
  }

  /** True if `z` is a zone with stats hooks bound to stack `k`. */
  predicate OnStack(s: State, z: ZoneId, k: StackKind) {
    z in s.zones && s.zones[z].hooks == Some(k)
  }

  /** The stack of kind `k`. */
  function Stack(s: State, k: StackKind): seq<ZoneId> {
    match k
    case TagStack => s.tagStack
    case CallbackStack => s.callbackStack
  }

  /** `s` with the stack of kind `k` replaced by `st`. */
  function WithStack(s: State, k: StackKind, st: seq<ZoneId>): (r: State)
    ensures Stack(r, k) == st
    ensures forall k' :: k' != k ==> Stack(r, k') == Stack(s, k')
    ensures r.zones == s.zones && r.next == s.next && r.tagZones == s.tagZones
  {
    match k
    case TagStack => s.(tagStack := st)
    case CallbackStack => s.(callbackStack := st)
  }

  /**
   Well-formedness of the heap: every id the state refers to is allocated,
   ids are below `next`, tag zones carry a count, and every stack holds zones
   whose hooks are bound to that stack.
   */
  predicate Valid(s: State) {
    && Root in s.zones
    && (forall z :: z in s.zones ==> z < s.next && Closed(s.zones.Keys, s.zones[z]))
    && (forall t :: t in s.tagZones ==>
          s.tagZones[t] in s.zones && s.zones[s.tagZones[t]].stats.count.Some?)
    && (forall i :: 0 <= i < |s.tagStack| ==> OnStack(s, s.tagStack[i], TagStack))
    && (forall i :: 0 <= i < |s.callbackStack| ==> OnStack(s, s.callbackStack[i], CallbackStack))
  }

  /** Every zone that `zn` caches or exposes is among `ids`. */
  predicate Closed(ids: set<ZoneId>, zn: Zone) {
    zn.children.Values <= ids && zn.stats.named.Values <= ids
  }

  /** The record of zone `z`. */
  function Rec(s: State, z: ZoneId): Stats
    requires z in s.zones
  {
    s.zones[z].stats
  }

  /** `s` with the record of zone `z` replaced by `st`; nothing else changes. */
  function SetRec(s: State, z: ZoneId, st: Stats): (r: State)
    requires z in s.zones
    ensures r.zones.Keys == s.zones.Keys && Rec(r, z) == st
    ensures r.zones[z] == s.zones[z].(stats := st)
    ensures forall y :: y in s.zones && y != z ==> r.zones[y] == s.zones[y]
    ensures r.next == s.next && r.tagZones == s.tagZones
    ensures r.tagStack == s.tagStack && r.callbackStack == s.callbackStack
  {
    s.(zones := s.zones[z := s.zones[z].(stats := st)])
  }

  /** A zone with the two timing fields of its record blanked out. */
  function Shape(z: Zone): Zone {
    z.(stats := z.stats.(totalTime := 0, startTime := 0))
  }

  /**
   `r` differs from `s` at most in the two timing fields of records: the
   zones, their names, hooks, child caches, counts, tag names and exposed named
   records are all the same, and so is the tag registry.
   */
  predicate SameShape(s: State, r: State) {
    && r.zones.Keys == s.zones.Keys
    && r.next == s.next
    && r.tagZones == s.tagZones
    && (forall y :: y in s.zones ==> Shape(r.zones[y]) == Shape(s.zones[y]))
  }

  /**
   The aliasing between a parent's exposed named records and its child
   cache: every exposed name is the key of the very child it exposes, and
   every cached child whose key is a truthy name other than "undefined" is
   exposed under it.
   */
  predicate Aliased(s: State) {
    forall y :: y in s.zones ==> ZoneAliased(s.zones[y])
  }

  predicate ZoneAliased(z: Zone) {
    && (forall n :: n in z.stats.named ==> n in z.children && z.children[n] == z.stats.named[n])
    && (forall key :: key in z.children && key != "undefined" && key != "" ==>
          key in z.stats.named && z.stats.named[key] == z.children[key])
  }

  /** Changes to timing fields alone keep the aliasing. */
  lemma SameShapeKeepsAliased(s: State, r: State)
    requires SameShape(s, r) && Aliased(s)
    ensures Aliased(r)
  {
    forall y | y in r.zones ensures ZoneAliased(r.zones[y]) {
      assert Shape(r.zones[y]) == Shape(s.zones[y]);
      assert ZoneAliased(s.zones[y]);
    }
  }

  /**
   forkStatsZone: the stats zone cached under `parent` for `name`, created
   (with hooks on stack `k` and a zeroed record) if the parent has none yet.
   A new zone with a truthy name is also exposed as `parent.stats[name]`.
   Returns the new state and the zone.
   */
  function ForkStatsZone(s: State, parent: ZoneId, k: StackKind, name: Option<string>): (r: (State, ZoneId))
    requires Valid(s) && parent in s.zones
    ensures r.1 in r.0.zones && s.zones.Keys <= r.0.zones.Keys
    // memoised: an existing child is returned and nothing changes
    ensures KeyOf(name) in s.zones[parent].children ==>
      r.0 == s && r.1 == s.zones[parent].children[KeyOf(name)]
    // otherwise a brand-new zone, cached under the parent and, if named, exposed by it
    ensures KeyOf(name) !in s.zones[parent].children ==>
      r.1 !in s.zones && r.0.zones.Keys == s.zones.Keys + {r.1}
    ensures KeyOf(name) !in s.zones[parent].children ==>
      r.0.zones[r.1] == Zone(if IsNamed(name) then name else None, Some(k), map[], FreshStats)
    ensures KeyOf(name) !in s.zones[parent].children ==>
      r.0.zones[parent].children == s.zones[parent].children[KeyOf(name) := r.1]
    ensures KeyOf(name) !in s.zones[parent].children ==>
      r.0.zones[parent].stats.named ==
        (if IsNamed(name) then Rec(s, parent).named[name.value := r.1] else Rec(s, parent).named)
    ensures KeyOf(name) !in s.zones[parent].children ==>
      && r.0.zones[parent].stats == Rec(s, parent).(named := r.0.zones[parent].stats.named)
      && r.0.zones[parent].hooks == s.zones[parent].hooks
      && r.0.zones[parent].name == s.zones[parent].name
    ensures forall y :: y in s.zones && y != parent ==> r.0.zones[y] == s.zones[y]
    ensures r.0.tagZones == s.tagZones
    ensures r.0.tagStack == s.tagStack && r.0.callbackStack == s.callbackStack
  {
    var key := KeyOf(name);
    var p := s.zones[parent];
    if key in p.children then
      (s, p.children[key])
    else
      var z := s.next;
      var child := Zone(if IsNamed(name) then name else None, Some(k), map[], FreshStats);
      var named := if IsNamed(name) then p.stats.named[name.value := z] else p.stats.named;
      var p' := p.(children := p.children[key := z], stats := p.stats.(named := named));
      (s.(zones := s.zones[parent := p'][z := child], next := s.next + 1), z)
  }

  /** Forking keeps the heap well formed. */
  lemma ForkKeepsValid(s: State, parent: ZoneId, k: StackKind, name: Option<string>)
    requires Valid(s) && parent in s.zones
    ensures Valid(ForkStatsZone(s, parent, k, name).0)
  {
    var (r, z) := ForkStatsZone(s, parent, k, name);
    if KeyOf(name) !in s.zones[parent].children {
      assert z == s.next;
      forall y | y in r.zones
        ensures y < r.next && Closed(r.zones.Keys, r.zones[y])
      {
        if y != parent && y != z {
          assert r.zones[y] == s.zones[y];
          assert Closed(s.zones.Keys, s.zones[y]);
        } else if y == parent {
          assert Closed(s.zones.Keys, s.zones[parent]);
        }
      }
      forall t | t in r.tagZones
        ensures r.tagZones[t] in r.zones && r.zones[r.tagZones[t]].stats.count.Some?
      {
        assert s.tagZones[t] in s.zones;
        assert s.tagZones[t] != z;
      }
      forall i | 0 <= i < |r.tagStack| ensures OnStack(r, r.tagStack[i], TagStack) {
        assert OnStack(s, s.tagStack[i], TagStack);
      }
      forall i | 0 <= i < |r.callbackStack| ensures OnStack(r, r.callbackStack[i], CallbackStack) {
        assert OnStack(s, s.callbackStack[i], CallbackStack);
      }
    }
  }

  /**
   A second fork under the same parent and name returns the zone the first
   one returned and leaves the state as the first left it, whatever stack
   the second call names.
   */
  lemma ForkIsMemoised(s: State, parent: ZoneId, k1: StackKind, k2: StackKind, name: Option<string>)
    requires Valid(s) && parent in s.zones
    ensures var (s1, z1) := ForkStatsZone(s, parent, k1, name);
            Valid(s1) && parent in s1.zones && ForkStatsZone(s1, parent, k2, name) == (s1, z1)
  {
    ForkKeepsValid(s, parent, k1, name);
    var (s1, z1) := ForkStatsZone(s, parent, k1, name);
    assert KeyOf(name) in s1.zones[parent].children && s1.zones[parent].children[KeyOf(name)] == z1;
  }

  /**
   After a fork with a truthy name the parent exposes, under that name, the
   record of the returned zone itself (aliasing, not a copy).
   */
  lemma ForkExposesChildRecord(s: State, parent: ZoneId, k: StackKind, name: Option<string>)
    requires Valid(s) && parent in s.zones
    requires IsNamed(name) && KeyOf(name) !in s.zones[parent].children
    ensures var (s1, z) := ForkStatsZone(s, parent, k, name);
            && name.value in Rec(s1, parent).named
            && Rec(s1, parent).named[name.value] == z
            && Rec(s1, z) == Stats(0, 0, None, None, map[])
  {
  }

  /** Forking keeps every parent's exposed records aliased to its cached children. */
  lemma ForkKeepsAliased(s: State, parent: ZoneId, k: StackKind, name: Option<string>)
    requires Valid(s) && parent in s.zones && Aliased(s)
    ensures Aliased(ForkStatsZone(s, parent, k, name).0)
  {
    var (r, z) := ForkStatsZone(s, parent, k, name);
    if KeyOf(name) !in s.zones[parent].children {
      forall y | y in r.zones ensures ZoneAliased(r.zones[y]) {
        if y == parent {
          assert ZoneAliased(s.zones[parent]);
          assert name.Some? && name.value != "undefined" && name.value != "" ==> IsNamed(name);
        } else if y != z {
          assert r.zones[y] == s.zones[y];
          assert ZoneAliased(s.zones[y]);
        }
      }
    }
  }
}
