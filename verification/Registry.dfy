/** The plugin registry (src/plugins/registry.py): lifecycle operations over the entry table, the manifest
    table, the recorded states and the event bus. */
module Registry {
  import opened Common
  import opened CliOptions
  import opened Events

  datatype State = Loaded | Enabled | Disabled | Broken

  datatype Fault = NoFault | Environment | Instantiation | Initialisation | Conflict

  /** A registered plugin; live says that it holds an instance. */
  datatype Entry = Entry(manifest: Manifest, state: State, fault: Fault, live: bool, subs: seq<Subscription>)

  datatype Config = Config(reserved: set<Key>, enabledByDefault: bool)

  /** The fields of the registry and of its bus as one value. */
  datatype Reg = Reg(entries: map<string, Entry>, all: map<string, Manifest>, states: map<string, bool>,
                     bus: seq<Subscription>, serial: nat)

  /** A plugin directory that loaded, with the outcome of setting up its environment. */
  datatype Package = Package(manifest: Manifest, environmentOk: bool)

  /** What the plugin's own code does when it is started. */
  datatype Start = Runs | ConstructorRaises | InitRaises

  /** A returned flag, or the lookup failure of reload when the package came back under another id. */
  datatype Outcome = Returned(ok: bool) | MissingKey

  // ----- conflicts over the manifest table -----

  ghost predicate SharedIn(all: map<string, Manifest>, n: string, k: Key) {
    exists o :: o in all && o != n && k in KeysOf(all[o])
  }

  ghost predicate Conflicted(all: map<string, Manifest>, reserved: set<Key>, n: string) {
    n in all && exists k :: k in KeysOf(all[n]) && (k in reserved || SharedIn(all, n, k))
  }

  ghost predicate IdsMatch(all: map<string, Manifest>) {
    forall n :: n in all ==> all[n].id == n && WellFormed(all[n])
  }

  ghost predicate Lists(ms: seq<Manifest>, all: map<string, Manifest>) {
    forall m :: m in ms <==> m.id in all && all[m.id] == m
  }

  /** Conflicts among the values of the table are conflicts in the table, whatever order they are listed in. */
  lemma TableConflict(all: map<string, Manifest>, ms: seq<Manifest>, reserved: set<Key>, n: string)
    requires IdsMatch(all) && Lists(ms, all) && n in all
    ensures InConflict(ms, reserved, all[n]) <==> Conflicted(all, reserved, n)
  {
    assert all[n] in ms;
    forall k ensures Shared(ms, all[n], k) <==> SharedIn(all, n, k) {
      if Shared(ms, all[n], k) {
        var o :| o in ms && o.id != n && k in KeysOf(o);
        assert all[o.id] == o;
      }
      if SharedIn(all, n, k) {
        var o :| o in all && o != n && k in KeysOf(all[o]);
        assert all[o].id == o && all[o] in ms;
      }
    }
  }

  /** Taking manifests away creates no conflict. */
  lemma FewerFewerConflicts(all: map<string, Manifest>, gone: string, reserved: set<Key>, n: string)
    ensures Conflicted(all - {gone}, reserved, n) ==> Conflicted(all, reserved, n)
  {
    var rest := all - {gone};
    if Conflicted(rest, reserved, n) {
      var k :| k in KeysOf(rest[n]) && (k in reserved || SharedIn(rest, n, k));
      assert k in KeysOf(all[n]);
      if SharedIn(rest, n, k) {
        var o :| o in rest && o != n && k in KeysOf(rest[o]);
        assert o in all && k in KeysOf(all[o]);
        assert SharedIn(all, n, k);
      }
    }
  }

  // ----- the operations -----

  function WantedBy(cfg: Config, states: map<string, bool>, n: string): bool {
    if n in states then states[n] else cfg.enabledByDefault
  }

  function Wanted(cfg: Config, s: Reg, n: string): bool { WantedBy(cfg, s.states, n) }

  function NewEntry(p: Package, wanted: bool): Entry {
    if !p.environmentOk then Entry(p.manifest, Broken, Environment, false, [])
    else Entry(p.manifest, if wanted then Loaded else Disabled, NoFault, false, [])
  }

  /** _register_loaded: a known id is skipped. */
  function Register(cfg: Config, s: Reg, p: Package): Reg {
    var id := p.manifest.id;
    if id in s.entries then s
    else s.(entries := s.entries[id := NewEntry(p, Wanted(cfg, s, id))], all := s.all[id := p.manifest])
  }

  /** One entry under _refresh_conflicts. */
  function Judged(cfg: Config, s: Reg, n: string, e: Entry, conflicted: bool): Entry {
    if conflicted && e.state != Broken then
      Entry(e.manifest, Broken, Conflict, e.live && e.state != Enabled, if e.state == Enabled then [] else e.subs)
    else if !conflicted && e.state == Broken && e.fault == Conflict then
      e.(fault := NoFault, state := if Wanted(cfg, s, n) then Loaded else Disabled)
    else e
  }

  ghost predicate IsStopped(cfg: Config, s: Reg, n: string) {
    n in s.entries && s.entries[n].state == Enabled && Conflicted(s.all, cfg.reserved, n)
  }

  ghost function Stopped(cfg: Config, s: Reg): set<string> {
    set n | n in s.entries && IsStopped(cfg, s, n)
  }

  /** _refresh_conflicts: the running plugins that are in conflict stop, and every entry is judged. */
  ghost function Refresh(cfg: Config, s: Reg): Reg {
    s.(entries := map n | n in s.entries :: Judged(cfg, s, n, s.entries[n], Conflicted(s.all, cfg.reserved, n)),
       bus := Without(s.bus, Stopped(cfg, s)))
  }

  function SubscriptionsFor(patterns: seq<string>, owner: string, serial: nat): seq<Subscription> {
    seq(|patterns|, i requires 0 <= i < |patterns| => Subscription(patterns[i], owner, serial + i))
  }

  /** enable: what start says is what the plugin's constructor, on_init and on_enable do. */
  function Enable(s: Reg, n: string, start: Start): (Reg, bool) {
    if n !in s.entries || s.entries[n].state == Broken then (s, false)
    else if s.entries[n].state == Enabled then (s, true)
    else
      var e := s.entries[n];
      match start
      case ConstructorRaises => (s.(entries := s.entries[n := e.(state := Broken, fault := Instantiation)]), false)
      case InitRaises => (s.(entries := s.entries[n := e.(state := Broken, fault := Initialisation)]), false)
      case Runs =>
        var subs := SubscriptionsFor(e.manifest.events, n, s.serial);
        (s.(entries := s.entries[n := e.(state := Enabled, live := true, subs := e.subs + subs)],
            states := s.states[n := true],
            bus := s.bus + subs,
            serial := s.serial + |subs|),
         true)
  }

  function Disable(s: Reg, n: string): (Reg, bool) {
    if n !in s.entries || s.entries[n].state != Enabled then (s, false)
    else
      (s.(entries := s.entries[n := s.entries[n].(state := Disabled, live := false, subs := [])],
          states := s.states[n := false],
          bus := Without(s.bus, {n})),
       true)
  }

  function Drop(s: Reg, n: string): Reg {
    s.(entries := s.entries - {n}, all := s.all - {n})
  }

  function Park(s: Reg, n: string): Reg
    requires n in s.entries
  {
    s.(entries := s.entries[n := s.entries[n].(state := Disabled)])
  }

  /** The second half of reload, once the directory has loaded again: s has been refreshed. */
  function Resume(s: Reg, n: string, wasEnabled: bool, start: Start): (Reg, Outcome) {
    if wasEnabled then (Enable(s, n, start).0, Returned(Enable(s, n, start).1))
    else if n !in s.entries then (s, MissingKey)
    else if s.entries[n].state == Broken then (s, Returned(true))
    else (Park(s, n), Returned(true))
  }

  /** The first half: stopped when it was running, and out of both tables. */
  function Unload(s: Reg, n: string): Reg { Drop(Disable(s, n).0, n) }

  /** reload; p is what loading the directory again gives. */
  ghost function Reload(cfg: Config, s: Reg, n: string, p: Option<Package>, start: Start): (Reg, Outcome) {
    if n !in s.entries then (s, Returned(false))
    else
      match p
      case None => (Unload(s, n), Returned(false))
      case Some(package) =>
        Resume(Refresh(cfg, Register(cfg, Unload(s, n), package)), n, s.entries[n].state == Enabled, start)
  }

  /** load_dir: the source must load, the target be free, and the copy load. */
  ghost function Install(cfg: Config, s: Reg, loads: bool, occupied: bool, p: Option<Package>): (Reg, Option<string>) {
    if !loads || occupied || p == None then (s, None)
    else (Refresh(cfg, Register(cfg, s, p.value)), Some(p.value.manifest.id))
  }

  ghost function Remove(cfg: Config, s: Reg, n: string): (Reg, bool) {
    if n !in s.entries || s.entries[n].state == Enabled then (s, false)
    else (Refresh(cfg, Drop(s, n)), true)
  }

  // ----- the invariant -----

  function Patterns(subs: seq<Subscription>): seq<string> {
    seq(|subs|, i requires 0 <= i < |subs| => subs[i].pattern)
  }

  ghost predicate EntryOk(s: Reg, n: string)
    requires n in s.entries
  {
    var e := s.entries[n];
    && n in s.all && e.manifest == s.all[n]
    && e.live == (e.state == Enabled)
    && (e.fault == NoFault <==> e.state != Broken)
    && Owned(s.bus, n) == e.subs
    && Patterns(e.subs) == if e.state == Enabled then e.manifest.events else []
  }

  /** Both tables hold the same plugins; an instance exists, and subscriptions to exactly the declared
      patterns are on the bus, for the enabled plugins and for no others. */
  ghost predicate Consistent(s: Reg) {
    && s.entries.Keys == s.all.Keys
    && IdsMatch(s.all)
    && (forall n :: n in s.entries ==> EntryOk(s, n))
    && (forall x :: x in s.bus ==> x.owner in s.entries)
  }

  ghost predicate Unconflicted(cfg: Config, s: Reg) {
    forall n :: n in s.entries && s.entries[n].state != Broken ==> !Conflicted(s.all, cfg.reserved, n)
  }

  ghost predicate Inv(cfg: Config, s: Reg) { Consistent(s) && Unconflicted(cfg, s) }

  lemma {:induction false} OwnedNone(bus: seq<Subscription>, n: string)
    requires forall x :: x in bus ==> x.owner != n
    ensures Owned(bus, n) == []
  {
    if bus != [] {
      assert bus[0] in bus && forall x :: x in bus[1..] ==> x in bus;
      OwnedNone(bus[1..], n);
    }
  }

  lemma RegisterKeeps(cfg: Config, s: Reg, p: Package)
    requires Consistent(s) && WellFormed(p.manifest)
    ensures Consistent(Register(cfg, s, p))
  {
    var id, s' := p.manifest.id, Register(cfg, s, p);
    if id !in s.entries {
      OwnedNone(s.bus, id);
      RegisterTables(cfg, s, p);
      forall n | n in s'.entries ensures EntryOk(s', n) {
        RegisterEntry(cfg, s, p, n);
      }
    }
  }

  lemma RegisterTables(cfg: Config, s: Reg, p: Package)
    requires s.entries.Keys == s.all.Keys && IdsMatch(s.all) && WellFormed(p.manifest)
    ensures var s' := Register(cfg, s, p);
            && s'.entries.Keys == s'.all.Keys && IdsMatch(s'.all) && s'.bus == s.bus
            && s.entries.Keys <= s'.entries.Keys
  {}

  lemma RegisterEntry(cfg: Config, s: Reg, p: Package, n: string)
    requires p.manifest.id !in s.entries && Owned(s.bus, p.manifest.id) == []
    requires n == p.manifest.id || (n in s.entries && EntryOk(s, n))
    ensures EntryOk(Register(cfg, s, p), n)
  {}

  lemma RefreshEntry(cfg: Config, s: Reg, n: string)
    requires Consistent(s) && n in s.entries
    ensures EntryOk(Refresh(cfg, s), n)
  {
    var s' := Refresh(cfg, s);
    assert EntryOk(s, n);
    WithoutOwned(s.bus, Stopped(cfg, s), n);
    assert n in Stopped(cfg, s) <==> IsStopped(cfg, s, n);
    assert s'.entries[n] == Judged(cfg, s, n, s.entries[n], Conflicted(s.all, cfg.reserved, n));
  }

  /** A refresh establishes the whole invariant, from a state in which conflicts may stand. */
  lemma RefreshEstablishes(cfg: Config, s: Reg)
    requires Consistent(s)
    ensures Inv(cfg, Refresh(cfg, s))
  {
    var s' := Refresh(cfg, s);
    forall n | n in s'.entries ensures EntryOk(s', n) {
      RefreshEntry(cfg, s, n);
    }
    forall x | x in s'.bus ensures x.owner in s'.entries {
      WithoutMember(s.bus, Stopped(cfg, s), x);
    }
  }

  lemma EnableEntry(s: Reg, n: string, start: Start, o: string)
    requires n in s.entries && s.entries[n].state in {Loaded, Disabled} && o in s.entries
    requires EntryOk(s, n) && EntryOk(s, o)
    ensures EntryOk(Enable(s, n, start).0, o)
  {
    if start == Runs {
      var subs := SubscriptionsFor(s.entries[n].manifest.events, n, s.serial);
      OwnedAppend(s.bus, subs, o);
      OwnedUniform(subs, o, n);
      PatternsAdded(s.entries[n].subs, s.entries[n].manifest.events, n, s.serial);
    }
  }

  lemma PatternsAdded(none: seq<Subscription>, patterns: seq<string>, owner: string, serial: nat)
    requires Patterns(none) == []
    ensures Patterns(none + SubscriptionsFor(patterns, owner, serial)) == patterns
  {
    assert |Patterns(none)| == |none|;
  }

  /** Only the plugin itself and the bus change, and what is new on the bus is its own. */
  lemma EnableTouches(s: Reg, n: string, start: Start)
    requires n in s.entries && s.entries[n].state in {Loaded, Disabled}
    ensures var s' := Enable(s, n, start).0;
            && s'.all == s.all && s'.entries.Keys == s.entries.Keys
            && forall x :: x in s'.bus ==> x in s.bus || x.owner == n
  {}

  lemma EnableConsistent(s: Reg, n: string, start: Start)
    requires Consistent(s) && n in s.entries && s.entries[n].state in {Loaded, Disabled}
    ensures Consistent(Enable(s, n, start).0)
  {
    EnableTouches(s, n, start);
    forall o | o in s.entries ensures EntryOk(Enable(s, n, start).0, o) {
      EnableEntry(s, n, start, o);
    }
  }

  /** Changing one plugin that is free of conflicts creates none. */
  lemma EnableUnconflicted(cfg: Config, s: Reg, n: string, start: Start)
    requires Unconflicted(cfg, s)
    ensures Unconflicted(cfg, Enable(s, n, start).0)
  {
  }

  lemma EnableKeeps(cfg: Config, s: Reg, n: string, start: Start)
    requires Inv(cfg, s)
    ensures Inv(cfg, Enable(s, n, start).0)
  {
    EnableUnconflicted(cfg, s, n, start);
    if n in s.entries && s.entries[n].state in {Loaded, Disabled} {
      EnableConsistent(s, n, start);
    }
  }

  lemma DisableEntry(s: Reg, n: string, o: string)
    requires n in s.entries && s.entries[n].state == Enabled && o in s.entries
    requires EntryOk(s, n) && EntryOk(s, o)
    ensures EntryOk(Disable(s, n).0, o)
  {
    WithoutOwned(s.bus, {n}, o);
  }

  lemma DisableKeeps(cfg: Config, s: Reg, n: string)
    requires Inv(cfg, s)
    ensures Inv(cfg, Disable(s, n).0)
  {
    if n in s.entries && s.entries[n].state == Enabled {
      var s' := Disable(s, n).0;
      forall o | o in s'.entries ensures EntryOk(s', o) {
        DisableEntry(s, n, o);
      }
      forall x | x in s'.bus ensures x.owner in s'.entries {
        WithoutMember(s.bus, {n}, x);
      }
      assert Unconflicted(cfg, s');
    }
  }

  /** Dropping a plugin that does not run needs no refresh: conflicts can only go away. */
  lemma DropKeeps(cfg: Config, s: Reg, n: string)
    requires Inv(cfg, s) && (n in s.entries ==> s.entries[n].state != Enabled)
    ensures Inv(cfg, Drop(s, n))
  {
    var s' := Drop(s, n);
    forall o | o in s'.entries ensures EntryOk(s', o) {
      assert EntryOk(s, o);
    }
    if n in s.entries { assert EntryOk(s, n); }
    forall x | x in s'.bus ensures x.owner in s'.entries {
      OwnedMember(s.bus, n, x);
    }
    forall o | o in s'.entries && s'.entries[o].state != Broken ensures !Conflicted(s'.all, cfg.reserved, o) {
      FewerFewerConflicts(s.all, n, cfg.reserved, o);
    }
  }

  lemma UnloadKeeps(cfg: Config, s: Reg, n: string)
    requires Inv(cfg, s)
    ensures Inv(cfg, Unload(s, n))
  {
    DisableKeeps(cfg, s, n);
    DropKeeps(cfg, Disable(s, n).0, n);
  }

  lemma ParkEntry(s: Reg, n: string, o: string)
    requires n in s.entries && s.entries[n].state in {Loaded, Disabled} && o in s.entries
    requires EntryOk(s, n) && EntryOk(s, o)
    ensures EntryOk(Park(s, n), o)
  {
  }

  lemma ParkKeeps(cfg: Config, s: Reg, n: string)
    requires Inv(cfg, s) && n in s.entries && s.entries[n].state in {Loaded, Disabled}
    ensures Inv(cfg, Park(s, n))
  {
    var s' := Park(s, n);
    assert s'.all == s.all && s'.bus == s.bus && s'.entries.Keys == s.entries.Keys;
    forall o | o in s'.entries ensures EntryOk(s', o) {
      ParkEntry(s, n, o);
    }
    ParkUnconflicted(cfg, s, n);
  }

  lemma ParkUnconflicted(cfg: Config, s: Reg, n: string)
    requires Unconflicted(cfg, s) && n in s.entries && s.entries[n].state != Broken
    ensures Unconflicted(cfg, Park(s, n))
  {}

  /** After the refresh of a reload the plugin does not run, so that it may be enabled or parked. */
  lemma ResumeKeeps(cfg: Config, s: Reg, n: string, wasEnabled: bool, start: Start)
    requires Inv(cfg, s) && (n in s.entries ==> s.entries[n].state != Enabled)
    ensures Inv(cfg, Resume(s, n, wasEnabled, start).0)
  {
    if wasEnabled {
      EnableKeeps(cfg, s, n, start);
    } else if n in s.entries && s.entries[n].state != Broken {
      ParkKeeps(cfg, s, n);
    }
  }

  lemma RegisteredIdle(cfg: Config, s: Reg, p: Package, n: string)
    requires Consistent(s) && n !in s.entries
    ensures var s' := Refresh(cfg, Register(cfg, s, p));
            n in s'.entries ==> s'.entries[n].state != Enabled
  {
  }

  lemma ReloadKeeps(cfg: Config, s: Reg, n: string, p: Option<Package>, start: Start)
    requires Inv(cfg, s) && (p.Some? ==> WellFormed(p.value.manifest))
    ensures Inv(cfg, Reload(cfg, s, n, p, start).0)
  {
    var unloaded := Unload(s, n);
    UnloadKeeps(cfg, s, n);
    if n in s.entries && p.Some? {
      RegisterKeeps(cfg, unloaded, p.value);
      RefreshEstablishes(cfg, Register(cfg, unloaded, p.value));
      RegisteredIdle(cfg, unloaded, p.value, n);
      ResumeKeeps(cfg, Refresh(cfg, Register(cfg, unloaded, p.value)), n, s.entries[n].state == Enabled, start);
    }
  }

  lemma InstallKeeps(cfg: Config, s: Reg, loads: bool, occupied: bool, p: Option<Package>)
    requires Inv(cfg, s) && (p.Some? ==> WellFormed(p.value.manifest))
    ensures Inv(cfg, Install(cfg, s, loads, occupied, p).0)
  {
    if p.Some? {
      RegisterKeeps(cfg, s, p.value);
      RefreshEstablishes(cfg, Register(cfg, s, p.value));
    }
  }

  lemma RemoveKeeps(cfg: Config, s: Reg, n: string)
    requires Inv(cfg, s)
    ensures Inv(cfg, Remove(cfg, s, n).0)
  {
    if n in s.entries && s.entries[n].state != Enabled {
      DropKeeps(cfg, s, n);
      RefreshEstablishes(cfg, Drop(s, n));
    }
  }

  // ----- every run -----

  datatype Op =
    | DoEnable(name: string, start: Start)
    | DoDisable(name: string)
    | DoReload(name: string, package: Option<Package>, start: Start)
    | DoInstall(loads: bool, occupied: bool, package: Option<Package>)
    | DoRemove(name: string)

  ghost predicate OpOk(op: Op) {
    (op.DoReload? || op.DoInstall?) && op.package.Some? ==> WellFormed(op.package.value.manifest)
  }

  ghost function Apply(cfg: Config, s: Reg, op: Op): Reg {
    match op
    case DoEnable(n, start) => Enable(s, n, start).0
    case DoDisable(n) => Disable(s, n).0
    case DoReload(n, p, start) => Reload(cfg, s, n, p, start).0
    case DoInstall(loads, occupied, p) => Install(cfg, s, loads, occupied, p).0
    case DoRemove(n) => Remove(cfg, s, n).0
  }

  ghost function Run(cfg: Config, s: Reg, ops: seq<Op>): Reg
    decreases |ops|
  {
    if ops == [] then s else Run(cfg, Apply(cfg, s, ops[0]), ops[1..])
  }

  lemma ApplyKeeps(cfg: Config, s: Reg, op: Op)
    requires Inv(cfg, s) && OpOk(op)
    ensures Inv(cfg, Apply(cfg, s, op))
  {
    match op
    case DoEnable(n, start) => EnableKeeps(cfg, s, n, start);
    case DoDisable(n) => DisableKeeps(cfg, s, n);
    case DoReload(n, p, start) => ReloadKeeps(cfg, s, n, p, start);
    case DoInstall(loads, occupied, p) => InstallKeeps(cfg, s, loads, occupied, p);
    case DoRemove(n) => RemoveKeeps(cfg, s, n);
  }

  /** Main result: whatever is installed, enabled, disabled, reloaded and removed, and whatever the plugins'
      own code does when started, the invariant holds after every run. */
  lemma {:induction false} RunKeepsInv(cfg: Config, s: Reg, ops: seq<Op>)
    requires Inv(cfg, s) && forall op :: op in ops ==> OpOk(op)
    ensures Inv(cfg, Run(cfg, s, ops))
    decreases |ops|
  {
    if ops != [] {
      ApplyKeeps(cfg, s, ops[0]);
      RunKeepsInv(cfg, Apply(cfg, s, ops[0]), ops[1..]);
    }
  }

  ghost predicate Called(s: Reg, topic: string, n: string) {
    exists x :: x in Delivered(s.bus, topic) && x.owner == n
  }

  ghost predicate Listens(s: Reg, topic: string, n: string) {
    && n in s.entries && s.entries[n].state == Enabled
    && exists p :: p in s.entries[n].manifest.events && Matches(p, topic)
  }

  lemma PatternOwned(subs: seq<Subscription>, x: Subscription)
    requires x in subs
    ensures x.pattern in Patterns(subs)
  {
    var i :| 0 <= i < |subs| && subs[i] == x;
    assert Patterns(subs)[i] == x.pattern;
  }

  lemma CalledListens(s: Reg, topic: string, n: string)
    requires Consistent(s) && Called(s, topic, n)
    ensures Listens(s, topic, n)
  {
    var x :| x in Delivered(s.bus, topic) && x.owner == n;
    DeliveredMember(s.bus, topic, x);
    OwnedMember(s.bus, n, x);
    assert n in s.entries && EntryOk(s, n);
    PatternOwned(s.entries[n].subs, x);
  }

  lemma OwnsPattern(subs: seq<Subscription>, p: string) returns (x: Subscription)
    requires p in Patterns(subs)
    ensures x in subs && x.pattern == p
  {
    var i :| 0 <= i < |Patterns(subs)| && Patterns(subs)[i] == p;
    x := subs[i];
  }

  lemma ListensCalled(s: Reg, topic: string, n: string)
    requires Consistent(s) && Listens(s, topic, n)
    ensures Called(s, topic, n)
  {
    assert EntryOk(s, n);
    var p :| p in s.entries[n].manifest.events && Matches(p, topic);
    var x := OwnsPattern(s.entries[n].subs, p);
    OwnedMember(s.bus, n, x);
    DeliveredMember(s.bus, topic, x);
  }

  /** What a user sees of it: in every reachable state, publishing a topic calls exactly the enabled plugins
      that declare a matching pattern, and none of those is in conflict. */
  lemma PublishReaches(cfg: Config, s: Reg, topic: string, n: string)
    requires Inv(cfg, s)
    ensures Called(s, topic, n) <==> Listens(s, topic, n)
    ensures Called(s, topic, n) ==> !Conflicted(s.all, cfg.reserved, n)
  {
    if Called(s, topic, n) { CalledListens(s, topic, n); }
    if Listens(s, topic, n) { ListensCalled(s, topic, n); }
  }

  /** Disabling undoes enabling: the bus, and with it every other plugin's subscriptions, is as before, and
      the plugin holds nothing. */
  lemma DisableUndoesEnable(cfg: Config, s: Reg, n: string)
    requires Inv(cfg, s) && n in s.entries && s.entries[n].state in {Loaded, Disabled}
    ensures var s' := Disable(Enable(s, n, Runs).0, n).0;
            && s'.bus == s.bus && s'.all == s.all
            && s'.entries == s.entries[n := s.entries[n].(state := Disabled)]
  {
    assert EntryOk(s, n);
    assert |Patterns(s.entries[n].subs)| == |s.entries[n].subs|;
    BusBack(s.bus, n, SubscriptionsFor(s.entries[n].manifest.events, n, s.serial));
    var e := s.entries[n];
    assert e.subs == [] && !e.live;
    EntryBack(s, n);
  }

  /** What a plugin adds to a bus without it goes when its entries go. */
  lemma BusBack(bus: seq<Subscription>, n: string, subs: seq<Subscription>)
    requires Owned(bus, n) == [] && forall x :: x in subs ==> x.owner == n
    ensures Without(bus + subs, {n}) == bus
  {
    forall x | x in bus ensures x.owner != n {
      OwnedMember(bus, n, x);
    }
    WithoutAppend(bus, subs, {n});
    WithoutUnowned(bus, {n});
    WithoutAll(subs, {n});
    assert bus + [] == bus;
  }

  lemma EntryBack(s: Reg, n: string)
    requires n in s.entries && s.entries[n].state in {Loaded, Disabled}
    requires s.entries[n].subs == [] && !s.entries[n].live
    ensures var s' := Disable(Enable(s, n, Runs).0, n).0;
            s'.all == s.all && s'.entries == s.entries[n := s.entries[n].(state := Disabled)]
  {
    UpdateTwice(s.entries, n, Enable(s, n, Runs).0.entries[n], s.entries[n].(state := Disabled));
  }

  lemma {:induction false} WithoutAppend(a: seq<Subscription>, b: seq<Subscription>, gone: set<string>)
    ensures Without(a + b, gone) == Without(a, gone) + Without(b, gone)
  {
    if a == [] {
      assert a + b == b;
    } else {
      ConsAppend(a, b);
      WithoutAppend(a[1..], b, gone);
      Regroup(if a[0].owner in gone then [] else [a[0]], Without(a[1..], gone), Without(b, gone));
    }
  }

  lemma {:induction false} WithoutUnowned(bus: seq<Subscription>, gone: set<string>)
    requires forall x :: x in bus ==> x.owner !in gone
    ensures Without(bus, gone) == bus
  {
    if bus != [] {
      assert bus[0] in bus && forall x :: x in bus[1..] ==> x in bus;
      WithoutUnowned(bus[1..], gone);
    }
  }

  lemma {:induction false} WithoutAll(bus: seq<Subscription>, gone: set<string>)
    requires forall x :: x in bus ==> x.owner in gone
    ensures Without(bus, gone) == []
  {
    if bus != [] {
      assert bus[0] in bus && forall x :: x in bus[1..] ==> x in bus;
      WithoutAll(bus[1..], gone);
    }
  }

  // ----- what every operation decides -----

  /** What a plugin is shown as. */
  function Shown(s: Reg, n: string): (State, Fault)
    requires n in s.entries
  {
    (s.entries[n].state, s.entries[n].fault)
  }

  /** Apart from n, entries, manifests and remembered states are as before. */
  ghost predicate OthersKept(s: Reg, s': Reg, n: string) {
    && SameApart(s.entries, s'.entries, n) && SameApart(s.all, s'.all, n) && SameApart(s.states, s'.states, n)
  }

  ghost predicate SameApart<V>(m: map<string, V>, m': map<string, V>, n: string) {
    forall o :: o != n ==> (o in m' <==> o in m) && (o in m ==> m'[o] == m[o])
  }

  /** Enabling starts what is there, not broken and not running; the state is remembered only when it succeeds. */
  lemma EnableDecides(cfg: Config, s: Reg, n: string, start: Start)
    requires Inv(cfg, s)
    ensures var (s', ok) := Enable(s, n, start);
            && OthersKept(s, s', n)
            && (n !in s.entries ==> !ok && s' == s)
            && (n in s.entries ==>
                  && s'.all == s.all && n in s'.entries && ok == (s'.entries[n].state == Enabled)
                  && Shown(s', n) == (if s.entries[n].state in {Broken, Enabled} then Shown(s, n)
                                      else match start
                                        case Runs => (Enabled, NoFault)
                                        case ConstructorRaises => (Broken, Instantiation)
                                        case InitRaises => (Broken, Initialisation))
                  && s'.states == (if ok && s.entries[n].state != Enabled then s.states[n := true] else s.states))
  {
    if n in s.entries { assert EntryOk(s, n); }
  }

  /** Disabling stops what runs and remembers it; anything else is refused. */
  lemma DisableDecides(cfg: Config, s: Reg, n: string)
    requires Inv(cfg, s)
    ensures var (s', ok) := Disable(s, n);
            && OthersKept(s, s', n) && s'.all == s.all
            && ok == (n in s.entries && s.entries[n].state == Enabled)
            && (if ok then n in s'.entries && Shown(s', n) == (Disabled, NoFault) && s'.states == s.states[n := false]
                else s' == s)
  {
    if n in s.entries { assert EntryOk(s, n); }
  }

  /** What a refresh makes of a plugin: a new conflict breaks it, one that is gone gives back what is remembered. */
  ghost predicate Refreshed(cfg: Config, s: Reg, s': Reg, n: string)
    requires n in s.entries && n in s'.entries
  {
    var e, conflicted := s.entries[n], Conflicted(s'.all, cfg.reserved, n);
    && s'.entries[n].manifest == e.manifest
    && Shown(s', n) ==
       if e.state == Broken && e.fault != Conflict then (Broken, e.fault)
       else if conflicted then (Broken, Conflict)
       else if e.state == Broken then (if Wanted(cfg, s, n) then Loaded else Disabled, NoFault)
       else (e.state, NoFault)
  }

  lemma RefreshDecides(cfg: Config, s: Reg, n: string)
    requires Consistent(s) && n in s.entries
    ensures var s' := Refresh(cfg, s);
            s'.all == s.all && s'.states == s.states && n in s'.entries && Refreshed(cfg, s, s', n)
  {
    assert EntryOk(s, n);
  }

  /** A plugin that was just registered, before and after the refresh. */
  function AtRegistration(p: Package, conflicted: bool, wanted: bool): (State, Fault) {
    if !p.environmentOk then (Broken, Environment)
    else if conflicted then (Broken, Conflict)
    else (if wanted then Loaded else Disabled, NoFault)
  }

  /** Registering touches no other plugin. */
  lemma RegisterTouches(cfg: Config, s: Reg, p: Package)
    requires s.entries.Keys == s.all.Keys
    ensures var r, id := Register(cfg, s, p), p.manifest.id;
            && r.entries.Keys == s.entries.Keys + {id} && r.states == s.states
            && r.all == (if id in s.entries then s.all else s.all[id := p.manifest])
            && (id !in s.entries ==> r.entries[id] == NewEntry(p, Wanted(cfg, s, id)))
            && forall o :: o in s.entries ==> r.entries[o] == s.entries[o]
  {}

  lemma JudgedNew(cfg: Config, s: Reg, s': Reg, p: Package, n: string)
    requires n in s.entries && n in s'.entries && s.entries[n] == NewEntry(p, Wanted(cfg, s, n))
    requires Refreshed(cfg, s, s', n)
    ensures Shown(s', n) == AtRegistration(p, Conflicted(s'.all, cfg.reserved, n), Wanted(cfg, s, n))
  {}

  lemma JudgedSame(cfg: Config, s: Reg, r: Reg, s': Reg, n: string)
    requires n in s.entries && n in r.entries && n in s'.entries
    requires r.entries[n] == s.entries[n] && r.states == s.states && Refreshed(cfg, r, s', n)
    ensures Refreshed(cfg, s, s', n)
  {}

  /** Registering and refreshing: a known id keeps its plugin, a new one gets what its environment, its conflicts and
      the remembered state make of it, and all others are judged anew. */
  lemma AddedDecides(cfg: Config, s: Reg, p: Package)
    requires Consistent(s) && WellFormed(p.manifest)
    ensures var s', id := Refresh(cfg, Register(cfg, s, p)), p.manifest.id;
            && s'.entries.Keys == s.entries.Keys + {id} && s'.states == s.states
            && s'.all == (if id in s.entries then s.all else s.all[id := p.manifest])
            && (id !in s.entries ==>
                  Shown(s', id) == AtRegistration(p, Conflicted(s'.all, cfg.reserved, id), Wanted(cfg, s, id)))
            && forall o :: o in s.entries ==> Refreshed(cfg, s, s', o)
  {
    RegisterKeeps(cfg, s, p);
    RegisterTouches(cfg, s, p);
    AddedJudged(cfg, s, Register(cfg, s, p), p);
  }

  /** The same for any state with the tables that registering leaves. */
  lemma AddedJudged(cfg: Config, s: Reg, r: Reg, p: Package)
    requires Consistent(r) && r.states == s.states && p.manifest.id in r.entries
    requires p.manifest.id !in s.entries ==> r.entries[p.manifest.id] == NewEntry(p, Wanted(cfg, r, p.manifest.id))
    requires forall o :: o in s.entries ==> o in r.entries && r.entries[o] == s.entries[o]
    ensures var s', id := Refresh(cfg, r), p.manifest.id;
            && s'.entries.Keys == r.entries.Keys && s'.states == r.states && s'.all == r.all
            && (id !in s.entries ==>
                  Shown(s', id) == AtRegistration(p, Conflicted(r.all, cfg.reserved, id), Wanted(cfg, s, id)))
            && forall o :: o in s.entries ==> Refreshed(cfg, s, s', o)
  {
    var s', id := Refresh(cfg, r), p.manifest.id;
    if id !in s.entries {
      RefreshDecides(cfg, r, id);
      JudgedNew(cfg, r, s', p, id);
    }
    forall o | o in s.entries ensures Refreshed(cfg, s, s', o) {
      RefreshDecides(cfg, r, o);
      JudgedSame(cfg, s, r, s', o);
    }
  }

  /** Installing reports the id of what was copied, and nothing without a package, a free place or a copy that
      loads. */
  lemma InstallDecides(cfg: Config, s: Reg, loads: bool, occupied: bool, p: Option<Package>)
    requires Inv(cfg, s) && (p.Some? ==> WellFormed(p.value.manifest))
    ensures var (s', id) := Install(cfg, s, loads, occupied, p);
            if !loads || occupied || p.None? then s' == s && id == None
            else
              var n := p.value.manifest.id;
              && id == Some(n) && s'.entries.Keys == s.entries.Keys + {n} && s'.states == s.states
              && (n !in s.entries ==>
                    && s'.all[n] == p.value.manifest
                    && Shown(s', n) ==
                       AtRegistration(p.value, Conflicted(s'.all, cfg.reserved, n),
                                      if n in s.states then s.states[n] else cfg.enabledByDefault))
              && forall o :: o in s.entries ==> Refreshed(cfg, s, s', o)
  {
    if p.Some? { AddedDecides(cfg, s, p.value); }
  }

  /** Removing is refused for what runs or is not there; otherwise the plugin is gone and the others are judged
      anew. */
  lemma RemoveDecides(cfg: Config, s: Reg, n: string)
    requires Inv(cfg, s)
    ensures var (s', ok) := Remove(cfg, s, n);
            && ok == (n in s.entries && s.entries[n].state != Enabled)
            && (if ok then
                  && s'.entries.Keys == s.entries.Keys - {n} && s'.all == s.all - {n} && s'.states == s.states
                  && forall o :: o in s.entries && o != n ==> Refreshed(cfg, s, s', o)
                else s' == s)
  {
    if n in s.entries && s.entries[n].state != Enabled {
      DropKeeps(cfg, s, n);
      forall o | o in s.entries && o != n ensures Refreshed(cfg, s, Refresh(cfg, Drop(s, n)), o) {
        RefreshDecides(cfg, Drop(s, n), o);
      }
    }
  }

  /** What unloading leaves: the plugin is gone from both tables, and when it was running it is remembered as
      stopped; the others are as they were. */
  lemma UnloadTouches(cfg: Config, s: Reg, n: string) returns (u: Reg)
    requires n in s.entries
    ensures u == Unload(s, n)
    ensures && u.entries.Keys == s.entries.Keys - {n} && u.all == s.all - {n}
            && u.states == (if s.entries[n].state == Enabled then s.states[n := false] else s.states)
            && forall o :: o in u.entries ==> u.entries[o] == s.entries[o]
  {
    u := Unload(s, n);
  }

  lemma Rewrite<K, V>(m: map<K, V>, k: K, v: V)
    ensures (m - {k})[k := v] == m[k := v]
  {}

  /** A reload when the directory loads again under its id, whatever was there before: a plugin that was running is
      started anew unless its environment fails or it is in conflict, and the answer says whether it runs; one that
      was not running stays stopped, and the answer is yes. The other plugins are judged anew. */
  lemma ReloadDecides(cfg: Config, s: Reg, n: string, p: Package, start: Start)
    requires Inv(cfg, s) && n in s.entries && WellFormed(p.manifest) && p.manifest.id == n
    ensures var (s', outcome) := Reload(cfg, s, n, Some(p), start);
            Reloaded(cfg, s, s', outcome, n, p, start)
  {
    UnloadKeeps(cfg, s, n);
    var u := UnloadTouches(cfg, s, n);
    var r := NewlyAdded(cfg, u, p);
    ReloadedFrom(cfg, s, u, r, n, p, start);
  }

  /** u is the state after unloading, r the one after the refresh. */
  lemma ReloadedFrom(cfg: Config, s: Reg, u: Reg, r: Reg, n: string, p: Package, start: Start)
    requires n in s.entries && u.entries.Keys == s.entries.Keys - {n} && u.all == s.all - {n}
    requires u.states == if s.entries[n].state == Enabled then s.states[n := false] else s.states
    requires forall o :: o in u.entries ==> u.entries[o] == s.entries[o]
    requires r.entries.Keys == u.entries.Keys + {n} && r.all == u.all[n := p.manifest] && r.states == u.states
    requires EntryOk(r, n)
    requires Shown(r, n) == AtRegistration(p, Conflicted(r.all, cfg.reserved, n), Wanted(cfg, u, n))
    requires forall o :: o in u.entries ==> Refreshed(cfg, u, r, o)
    ensures var (s', outcome) := Resume(r, n, s.entries[n].state == Enabled, start);
            Reloaded(cfg, s, s', outcome, n, p, start)
  {
    Rewrite(s.all, n, p.manifest);
    assert r.entries.Keys == s.entries.Keys;
    ReloadedOthers(cfg, s, u, r, n);
    ResumeDecides(cfg, s, u, r, n, p, start);
  }

  /** A new id, registered and refreshed. */
  lemma NewlyAdded(cfg: Config, u: Reg, p: Package) returns (r: Reg)
    requires Consistent(u) && WellFormed(p.manifest) && p.manifest.id !in u.entries
    ensures r == Refresh(cfg, Register(cfg, u, p))
    ensures var n := p.manifest.id;
            && r.entries.Keys == u.entries.Keys + {n} && EntryOk(r, n)
            && r.all == u.all[n := p.manifest] && r.states == u.states
            && Shown(r, n) == AtRegistration(p, Conflicted(r.all, cfg.reserved, n), Wanted(cfg, u, n))
            && forall o :: o in u.entries ==> Refreshed(cfg, u, r, o)
  {
    AddedDecides(cfg, u, p);
    r := AddedEntryOk(cfg, u, p);
  }

  lemma AddedEntryOk(cfg: Config, u: Reg, p: Package) returns (r: Reg)
    requires Consistent(u) && WellFormed(p.manifest)
    ensures r == Refresh(cfg, Register(cfg, u, p))
    ensures p.manifest.id in r.entries && EntryOk(r, p.manifest.id)
  {
    RegisterKeeps(cfg, u, p);
    RefreshEntry(cfg, Register(cfg, u, p), p.manifest.id);
    r := Refresh(cfg, Register(cfg, u, p));
  }

  ghost predicate Reloaded(cfg: Config, s: Reg, s': Reg, outcome: Outcome, n: string, p: Package, start: Start)
    requires n in s.entries
  {
    var wasEnabled, conflicted := s.entries[n].state == Enabled, Conflicted(s.all[n := p.manifest], cfg.reserved, n);
    && s'.all == s.all[n := p.manifest] && s'.entries.Keys == s.entries.Keys
    && s'.entries[n].manifest == p.manifest
    && Shown(s', n) == AtStart(p, conflicted, wasEnabled, start)
    && outcome == Returned(wasEnabled ==> s'.entries[n].state == Enabled)
    && s'.states == (if wasEnabled then s.states[n := s'.entries[n].state == Enabled] else s.states)
    && forall o :: o in s.entries && o != n ==> Refreshed(cfg, s, s', o)
  }

  lemma ReloadedOthers(cfg: Config, s: Reg, u: Reg, r: Reg, n: string)
    requires n in s.entries && u.entries.Keys == s.entries.Keys - {n}
    requires u.states == s.states || u.states == s.states[n := false]
    requires forall o :: o in u.entries ==> u.entries[o] == s.entries[o]
    requires forall o :: o in u.entries ==> o in r.entries && Refreshed(cfg, u, r, o)
    ensures forall o :: o in s.entries && o != n ==> o in r.entries && Refreshed(cfg, s, r, o)
  {
    forall o | o in s.entries && o != n ensures o in r.entries && Refreshed(cfg, s, r, o) {
      assert o in u.entries && Wanted(cfg, u, o) == Wanted(cfg, s, o);
    }
  }

  /** From the refreshed state on; u is the state after unloading. */
  lemma ResumeDecides(cfg: Config, s: Reg, u: Reg, r: Reg, n: string, p: Package, start: Start)
    requires n in s.entries && n in r.entries && r.entries.Keys == s.entries.Keys && EntryOk(r, n)
    requires r.all == s.all[n := p.manifest] && r.states == u.states
    requires u.states == if s.entries[n].state == Enabled then s.states[n := false] else s.states
    requires Shown(r, n) == AtRegistration(p, Conflicted(r.all, cfg.reserved, n), Wanted(cfg, u, n))
    requires forall o :: o in s.entries && o != n ==> Refreshed(cfg, s, r, o)
    ensures var (s', outcome) := Resume(r, n, s.entries[n].state == Enabled, start);
            Reloaded(cfg, s, s', outcome, n, p, start)
  {
    var wasEnabled := s.entries[n].state == Enabled;
    var (s', outcome) := Resume(r, n, wasEnabled, start);
    UpdateTwice(s.states, n, false, true);
    forall o | o in s.entries && o != n ensures o in s'.entries && Refreshed(cfg, s, s', o) {
      assert s'.entries[o] == r.entries[o];
    }
  }

  /** A reload that meets no plugin, or a directory that does not load, or one that has changed its id. */
  lemma ReloadFails(cfg: Config, s: Reg, n: string, p: Option<Package>, start: Start)
    requires Inv(cfg, s) && (p.Some? ==> WellFormed(p.value.manifest) && p.value.manifest.id != n)
    ensures var (s', outcome) := Reload(cfg, s, n, p, start);
            if n !in s.entries then s' == s && outcome == Returned(false)
            else
              var wasEnabled := s.entries[n].state == Enabled;
              && n !in s'.entries && n !in s'.all
              && s'.states == (if wasEnabled then s.states[n := false] else s.states)
              && outcome == if p.Some? && !wasEnabled then MissingKey else Returned(false)
  {
    if n in s.entries {
      UnloadKeeps(cfg, s, n);
      var u := UnloadTouches(cfg, s, n);
      if p.Some? {
        AddedDecides(cfg, u, p.value);
        ResumeAbsent(Refresh(cfg, Register(cfg, u, p.value)), n, s.entries[n].state == Enabled, start);
      }
    }
  }

  lemma ResumeAbsent(r: Reg, n: string, wasEnabled: bool, start: Start)
    requires n !in r.entries
    ensures Resume(r, n, wasEnabled, start) == (r, if wasEnabled then Returned(false) else MissingKey)
  {}

  // ----- how long a conflict is reported -----

  /** Every plugin shown as broken by a conflict is in conflict. */
  ghost predicate FaultsCurrent(cfg: Config, s: Reg) {
    forall n :: n in s.entries && s.entries[n].fault == Conflict ==> Conflicted(s.all, cfg.reserved, n)
  }

  /** A refresh makes the reported conflicts exact. */
  lemma RefreshIsExact(cfg: Config, s: Reg, n: string)
    requires Consistent(s) && n in s.entries
    ensures FaultsCurrent(cfg, Refresh(cfg, s))
    ensures var e, e' := s.entries[n], Refresh(cfg, s).entries[n];
            && (e'.state == Broken <==>
                Conflicted(s.all, cfg.reserved, n) || (e.state == Broken && e.fault != Conflict))
  {
    var s' := Refresh(cfg, s);
    assert EntryOk(s, n);
    forall o | o in s'.entries && s'.entries[o].fault == Conflict ensures Conflicted(s'.all, cfg.reserved, o) {
      assert EntryOk(s, o);
    }
  }

  /** The plugin collides with one other plugin and with nothing else. */
  ghost predicate OnlyWith(all: map<string, Manifest>, reserved: set<Key>, b: string, a: string)
    requires b in all
  {
    forall k :: k in KeysOf(all[b]) ==> k !in reserved && forall o :: o in all && k in KeysOf(all[o]) ==> o in {a, b}
  }

  lemma SharedRest(all: map<string, Manifest>, a: string, b: string, k: Key)
    requires a != b
    ensures SharedIn(all - {a}, b, k) <==> exists o :: o in all && o !in {a, b} && k in KeysOf(all[o])
  {
    var rest := all - {a};
    if SharedIn(rest, b, k) {
      var o :| o in rest && o != b && k in KeysOf(rest[o]);
      assert o in all && o !in {a, b} && k in KeysOf(all[o]);
    }
    if o :| o in all && o !in {a, b} && k in KeysOf(all[o]) {
      assert o in rest && k in KeysOf(rest[o]);
    }
  }

  lemma ConflictGone(all: map<string, Manifest>, reserved: set<Key>, a: string, b: string)
    requires a != b && b in all
    ensures !Conflicted(all - {a}, reserved, b) <==> OnlyWith(all, reserved, b, a)
  {
    var rest := all - {a};
    forall k ensures SharedIn(rest, b, k) <==> exists o :: o in all && o !in {a, b} && k in KeysOf(all[o]) {
      SharedRest(all, a, b, k);
    }
  }

  /** A reload that cannot load the directory again returns without a refresh: another plugin then stays broken
      by a conflict that no longer exists exactly when its conflicts were with the reloaded one only. */
  lemma FailedReloadLeavesFault(cfg: Config, s: Reg, a: string, b: string, start: Start)
    requires s.entries.Keys == s.all.Keys
    requires a != b && a in s.entries && b in s.entries && s.entries[b].fault == Conflict
    ensures var s' := Reload(cfg, s, a, None, start).0;
            && b in s'.entries && s'.entries[b] == s.entries[b]
            && (!Conflicted(s'.all, cfg.reserved, b) <==> OnlyWith(s.all, cfg.reserved, b, a))
  {
    ConflictGone(s.all, cfg.reserved, a, b);
    assert Reload(cfg, s, a, None, start).0 == Unload(s, a);
  }

  const EMPTY := Reg(map[], map[], map[], [], 0)

  lemma RefreshBreaks(cfg: Config, s: Reg, n: string)
    requires n in s.entries && s.entries[n].state != Broken && Conflicted(s.all, cfg.reserved, n)
    ensures var s' := Refresh(cfg, s);
            n in s'.entries && s'.entries[n].state == Broken && s'.entries[n].fault == Conflict
  {
  }

  lemma Clash(all: map<string, Manifest>, reserved: set<Key>, a: string, b: string, k: Key)
    requires a in all && b in all && a != b && k in KeysOf(all[a]) && k in KeysOf(all[b])
    ensures Conflicted(all, reserved, b)
  {
    assert SharedIn(all, b, k);
  }

  /** Installing a plugin that shares an option string with one already there breaks it. */
  lemma InstallClash(cfg: Config, s: Reg, m: Manifest, a: string, k: Key)
    requires Inv(cfg, s) && WellFormed(m) && m.id !in s.entries
    requires a in s.entries && k in KeysOf(s.all[a]) && k in KeysOf(m)
    ensures var s' := Install(cfg, s, true, false, Some(Package(m, true))).0;
            && Inv(cfg, s') && s'.all == s.all[m.id := m] && m.id in s'.entries
            && s'.entries[m.id].state == Broken && s'.entries[m.id].fault == Conflict
  {
    InstallKeeps(cfg, s, true, false, Some(Package(m, true)));
    Newcomer(cfg, s, m);
    Clash(s.all[m.id := m], cfg.reserved, a, m.id, k);
    RefreshBreaks(cfg, Register(cfg, s, Package(m, true)), m.id);
  }

  lemma Newcomer(cfg: Config, s: Reg, m: Manifest)
    requires m.id !in s.entries
    ensures var r := Register(cfg, s, Package(m, true));
            r.all == s.all[m.id := m] && m.id in r.entries && r.entries[m.id].state in {Loaded, Disabled}
  {}

  lemma InstallFirst(cfg: Config, m: Manifest)
    requires WellFormed(m)
    ensures var s := Install(cfg, EMPTY, true, false, Some(Package(m, true))).0;
            Inv(cfg, s) && s.all == map[m.id := m]
  {
    InstallKeeps(cfg, EMPTY, true, false, Some(Package(m, true)));
    Newcomer(cfg, EMPTY, m);
  }

  /** A plugin that is broken by a conflict no longer there is reached from the empty registry by installing any
      two plugins that share an option string and nothing with the built-in ones, and one failed reload of the
      first. */
  lemma FaultOutlivesConflict(cfg: Config, ma: Manifest, mb: Manifest, k: Key, start: Start)
    requires WellFormed(ma) && WellFormed(mb) && ma.id != mb.id
    requires k in KeysOf(ma) && k in KeysOf(mb) && forall x :: x in KeysOf(mb) ==> x !in cfg.reserved
    ensures var s1 := Install(cfg, EMPTY, true, false, Some(Package(ma, true))).0;
            var s2 := Install(cfg, s1, true, false, Some(Package(mb, true))).0;
            var s3 := Reload(cfg, s2, ma.id, None, start).0;
            && mb.id in s3.entries && s3.entries[mb.id].state == Broken
            && !Conflicted(s3.all, cfg.reserved, mb.id)
  {
    InstallFirst(cfg, ma);
    FaultFrom(cfg, Install(cfg, EMPTY, true, false, Some(Package(ma, true))).0, ma, mb, k, start);
  }

  lemma FaultFrom(cfg: Config, s1: Reg, ma: Manifest, mb: Manifest, k: Key, start: Start)
    requires Inv(cfg, s1) && s1.all == map[ma.id := ma] && WellFormed(mb) && ma.id != mb.id
    requires k in KeysOf(ma) && k in KeysOf(mb) && forall x :: x in KeysOf(mb) ==> x !in cfg.reserved
    ensures var s2 := Install(cfg, s1, true, false, Some(Package(mb, true))).0;
            var s3 := Reload(cfg, s2, ma.id, None, start).0;
            && mb.id in s3.entries && s3.entries[mb.id].state == Broken
            && !Conflicted(s3.all, cfg.reserved, mb.id)
  {
    InstallClash(cfg, s1, mb, ma.id, k);
    FaultStays(cfg, Install(cfg, s1, true, false, Some(Package(mb, true))).0, ma, mb, start);
  }

  lemma FaultStays(cfg: Config, s2: Reg, ma: Manifest, mb: Manifest, start: Start)
    requires s2.all == map[ma.id := ma, mb.id := mb] && s2.entries.Keys == s2.all.Keys && ma.id != mb.id
    requires s2.entries[mb.id].state == Broken && s2.entries[mb.id].fault == Conflict
    requires forall x :: x in KeysOf(mb) ==> x !in cfg.reserved
    ensures var s3 := Reload(cfg, s2, ma.id, None, start).0;
            && mb.id in s3.entries && s3.entries[mb.id].state == Broken
            && !Conflicted(s3.all, cfg.reserved, mb.id)
  {
    OnlyTwo(s2.all, cfg.reserved, mb.id, ma.id);
    FailedReloadLeavesFault(cfg, s2, ma.id, mb.id, start);
  }

  lemma OnlyTwo(all: map<string, Manifest>, reserved: set<Key>, b: string, a: string)
    requires all.Keys == {a, b} && forall x :: x in KeysOf(all[b]) ==> x !in reserved
    ensures OnlyWith(all, reserved, b, a)
  {
  }

  /** Removal forgets the plugin in the state file only. A plugin installed again under the same id in the
      same process starts as a new one would exactly when the state remembered for it is the default one,
      or when its environment fails anyway. */
  lemma RemovalForgetsExactly(cfg: Config, s: Reg, n: string, p: Package)
    requires Inv(cfg, s) && n in s.entries && s.entries[n].state != Enabled && p.manifest.id == n
    ensures var (removed, ok) := Remove(cfg, s, n);
            && ok && n !in removed.entries && n !in removed.all && removed.states == s.states
            && (Register(cfg, removed, p).entries[n] == NewEntry(p, cfg.enabledByDefault) <==>
                !p.environmentOk || WantedBy(cfg, s.states, n) == cfg.enabledByDefault)
  {
  }

  /** A plugin that ran starts disabled when it is removed and installed again, whatever the default: to be
      removed it had to be disabled first, and that is remembered. */
  lemma ReinstalledStaysDisabled(cfg: Config, s: Reg, n: string, p: Package)
    requires Inv(cfg, s) && n in s.entries && s.entries[n].state == Enabled
    requires p.manifest.id == n && p.environmentOk
    ensures var removed := Remove(cfg, Disable(s, n).0, n);
            && removed.1 && n !in removed.0.entries && n !in removed.0.all
            && Register(cfg, removed.0, p).entries[n].state == Disabled
  {
  }

  // ----- the registry object -----

  method Values(all: map<string, Manifest>) returns (ms: seq<Manifest>)
    requires IdsMatch(all)
    ensures Lists(ms, all) && DistinctIds(ms)
  {
    ms := [];
    var todo := all.Keys;
    while todo != {}
      invariant todo <= all.Keys
      invariant forall m :: m in ms <==> m.id in all && m.id !in todo && all[m.id] == m
      invariant DistinctIds(ms)
      decreases todo
    {
      var n :| n in todo;
      ghost var before := ms;
      forall i | 0 <= i < |ms| ensures ms[i].id != n {
        assert ms[i] in ms;
      }
      ms := ms + [all[n]];
      todo := todo - {n};
      forall m ensures m in ms <==> m.id in all && m.id !in todo && all[m.id] == m {
        assert m in ms <==> m in before || m == all[n];
      }
    }
  }

  // ----- one refresh, name by name -----

  function Hit(e: Entry): Entry {
    if e.state == Broken then e
    else Entry(e.manifest, Broken, Conflict, e.live && e.state != Enabled, if e.state == Enabled then [] else e.subs)
  }

  function Restored(e: Entry, wanted: bool): Entry {
    if e.state == Broken && e.fault == Conflict then e.(fault := NoFault, state := if wanted then Loaded else Disabled)
    else e
  }

  function RunningIn(entries: map<string, Entry>, names: set<string>): set<string> {
    set n | n in names && n in entries && entries[n].state == Enabled
  }

  lemma RunningStep(entries: map<string, Entry>, names: set<string>, n: string)
    ensures RunningIn(entries, names + {n})
         == RunningIn(entries, names) + if n in entries && entries[n].state == Enabled then {n} else {}
  {
  }

  ghost predicate Detects(s: Reg, cfg: Config, conflicts: set<string>) {
    && (forall n :: n in s.entries ==> (n in conflicts <==> Conflicted(s.all, cfg.reserved, n)))
    && conflicts <= s.entries.Keys
  }

  lemma TwoPassesJudge(cfg: Config, s: Reg, conflicts: set<string>, n: string)
    requires Detects(s, cfg, conflicts) && n in s.entries
    ensures Judged(cfg, s, n, s.entries[n], Conflicted(s.all, cfg.reserved, n))
         == var e := if n in conflicts then Hit(s.entries[n]) else s.entries[n];
            if n in conflicts then e else Restored(e, Wanted(cfg, s, n))
  {
  }

  lemma StoppedAre(cfg: Config, s: Reg, conflicts: set<string>)
    requires Detects(s, cfg, conflicts)
    ensures Stopped(cfg, s) == RunningIn(s.entries, conflicts)
  {
    forall n ensures n in Stopped(cfg, s) <==> n in RunningIn(s.entries, conflicts) {
      assert n in Stopped(cfg, s) <==> IsStopped(cfg, s, n);
    }
  }

  /** Both loops together: mid is the state between them. */
  lemma RefreshReached(cfg: Config, s: Reg, conflicts: set<string>, mid: Reg, after: Reg)
    requires Detects(s, cfg, conflicts) && HitBy(mid.entries, s.entries, conflicts)
    requires mid == s.(entries := mid.entries, bus := Without(s.bus, RunningIn(s.entries, conflicts)))
    requires after == mid.(entries := after.entries) && after.entries.Keys == mid.entries.Keys
    requires forall n :: n in after.entries ==>
               after.entries[n] == if n in conflicts then mid.entries[n]
                                   else Restored(mid.entries[n], Wanted(cfg, mid, n))
    ensures after == Refresh(cfg, s)
  {
    StoppedAre(cfg, s, conflicts);
    forall n | n in s.entries
      ensures after.entries[n] == Judged(cfg, s, n, s.entries[n], Conflicted(s.all, cfg.reserved, n))
    {
      TwoPassesJudge(cfg, s, conflicts, n);
    }
    assert after.entries == Refresh(cfg, s).entries;
  }

  /** The entries after the names in done have been broken. */
  ghost predicate HitBy(entries: map<string, Entry>, was: map<string, Entry>, done: set<string>) {
    && entries.Keys == was.Keys
    && forall n :: n in was ==> entries[n] == if n in done then Hit(was[n]) else was[n]
  }

  lemma HitStep(entries: map<string, Entry>, was: map<string, Entry>, done: set<string>, n: string)
    requires HitBy(entries, was, done) && n in was && n !in done
    ensures entries[n] == was[n] && HitBy(entries[n := Hit(entries[n])], was, done + {n})
  {
  }

  lemma UpdateTwice<K, V>(m: map<K, V>, k: K, a: V, b: V)
    ensures m[k := a][k := b] == m[k := b]
  {
  }

  lemma TakeOut(all: set<string>, todo: set<string>, n: string)
    requires n in todo && todo <= all
    ensures n !in all - todo && all - (todo - {n}) == (all - todo) + {n}
  {}

  class PluginRegistry {
    const cfg: Config
    const events: EventBus
    var entries: map<string, Entry>
    var allManifests: map<string, Manifest>
    var states: map<string, bool>
    var serial: nat

    ghost function View(): Reg
      reads this, events
    {
      Reg(entries, allManifests, states, events.subs, serial)
    }

    method UnsubscribeEach(subs: seq<Subscription>)
      modifies events
      ensures events.subs == Except(old(events.subs), subs)
    {
      ghost var bus := events.subs;
      ExceptNone(bus, []);
      for i := 0 to |subs|
        invariant events.subs == Except(bus, subs[..i])
      {
        events.Unsubscribe(subs[i]);
        ExceptTwice(bus, subs[..i], [subs[i]]);
        assert subs[..i + 1] == subs[..i] + [subs[i]];
      }
      assert subs[..|subs|] == subs;
    }

    method UnsubscribeEvents(n: string)
      requires n in entries && Owned(events.subs, n) == entries[n].subs
      modifies this, events
      ensures View() == old(View()).(entries := old(entries)[n := old(entries)[n].(subs := [])],
                                     bus := Without(old(events.subs), {n}))
    {
      ghost var bus, subs := events.subs, entries[n].subs;
      forall x | x in bus ensures x in subs <==> x.owner == n {
        OwnedMember(bus, n, x);
      }
      ExceptOwned(bus, subs, n);
      UnsubscribeEach(entries[n].subs);
      entries := entries[n := entries[n].(subs := [])];
    }

    method SubscribeEvents(n: string)
      requires n in entries
      modifies this, events
      ensures var e := old(entries)[n];
              var added := SubscriptionsFor(e.manifest.events, n, old(serial));
              View() == old(View()).(entries := old(entries)[n := e.(subs := e.subs + added)],
                                     bus := old(events.subs) + added,
                                     serial := old(serial) + |added|)
    {
      var patterns, subs, i := entries[n].manifest.events, entries[n].subs, 0;
      ghost var added := SubscriptionsFor(patterns, n, serial);
      while i < |patterns|
        invariant 0 <= i <= |patterns|
        invariant serial == old(serial) + i
        invariant events.subs == old(events.subs) + added[..i]
        invariant subs == old(entries)[n].subs + added[..i]
        invariant entries == old(entries) && allManifests == old(allManifests) && states == old(states)
      {
        var x := Subscription(patterns[i], n, serial);
        events.Subscribe(x);
        subs := subs + [x];
        serial := serial + 1;
        assert added[..i] + [x] == added[..i + 1];
        i := i + 1;
      }
      assert added[..i] == added;
      entries := entries[n := entries[n].(subs := subs)];
    }

    method EnablePlugin(n: string, start: Start) returns (ok: bool)
      modifies this, events
      ensures (View(), ok) == Enable(old(View()), n, start)
    {
      if n !in entries || entries[n].state == Broken { return false; }
      if entries[n].state == Enabled { return true; }
      match start
      case ConstructorRaises =>
        entries := entries[n := entries[n].(state := Broken, fault := Instantiation)];
        ok := false;
      case InitRaises =>
        entries := entries[n := entries[n].(state := Broken, fault := Initialisation)];
        ok := false;
      case Runs =>
        ghost var s := View();
        entries := entries[n := entries[n].(live := true, state := Enabled)];
        states := states[n := true];
        SubscribeEvents(n);
        UpdateTwice(s.entries, n, s.entries[n].(live := true, state := Enabled), entries[n]);
        ok := true;
    }

    method DisablePlugin(n: string) returns (ok: bool)
      requires n in entries ==> Owned(events.subs, n) == entries[n].subs
      modifies this, events
      ensures (View(), ok) == Disable(old(View()), n)
    {
      if n !in entries || entries[n].state != Enabled { return false; }
      ghost var s := View();
      UnsubscribeEvents(n);
      entries := entries[n := entries[n].(live := false, state := Disabled)];
      states := states[n := false];
      UpdateTwice(s.entries, n, s.entries[n].(subs := []), entries[n]);
      ok := true;
    }

    /** The first loop of _refresh_conflicts. */
    method BreakConflicting(conflicts: set<string>, ghost s: Reg)
      requires s == View() && Consistent(s) && conflicts <= entries.Keys
      modifies this, events
      ensures View() == s.(entries := entries, bus := events.subs)
      ensures HitBy(entries, s.entries, conflicts)
      ensures events.subs == Without(s.bus, RunningIn(s.entries, conflicts))
    {
      var todo := conflicts;
      assert conflicts - todo == {};
      WithoutNone(s.bus, RunningIn(s.entries, conflicts - todo));
      while todo != {}
        invariant todo <= conflicts
        invariant View() == s.(entries := entries, bus := events.subs)
        invariant HitBy(entries, s.entries, conflicts - todo)
        invariant events.subs == Without(s.bus, RunningIn(s.entries, conflicts - todo))
        decreases todo
      {
        var n :| n in todo;
        TakeOut(conflicts, todo, n);
        BreakNext(n, s, conflicts - todo);
        todo := todo - {n};
      }
      assert conflicts - todo == conflicts;
    }

    method BreakOne(n: string, ghost s: Reg, ghost running: set<string>)
      requires n in s.entries && n in entries && entries[n] == s.entries[n] && n !in running
      requires Owned(s.bus, n) == entries[n].subs && events.subs == Without(s.bus, running)
      modifies this, events
      ensures View() == old(View()).(entries := old(entries)[n := Hit(old(entries)[n])], bus := events.subs)
      ensures events.subs == Without(s.bus, running + if s.entries[n].state == Enabled then {n} else {})
    {
      assert running + {} == running;
      if entries[n].state == Broken { return; }
      ghost var was := entries;
      if entries[n].state == Enabled {
        StopOne(n, s, running);
      }
      UpdateTwice(was, n, entries[n], Hit(was[n]));
      entries := entries[n := entries[n].(state := Broken, fault := Conflict)];
    }

    /** What the loop does first with a running plugin. */
    method StopOne(n: string, ghost s: Reg, ghost running: set<string>)
      requires n in entries && n in s.entries && entries[n] == s.entries[n] && n !in running
      requires Owned(s.bus, n) == entries[n].subs && events.subs == Without(s.bus, running)
      modifies this, events
      ensures View() == old(View()).(entries := old(entries)[n := old(entries)[n].(live := false, subs := [])],
                                     bus := Without(s.bus, running + {n}))
    {
      WithoutOwned(s.bus, running, n);
      WithoutTwice(s.bus, running, {n});
      ghost var was := entries;
      UnsubscribeEvents(n);
      entries := entries[n := entries[n].(live := false)];
      UpdateTwice(was, n, was[n].(subs := []), entries[n]);
    }

    method BreakNext(n: string, ghost s: Reg, ghost done: set<string>)
      requires Consistent(s) && n in s.entries && n !in done
      requires View() == s.(entries := entries, bus := events.subs)
      requires HitBy(entries, s.entries, done)
      requires events.subs == Without(s.bus, RunningIn(s.entries, done))
      modifies this, events
      ensures View() == s.(entries := entries, bus := events.subs)
      ensures HitBy(entries, s.entries, done + {n})
      ensures events.subs == Without(s.bus, RunningIn(s.entries, done + {n}))
    {
      RunningStep(s.entries, done, n);
      HitStep(entries, s.entries, done, n);
      assert EntryOk(s, n);
      BreakOne(n, s, RunningIn(s.entries, done));
    }

    /** The second loop of _refresh_conflicts. */
    method RestoreResolved(conflicts: set<string>)
      modifies this
      ensures View() == old(View()).(entries := entries)
      ensures entries.Keys == old(entries).Keys
      ensures forall n :: n in entries ==>
                entries[n] == if n in conflicts then old(entries)[n]
                              else Restored(old(entries)[n], Wanted(cfg, old(View()), n))
    {
      var todo := entries.Keys;
      while todo != {}
        invariant View() == old(View()).(entries := entries)
        invariant todo <= entries.Keys == old(entries).Keys
        invariant forall n :: n in entries ==>
                    entries[n] == if n in conflicts || n in todo then old(entries)[n]
                                  else Restored(old(entries)[n], Wanted(cfg, old(View()), n))
        decreases todo
      {
        var n :| n in todo;
        todo := todo - {n};
        if entries[n].state != Broken || n in conflicts { continue; }
        if entries[n].fault != Conflict { continue; }
        var wanted := WantedBy(cfg, states, n);
        entries := entries[n := entries[n].(fault := NoFault, state := if wanted then Loaded else Disabled)];
      }
    }

    method DetectConflicts() returns (conflicts: set<string>)
      requires Consistent(View())
      ensures Detects(View(), cfg, conflicts)
    {
      var ms := Values(allManifests);
      conflicts := CheckConflicts(ms, cfg.reserved);
      forall n | n in entries ensures n in conflicts <==> Conflicted(allManifests, cfg.reserved, n) {
        assert allManifests[n] in ms && allManifests[n].id == n;
        TableConflict(allManifests, ms, cfg.reserved, n);
      }
    }

    method RefreshConflicts()
      requires Consistent(View())
      modifies this, events
      ensures View() == Refresh(cfg, old(View())) && Inv(cfg, View())
    {
      ghost var s := View();
      RefreshEstablishes(cfg, s);
      var conflicts := DetectConflicts();
      BreakConflicting(conflicts, s);
      ghost var mid := View();
      RestoreResolved(conflicts);
      RefreshReached(cfg, s, conflicts, mid, View());
    }

    method RegisterLoaded(p: Package)
      requires Consistent(View()) && WellFormed(p.manifest)
      modifies this
      ensures View() == Register(cfg, old(View()), p) && Consistent(View())
    {
      RegisterKeeps(cfg, View(), p);
      var id := p.manifest.id;
      if id in entries { return; }
      var entry := Entry(p.manifest, Loaded, NoFault, false, []);
      var wanted := WantedBy(cfg, states, id);
      if !p.environmentOk {
        entry := entry.(state := Broken, fault := Environment);
      } else if !wanted {
        entry := entry.(state := Disabled);
      }
      allManifests := allManifests[id := p.manifest];
      entries := entries[id := entry];
    }

    /** reload, up to the new attempt to load. */
    method UnloadPlugin(n: string)
      requires Inv(cfg, View()) && n in entries
      modifies this, events
      ensures View() == Unload(old(View()), n) && Inv(cfg, View())
    {
      UnloadKeeps(cfg, View(), n);
      assert EntryOk(View(), n);
      if entries[n].state == Enabled {
        var disabled := DisablePlugin(n);
      }
      entries := entries - {n};
      allManifests := allManifests - {n};
    }

    /** reload, from the refresh on. */
    method ResumePlugin(n: string, wasEnabled: bool, start: Start) returns (outcome: Outcome)
      modifies this, events
      ensures (View(), outcome) == Resume(old(View()), n, wasEnabled, start)
    {
      if wasEnabled {
        var ok := EnablePlugin(n, start);
        return Returned(ok);
      }
      if n !in entries { return MissingKey; }
      if entries[n].state != Broken {
        entries := entries[n := entries[n].(state := Disabled)];
      }
      return Returned(true);
    }

    method ReloadPlugin(n: string, p: Option<Package>, start: Start) returns (outcome: Outcome)
      requires Inv(cfg, View()) && (p.Some? ==> WellFormed(p.value.manifest))
      modifies this, events
      ensures (View(), outcome) == Reload(cfg, old(View()), n, p, start) && Inv(cfg, View())
    {
      ReloadKeeps(cfg, View(), n, p, start);
      if n !in entries { return Returned(false); }
      var wasEnabled := entries[n].state == Enabled;
      UnloadPlugin(n);
      if p == None { return Returned(false); }
      RegisterLoaded(p.value);
      RefreshConflicts();
      outcome := ResumePlugin(n, wasEnabled, start);
    }

    /** load_dir. */
    method LoadDir(loads: bool, occupied: bool, p: Option<Package>) returns (id: Option<string>)
      requires Inv(cfg, View()) && (p.Some? ==> WellFormed(p.value.manifest))
      modifies this, events
      ensures (View(), id) == Install(cfg, old(View()), loads, occupied, p) && Inv(cfg, View())
    {
      if !loads { return None; }
      if occupied { return None; }
      if p == None { return None; }
      RegisterLoaded(p.value);
      RefreshConflicts();
      return Some(p.value.manifest.id);
    }

    method RemovePlugin(n: string) returns (ok: bool)
      requires Inv(cfg, View())
      modifies this, events
      ensures (View(), ok) == Remove(cfg, old(View()), n) && Inv(cfg, View())
    {
      if n !in entries { return false; }
      if entries[n].state == Enabled { return false; }
      DropKeeps(cfg, View(), n);
      entries := entries - {n};
      allManifests := allManifests - {n};
      RefreshConflicts();
      return true;
    }

    method RegisterAll(packages: seq<Package>)
      requires View() == EMPTY.(states := states) && forall p :: p in packages ==> WellFormed(p.manifest)
      modifies this
      ensures Consistent(View()) && AllRegistered(cfg, old(states), View(), packages)
    {
      for i := 0 to |packages|
        invariant Consistent(View()) && AllRegistered(cfg, old(states), View(), packages[..i])
      {
        assert packages[..i + 1] == packages[..i] + [packages[i]];
        RegisteredNext(cfg, states, View(), packages[..i], packages[i]);
        RegisterLoaded(packages[i]);
      }
      assert packages[..|packages|] == packages;
    }

    method EnableAll(starts: string -> Start)
      requires Inv(cfg, View())
      modifies this, events
      ensures Inv(cfg, View()) && Started(cfg, old(View()), View(), {}, starts)
    {
      ghost var s := View();
      var todo := entries.Keys;
      while todo != {}
        invariant Inv(cfg, View()) && todo <= entries.Keys && Started(cfg, s, View(), todo, starts)
        decreases todo
      {
        var n :| n in todo;
        EnableNext(n, starts, s, todo);
        todo := todo - {n};
      }
    }

    method EnableNext(n: string, starts: string -> Start, ghost s: Reg, ghost todo: set<string>)
      requires Inv(cfg, View()) && Started(cfg, s, View(), todo, starts) && n in todo && n in entries
      modifies this, events
      ensures Inv(cfg, View()) && Started(cfg, s, View(), todo - {n}, starts)
    {
      StartedNext(cfg, s, View(), todo, starts, n);
      EnableKeeps(cfg, View(), n, starts(n));
      var wanted := WantedBy(cfg, states, n);
      if wanted {
        var ok := EnablePlugin(n, starts(n));
      }
    }

    /** The daemon's start: all packages registered, of which the first with an id counts, one refresh,
        then every wanted plugin enabled. What has become of each plugin is known exactly. */
    constructor (cfg: Config, packages: seq<Package>, states: map<string, bool>, starts: string -> Start)
      requires forall p :: p in packages ==> WellFormed(p.manifest)
      ensures fresh(events) && Inv(cfg, View()) && this.cfg == cfg
      ensures forall n :: n in entries <==> FirstPackage(packages, n).Some?
      ensures forall n :: n in entries ==>
                var p := FirstPackage(packages, n).value;
                && allManifests[n] == p.manifest
                && (entries[n].state, entries[n].fault)
                   == AtStart(p, Conflicted(allManifests, cfg.reserved, n),
                              if n in states then states[n] else cfg.enabledByDefault, starts(n))
    {
      this.cfg := cfg;
      events := new EventBus();
      entries, allManifests, serial := map[], map[], 0;
      this.states := states;
      new;
      RegisterAll(packages);
      ghost var registered := View();
      RefreshConflicts();
      ghost var refreshed := View();
      EnableAll(starts);
      forall n | n in entries
        ensures FirstPackage(packages, n).Some?
        ensures var p := FirstPackage(packages, n).value;
                && allManifests[n] == p.manifest
                && (entries[n].state, entries[n].fault)
                   == AtStart(p, Conflicted(allManifests, cfg.reserved, n),
                              WantedBy(cfg, states, n), starts(n))
      {
        StartDecides(cfg, states, registered, View(), packages, starts, n);
      }
    }
  }

  // ----- what the start makes of each plugin -----

  function FirstPackage(packages: seq<Package>, n: string): Option<Package> {
    if packages == [] then None
    else if packages[0].manifest.id == n then Some(packages[0])
    else FirstPackage(packages[1..], n)
  }

  lemma {:induction false} FirstPackageAppend(packages: seq<Package>, p: Package, n: string)
    ensures FirstPackage(packages + [p], n) ==
            if FirstPackage(packages, n).Some? then FirstPackage(packages, n)
            else if p.manifest.id == n then Some(p) else None
    ensures FirstPackage(packages, n).Some? ==> FirstPackage(packages, n).value.manifest.id == n
  {
    if packages == [] {
      assert packages + [p] == [p] && [p][1..] == [];
    } else {
      assert (packages + [p])[1..] == packages[1..] + [p];
      FirstPackageAppend(packages[1..], p, n);
    }
  }

  /** State and fault of a plugin when the registry has started. */
  function AtStart(p: Package, conflicted: bool, wanted: bool, start: Start): (State, Fault) {
    if !p.environmentOk then (Broken, Environment)
    else if conflicted then (Broken, Conflict)
    else if !wanted then (Disabled, NoFault)
    else match start
      case Runs => (Enabled, NoFault)
      case ConstructorRaises => (Broken, Instantiation)
      case InitRaises => (Broken, Initialisation)
  }

  ghost predicate AllRegistered(cfg: Config, states: map<string, bool>, s: Reg, packages: seq<Package>) {
    && s.states == states
    && s.entries.Keys == s.all.Keys
    && forall n :: if n in s.entries
                   then FirstPackage(packages, n).Some?
                        && s.entries[n] == NewEntry(FirstPackage(packages, n).value, WantedBy(cfg, states, n))
                   else FirstPackage(packages, n) == None
  }

  lemma RegisteredNext(cfg: Config, states: map<string, bool>, s: Reg, packages: seq<Package>, p: Package)
    requires AllRegistered(cfg, states, s, packages)
    ensures AllRegistered(cfg, states, Register(cfg, s, p), packages + [p])
  {
    var s' := Register(cfg, s, p);
    forall n ensures if n in s'.entries
                     then FirstPackage(packages + [p], n).Some?
                          && s'.entries[n] == NewEntry(FirstPackage(packages + [p], n).value, WantedBy(cfg, states, n))
                     else FirstPackage(packages + [p], n) == None
    {
      FirstPackageAppend(packages, p, n);
    }
  }

  function Begun(e: Entry, wanted: bool, start: Start): (State, Fault) {
    if !wanted || e.state == Broken || e.state == Enabled then (e.state, e.fault)
    else match start
      case Runs => (Enabled, e.fault)
      case ConstructorRaises => (Broken, Instantiation)
      case InitRaises => (Broken, Initialisation)
  }

  /** The enable loop has treated all but the names in todo. */
  ghost predicate Started(cfg: Config, s0: Reg, s: Reg, todo: set<string>, starts: string -> Start) {
    && s.all == s0.all && s.entries.Keys == s0.entries.Keys
    && forall n :: n in s.entries ==>
         if n in todo then s.entries[n] == s0.entries[n] && Wanted(cfg, s, n) == Wanted(cfg, s0, n)
         else (s.entries[n].state, s.entries[n].fault) == Begun(s0.entries[n], Wanted(cfg, s0, n), starts(n))
  }

  lemma StartedNext(cfg: Config, s0: Reg, s: Reg, todo: set<string>, starts: string -> Start, n: string)
    requires Started(cfg, s0, s, todo, starts) && n in todo && n in s.entries
    ensures Started(cfg, s0, if Wanted(cfg, s, n) then Enable(s, n, starts(n)).0 else s, todo - {n}, starts)
  {
  }

  /** Registering, refreshing and enabling together. */
  lemma StartDecides(cfg: Config, states: map<string, bool>, registered: Reg, s: Reg, packages: seq<Package>,
                     starts: string -> Start, n: string)
    requires AllRegistered(cfg, states, registered, packages) && n in registered.entries
    requires Consistent(registered) && Started(cfg, Refresh(cfg, registered), s, {}, starts)
    ensures n in s.entries && n in s.all && FirstPackage(packages, n).Some?
    ensures var p := FirstPackage(packages, n).value;
            && s.all[n] == p.manifest
            && (s.entries[n].state, s.entries[n].fault)
               == AtStart(p, Conflicted(s.all, cfg.reserved, n), WantedBy(cfg, states, n), starts(n))
  {
    var refreshed, p, wanted := Refresh(cfg, registered), FirstPackage(packages, n).value, WantedBy(cfg, states, n);
    assert EntryOk(registered, n);
    var e' := Judged(cfg, registered, n, NewEntry(p, wanted), Conflicted(s.all, cfg.reserved, n));
    assert s.all == registered.all && refreshed.entries[n] == e';
    assert (s.entries[n].state, s.entries[n].fault) == Begun(e', wanted, starts(n));
    StartCases(cfg, registered, n, p, wanted, Conflicted(s.all, cfg.reserved, n), starts(n));
  }

  lemma StartCases(cfg: Config, s: Reg, n: string, p: Package, wanted: bool, conflicted: bool, start: Start)
    requires wanted == Wanted(cfg, s, n)
    ensures Begun(Judged(cfg, s, n, NewEntry(p, wanted), conflicted), wanted, start)
         == AtStart(p, conflicted, wanted, start)
  {}
}
