/** Command-line options declared by plugins (src/plugins/cli_options.py): conflict detection and the
    registration list. */
module CliOptions {
  import opened Common

  datatype Command = Exec | Send | Advsend | Read | Mouse

  const ALL_COMMANDS: seq<Command> := [Exec, Send, Advsend, Read, Mouse]

  /** An empty short means none; an empty command list means every command. */
  datatype CliOption = CliOption(name: string, short: string, commands: seq<Command>)

  datatype Manifest = Manifest(id: string, options: seq<CliOption>, events: seq<string>)

  /** An option string on a command. */
  datatype Key = Key(command: Command, text: string)

  function OptionStrings(o: CliOption): seq<string> {
    ["--" + o.name] + if o.short == "" then [] else ["-" + o.short]
  }

  function CommandsOf(o: CliOption): seq<Command> { if o.commands == [] then ALL_COMMANDS else o.commands }

  // ----- what is declared -----

  function KeysOn(commands: seq<Command>, texts: seq<string>): seq<Key> {
    if commands == [] then []
    else seq(|texts|, k requires 0 <= k < |texts| => Key(commands[0], texts[k])) + KeysOn(commands[1..], texts)
  }

  function KeysOfOptions(options: seq<CliOption>): seq<Key> {
    if options == [] then []
    else KeysOn(CommandsOf(options[0]), OptionStrings(options[0])) + KeysOfOptions(options[1..])
  }

  /** Every option string of a manifest with every command it applies to, in declaration order. */
  function KeysOf(m: Manifest): seq<Key> { KeysOfOptions(m.options) }

  /** Manifest validation rejects repeated names, short names and commands, so that no manifest
      declares a string twice on a command. */
  ghost predicate WellFormed(m: Manifest) { NoRepeats(KeysOf(m)) }

  ghost predicate AllWellFormed(ms: seq<Manifest>) { forall m :: m in ms ==> WellFormed(m) }

  ghost predicate DistinctIds(ms: seq<Manifest>) {
    forall i, j :: 0 <= i < j < |ms| ==> ms[i].id != ms[j].id
  }

  /** What a conflict is, without any order: a string that is built in, or that another plugin also
      declares on the same command. */
  ghost predicate InConflict(ms: seq<Manifest>, reserved: set<Key>, m: Manifest) {
    m in ms && exists k :: k in KeysOf(m) && (k in reserved || Shared(ms, m, k))
  }

  ghost predicate Shared(ms: seq<Manifest>, m: Manifest, k: Key) {
    exists o :: o in ms && o.id != m.id && k in KeysOf(o)
  }

  // ----- detection -----

  /** The ids of the manifests that declare a key, once per declaration. */
  function IdsOf(ms: seq<Manifest>, k: Key): seq<string> {
    if ms == [] then [] else Repeat(ms[0].id, Occurrences(KeysOf(ms[0]), k)) + IdsOf(ms[1..], k)
  }

  function Repeat(id: string, n: nat): seq<string> { seq(n, _ => id) }

  function Occurrences(keys: seq<Key>, k: Key): nat {
    if keys == [] then 0 else (if keys[0] == k then 1 else 0) + Occurrences(keys[1..], k)
  }

  type Table = map<Key, seq<string>>

  function Lookup(t: Table, k: Key): seq<string> { if k in t then t[k] else [] }

  /** The key appended to the table for one id, in order. */
  function Recorded(t: Table, keys: seq<Key>, id: string): Table
    decreases |keys|
  {
    if keys == [] then t else Recorded(t[keys[0] := Lookup(t, keys[0]) + [id]], keys[1..], id)
  }

  function RecordedAll(t: Table, ms: seq<Manifest>): Table
    decreases |ms|
  {
    if ms == [] then t else RecordedAll(Recorded(t, KeysOf(ms[0]), ms[0].id), ms[1..])
  }

  /** The declaration loops of check_cli_option_conflicts. */
  method Collect(ms: seq<Manifest>) returns (table: Table)
    ensures table == RecordedAll(map[], ms)
  {
    table := map[];
    var i := 0;
    assert ms[0..] == ms;
    while i < |ms|
      invariant 0 <= i <= |ms| && RecordedAll(table, ms[i..]) == RecordedAll(map[], ms)
    {
      assert ms[i..][1..] == ms[i + 1..];
      table := CollectOptions(table, ms[i].options, ms[i].id);
      i := i + 1;
    }
  }

  method CollectOptions(t0: Table, options: seq<CliOption>, id: string) returns (table: Table)
    ensures table == Recorded(t0, KeysOfOptions(options), id)
  {
    table := t0;
    var i := 0;
    assert options[0..] == options;
    while i < |options|
      invariant 0 <= i <= |options|
      invariant Recorded(table, KeysOfOptions(options[i..]), id) == Recorded(t0, KeysOfOptions(options), id)
    {
      assert options[i..][1..] == options[i + 1..];
      var keys := KeysOn(CommandsOf(options[i]), OptionStrings(options[i]));
      RecordedAppend(table, keys, KeysOfOptions(options[i + 1..]), id);
      table := CollectKeys(table, keys, id);
      i := i + 1;
    }
  }

  method CollectKeys(t0: Table, keys: seq<Key>, id: string) returns (table: Table)
    ensures table == Recorded(t0, keys, id)
  {
    table := t0;
    var i := 0;
    assert keys[0..] == keys;
    while i < |keys|
      invariant 0 <= i <= |keys| && Recorded(table, keys[i..], id) == Recorded(t0, keys, id)
    {
      assert keys[i..][1..] == keys[i + 1..];
      table := table[keys[i] := Lookup(table, keys[i]) + [id]];
      i := i + 1;
    }
  }

  lemma {:induction false} RecordedAppend(t: Table, a: seq<Key>, b: seq<Key>, id: string)
    ensures Recorded(t, a + b, id) == Recorded(Recorded(t, a, id), b, id)
    decreases |a|
  {
    if a == [] {
      assert a + b == b;
    } else {
      ConsAppend(a, b);
      RecordedAppend(t[a[0] := Lookup(t, a[0]) + [id]], a[1..], b, id);
    }
  }

  lemma {:induction false} RecordedLookup(t: Table, keys: seq<Key>, id: string, k: Key)
    ensures Lookup(Recorded(t, keys, id), k) == Lookup(t, k) + Repeat(id, Occurrences(keys, k))
    decreases |keys|
  {
    if keys != [] {
      var t' := t[keys[0] := Lookup(t, keys[0]) + [id]];
      RecordedLookup(t', keys[1..], id, k);
      if keys[0] == k {
        assert Lookup(t', k) == Lookup(t, k) + [id];
        assert [id] + Repeat(id, Occurrences(keys[1..], k)) == Repeat(id, Occurrences(keys, k));
      }
    }
  }

  /** The table holds, for every key, the ids that declare it. */
  lemma {:induction false} TableLookup(t: Table, ms: seq<Manifest>, k: Key)
    ensures Lookup(RecordedAll(t, ms), k) == Lookup(t, k) + IdsOf(ms, k)
    decreases |ms|
  {
    if ms != [] {
      var t' := Recorded(t, KeysOf(ms[0]), ms[0].id);
      RecordedLookup(t, KeysOf(ms[0]), ms[0].id, k);
      TableLookup(t', ms[1..], k);
    }
  }

  ghost predicate Flagged(table: Table, reserved: set<Key>, id: string) {
    exists k :: k in table && id in table[k] && (k in reserved || |table[k]| > 1)
  }

  /** The second half of check_cli_option_conflicts: the flagged ids. */
  method Flag(table: Table, reserved: set<Key>) returns (conflicts: set<string>)
    ensures forall id :: id in conflicts <==> Flagged(table, reserved, id)
  {
    conflicts := {};
    var todo := table.Keys;
    while todo != {}
      invariant todo <= table.Keys
      invariant forall id :: id in conflicts <==>
                  exists k :: k in table && k !in todo && id in table[k] && (k in reserved || |table[k]| > 1)
      decreases |todo|
    {
      var k :| k in todo;
      var ids := table[k];
      ghost var before := conflicts;
      if k in reserved || |ids| > 1 {
        conflicts := conflicts + (set id | id in ids);
      }
      todo := todo - {k};
      forall id ensures id in conflicts <==>
          exists k' :: k' in table && k' !in todo && id in table[k'] && (k' in reserved || |table[k']| > 1)
      {
        if id in conflicts && id !in before {
          assert k in table && k !in todo && id in table[k];
        }
      }
    }
  }

  lemma {:induction false} OccursIn(keys: seq<Key>, k: Key)
    ensures k in keys <==> Occurrences(keys, k) > 0
    ensures NoRepeats(keys) ==> Occurrences(keys, k) <= 1
  {
    if keys != [] {
      OccursIn(keys[1..], k);
      assert keys == [keys[0]] + keys[1..];
      assert forall i :: 0 <= i < |keys[1..]| ==> keys[1..][i] == keys[i + 1];
    }
  }

  ghost predicate Declarer(ms: seq<Manifest>, id: string, k: Key) {
    exists m :: m in ms && m.id == id && k in KeysOf(m)
  }

  /** The ids listed for a key are those of the manifests that declare it. */
  lemma {:induction false} IdsMember(ms: seq<Manifest>, k: Key, id: string)
    ensures id in IdsOf(ms, k) <==> Declarer(ms, id, k)
  {
    if ms != [] {
      var m, rest := ms[0], ms[1..];
      IdsMember(rest, k, id);
      OccursIn(KeysOf(m), k);
      assert ms == [m] + rest;
      if Occurrences(KeysOf(m), k) > 0 { assert Repeat(m.id, Occurrences(KeysOf(m), k))[0] == m.id; }
      if Declarer(ms, id, k) {
        var d :| d in ms && d.id == id && k in KeysOf(d);
        assert d == m || d in rest;
      }
    }
  }

  /** With distinct ids and validated manifests no id is listed twice for a key. */
  lemma {:induction false} IdsOnce(ms: seq<Manifest>, k: Key)
    requires DistinctIds(ms) && AllWellFormed(ms)
    ensures NoRepeats(IdsOf(ms, k))
  {
    if ms != [] {
      var m, rest := ms[0], ms[1..];
      assert forall i :: 0 <= i < |rest| ==> rest[i] == ms[i + 1];
      assert m in ms && forall x :: x in rest ==> x in ms;
      IdsOnce(rest, k);
      IdsMember(rest, k, m.id);
      OccursIn(KeysOf(m), k);
      NotDeclaredLater(ms, k);
    }
  }

  lemma NotDeclaredLater(ms: seq<Manifest>, k: Key)
    requires DistinctIds(ms) && ms != []
    ensures !Declarer(ms[1..], ms[0].id, k)
  {
    forall d | d in ms[1..] ensures d.id != ms[0].id {
      var i :| 0 <= i < |ms[1..]| && ms[1..][i] == d;
      assert ms[i + 1] == d;
    }
  }

  lemma SameIdSameManifest(ms: seq<Manifest>, a: Manifest, b: Manifest)
    requires DistinctIds(ms) && a in ms && b in ms && a.id == b.id
    ensures a == b
  {
    var i :| 0 <= i < |ms| && ms[i] == a;
    var j :| 0 <= j < |ms| && ms[j] == b;
  }

  lemma NoRepeatsMore(ids: seq<string>, id: string)
    requires NoRepeats(ids) && id in ids
    ensures |ids| > 1 <==> exists o :: o in ids && o != id
  {
    if |ids| > 1 {
      assert ids[0] != ids[1];
      assert ids[0] in ids && ids[1] in ids;
    }
  }

  /** What is flagged is exactly what is in conflict. */
  lemma FlaggedMeans(ms: seq<Manifest>, reserved: set<Key>, m: Manifest)
    requires DistinctIds(ms) && AllWellFormed(ms) && m in ms
    ensures Flagged(RecordedAll(map[], ms), reserved, m.id) <==> InConflict(ms, reserved, m)
  {
    var table := RecordedAll(map[], ms);
    forall k ensures k in table && m.id in table[k] <==> k in KeysOf(m) {
      TableLookup(map[], ms, k);
      IdsMember(ms, k, m.id);
      if Declarer(ms, m.id, k) {
        var d :| d in ms && d.id == m.id && k in KeysOf(d);
        SameIdSameManifest(ms, d, m);
      }
    }
    forall k | k in KeysOf(m) ensures |table[k]| > 1 <==> Shared(ms, m, k) {
      TableLookup(map[], ms, k);
      IdsOnce(ms, k);
      NoRepeatsMore(table[k], m.id);
      OthersMean(ms, m, k);
    }
  }

  lemma OthersMean(ms: seq<Manifest>, m: Manifest, k: Key)
    ensures (exists o :: o in IdsOf(ms, k) && o != m.id) <==> Shared(ms, m, k)
  {
    if o :| o in IdsOf(ms, k) && o != m.id {
      IdsMember(ms, k, o);
      var d :| d in ms && d.id == o && k in KeysOf(d);
      assert Shared(ms, m, k);
    }
    if Shared(ms, m, k) {
      var d :| d in ms && d.id != m.id && k in KeysOf(d);
      IdsMember(ms, k, d.id);
    }
  }

  /** check_cli_option_conflicts. */
  method CheckConflicts(ms: seq<Manifest>, reserved: set<Key>) returns (conflicts: set<string>)
    requires DistinctIds(ms) && AllWellFormed(ms)
    ensures forall m :: m in ms ==> (m.id in conflicts <==> InConflict(ms, reserved, m))
    ensures forall id :: id in conflicts ==> exists m :: m in ms && m.id == id
  {
    var table := Collect(ms);
    conflicts := Flag(table, reserved);
    forall m | m in ms ensures m.id in conflicts <==> InConflict(ms, reserved, m) {
      FlaggedMeans(ms, reserved, m);
    }
    forall id | id in conflicts ensures exists m :: m in ms && m.id == id {
      var k :| k in table && id in table[k] && (k in reserved || |table[k]| > 1);
      TableLookup(map[], ms, k);
      IdsMember(ms, k, id);
    }
  }

  /** Conflicts only grow with the manifests, and their order and position are irrelevant. */
  lemma ConflictsMonotone(ms: seq<Manifest>, more: seq<Manifest>, reserved: set<Key>, m: Manifest)
    requires forall x :: x in ms ==> x in more
    ensures InConflict(ms, reserved, m) ==> InConflict(more, reserved, m)
    ensures (forall x :: x in more ==> x in ms) ==> (InConflict(ms, reserved, m) <==> InConflict(more, reserved, m))
  {
    forall k | Shared(ms, m, k) ensures Shared(more, m, k) {
      var o :| o in ms && o.id != m.id && k in KeysOf(o);
    }
    if forall x :: x in more ==> x in ms {
      forall k | Shared(more, m, k) ensures Shared(ms, m, k) {
        var o :| o in more && o.id != m.id && k in KeysOf(o);
      }
    }
  }

  // ----- registration -----

  /** One option offered on one command. */
  datatype Registration = Registration(command: Command, pluginId: string, name: string, strings: seq<string>)

  function OptionRegistrations(id: string, o: CliOption, commands: seq<Command>): seq<Registration> {
    seq(|commands|, k requires 0 <= k < |commands| => Registration(commands[k], id, o.name, OptionStrings(o)))
  }

  function PluginRegistrations(id: string, options: seq<CliOption>): seq<Registration> {
    if options == [] then []
    else OptionRegistrations(id, options[0], CommandsOf(options[0])) + PluginRegistrations(id, options[1..])
  }

  function Registrations(ms: seq<Manifest>, conflicts: set<string>): seq<Registration> {
    if ms == [] then []
    else (if ms[0].id in conflicts then [] else PluginRegistrations(ms[0].id, ms[0].options))
         + Registrations(ms[1..], conflicts)
  }

  type ByCommand = map<Command, seq<Registration>>

  function On(t: ByCommand, c: Command): seq<Registration> { if c in t then t[c] else [] }

  function OnCommand(regs: seq<Registration>, c: Command): seq<Registration> {
    if regs == [] then [] else (if regs[0].command == c then [regs[0]] else []) + OnCommand(regs[1..], c)
  }

  /** The registrations appended to the lists of their commands, in order. */
  function Appended(t: ByCommand, regs: seq<Registration>): ByCommand
    decreases |regs|
  {
    if regs == [] then t else Appended(t[regs[0].command := On(t, regs[0].command) + [regs[0]]], regs[1..])
  }

  lemma {:induction false} AppendedConcat(t: ByCommand, a: seq<Registration>, b: seq<Registration>)
    ensures Appended(t, a + b) == Appended(Appended(t, a), b)
    decreases |a|
  {
    if a == [] {
      assert a + b == b;
    } else {
      ConsAppend(a, b);
      AppendedConcat(t[a[0].command := On(t, a[0].command) + [a[0]]], a[1..], b);
    }
  }

  /** Each command gets its own registrations, in manifest order, and no list stays empty. */
  lemma {:induction false} AppendedOn(t: ByCommand, regs: seq<Registration>, c: Command)
    ensures On(Appended(t, regs), c) == On(t, c) + OnCommand(regs, c)
    ensures c in Appended(t, regs) <==> c in t || OnCommand(regs, c) != []
    decreases |regs|
  {
    if regs != [] {
      var t' := t[regs[0].command := On(t, regs[0].command) + [regs[0]]];
      AppendedOn(t', regs[1..], c);
      var own := if regs[0].command == c then [regs[0]] else [];
      assert On(t', c) == On(t, c) + own;
      Regroup(On(t, c), own, OnCommand(regs[1..], c));
    }
  }

  method BuildOption(t0: ByCommand, id: string, o: CliOption) returns (table: ByCommand)
    ensures table == Appended(t0, OptionRegistrations(id, o, CommandsOf(o)))
  {
    table := t0;
    var commands, j := CommandsOf(o), 0;
    ghost var all := OptionRegistrations(id, o, commands);
    assert all[0..] == all;
    while j < |commands|
      invariant 0 <= j <= |commands| == |all|
      invariant Appended(table, all[j..]) == Appended(t0, all)
    {
      assert all[j..][1..] == all[j + 1..];
      table := table[commands[j] := On(table, commands[j]) + [Registration(commands[j], id, o.name, OptionStrings(o))]];
      j := j + 1;
    }
  }

  method BuildPlugin(t0: ByCommand, id: string, options: seq<CliOption>) returns (table: ByCommand)
    ensures table == Appended(t0, PluginRegistrations(id, options))
  {
    table := t0;
    var j := 0;
    assert options[0..] == options;
    while j < |options|
      invariant 0 <= j <= |options|
      invariant Appended(table, PluginRegistrations(id, options[j..])) == Appended(t0, PluginRegistrations(id, options))
    {
      assert options[j..][1..] == options[j + 1..];
      AppendedConcat(table, OptionRegistrations(id, options[j], CommandsOf(options[j])),
                     PluginRegistrations(id, options[j + 1..]));
      table := BuildOption(table, id, options[j]);
      j := j + 1;
    }
  }

  /** The first manifest's part is appended first. */
  lemma AppendedFirst(t: ByCommand, ms: seq<Manifest>, conflicts: set<string>)
    requires ms != []
    ensures Appended(t, Registrations(ms, conflicts)) ==
            Appended(if ms[0].id in conflicts then t else Appended(t, PluginRegistrations(ms[0].id, ms[0].options)),
                     Registrations(ms[1..], conflicts))
  {
    var rest := Registrations(ms[1..], conflicts);
    if ms[0].id in conflicts {
      assert [] + rest == rest;
    } else {
      AppendedConcat(t, PluginRegistrations(ms[0].id, ms[0].options), rest);
    }
  }

  /** build_option_registrations. */
  method BuildRegistrations(ms: seq<Manifest>, conflicts: set<string>) returns (table: ByCommand)
    ensures table == Appended(map[], Registrations(ms, conflicts))
  {
    table := map[];
    var i := 0;
    assert ms[0..] == ms;
    while i < |ms|
      invariant 0 <= i <= |ms|
      invariant Appended(table, Registrations(ms[i..], conflicts)) == Appended(map[], Registrations(ms, conflicts))
    {
      assert ms[i..][0] == ms[i] && ms[i..][1..] == ms[i + 1..];
      AppendedFirst(table, ms[i..], conflicts);
      if ms[i].id !in conflicts {
        table := BuildPlugin(table, ms[i].id, ms[i].options);
      }
      i := i + 1;
    }
  }

  // ----- what is registered, and where -----

  /** An option applies to the commands it lists, and to every command when it lists none. */
  ghost predicate AppliesTo(o: CliOption, c: Command) { o.commands == [] || c in o.commands }

  lemma CommandsApply(o: CliOption, c: Command)
    ensures c in CommandsOf(o) <==> AppliesTo(o, c)
  {
    assert ALL_COMMANDS[0] == Exec && ALL_COMMANDS[1] == Send && ALL_COMMANDS[2] == Advsend;
    assert ALL_COMMANDS[3] == Read && ALL_COMMANDS[4] == Mouse;
  }

  /** The key is the long or the short form of the option, on a command it applies to. */
  ghost predicate Declares(o: CliOption, k: Key) {
    && AppliesTo(o, k.command)
    && (k.text == "--" + o.name || (o.short != "" && k.text == "-" + o.short))
  }

  ghost predicate DeclaredIn(options: seq<CliOption>, k: Key) { exists o :: o in options && Declares(o, k) }

  /** What a manifest declares: the long and short forms of its options on the commands they apply to. */
  lemma {:induction false} KeysDeclared(options: seq<CliOption>, k: Key)
    ensures k in KeysOfOptions(options) <==> DeclaredIn(options, k)
  {
    if options != [] {
      KeysDeclared(options[1..], k);
      OptionDeclares(options[0], k);
      FirstDeclares(options, k);
    }
  }

  lemma OptionDeclares(o: CliOption, k: Key)
    ensures k in KeysOn(CommandsOf(o), OptionStrings(o)) <==> Declares(o, k)
  {
    KeysOnMember(CommandsOf(o), OptionStrings(o), k);
    CommandsApply(o, k.command);
    var strings := OptionStrings(o);
    assert strings[0] == "--" + o.name && (o.short != "" ==> strings[1] == "-" + o.short);
  }

  lemma FirstDeclares(options: seq<CliOption>, k: Key)
    requires options != []
    ensures DeclaredIn(options, k) <==> Declares(options[0], k) || DeclaredIn(options[1..], k)
  {
    assert options == [options[0]] + options[1..];
  }

  /** r registers the option o of the plugin m. */
  ghost predicate Registers(r: Registration, m: Manifest, o: CliOption) {
    && o in m.options && AppliesTo(o, r.command) && r.pluginId == m.id && r.name == o.name
    && r.strings == ["--" + o.name] + if o.short == "" then [] else ["-" + o.short]
  }

  lemma OptionRegistered(m: Manifest, o: CliOption, r: Registration)
    requires o in m.options
    ensures r in OptionRegistrations(m.id, o, CommandsOf(o)) <==> Registers(r, m, o)
  {
    CommandsApply(o, r.command);
    var regs := OptionRegistrations(m.id, o, CommandsOf(o));
    if r in regs {
      var k :| 0 <= k < |regs| && regs[k] == r;
      assert r.command == CommandsOf(o)[k] && r.strings == OptionStrings(o);
    }
    if Registers(r, m, o) {
      var k :| 0 <= k < |CommandsOf(o)| && CommandsOf(o)[k] == r.command;
      assert r.strings == OptionStrings(o);
      assert r == Registration(r.command, r.pluginId, r.name, r.strings);
      assert regs[k] == r;
    }
  }

  ghost predicate RegistersOne(r: Registration, m: Manifest, options: seq<CliOption>) {
    exists o :: o in options && Registers(r, m, o)
  }

  lemma {:induction false} PluginRegistered(m: Manifest, options: seq<CliOption>, r: Registration)
    requires forall o :: o in options ==> o in m.options
    ensures r in PluginRegistrations(m.id, options) <==> RegistersOne(r, m, options)
  {
    if options != [] {
      assert options == [options[0]] + options[1..];
      PluginRegistered(m, options[1..], r);
      OptionRegistered(m, options[0], r);
    }
  }

  ghost predicate RegisteredBy(ms: seq<Manifest>, conflicts: set<string>, r: Registration) {
    exists m :: m in ms && m.id !in conflicts && RegistersOne(r, m, m.options)
  }

  /** Every registration is that of an option of a plugin in no conflict, with its id, its name and its strings; and
      every such option is registered on all its commands. */
  lemma {:induction false} RegisteredExactly(ms: seq<Manifest>, conflicts: set<string>, r: Registration)
    ensures r in Registrations(ms, conflicts) <==> RegisteredBy(ms, conflicts, r)
  {
    if ms != [] {
      assert ms == [ms[0]] + ms[1..];
      RegisteredExactly(ms[1..], conflicts, r);
      PluginRegistered(ms[0], ms[0].options, r);
    }
  }

  /** Registrations are in manifest order. */
  lemma {:induction false} RegistrationsInOrder(a: seq<Manifest>, b: seq<Manifest>, conflicts: set<string>)
    ensures Registrations(a + b, conflicts) == Registrations(a, conflicts) + Registrations(b, conflicts)
  {
    if a == [] {
      assert a + b == b;
    } else {
      ConsAppend(a, b);
      RegistrationsInOrder(a[1..], b, conflicts);
      Regroup(if a[0].id in conflicts then [] else PluginRegistrations(a[0].id, a[0].options),
              Registrations(a[1..], conflicts), Registrations(b, conflicts));
    }
  }

  /** And within a plugin in the order of its options. */
  lemma {:induction false} OptionsInOrder(id: string, a: seq<CliOption>, b: seq<CliOption>)
    ensures PluginRegistrations(id, a + b) == PluginRegistrations(id, a) + PluginRegistrations(id, b)
  {
    if a == [] {
      assert a + b == b;
    } else {
      ConsAppend(a, b);
      OptionsInOrder(id, a[1..], b);
      Regroup(OptionRegistrations(id, a[0], CommandsOf(a[0])), PluginRegistrations(id, a[1..]),
              PluginRegistrations(id, b));
    }
  }

  function StringsOf(r: Registration): seq<Key> {
    seq(|r.strings|, k requires 0 <= k < |r.strings| => Key(r.command, r.strings[k]))
  }

  /** The option strings that a registration list puts on the commands. */
  function Offered(regs: seq<Registration>): seq<Key> {
    if regs == [] then [] else StringsOf(regs[0]) + Offered(regs[1..])
  }

  lemma {:induction false} OfferedAppend(a: seq<Registration>, b: seq<Registration>)
    ensures Offered(a + b) == Offered(a) + Offered(b)
  {
    if a == [] {
      assert a + b == b;
    } else {
      ConsAppend(a, b);
      OfferedAppend(a[1..], b);
      Regroup(StringsOf(a[0]), Offered(a[1..]), Offered(b));
    }
  }

  lemma {:induction false} OptionOffers(id: string, o: CliOption, commands: seq<Command>)
    ensures Offered(OptionRegistrations(id, o, commands)) == KeysOn(commands, OptionStrings(o))
  {
    if commands != [] {
      OptionOffers(id, o, commands[1..]);
      assert OptionRegistrations(id, o, commands)[1..] == OptionRegistrations(id, o, commands[1..]);
    }
  }

  lemma {:induction false} PluginOffers(id: string, options: seq<CliOption>)
    ensures Offered(PluginRegistrations(id, options)) == KeysOfOptions(options)
  {
    if options != [] {
      PluginOffers(id, options[1..]);
      OptionOffers(id, options[0], CommandsOf(options[0]));
      OfferedAppend(OptionRegistrations(id, options[0], CommandsOf(options[0])), PluginRegistrations(id, options[1..]));
    }
  }

  /** What one manifest is offered: all it declares, or nothing when it is in conflict. */
  function OfferedOf(m: Manifest, conflicts: set<string>): seq<Key> {
    if m.id in conflicts then [] else KeysOf(m)
  }

  lemma RegistrationsStep(ms: seq<Manifest>, conflicts: set<string>)
    requires ms != []
    ensures Offered(Registrations(ms, conflicts))
         == OfferedOf(ms[0], conflicts) + Offered(Registrations(ms[1..], conflicts))
  {
    var rest := Registrations(ms[1..], conflicts);
    PluginOffers(ms[0].id, ms[0].options);
    OfferedAppend(PluginRegistrations(ms[0].id, ms[0].options), rest);
    assert [] + rest == rest;
  }

  ghost predicate OfferedFrom(ms: seq<Manifest>, conflicts: set<string>, k: Key) {
    exists m :: m in ms && k in OfferedOf(m, conflicts)
  }

  lemma {:induction false} OfferedBy(ms: seq<Manifest>, conflicts: set<string>, k: Key)
    ensures k in Offered(Registrations(ms, conflicts)) <==> OfferedFrom(ms, conflicts, k)
  {
    if ms != [] {
      OfferedBy(ms[1..], conflicts, k);
      RegistrationsStep(ms, conflicts);
      assert ms == [ms[0]] + ms[1..];
      if OfferedFrom(ms, conflicts, k) {
        var x :| x in ms && k in OfferedOf(x, conflicts);
        assert x == ms[0] || x in ms[1..];
      }
    }
  }

  ghost predicate Clean(ms: seq<Manifest>, all: seq<Manifest>, conflicts: set<string>, reserved: set<Key>) {
    forall m :: m in ms && m.id !in conflicts ==> !InConflict(all, reserved, m)
  }

  lemma FirstApart(ms: seq<Manifest>, all: seq<Manifest>, conflicts: set<string>, reserved: set<Key>, k: Key)
    requires ms != [] && DistinctIds(ms) && Clean(ms, all, conflicts, reserved)
    requires forall m :: m in ms ==> m in all
    requires k in OfferedOf(ms[0], conflicts)
    ensures k !in reserved && !OfferedFrom(ms[1..], conflicts, k)
  {
    var m, rest := ms[0], ms[1..];
    assert m in ms && m in all;
    assert !InConflict(all, reserved, m);
    forall x | x in rest ensures k !in OfferedOf(x, conflicts) {
      var i :| 0 <= i < |rest| && rest[i] == x;
      assert ms[i + 1] == x && x.id != m.id && x in all;
      assert !Shared(all, m, k);
    }
  }

  /** On no command does the registration list hold a string twice, or one that is built in. */
  lemma {:induction false} RegistrationsClean(ms: seq<Manifest>, all: seq<Manifest>, conflicts: set<string>,
                                              reserved: set<Key>)
    requires DistinctIds(ms) && AllWellFormed(ms) && Clean(ms, all, conflicts, reserved)
    requires forall m :: m in ms ==> m in all
    ensures NoRepeats(Offered(Registrations(ms, conflicts)))
    ensures forall k :: k in Offered(Registrations(ms, conflicts)) ==> k !in reserved
  {
    if ms != [] {
      var m, rest := ms[0], ms[1..];
      assert forall i :: 0 <= i < |rest| ==> rest[i] == ms[i + 1];
      assert m in ms && forall x :: x in rest ==> x in ms;
      RegistrationsClean(rest, all, conflicts, reserved);
      RegistrationsStep(ms, conflicts);
      var a, b := OfferedOf(m, conflicts), Offered(Registrations(rest, conflicts));
      forall k | k in a ensures k !in reserved && k !in b {
        FirstApart(ms, all, conflicts, reserved, k);
        OfferedBy(rest, conflicts, k);
      }
      NoRepeatsConcat(a, b);
    }
  }

  function WithCommand(keys: seq<Key>, c: Command): seq<Key> {
    if keys == [] then [] else (if keys[0].command == c then [keys[0]] else []) + WithCommand(keys[1..], c)
  }

  lemma {:induction false} WithCommandAppend(a: seq<Key>, b: seq<Key>, c: Command)
    ensures WithCommand(a + b, c) == WithCommand(a, c) + WithCommand(b, c)
  {
    if a == [] {
      assert a + b == b;
    } else {
      ConsAppend(a, b);
      WithCommandAppend(a[1..], b, c);
      Regroup(if a[0].command == c then [a[0]] else [], WithCommand(a[1..], c), WithCommand(b, c));
    }
  }

  lemma {:induction false} WithCommandUniform(keys: seq<Key>, c: Command, own: Command)
    requires forall k :: k in keys ==> k.command == own
    ensures WithCommand(keys, c) == if own == c then keys else []
  {
    if keys != [] {
      assert keys[0] in keys && forall k :: k in keys[1..] ==> k in keys;
      WithCommandUniform(keys[1..], c, own);
    }
  }

  lemma {:induction false} WithCommandMember(keys: seq<Key>, c: Command, k: Key)
    ensures k in WithCommand(keys, c) <==> k in keys && k.command == c
  {
    if keys != [] {
      WithCommandMember(keys[1..], c, k);
      assert keys == [keys[0]] + keys[1..];
    }
  }

  lemma {:induction false} WithCommandOnce(keys: seq<Key>, c: Command)
    requires NoRepeats(keys)
    ensures NoRepeats(WithCommand(keys, c))
  {
    if keys != [] {
      var rest := keys[1..];
      assert forall i :: 0 <= i < |rest| ==> rest[i] == keys[i + 1];
      WithCommandOnce(rest, c);
      WithCommandMember(rest, c, keys[0]);
      assert keys[0] !in rest;
      NoRepeatsConcat(if keys[0].command == c then [keys[0]] else [], WithCommand(rest, c));
    }
  }

  /** What one command offers is its part of what all offer. */
  lemma {:induction false} OfferedOnCommand(regs: seq<Registration>, c: Command)
    ensures Offered(OnCommand(regs, c)) == WithCommand(Offered(regs), c)
  {
    if regs != [] {
      var r, rest := regs[0], OnCommand(regs[1..], c);
      OfferedOnCommand(regs[1..], c);
      var own := StringsOf(r);
      WithCommandUniform(own, c, r.command);
      WithCommandAppend(own, Offered(regs[1..]), c);
      if r.command == c {
        assert ([r] + rest)[1..] == rest;
      } else {
        assert [] + rest == rest;
      }
    }
  }

  ghost function ConflictIds(ms: seq<Manifest>, reserved: set<Key>): set<string> {
    set m | m in ms && InConflict(ms, reserved, m) :: m.id
  }

  ghost predicate DeclaredClean(ms: seq<Manifest>, reserved: set<Key>, k: Key) {
    exists m :: m in ms && !InConflict(ms, reserved, m) && k in KeysOf(m)
  }

  /** The keys are the strings that plugins in no conflict declare for the command, each once, none built in. */
  ghost predicate CleanOffer(ms: seq<Manifest>, reserved: set<Key>, c: Command, keys: seq<Key>) {
    && NoRepeats(keys)
    && (forall k :: k in keys <==> k.command == c && DeclaredClean(ms, reserved, k))
    && (forall k :: k in keys ==> k !in reserved)
  }

  /** Main result, the two passes together. Command by command, the table lists the registrations of the
      plugins in no conflict, in manifest order; a string is offered on a command exactly when such a
      plugin declares it there, then once, and never as a built-in. */
  method DetectAndBuild(ms: seq<Manifest>, reserved: set<Key>) returns (table: ByCommand)
    requires DistinctIds(ms) && AllWellFormed(ms)
    ensures forall c :: On(table, c) == OnCommand(Registrations(ms, ConflictIds(ms, reserved)), c)
    ensures forall c :: CleanOffer(ms, reserved, c, Offered(On(table, c)))
  {
    var conflicts := CheckConflicts(ms, reserved);
    table := BuildRegistrations(ms, conflicts);
    assert conflicts == ConflictIds(ms, reserved);
    forall c
      ensures On(table, c) == OnCommand(Registrations(ms, conflicts), c)
      ensures CleanOffer(ms, reserved, c, Offered(On(table, c)))
    {
      AppendedOn(map[], Registrations(ms, conflicts), c);
      RegisteredClean(ms, reserved, conflicts, c);
    }
  }

  lemma RegisteredClean(ms: seq<Manifest>, reserved: set<Key>, conflicts: set<string>, c: Command)
    requires DistinctIds(ms) && AllWellFormed(ms)
    requires forall m :: m in ms ==> (m.id in conflicts <==> InConflict(ms, reserved, m))
    ensures CleanOffer(ms, reserved, c, Offered(OnCommand(Registrations(ms, conflicts), c)))
  {
    var regs := Registrations(ms, conflicts);
    RegistrationsClean(ms, ms, conflicts, reserved);
    OfferedOnCommand(regs, c);
    WithCommandOnce(Offered(regs), c);
    forall k ensures k in Offered(OnCommand(regs, c)) <==> k.command == c && DeclaredClean(ms, reserved, k) {
      WithCommandMember(Offered(regs), c, k);
      OfferedBy(ms, conflicts, k);
      OfferedClean(ms, reserved, conflicts, k);
    }
  }

  lemma OfferedClean(ms: seq<Manifest>, reserved: set<Key>, conflicts: set<string>, k: Key)
    requires forall m :: m in ms ==> (m.id in conflicts <==> InConflict(ms, reserved, m))
    ensures OfferedFrom(ms, conflicts, k) <==> DeclaredClean(ms, reserved, k)
  {
    if OfferedFrom(ms, conflicts, k) {
      var m :| m in ms && k in OfferedOf(m, conflicts);
      assert !InConflict(ms, reserved, m);
    }
    if DeclaredClean(ms, reserved, k) {
      var m :| m in ms && !InConflict(ms, reserved, m) && k in KeysOf(m);
      assert k in OfferedOf(m, conflicts);
    }
  }

  // ----- what manifest validation guarantees -----

  /** What _validate_cli_options has checked before a manifest is accepted: names and short names are
      unique, a short name is a letter or a digit, and a command list has no repeats. */
  ghost predicate Validated(options: seq<CliOption>) {
    && (forall i, j :: 0 <= i < j < |options| ==> options[i].name != options[j].name)
    && (forall i, j :: 0 <= i < j < |options| && options[i].short != "" ==> options[i].short != options[j].short)
    && (forall i :: 0 <= i < |options| ==>
          NoRepeats(options[i].commands) && (options[i].short != "" ==> options[i].short[0] != '-'))
  }

  lemma {:induction false} KeysOnMember(commands: seq<Command>, texts: seq<string>, k: Key)
    ensures k in KeysOn(commands, texts) <==> k.command in commands && k.text in texts
  {
    if commands != [] {
      KeysOnMember(commands[1..], texts, k);
      assert commands == [commands[0]] + commands[1..];
      var first := seq(|texts|, j requires 0 <= j < |texts| => Key(commands[0], texts[j]));
      if k.command == commands[0] && k.text in texts {
        var j :| 0 <= j < |texts| && texts[j] == k.text;
        assert first[j] == k;
      }
    }
  }

  lemma {:induction false} KeysOnDistinct(commands: seq<Command>, texts: seq<string>)
    requires NoRepeats(commands) && NoRepeats(texts)
    ensures NoRepeats(KeysOn(commands, texts))
  {
    if commands != [] {
      var rest := commands[1..];
      assert forall i :: 0 <= i < |rest| ==> rest[i] == commands[i + 1];
      KeysOnDistinct(rest, texts);
      var first := seq(|texts|, j requires 0 <= j < |texts| => Key(commands[0], texts[j]));
      forall k | k in first ensures k !in KeysOn(rest, texts) {
        KeysOnMember(rest, texts, k);
      }
      NoRepeatsConcat(first, KeysOn(rest, texts));
    }
  }

  lemma StringsApart(o: CliOption, p: CliOption)
    requires o.name != p.name && (o.short != "" ==> o.short != p.short)
    requires o.short != "" ==> o.short[0] != '-'
    requires p.short != "" ==> p.short[0] != '-'
    ensures forall s :: s in OptionStrings(o) ==> s !in OptionStrings(p)
  {
    LongApart(o.name, p.name);
    assert forall a: string, b: string :: "-" + a == "-" + b ==> ("-" + a)[1..] == a && ("-" + b)[1..] == b;
    assert o.short != "" ==> ("-" + o.short)[1] != '-';
    assert p.short != "" ==> ("-" + p.short)[1] != '-';
    assert ("--" + o.name)[1] == '-' && ("--" + p.name)[1] == '-';
  }

  lemma LongApart(a: string, b: string)
    requires a != b
    ensures "--" + a != "--" + b
  {
    assert ("--" + a)[2..] == a && ("--" + b)[2..] == b;
  }

  lemma {:induction false} LaterApart(options: seq<CliOption>, o: CliOption, k: Key)
    requires o.short != "" ==> o.short[0] != '-'
    requires k.text in OptionStrings(o)
    requires forall p :: p in options ==> p.name != o.name && (o.short != "" ==> o.short != p.short)
                                          && (p.short != "" ==> p.short[0] != '-')
    ensures k !in KeysOfOptions(options)
  {
    if options != [] {
      assert options[0] in options && forall p :: p in options[1..] ==> p in options;
      LaterApart(options[1..], o, k);
      StringsApart(o, options[0]);
      KeysOnMember(CommandsOf(options[0]), OptionStrings(options[0]), k);
    }
  }

  /** A validated manifest declares no option string twice on a command. */
  lemma {:induction false} ValidatedIsWellFormed(options: seq<CliOption>)
    requires Validated(options)
    ensures NoRepeats(KeysOfOptions(options))
  {
    if options != [] {
      var o, rest := options[0], options[1..];
      assert forall i :: 0 <= i < |rest| ==> rest[i] == options[i + 1];
      ValidatedIsWellFormed(rest);
      var first := KeysOn(CommandsOf(o), OptionStrings(o));
      assert NoRepeats(OptionStrings(o)) by {
        if o.short != "" { assert ("--" + o.name)[1] != ("-" + o.short)[1]; }
      }
      KeysOnDistinct(CommandsOf(o), OptionStrings(o));
      forall k | k in first ensures k !in KeysOfOptions(rest) {
        KeysOnMember(CommandsOf(o), OptionStrings(o), k);
        LaterApart(rest, o, k);
      }
      NoRepeatsConcat(first, KeysOfOptions(rest));
    }
  }
}
