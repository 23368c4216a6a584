/** The command registry: which plugin answers a command or alias, and what is
    told about it. Names are kept in lower case. */
module Commands {
  import opened Text

  /** A loaded module; `id` is what it reports as its own id. */
  datatype Plugin = Plugin(id: nat, instance: nat, handlesCommands: bool)

  datatype Info = Info(description: string, pluginId: nat, name: string, experimental: bool)

  datatype Registry = Registry(
    plugins: map<nat, Plugin>, descriptions: map<string, Info>,
    commands: map<string, Plugin>, aliases: map<string, Plugin>)

  const EMPTY := Registry(map[], map[], map[], map[])

  predicate Held(list: map<string, Plugin>, key: string, id: nat) {
    key in list && list[key].id == id
  }

  // ---- the operations --------------------------------------------------------------------------

  function Added(r: Registry, id: nat, plugin: Plugin): Registry {
    if plugin.handlesCommands then r.(plugins := r.plugins[id := plugin]) else r
  }

  function Without(list: map<string, Plugin>, id: nat): map<string, Plugin> {
    map k | k in list && list[k].id != id :: list[k]
  }

  function Forgotten(d: map<string, Info>, list: map<string, Plugin>, id: nat): map<string, Info> {
    map k | k in d && !(d[k].pluginId == id && Held(list, k, id)) :: d[k]
  }

  function Removed(r: Registry, id: nat): Registry {
    Registry(
      r.plugins - {id},
      Forgotten(Forgotten(r.descriptions, r.commands, id), r.aliases, id),
      Without(r.commands, id),
      Without(r.aliases, id))
  }

  function Registered(r: Registry, id: nat, cmd: string, desc: string, experimental: bool): Option<Registry> {
    if id !in r.plugins then None
    else Some(r.(descriptions := r.descriptions[Lower(cmd) := Info(desc, id, cmd, experimental)],
                 commands := r.commands[Lower(cmd) := r.plugins[id]]))
  }

  function Aliased(r: Registry, id: nat, cmd: string, desc: string, experimental: bool): Option<Registry> {
    if id !in r.plugins then None
    else Some(r.(descriptions := r.descriptions[Lower(cmd) := Info(desc, id, cmd, experimental)],
                 aliases := r.aliases[Lower(cmd) := r.plugins[id]]))
  }

  function Unregistered(r: Registry, id: nat, cmd: string): Option<Registry> {
    var key := Lower(cmd);
    if id !in r.plugins then None
    else if !Held(r.commands, key, id) then Some(r)
    else Some(r.(commands := r.commands - {key},
                 descriptions := if key in r.descriptions && r.descriptions[key].pluginId == id
                                 then r.descriptions - {key} else r.descriptions))
  }

  /** Commands first, aliases as the fallback. */
  function Resolve(r: Registry, cmd: string): Option<Plugin> {
    var key := Lower(cmd);
    if key in r.commands then Some(r.commands[key])
    else if key in r.aliases then Some(r.aliases[key])
    else None
  }

  datatype Op =
    | AddPlugin(id: nat, plugin: Plugin)
    | RemoveAll
    | RemovePlugin(id: nat)
    | RegisterCommand(id: nat, cmd: string, desc: string, experimental: bool)
    | RegisterAlias(id: nat, cmd: string, desc: string, experimental: bool)
    | UnregisterCommand(id: nat, cmd: string)

  /** An operation that throws changes nothing. */
  function Step(r: Registry, op: Op): Registry {
    match op
    case AddPlugin(id, plugin) => Added(r, id, plugin)
    case RemoveAll => EMPTY
    case RemovePlugin(id) => Removed(r, id)
    case RegisterCommand(id, cmd, desc, e) => if id in r.plugins then Registered(r, id, cmd, desc, e).value else r
    case RegisterAlias(id, cmd, desc, e) => if id in r.plugins then Aliased(r, id, cmd, desc, e).value else r
    case UnregisterCommand(id, cmd) => if id in r.plugins then Unregistered(r, id, cmd).value else r
  }

  function Run(r: Registry, ops: seq<Op>): Registry
    decreases ops
  {
    if ops == [] then r else Run(Step(r, ops[0]), ops[1..])
  }

  // ---- what every history keeps ------------------------------------------------------------------------

  ghost predicate OwnIds(r: Registry) {
    forall i :: i in r.plugins ==> r.plugins[i].id == i
  }

  /** Whoever a description names as owner holds the command or the alias of that name. */
  ghost predicate Owned(r: Registry) {
    forall k :: k in r.descriptions ==>
      Held(r.commands, k, r.descriptions[k].pluginId) || Held(r.aliases, k, r.descriptions[k].pluginId)
  }

  ghost predicate Inv(r: Registry) {
    OwnIds(r) && Owned(r)
  }

  /** Every plugin is added under the id it reports. */
  ghost predicate OwnAdds(ops: seq<Op>) {
    forall i :: 0 <= i < |ops| && ops[i].AddPlugin? ==> ops[i].plugin.id == ops[i].id
  }

  lemma StepKeepsInv(r: Registry, op: Op)
    requires Inv(r) && (op.AddPlugin? ==> op.plugin.id == op.id)
    ensures Inv(Step(r, op))
  {
  }

  lemma {:induction false} RunKeepsInv(r: Registry, ops: seq<Op>)
    requires Inv(r) && OwnAdds(ops)
    ensures Inv(Run(r, ops))
    decreases |ops|
  {
    hide Step, Inv;
    if ops == [] {
    } else {
      StepKeepsInv(r, ops[0]);
      RunKeepsInv(Step(r, ops[0]), ops[1..]);
    }
  }

  /** Nothing in the registry leads to plugin `p`. */
  ghost predicate FreeOf(r: Registry, p: nat) {
    && (forall k :: !Held(r.commands, k, p) && !Held(r.aliases, k, p))
    && (forall k :: k in r.descriptions ==> r.descriptions[k].pluginId != p)
    && (forall i :: i in r.plugins ==> i != p && r.plugins[i].id != p)
  }

  /** After any such history, unloading a plugin leaves nothing of it behind. */
  lemma {:induction false} UnloadLeavesNothing(ops: seq<Op>, p: nat)
    requires OwnAdds(ops)
    ensures FreeOf(Removed(Run(EMPTY, ops), p), p)
  {
    hide Run;
    RunKeepsInv(EMPTY, ops);
  }

  /** In any registry at all, unloading leaves something behind exactly when a plugin of
      that id was added under another one, or a description names an id that holds neither
      the command nor the alias. */
  lemma UnloadIff(r: Registry, p: nat)
    ensures FreeOf(Removed(r, p), p) <==>
            && (forall i :: i in r.plugins && r.plugins[i].id == p ==> i == p)
            && (forall k :: k in r.descriptions && r.descriptions[k].pluginId == p ==>
                  Held(r.commands, k, p) || Held(r.aliases, k, p))
  {
    var t := Removed(r, p);
    if FreeOf(t, p) {
      forall i | i in r.plugins && r.plugins[i].id == p
        ensures i == p
      {
        assert i != p ==> i in t.plugins;
      }
      forall k | k in r.descriptions && r.descriptions[k].pluginId == p
        ensures Held(r.commands, k, p) || Held(r.aliases, k, p)
      {
        assert k !in t.descriptions;
      }
    }
  }

  /** A name that did not resolve to the unloaded plugin resolves as before; one that did
      falls back to another plugin's alias, or to nothing. */
  lemma UnloadKeepsOthers(r: Registry, p: nat, cmd: string)
    ensures var was, now := Resolve(r, cmd), Resolve(Removed(r, p), cmd);
            && (was.None? || was.value.id != p ==> now == was)
            && (was.Some? && was.value.id == p ==>
                  now == if Lower(cmd) in r.aliases && r.aliases[Lower(cmd)].id != p
                         then Some(r.aliases[Lower(cmd)]) else None)
  {
  }

  /** Registering keeps each description with its holder if and only if the plugin is
      known under the id it reports, or that id holds the alias of the name already. */
  lemma RegisterOwnedIff(r: Registry, id: nat, cmd: string, desc: string, e: bool)
    requires Owned(r) && id in r.plugins
    ensures Owned(Registered(r, id, cmd, desc, e).value) <==>
            r.plugins[id].id == id || Held(r.aliases, Lower(cmd), id)
  {
    var t := Registered(r, id, cmd, desc, e).value;
    assert t.descriptions[Lower(cmd)].pluginId == id;
  }

  /** Added under another id, a plugin's description outlives it. */
  lemma ForeignIdLeavesADescription(cmd: string)
    ensures var plugin := Plugin(1, 0, true);
            var ops := [AddPlugin(2, plugin), RegisterCommand(2, cmd, "", false), RemovePlugin(1)];
            var t := Run(EMPTY, ops);
            Lower(cmd) in t.descriptions && Resolve(t, cmd).None? && 2 in t.plugins && t.plugins[2].id == 1
  {
    var a, b, c := AddPlugin(2, Plugin(1, 0, true)), RegisterCommand(2, cmd, "", false), RemovePlugin(1);
    var t := Step(Step(Step(EMPTY, a), b), c);
    assert Lower(cmd) in t.descriptions && Resolve(t, cmd).None? && 2 in t.plugins && t.plugins[2].id == 1;
    hide Step;
    assert [a, b, c][1..] == [b, c] && [b, c][1..] == [c] && [c][1..] == [];
    assert Run(Step(EMPTY, a), [b, c]) == Run(Step(Step(EMPTY, a), b), [c]);
    assert Run(Step(Step(EMPTY, a), b), [c]) == Run(t, []);
  }

  /** The plugin a description names is the one that answers, unless another plugin holds a
      command of that name over its alias. */
  lemma DescribedByAnswerer(r: Registry, cmd: string)
    requires Inv(r) && Lower(cmd) in r.descriptions
    ensures var owner := r.descriptions[Lower(cmd)].pluginId;
            && Resolve(r, cmd).Some?
            && (Resolve(r, cmd).value.id == owner <==>
                (Lower(cmd) in r.commands ==> r.commands[Lower(cmd)].id == owner))
  {
  }

  /** The operation neither takes over nor gives up the name `key` held by plugin `id`. */
  predicate Spares(op: Op, key: string, id: nat) {
    match op
    case AddPlugin(_, _) => true
    case RemoveAll => false
    case RemovePlugin(p) => p != id
    case RegisterCommand(_, cmd, _, _) => Lower(cmd) != key
    case RegisterAlias(_, cmd, _, _) => Lower(cmd) != key
    case UnregisterCommand(p, cmd) => Lower(cmd) != key || p != id
  }

  /** A registration holds, under any spelling of the name, through every run in which nobody
      takes the name over and its plugin neither gives it up nor goes: other plugins that
      unregister the name or are removed, having held it once, do not disturb it. */
  lemma {:induction false} RegistrationLasts(r: Registry, plugin: Plugin, info: Info, key: string, ops: seq<Op>)
    requires key in r.commands && r.commands[key] == plugin && key in r.descriptions && r.descriptions[key] == info
    requires plugin.id == info.pluginId
    requires forall i :: 0 <= i < |ops| ==> Spares(ops[i], key, plugin.id)
    ensures var t := Run(r, ops);
            && key in t.descriptions && t.descriptions[key] == info
            && forall cmd :: Lower(cmd) == key ==> Resolve(t, cmd) == Some(plugin)
    decreases |ops|
  {
    if ops == [] {
    } else {
      RegistrationLasts(Step(r, ops[0]), plugin, info, key, ops[1..]);
    }
  }

  // ---- what an operation changes for those who ask ------------------------------------------------------

  /** What is told about a name. */
  function Told(r: Registry, cmd: string): Option<Info> {
    var key := Lower(cmd);
    if key in r.descriptions then Some(r.descriptions[key]) else None
  }

  /** Two registries answer alike about a name. */
  ghost predicate Alike(r: Registry, t: Registry, cmd: string) {
    Resolve(t, cmd) == Resolve(r, cmd) && Told(t, cmd) == Told(r, cmd)
  }

  /** A registration by a known plugin makes it answer to the name in any spelling, with what it
      told; by an unknown one it changes nothing. No other name is touched. */
  lemma RegisterIs(r: Registry, id: nat, cmd: string, desc: string, e: bool, name: string)
    ensures var t := Step(r, RegisterCommand(id, cmd, desc, e));
            if id in r.plugins && Lower(name) == Lower(cmd)
            then Resolve(t, name) == Some(r.plugins[id]) && Told(t, name) == Some(Info(desc, id, cmd, e))
            else Alike(r, t, name)
  {
  }

  /** An alias does the same, except that a command of the name goes on answering. */
  lemma AliasIs(r: Registry, id: nat, cmd: string, desc: string, e: bool, name: string)
    ensures var t := Step(r, RegisterAlias(id, cmd, desc, e));
            if id in r.plugins && Lower(name) == Lower(cmd)
            then
              && Resolve(t, name) == Some(if Lower(cmd) in r.commands then r.commands[Lower(cmd)] else r.plugins[id])
              && Told(t, name) == Some(Info(desc, id, cmd, e))
            else Alike(r, t, name)
  {
  }

  /** Unregistering, by the plugin that holds the command, leaves the name to an alias or to
      nobody, and takes away what that plugin told about it; by any other it changes nothing. */
  lemma UnregisterIs(r: Registry, id: nat, cmd: string, name: string)
    ensures var t := Step(r, UnregisterCommand(id, cmd));
            var key := Lower(cmd);
            if id in r.plugins && key in r.commands && r.commands[key].id == id && Lower(name) == key
            then
              && Resolve(t, name) == (if key in r.aliases then Some(r.aliases[key]) else None)
              && Told(t, name) ==
                 if Told(r, cmd).Some? && Told(r, cmd).value.pluginId != id then Told(r, cmd) else None
            else Alike(r, t, name)
  {
  }

  /** A plugin is known under an id once it was added there with a command handler; adding it, or
      one without, changes no answer. */
  lemma AddIs(r: Registry, id: nat, plugin: Plugin, name: string)
    ensures var t := Step(r, AddPlugin(id, plugin));
            && t.plugins == (if plugin.handlesCommands then r.plugins[id := plugin] else r.plugins)
            && Alike(r, t, name)
  {
  }

  /** A plugin that registers a command answers to it, in any spelling and with what it told,
      through every run in which nobody takes the name over and it neither gives it up nor goes. */
  lemma {:induction false} RegisteredAnswers(
      r: Registry, id: nat, cmd: string, desc: string, e: bool, ops: seq<Op>, name: string)
    requires id in r.plugins && r.plugins[id].id == id && Lower(name) == Lower(cmd)
    requires forall i :: 0 <= i < |ops| ==> Spares(ops[i], Lower(cmd), id)
    ensures var t := Run(Step(r, RegisterCommand(id, cmd, desc, e)), ops);
            Resolve(t, name) == Some(r.plugins[id]) && Told(t, name) == Some(Info(desc, id, cmd, e))
  {
    hide Run;
    var t := Step(r, RegisterCommand(id, cmd, desc, e));
    RegistrationLasts(t, r.plugins[id], Info(desc, id, cmd, e), Lower(cmd), ops);
  }

  // ---- the erasing walk, key by key -------------------------------------------------------------------

  ghost function KeptSoFar(list: map<string, Plugin>, id: nat, todo: set<string>): map<string, Plugin> {
    map k | k in list && (k in todo || list[k].id != id) :: list[k]
  }

  ghost function ToldSoFar(d: map<string, Info>, list: map<string, Plugin>, id: nat, todo: set<string>)
    : map<string, Info>
  {
    map k | k in d && (k in todo || !(d[k].pluginId == id && Held(list, k, id))) :: d[k]
  }

  lemma EraseOne(list: map<string, Plugin>, d: map<string, Info>, id: nat, todo: set<string>, key: string)
    requires key in todo && key in list
    ensures key in KeptSoFar(list, id, todo) && KeptSoFar(list, id, todo)[key] == list[key]
    ensures KeptSoFar(list, id, todo - {key}) ==
            if list[key].id == id then KeptSoFar(list, id, todo) - {key} else KeptSoFar(list, id, todo)
    ensures ToldSoFar(d, list, id, todo - {key}) ==
            var told := ToldSoFar(d, list, id, todo);
            if list[key].id == id && key in told && told[key].pluginId == id then told - {key} else told
  {
  }

  lemma EraseEnds(list: map<string, Plugin>, d: map<string, Info>, id: nat)
    ensures KeptSoFar(list, id, list.Keys) == list && ToldSoFar(d, list, id, list.Keys) == d
    ensures KeptSoFar(list, id, {}) == Without(list, id) && ToldSoFar(d, list, id, {}) == Forgotten(d, list, id)
  {
    assert ToldSoFar(d, list, id, list.Keys) == d;
  }

  // ---- the registry object -----------------------------------------------------------------------------

  class Commands {
    var plugins: map<nat, Plugin>
    var descriptions: map<string, Info>
    var commands: map<string, Plugin>
    var aliases: map<string, Plugin>

    ghost function View(): Registry
      reads this
    {
      Registry(plugins, descriptions, commands, aliases)
    }

    constructor ()
      ensures View() == EMPTY
    {
      plugins := map[];
      descriptions := map[];
      commands := map[];
      aliases := map[];
    }

    /** A null plugin, or one without a command handler, is ignored. */
    method AddPlugin(id: nat, plugin: Option<Plugin>)
      modifies `plugins
      ensures View() == if plugin.Some? then Added(old(View()), id, plugin.value) else old(View())
    {
      if plugin.None? || !plugin.value.handlesCommands { return; }
      plugins := plugins[id := plugin.value];
    }

    method RemoveAll()
      modifies this
      ensures View() == EMPTY
    {
      descriptions := map[];
      commands := map[];
      aliases := map[];
      plugins := map[];
    }

    /** One of the two erasing walks: entries of `id`, and their descriptions while still its own. */
    static method EraseHeld(list: map<string, Plugin>, infos: map<string, Info>, id: nat)
      returns (kept: map<string, Plugin>, told: map<string, Info>)
      ensures kept == Without(list, id)
      ensures told == Forgotten(infos, list, id)
    {
      hide KeptSoFar, ToldSoFar;
      EraseEnds(list, infos, id);
      kept, told := list, infos;
      var todo := list.Keys;
      while todo != {}
        invariant todo <= list.Keys
        invariant kept == KeptSoFar(list, id, todo)
        invariant told == ToldSoFar(infos, list, id, todo)
        decreases |todo|
      {
        var key :| key in todo;
        EraseOne(list, infos, id, todo, key);
        if kept[key].id == id {
          kept := kept - {key};
          if key in told && told[key].pluginId == id { told := told - {key}; }
        }
        todo := todo - {key};
      }
    }

    method RemovePlugin(id: nat)
      modifies this
      ensures View() == Removed(old(View()), id)
    {
      commands, descriptions := EraseHeld(commands, descriptions, id);
      aliases, descriptions := EraseHeld(aliases, descriptions, id);
      if id in plugins { plugins := plugins - {id}; }
    }

    /** False stands for the exception about an unknown plugin. */
    method RegisterCommand(id: nat, cmd: string, desc: string, experimental: bool) returns (ok: bool)
      modifies `descriptions, `commands
      ensures ok == Registered(old(View()), id, cmd, desc, experimental).Some?
      ensures View() == if ok then Registered(old(View()), id, cmd, desc, experimental).value else old(View())
    {
      var key := Lower(cmd);
      if id !in plugins { return false; }
      descriptions := descriptions[key := Info(desc, id, cmd, experimental)];
      commands := commands[key := plugins[id]];
      return true;
    }

    method RegisterAlias(id: nat, cmd: string, desc: string, experimental: bool) returns (ok: bool)
      modifies `descriptions, `aliases
      ensures ok == Aliased(old(View()), id, cmd, desc, experimental).Some?
      ensures View() == if ok then Aliased(old(View()), id, cmd, desc, experimental).value else old(View())
    {
      var key := Lower(cmd);
      if id !in plugins { return false; }
      descriptions := descriptions[key := Info(desc, id, cmd, experimental)];
      aliases := aliases[key := plugins[id]];
      return true;
    }

    method UnregisterCommand(id: nat, cmd: string) returns (ok: bool)
      modifies `descriptions, `commands
      ensures ok == Unregistered(old(View()), id, cmd).Some?
      ensures View() == if ok then Unregistered(old(View()), id, cmd).value else old(View())
    {
      var key := Lower(cmd);
      if id !in plugins { return false; }
      if key !in commands || commands[key].id != id { return true; }
      commands := commands - {key};
      if key in descriptions && descriptions[key].pluginId == id { descriptions := descriptions - {key}; }
      return true;
    }

    /** What is told about a name, in any spelling; a stand-in when it is not known. */
    method Describe(cmd: string) returns (info: Info)
      ensures Lower(cmd) in descriptions ==> info == descriptions[Lower(cmd)]
      ensures Lower(cmd) !in descriptions ==> info.description == "Command not found: " + cmd
    {
      var key := Lower(cmd);
      if key !in descriptions { return Info("Command not found: " + cmd, 0, "", false); }
      return descriptions[key];
    }

    method Get(cmd: string) returns (plugin: Option<Plugin>)
      ensures plugin == Resolve(View(), cmd)
    {
      var key := Lower(cmd);
      if key in commands { return Some(commands[key]); }
      if key in aliases { return Some(aliases[key]); }
      return None;
    }
  }
}
