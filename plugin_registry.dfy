/**
 * The plugin registry of src/server/services/database/PluginRegistry.ts: a map from plugin id
 * to plugin. The source keeps it in a static field; here it is one object whose `plugins`
 * field the methods update.
 */
module PluginRegistries {
  import opened Wrappers
  import opened JsMaps

  /** The part of a plugin's configuration the registry reads: its id, and its display name. */
  datatype PluginConfig = PluginConfig(id: string, name: string)

  /**
   * A database plugin as the registry sees it: the configuration `getConfig()` returns, and
   * which implementation it is (what its connection manager and metadata provider do is
   * outside the registry).
   */
  datatype Plugin = Plugin(config: PluginConfig, implementation: nat)

  class PluginRegistry {
    var plugins: JsMap<string, Plugin>

    /** Each plugin is stored under its own id. */
    ghost predicate Valid()
      reads this
    {
      && plugins.Valid()
      && forall id :: id in plugins.entries ==> plugins.entries[id].config.id == id
    }

    constructor ()
      ensures Valid() && plugins == Empty()
    {
      plugins := Empty();
    }

    /** `register` (PluginRegistry.ts lines 6-9): store `plugin` under its own id. */
    method Register(plugin: Plugin)
      requires Valid()
      modifies this
      ensures Valid()
      ensures plugins == old(plugins).Set(plugin.config.id, plugin)
      ensures GetPlugin(plugin.config.id) == Some(plugin)
      ensures forall id :: id != plugin.config.id ==> GetPlugin(id) == old(GetPlugin(id))
      ensures forall id :: old(GetPlugin(id)).Some? ==> GetPlugin(id).Some?
      ensures |GetAllPlugins()| == old(|GetAllPlugins()|) + (if old(GetPlugin(plugin.config.id)).Some? then 0 else 1)
    {
      var config := plugin.config;
      plugins := plugins.Set(config.id, plugin);
    }

    /** `getAllPlugins` (lines 11-13): the plugins in order of their ids' first registration. */
    function GetAllPlugins(): (ps: seq<Plugin>)
      reads this
      ensures Valid() ==> |ps| == plugins.Size()
      ensures Valid() ==> forall i :: 0 <= i < |ps| ==> GetPlugin(ps[i].config.id) == Some(ps[i])
      ensures Valid() ==> forall i, j :: 0 <= i < j < |ps| ==> ps[i].config.id != ps[j].config.id
      ensures Valid() ==> forall id :: GetPlugin(id).Some? ==> GetPlugin(id).value in ps
    {
      var ps := plugins.Values();
      assert Valid() ==> KeyedBy(plugins, ps) by {
        if Valid() {
          ValuesKeyed(plugins);
        }
      }
      ps
    }

    /** `getPlugin` (lines 15-17): the plugin registered under `id`, or None (`undefined`). */
    function GetPlugin(id: string): (r: Option<Plugin>)
      reads this
      ensures r.Some? <==> id in plugins.entries
      ensures Valid() && r.Some? ==> r.value.config.id == id
    {
      plugins.Get(id)
    }

    /** `getPluginConfig` (lines 19-21): the config of `getPlugin(id)`, or None. */
    function GetPluginConfig(id: string): (r: Option<PluginConfig>)
      reads this
      ensures r.Some? <==> GetPlugin(id).Some?
      ensures r.Some? ==> r.value == GetPlugin(id).value.config
      ensures Valid() && r.Some? ==> r.value.id == id
    {
      match GetPlugin(id)
      case None => None
      case Some(p) => Some(p.config)
    }
  }

  /** `ps` holds one plugin per id of `m`, each the one `m` stores under it. */
  ghost predicate KeyedBy(m: JsMap<string, Plugin>, ps: seq<Plugin>) {
    && |ps| == m.Size()
    && (forall i :: 0 <= i < |ps| ==> m.Get(ps[i].config.id) == Some(ps[i]))
    && (forall i, j :: 0 <= i < j < |ps| ==> ps[i].config.id != ps[j].config.id)
    && (forall id :: m.Get(id).Some? ==> m.Get(id).value in ps)
  }

  lemma ValuesKeyed(m: JsMap<string, Plugin>)
    requires m.Valid() && forall id :: id in m.entries ==> m.entries[id].config.id == id
    ensures KeyedBy(m, m.Values())
  {
    var ps := m.Values();
    forall id | m.Get(id).Some? ensures m.Get(id).value in ps {
      var i :| 0 <= i < |m.keys| && m.keys[i] == id;
      assert ps[i] == m.Get(id).value;
    }
  }

  // ---------------------------------------------------------------------------
  // A run of registrations
  // ---------------------------------------------------------------------------

  /** What `register(p)` stores for each plugin of `ps`: the pair (its id, it). */
  function Entries(ps: seq<Plugin>): (kvs: seq<(string, Plugin)>)
    ensures |kvs| == |ps| && forall i :: 0 <= i < |ps| ==> kvs[i] == (ps[i].config.id, ps[i])
    decreases |ps|
  {
    if ps == [] then [] else Entries(ps[..|ps| - 1]) + [(ps[|ps| - 1].config.id, ps[|ps| - 1])]
  }

  /** The `plugins` map after registering `ps` in order, starting from an empty registry. */
  function Registered(ps: seq<Plugin>): JsMap<string, Plugin> {
    SetAll(Empty(), Entries(ps))
  }

  /** One more registration is one more `set` on the map the earlier ones built. */
  lemma RegisteredStep(ps: seq<Plugin>, p: Plugin)
    ensures Registered(ps + [p]) == Registered(ps).Set(p.config.id, p)
  {
    assert (ps + [p])[..|ps|] == ps;
    assert Entries(ps + [p])[..|ps|] == Entries(ps);
  }

  /**
   * After registering `ps` in order, the ids are listed in order of first registration, each
   * once, and each id resolves to the last plugin registered under it.
   */
  lemma RegistrationOrder(ps: seq<Plugin>)
    ensures var m := Registered(ps);
            && m.Valid()
            && m.keys == FirstOccurrences(KeysOf(Entries(ps)))
            && forall id :: m.Get(id) == LastValue(Entries(ps), id)
  {
    SetAllFromEmpty(Entries(ps));
  }
}
