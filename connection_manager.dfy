/**
 * The server-side connection manager of src/server/services/database/DatabaseConnectionManager.ts:
 * a map of live connections keyed by connection id, filled by `createConnection` and emptied
 * by `closeConnection`. What a plugin's own connection manager does (open a pool, ask for the
 * server version, close) happens outside; each such call is a parameter holding what the call
 * returned or the message of the error it threw. Each `await` is one step, in order.
 */
module ConnectionManagers {
  import opened Wrappers
  import opened JsMaps
  import opened PluginRegistries

  /** What the manager reads of a connection's settings: the plugin to use, and where to connect. */
  datatype ConnectionConfig = ConnectionConfig(pluginId: string, name: string, host: string, port: int, database: string)

  /** A live connection; `createdAt` is the clock reading the plugin took. */
  datatype Connection = Connection(connectionId: string, connectionConfig: ConnectionConfig, createdAt: int, isActive: bool)

  /** `ConnectionResult`; `connectionTime` is present only on a successful test. */
  datatype ConnectionResult = ConnectionResult(success: bool, message: string, connectionTime: Option<int>)

  /** What `createConnection` resolves to: the connection, when there is one, and the result. */
  datatype CreateOutcome = CreateOutcome(connection: Option<Connection>, result: ConnectionResult)

  /**
   * The message of the TypeError thrown when `getPlugin` returned `undefined` and the code goes on
   * to call `getConnectionManager()` on it.
   */
  const UndefinedPluginMessage := "Cannot read properties of undefined (reading 'getConnectionManager')"

  const CreatedMessage := "Connection created successfully"

  class ConnectionManager {
    const pluginRegistry: PluginRegistry
    var connections: JsMap<string, Connection>

    /** Each connection is stored under its own id. */
    ghost predicate Valid()
      reads this
    {
      && connections.Valid()
      && forall id :: id in connections.entries ==> connections.entries[id].connectionId == id
    }

    constructor (registry: PluginRegistry)
      ensures Valid() && connections == Empty() && pluginRegistry == registry
    {
      pluginRegistry := registry;
      connections := Empty();
    }

    /**
     * `createConnection` (DatabaseConnectionManager.ts lines 13-35). `created` is what the
     * plugin's `createConnection(config)` resolved to or threw; it is only consulted when the
     * plugin is registered.
     */
    method CreateConnection(config: ConnectionConfig, created: Result<Connection>) returns (outcome: CreateOutcome)
      requires Valid()
      modifies this
      ensures Valid()
      ensures pluginRegistry.GetPlugin(config.pluginId).None? ==>
                outcome == CreateOutcome(None, ConnectionResult(false, UndefinedPluginMessage, None))
                && connections == old(connections)
      ensures pluginRegistry.GetPlugin(config.pluginId).Some? && created.Err? ==>
                outcome == CreateOutcome(None, ConnectionResult(false, created.message, None))
                && connections == old(connections)
      ensures pluginRegistry.GetPlugin(config.pluginId).Some? && created.Ok? ==>
                var c := created.value;
                && outcome == CreateOutcome(Some(c), ConnectionResult(true, CreatedMessage, None))
                && connections == old(connections).Set(c.connectionId, c)
                && connections.Get(c.connectionId) == Some(c)
                && forall id :: id != c.connectionId ==> connections.Get(id) == old(connections).Get(id)
      ensures outcome.result.success <==> outcome.connection.Some?
    {
      var plugin := pluginRegistry.GetPlugin(config.pluginId);
      if plugin.None? {
        return CreateOutcome(None, ConnectionResult(false, UndefinedPluginMessage, None));
      }
      if created.Err? {
        return CreateOutcome(None, ConnectionResult(false, created.message, None));
      }
      var connection := created.value;
      connections := connections.Set(connection.connectionId, connection);
      outcome := CreateOutcome(Some(connection), ConnectionResult(true, CreatedMessage, None));
    }

    /**
     * `closeConnection` (lines 59-68). `closed` is what the plugin's `closeConnection` did:
     * None when it resolved, or the message it threw. The result is the error the call throws,
     * if any.
     */
    method CloseConnection(connectionId: string, closed: Option<string>) returns (thrown: Option<string>)
      requires Valid()
      modifies this
      ensures Valid()
      ensures connections.Get(connectionId).None? ==> thrown.None?
      ensures old(connections).Get(connectionId).None? ==> thrown.None? && connections == old(connections)
      ensures old(connections).Get(connectionId).Some? ==>
                var plugin := pluginRegistry.GetPlugin(old(connections).Get(connectionId).value.connectionConfig.pluginId);
                if plugin.None? then
                  thrown == Some(UndefinedPluginMessage) && connections == old(connections)
                else if closed.Some? then
                  thrown == closed && connections == old(connections)
                else
                  thrown.None? && connections == old(connections).Delete(connectionId)
      ensures forall id :: id != connectionId ==> connections.Get(id) == old(connections).Get(id)
    {
      var connection := connections.Get(connectionId);
      if connection.Some? {
        var plugin := pluginRegistry.GetPlugin(connection.value.connectionConfig.pluginId);
        if plugin.None? {
          return Some(UndefinedPluginMessage);
        }
        if closed.Some? {
          return closed;
        }
        connections := connections.Delete(connectionId);
        thrown := None;
      } else {
        // the source only logs a warning here
        thrown := None;
      }
    }

    /**
     * `testConnection` (lines 37-57). `created`, `version` and `closed` are what the plugin's
     * `createConnection`, `getServerVersion` and (when reached) `closeConnection` did, and
     * `elapsed` is the difference of the two clock readings.
     */
    method TestConnection(config: ConnectionConfig, created: Result<Connection>, version: Result<string>,
                          closed: Option<string>, elapsed: int)
      returns (result: ConnectionResult)
      requires Valid()
      modifies this
      ensures Valid()
      ensures pluginRegistry.GetPlugin(config.pluginId).None? ==>
                result == ConnectionResult(false, UndefinedPluginMessage, None)
      ensures pluginRegistry.GetPlugin(config.pluginId).Some? && created.Err? ==>
                result == ConnectionResult(false, created.message, None)
      ensures pluginRegistry.GetPlugin(config.pluginId).Some? && created.Ok? && version.Err? ==>
                result == ConnectionResult(false, version.message, None)
      ensures result.success <==> result.connectionTime.Some?
      ensures result.success ==> version.Ok? && result == ConnectionResult(true, version.value, Some(elapsed))
      // with the plugin found, the connection made and the version read, what decides is the
      // close through the map (line 44): of the stored entry with the test connection's id
      ensures pluginRegistry.GetPlugin(config.pluginId).Some? && created.Ok? && version.Ok? ==>
                var stored := old(connections).Get(created.value.connectionId);
                if stored.None? then
                  result == ConnectionResult(true, version.value, Some(elapsed))
                else if pluginRegistry.GetPlugin(stored.value.connectionConfig.pluginId).None? then
                  result == ConnectionResult(false, UndefinedPluginMessage, None)
                else if closed.Some? then
                  result == ConnectionResult(false, closed.value, None)
                else
                  result == ConnectionResult(true, version.value, Some(elapsed))
      // the test connection is never stored: the map is either untouched or, when an entry
      // already had the test connection's id, that entry has been closed
      ensures connections == old(connections)
              || (created.Ok? && connections == old(connections).Delete(created.value.connectionId))
      ensures created.Ok? && old(connections).Get(created.value.connectionId).None? ==>
                connections == old(connections)
    {
      var plugin := pluginRegistry.GetPlugin(config.pluginId);
      if plugin.None? {
        return ConnectionResult(false, UndefinedPluginMessage, None);
      }
      if created.Err? {
        return ConnectionResult(false, created.message, None);
      }
      var testConnection := created.value;
      if version.Err? {
        return ConnectionResult(false, version.message, None);
      }
      var serverVersion := version.value;
      var thrown := CloseConnection(testConnection.connectionId, closed);
      if thrown.Some? {
        return ConnectionResult(false, thrown.value, None);
      }
      result := ConnectionResult(true, serverVersion, Some(elapsed));
    }

    /** `getAllConnectionIds` (lines 70-72): the ids of the live connections, in insertion order. */
    function GetAllConnectionIds(): (ids: seq<string>)
      reads this
      ensures Valid() ==> Distinct(ids)
      ensures Valid() ==> forall id :: id in ids <==> connections.Get(id).Some?
      ensures |ids| == connections.Size()
    {
      connections.keys
    }
  }

  /**
   * The static `instance` field and `getInstance` (lines 74-79): the first call makes the
   * manager, every call returns that same one.
   */
  class ConnectionManagerHolder {
    const pluginRegistry: PluginRegistry
    var instance: ConnectionManager?

    constructor (registry: PluginRegistry)
      ensures instance == null && pluginRegistry == registry
    {
      pluginRegistry := registry;
      instance := null;
    }

    method GetInstance() returns (m: ConnectionManager)
      modifies this
      ensures instance == m
      ensures old(instance) != null ==> m == old(instance)
      ensures old(instance) == null ==> fresh(m) && m.Valid() && m.connections == Empty()
                                        && m.pluginRegistry == pluginRegistry
    {
      if instance == null {
        instance := new ConnectionManager(pluginRegistry);
      }
      m := instance;
    }
  }
}
