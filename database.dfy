/**
 * The game's database as an object: the `nodes`, `users` and `triggers`
 * tables are fields that the commands overwrite in place, one statement at
 * a time as the game's SQL does. Each command is proved to leave the
 * tables exactly as the corresponding function of GameState, Identity or
 * GameLogic says; the read-only commands (status, whoami, whois, scan, ls)
 * are those functions applied to the current field values.
 */
module Database {
  import opened Model
  import TriggerEngine
  import GameState
  import Identity
  import GameLogic

  class Db {
    var nodes: Nodes
    var users: Users
    var triggers: seq<Trigger>

    /** Opens a database holding the given world seed. */
    constructor (nodes0: Nodes, users0: Users, triggers0: seq<Trigger>)
      ensures nodes == nodes0 && users == users0 && triggers == triggers0
    {
      nodes, users, triggers := nodes0, users0, triggers0;
    }

    /**
     * `check_triggers`: loops over the matching rules, inserting each
     * unlock node if absent and accumulating the trace level, then writes
     * the trace level once.
     */
    method CheckTriggers(eventType: string, eventValue: string, name: string)
      modifies this`nodes, this`users
      ensures (nodes, users) == TriggerEngine.Fire(old(nodes), old(users), triggers, eventType, eventValue, name)
      ensures forall ip :: ip in old(nodes) ==> ip in nodes && nodes[ip] == old(nodes)[ip]
    {
      var matched := TriggerEngine.Matching(triggers, eventType, eventValue);
      if matched == [] {
        return;
      }
      var base := if name in users then users[name].traceLevel else 0;
      var traceLevel := base;
      var i := 0;
      while i < |matched|
        invariant 0 <= i <= |matched|
        invariant nodes == TriggerEngine.UnlockAll(old(nodes), matched[..i])
        invariant traceLevel == base + TriggerEngine.SumModifiers(matched[..i])
        invariant users == old(users)
      {
        var rule := matched[i];
        if rule.unlockIp !in nodes {
          nodes := nodes[rule.unlockIp := TriggerEngine.Materialize(rule.nodeData)];
        }
        traceLevel := traceLevel + TriggerEngine.ModifierOf(rule);
        assert matched[..i + 1][..i] == matched[..i];
        i := i + 1;
      }
      assert matched[..i] == matched;
      if name in users {
        users := users[name := users[name].(traceLevel := traceLevel)];
      }
      forall ip | ip in old(nodes) ensures ip in nodes && nodes[ip] == old(nodes)[ip] {
        TriggerEngine.UnlockAllKeepsExisting(old(nodes), matched, ip);
      }
    }

    /** `create_session`: inserts a default row for an unknown user. */
    method CreateSession(name: string) returns (sessionId: string)
      modifies this`users
      ensures (users, sessionId) == GameState.CreateSession(old(users), name)
    {
      if name !in users {
        users := users[name := GameState.NewUser()];
      }
      sessionId := name;
    }

    /** `update_state`: merges the supplied keys over the current state view. */
    method UpdateState(name: string, updates: GameState.Updates) returns (ok: bool)
      modifies this`users
      ensures (users, ok) == GameState.UpdateState(old(users), name, updates)
    {
      var state := GameState.GetState(users, name);
      if state.None? {
        return false;
      }
      var inventory := updates.inventory.GetOr(state.value.inventory);
      var currentIp := updates.connectedIp.GetOr(state.value.connectedIp);
      var traceLevel := updates.traceLevel.GetOr(state.value.traceLevel);
      users := users[name := users[name].(inventory := inventory, currentIp := currentIp, traceLevel := traceLevel)];
      ok := true;
    }

    /** `cat_file`: the current node first (firing the "cat" trigger), then the inventory. */
    method CatFile(name: string, filename: string) returns (text: string)
      modifies this`nodes, this`users
      ensures (nodes, users, text) == GameState.Cat(old(nodes), old(users), triggers, name, filename)
    {
      if name !in users {
        return "User not found.";
      }
      var currentIp := users[name].currentIp;
      var inventory := users[name].inventory;
      if GameState.OnNode(nodes, currentIp, filename) {
        var content := nodes[currentIp.value].fileData.value[filename];
        CheckTriggers(GameState.CatEvent, filename, name);
        return "[" + currentIp.value + "] " + filename + ":\n" + content;
      }
      var k := GameState.FindInInventory(inventory, filename);
      if k.Some? {
        return "[inventory] " + filename + ":\n" + inventory[k.value].content;
      }
      return "File '" + filename + "' not found on " + IpText(currentIp) + " or in inventory.";
    }

    /** `pivot_to_node`: four guards, then the move. */
    method PivotToNode(name: string, target: Ip) returns (result: GameState.PivotResult)
      modifies this`users
      ensures (users, result) == GameState.Pivot(nodes, old(users), name, target)
    {
      if name !in users || !Truthy(users[name].currentIp) {
        return GameState.PivotNotConnected;
      }
      var current := users[name].currentIp.value;
      if current !in nodes || nodes[current].neighbours.None? {
        return GameState.PivotUnsupported(current);
      }
      if target !in nodes[current].neighbours.value {
        return GameState.Unreachable(target, current);
      }
      if target !in nodes {
        return GameState.NoSuchNode(target);
      }
      users := users[name := users[name].(currentIp := Some(target))];
      result := GameState.Pivoted(target);
    }

    /** `cloak_user`. */
    method CloakUser(name: string) returns (reply: Identity.Reply)
      modifies this`users
      ensures (users, reply) == Identity.Cloak(old(users), name)
    {
      if name !in users {
        return Identity.UserNotFound;
      }
      var traceLevel := users[name].traceLevel + Identity.CloakPenalty;
      users := users[name := users[name].(cloaked := true, traceLevel := traceLevel)];
      reply := Identity.NowCloaked(name);
    }

    /** `uncloak_user`. */
    method UncloakUser(name: string) returns (reply: Identity.Reply)
      modifies this`users
      ensures (users, reply) == Identity.Uncloak(old(users), name)
    {
      if name !in users {
        return Identity.UserNotFound;
      }
      users := users[name := users[name].(cloaked := false)];
      reply := Identity.NowUncloaked(name);
    }

    /**
     * `spoof_user`: the penalty is written before the target is checked;
     * closing without commit on a missing target rolls it back.
     */
    method SpoofUser(name: string, target: string) returns (reply: Identity.Reply)
      modifies this`users
      ensures (users, reply) == Identity.Spoof(old(users), name, target)
    {
      if name !in users {
        return Identity.UserNotFound;
      }
      var committed := users;
      users := users[name := users[name].(traceLevel := users[name].traceLevel + Identity.SpoofPenalty)];
      if target !in users {
        users := committed;
        return Identity.TargetMissing(target);
      }
      users := users[name := users[name].(spoofedAs := Some(target))];
      reply := Identity.NowSpoofing(name, target);
    }

    /** `unspoof_user`. */
    method UnspoofUser(name: string) returns (reply: Identity.Reply)
      modifies this`users
      ensures (users, reply) == Identity.Unspoof(old(users), name)
    {
      if name !in users {
        return Identity.UserNotFound;
      }
      if !Truthy(users[name].spoofedAs) {
        return Identity.NotSpoofing(name);
      }
      users := users[name := users[name].(spoofedAs := None)];
      reply := Identity.NoLongerSpoofing(name);
    }

    /** The `connect` route. */
    method Connect(name: string, ip: Ip) returns (result: GameLogic.ConnectResult)
      modifies this`users
      ensures (users, result) == GameLogic.Connect(nodes, old(users), name, ip)
    {
      if ip !in nodes {
        return GameLogic.NodeNotFound;
      }
      var current := CurrentIp(users, name);
      if IsPublic(nodes[ip]) {
        users := MoveTo(users, name, ip);
        return GameLogic.Connected(ip);
      }
      if Truthy(current) && current.value in nodes && nodes[current.value].neighbours.Some? {
        if ip in nodes[current.value].neighbours.value {
          users := MoveTo(users, name, ip);
          return GameLogic.PivotedVia(ip);
        }
      }
      result := GameLogic.AccessDenied(ip);
    }

    /** The `download` route: appends one record to the inventory and writes it back. */
    method Download(name: string, filename: string) returns (result: GameLogic.DownloadResult)
      modifies this`users
      ensures (users, result) == GameLogic.Download(nodes, old(users), name, filename)
    {
      if name !in users {
        return GameLogic.DownloadUnknownUser;
      }
      var ip := users[name].currentIp;
      var inventory := users[name].inventory;
      if ip.None? || ip.value !in nodes || nodes[ip.value].fileData.None? {
        return GameLogic.NoFilesFound;
      }
      var fileData := nodes[ip.value].fileData.value;
      if filename !in fileData {
        return GameLogic.FileNotOnNode;
      }
      inventory := inventory + [Item(filename, ip.value, fileData[filename])];
      users := users[name := users[name].(inventory := inventory)];
      result := GameLogic.Downloaded(filename);
    }
  }
}
