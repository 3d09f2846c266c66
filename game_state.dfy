/**
 * Session state and per-user commands of `game_state.py`: session creation,
 * the status and whoami views, the generic state update, reading a file
 * (`cat`) and pivoting along a node's neighbour list. Each operation is a
 * function from the stores before the call to the stores after it and the
 * reply; the class in database.dfy performs the same updates in place.
 */
module GameState {
  import opened Model
  import TriggerEngine

  // ---------------------------------------------------------------------
  // create_session

  /** The row inserted for a new user: empty inventory, NULL ip, trace 0. */
  function NewUser(): (u: User)
    ensures u.inventory == [] && u.currentIp.None? && u.traceLevel == 0
    ensures !u.cloaked && u.spoofedAs.None?
  {
    User([], None, 0, false, None)
  }

  /**
   * `create_session(username)`: inserts a fresh row only when the user is
   * unknown and returns the username as the session id.
   */
  function CreateSession(users: Users, name: string): (r: (Users, string))
    ensures r.1 == name
    ensures r.0.Keys == users.Keys + {name}
    ensures forall v :: v in users ==> r.0[v] == users[v]
    ensures name !in users ==> r.0[name] == NewUser()
  {
    if name in users then (users, name) else (users[name := NewUser()], name)
  }

  /** Creating a session twice is the same as creating it once. */
  lemma CreateSessionIdempotent(users: Users, name: string)
    ensures CreateSession(CreateSession(users, name).0, name) == CreateSession(users, name)
  {
  }

  // ---------------------------------------------------------------------
  // get_state and get_whoami

  /** The dictionary `get_state` returns; `cloaked` is the text "Yes" or "No". */
  datatype StateView = StateView(
    username: string,
    inventory: seq<Item>,
    connectedIp: Option<Ip>,
    traceLevel: int,
    cloaked: string)

  function GetState(users: Users, name: string): (r: Option<StateView>)
    ensures r.None? <==> name !in users
    ensures r.Some? ==> && r.value.username == name
                        && r.value.inventory == users[name].inventory
                        && r.value.connectedIp == users[name].currentIp
                        && r.value.traceLevel == users[name].traceLevel
                        && (r.value.cloaked == "Yes" <==> users[name].cloaked)
                        && (r.value.cloaked == "No" <==> !users[name].cloaked)
  {
    if name !in users then None
    else
      var u := users[name];
      Some(StateView(name, u.inventory, u.currentIp, u.traceLevel, if u.cloaked then "Yes" else "No"))
  }

  datatype WhoamiResult =
    | WhoamiNotFound
    | Whoami(username: string, connected: string, traceLevel: int)

  /**
   * `get_whoami(username)`: the user's own row, read directly, so neither
   * cloaking nor spoofing affects it.
   */
  function GetWhoami(users: Users, name: string): (r: WhoamiResult)
    ensures r.WhoamiNotFound? <==> name !in users
    ensures r.Whoami? ==> && r.username == name
                          && r.connected == DisplayIp(users[name].currentIp)
                          && r.traceLevel == users[name].traceLevel
  {
    if name !in users then WhoamiNotFound
    else Whoami(name, DisplayIp(users[name].currentIp), users[name].traceLevel)
  }

  // ---------------------------------------------------------------------
  // update_state

  /**
   * The keys a caller may pass to `update_state`; `None` means the key is
   * absent. `connectedIp` is itself nullable, so `Some(None)` writes NULL.
   */
  datatype Updates = Updates(
    inventory: Option<seq<Item>>,
    connectedIp: Option<Option<Ip>>,
    traceLevel: Option<int>)

  /**
   * `update_state(username, updates)`: reads the state view, merges the
   * supplied keys over it and writes back inventory, current ip and trace
   * level. The cloaked and spoofed_as columns are not written.
   */
  function UpdateState(users: Users, name: string, updates: Updates): (r: (Users, bool))
    ensures r.1 <==> name in users
    ensures !r.1 ==> r.0 == users
    ensures OnlyRowChanged(users, r.0, name)
    ensures r.1 ==> && r.0[name].inventory == updates.inventory.GetOr(users[name].inventory)
                    && r.0[name].currentIp == updates.connectedIp.GetOr(users[name].currentIp)
                    && r.0[name].traceLevel == updates.traceLevel.GetOr(users[name].traceLevel)
                    && r.0[name].cloaked == users[name].cloaked
                    && r.0[name].spoofedAs == users[name].spoofedAs
  {
    match GetState(users, name)
    case None => (users, false)
    case Some(state) =>
      var inventory := updates.inventory.GetOr(state.inventory);
      var currentIp := updates.connectedIp.GetOr(state.connectedIp);
      var traceLevel := updates.traceLevel.GetOr(state.traceLevel);
      (users[name := users[name].(inventory := inventory, currentIp := currentIp, traceLevel := traceLevel)], true)
  }

  /** An update that supplies no key leaves the users table as it was. */
  lemma UpdateNothingIsIdentity(users: Users, name: string)
    ensures UpdateState(users, name, Updates(None, None, None)).0 == users
  {
    if name in users {
      assert users[name := users[name]] == users;
    }
  }

  /** `get_state` after `update_state` shows exactly the supplied values. */
  lemma UpdateThenGetState(users: Users, name: string, updates: Updates)
    requires name in users
    ensures var s := GetState(UpdateState(users, name, updates).0, name);
      && s.Some?
      && s.value.inventory == updates.inventory.GetOr(users[name].inventory)
      && s.value.connectedIp == updates.connectedIp.GetOr(users[name].currentIp)
      && s.value.traceLevel == updates.traceLevel.GetOr(users[name].traceLevel)
      && s.value.cloaked == GetState(users, name).value.cloaked
  {
  }

  // ---------------------------------------------------------------------
  // cat_file

  /** Index of the first inventory record named `filename`, if any. */
  function FirstIndex(inventory: seq<Item>, filename: string): (r: Option<nat>)
    ensures r.Some? ==> && r.value < |inventory|
                        && inventory[r.value].filename == filename
                        && forall j :: 0 <= j < r.value ==> inventory[j].filename != filename
    ensures r.None? ==> forall j :: 0 <= j < |inventory| ==> inventory[j].filename != filename
  {
    if inventory == [] then None
    else if inventory[0].filename == filename then Some(0)
    else
      match FirstIndex(inventory[1..], filename)
      case None => None
      case Some(k) => Some(k + 1)
  }

  /** The inventory scan of `cat_file`: a loop that stops at the first match. */
  method FindInInventory(inventory: seq<Item>, filename: string) returns (k: Option<nat>)
    ensures k == FirstIndex(inventory, filename)
  {
    var i := 0;
    while i < |inventory|
      invariant 0 <= i <= |inventory|
      invariant forall j :: 0 <= j < i ==> inventory[j].filename != filename
    {
      if inventory[i].filename == filename {
        return Some(i);
      }
      i := i + 1;
    }
    return None;
  }

  /** The current node's file_data holds `filename`. */
  predicate OnNode(nodes: Nodes, ip: Option<Ip>, filename: string) {
    && NodeAt(nodes, ip).Some?
    && NodeAt(nodes, ip).value.fileData.Some?
    && filename in NodeAt(nodes, ip).value.fileData.value
  }

  /** The trigger event type fired by reading a file on a node. */
  const CatEvent: string := "cat"

  /**
   * `cat_file(username, filename)`: the current node first, then the
   * inventory. Only a hit on the node fires the `"cat"` trigger; the
   * content shown is read before the trigger runs.
   */
  function Cat(nodes: Nodes, users: Users, rules: seq<Trigger>, name: string, filename: string)
    : (r: (Nodes, Users, string))
    ensures name !in users ==> r == (nodes, users, "User not found.")
    ensures name in users && OnNode(nodes, users[name].currentIp, filename) ==>
      var ip := users[name].currentIp.value;
      && (r.0, r.1) == TriggerEngine.Fire(nodes, users, rules, CatEvent, filename, name)
      && r.2 == "[" + ip + "] " + filename + ":\n" + nodes[ip].fileData.value[filename]
    ensures name in users && !OnNode(nodes, users[name].currentIp, filename) ==> (r.0, r.1) == (nodes, users)
    ensures name in users && !OnNode(nodes, users[name].currentIp, filename) ==>
      var inv := users[name].inventory;
      if exists j :: 0 <= j < |inv| && inv[j].filename == filename
      then r.2 == "[inventory] " + filename + ":\n" + inv[FirstIndex(inv, filename).value].content
      else r.2 == "File '" + filename + "' not found on " + IpText(users[name].currentIp) + " or in inventory."
  {
    if name !in users then (nodes, users, "User not found.")
    else
      var u := users[name];
      if OnNode(nodes, u.currentIp, filename) then
        var ip := u.currentIp.value;
        var content := nodes[ip].fileData.value[filename];
        var (nodes', users') := TriggerEngine.Fire(nodes, users, rules, CatEvent, filename, name);
        (nodes', users', "[" + ip + "] " + filename + ":\n" + content)
      else
        match FirstIndex(u.inventory, filename)
        case Some(k) => (nodes, users, "[inventory] " + filename + ":\n" + u.inventory[k].content)
        case None => (nodes, users, "File '" + filename + "' not found on " + IpText(u.currentIp) + " or in inventory.")
  }

  // ---------------------------------------------------------------------
  // pivot_to_node

  datatype PivotResult =
    | PivotNotConnected
    | PivotUnsupported(current: Ip)
    | Unreachable(target: Ip, current: Ip)
    | NoSuchNode(target: Ip)
    | Pivoted(target: Ip)

  /**
   * `pivot_to_node(username, target)`, with its four guards in order: not
   * connected; current node missing or its neighbours column NULL; target
   * not listed; target node missing. Only a pivot that passes all four
   * moves the user, and it changes nothing but the current ip.
   */
  function Pivot(nodes: Nodes, users: Users, name: string, target: Ip): (r: (Users, PivotResult))
    ensures r.1.Pivoted? <==>
      && Truthy(CurrentIp(users, name))
      && Lists(nodes, CurrentIp(users, name).value, target)
      && target in nodes
    ensures r.1.Pivoted? ==> r.1.target == target && r.0 == MoveTo(users, name, target) && name in users
    ensures !r.1.Pivoted? ==> r.0 == users
    ensures r.1.PivotNotConnected? <==> !Truthy(CurrentIp(users, name))
    ensures r.1.PivotUnsupported? <==>
      && Truthy(CurrentIp(users, name))
      && (NodeAt(nodes, CurrentIp(users, name)).None? || NodeAt(nodes, CurrentIp(users, name)).value.neighbours.None?)
    ensures r.1.Unreachable? <==>
      && Truthy(CurrentIp(users, name))
      && NodeAt(nodes, CurrentIp(users, name)).Some?
      && NodeAt(nodes, CurrentIp(users, name)).value.neighbours.Some?
      && !Lists(nodes, CurrentIp(users, name).value, target)
    ensures r.1.NoSuchNode? <==>
      Truthy(CurrentIp(users, name)) && Lists(nodes, CurrentIp(users, name).value, target) && target !in nodes
    ensures (r.1.PivotUnsupported? || r.1.Unreachable?) ==> r.1.current == CurrentIp(users, name).value
    ensures (r.1.Unreachable? || r.1.NoSuchNode?) ==> r.1.target == target
  {
    if name !in users || !Truthy(users[name].currentIp) then (users, PivotNotConnected)
    else
      var current := users[name].currentIp.value;
      if current !in nodes || nodes[current].neighbours.None? then (users, PivotUnsupported(current))
      else if target !in nodes[current].neighbours.value then (users, Unreachable(target, current))
      else if target !in nodes then (users, NoSuchNode(target))
      else (MoveTo(users, name, target), Pivoted(target))
  }

  // ---------------------------------------------------------------------
  // get_available_commands

  /** The help listing: command syntax to description, as the game prints it. */
  function AvailableCommands(): (r: map<string, string>)
    ensures "Unfpoof" in r && r["Unfpoof"] == "Reverses the Spoof command"
    ensures "Unspoof" !in r
  {
    map[
      "help" := "Show this command list.",
      "scan" := "Discover visible nodes on the network.",
      "connect <ip>" := "Connect to a specific IP address.",
      "ls" := "List files on the currently connected node.",
      "download <filename>" := "Download a file from the connected node.",
      "cat <filename>" := "View the contents of a file (node or inventory).",
      "status" := "Show your current session state (location, inventory, trace).",
      "whoami" := "Show your current session info (username, trace, location)",
      "pivot <ip>" := "Connect to an IP address adjacent to your current location",
      "Cloak" := "Temporarily hides your presence from others at a cost",
      "Uncloak" := "Reverses the Cloak command",
      "Spoof <username>" := "Makes you look like someone you are not at a cost",
      "Unfpoof" := "Reverses the Spoof command"
    ]
  }

  /** The thirteen command names the help listing shows. */
  const CommandNames: set<string> :=
    {"help", "scan", "connect <ip>", "ls", "download <filename>", "cat <filename>", "status",
     "whoami", "pivot <ip>", "Cloak", "Uncloak", "Spoof <username>", "Unfpoof"}

  /** The help listing's keys are the thirteen command names and nothing else. */
  lemma AvailableCommandsKeys()
    ensures AvailableCommands().Keys == CommandNames
  {
  }

  lemma CommandNamesCount()
    ensures |CommandNames| == 13
  {
  }

  /** The help listing has exactly thirteen entries, one per command name. */
  lemma AvailableCommandsExact()
    ensures AvailableCommands().Keys == CommandNames
    ensures |AvailableCommands()| == 13
  {
    AvailableCommandsKeys();
    CommandNamesCount();
  }
}
