/**
 * The two stores of the game and the records they hold.
 *
 * The game keeps its world in two tables, `nodes` (keyed by ip) and `users`
 * (keyed by username), plus a table of trigger rules. Columns that the game
 * stores as JSON text (files, file_data, neighbors, inventory) are held here
 * already parsed; a nullable column is an `Option`.
 */
module Model {

  datatype Option<+T> = None | Some(value: T) {
    function GetOr(default: T): T {
      match this
      case Some(v) => v
      case None => default
    }
  }

  /** Node ids are opaque strings that look like IPv4 addresses. */
  type Ip = string

  /**
   * A row of the `nodes` table. `fileData` and `neighbours` are nullable
   * columns: a node inserted by a trigger has no neighbours column at all
   * (NULL), which is different from the JSON list `[]`.
   */
  datatype Node = Node(
    hostname: string,
    ports: string,
    files: seq<string>,
    fileData: Option<map<string, string>>,
    neighbours: Option<seq<Ip>>,
    securityLevel: int)

  /** One inventory record, as `download` writes it: `{filename, from, content}`. */
  datatype Item = Item(filename: string, source: Ip, content: string)

  /** A row of the `users` table. */
  datatype User = User(
    inventory: seq<Item>,
    currentIp: Option<Ip>,
    traceLevel: int,
    cloaked: bool,
    spoofedAs: Option<string>)

  /**
   * The JSON object stored in a trigger's `node_data`: every key may be
   * missing, and a missing key takes a default when the node is inserted.
   */
  datatype NodeSpec = NodeSpec(
    hostname: Option<string>,
    ports: Option<string>,
    files: Option<seq<string>>,
    fileData: Option<map<string, string>>,
    securityLevel: Option<int>)

  /** A row of the `triggers` table; a NULL `trace_modifier` counts as 0. */
  datatype Trigger = Trigger(
    eventType: string,
    eventValue: string,
    unlockIp: Ip,
    nodeData: NodeSpec,
    traceModifier: Option<int>)

  type Nodes = map<Ip, Node>
  type Users = map<string, User>

  /**
   * Python's truth test on a nullable text column: NULL and the empty
   * string both read as "not set". This is the game's test for "connected"
   * and for "currently spoofing".
   */
  predicate Truthy(s: Option<string>) {
    s.Some? && s.value != ""
  }

  /**
   * A node is public when its neighbours column is NULL or the empty list;
   * only public nodes can be reached without an existing connection.
   */
  predicate IsPublic(n: Node) {
    n.neighbours.None? || n.neighbours.value == []
  }

  /** `SELECT ... FROM nodes WHERE ip = ?`: a NULL ip matches no row. */
  function NodeAt(nodes: Nodes, ip: Option<Ip>): (r: Option<Node>)
    ensures r.Some? <==> ip.Some? && ip.value in nodes
    ensures r.Some? ==> r.value == nodes[ip.value]
  {
    if ip.Some? && ip.value in nodes then Some(nodes[ip.value]) else None
  }

  /** The user's current ip, NULL when the user has no row. */
  function CurrentIp(users: Users, name: string): (r: Option<Ip>)
    ensures name !in users ==> r == None
    ensures name in users ==> r == users[name].currentIp
  {
    if name in users then users[name].currentIp else None
  }

  /**
   * `users[name] := f(users[name])` when `name` has a row; an UPDATE of a
   * missing row changes nothing.
   */
  predicate OnlyRowChanged(before: Users, after: Users, name: string) {
    && after.Keys == before.Keys
    && forall v :: v in before && v != name ==> after[v] == before[v]
  }

  /** How the game prints a nullable ip: `row or 'Not connected'`. */
  function DisplayIp(ip: Option<Ip>): (r: string)
    ensures Truthy(ip) ==> r == ip.value
    ensures !Truthy(ip) ==> r == "Not connected"
  {
    if Truthy(ip) then ip.value else "Not connected"
  }

  /** How an f-string prints a nullable ip: NULL prints as `None`. */
  function IpText(ip: Option<Ip>): (r: string)
    ensures ip.Some? ==> r == ip.value
    ensures ip.None? ==> r == "None"
  {
    match ip
    case Some(s) => s
    case None => "None"
  }

  /** The node `current` exists and its neighbours column lists `ip`. */
  predicate Lists(nodes: Nodes, current: Ip, ip: Ip) {
    current in nodes && nodes[current].neighbours.Some? && ip in nodes[current].neighbours.value
  }

  /** The users table after `UPDATE users SET current_ip = ip WHERE username = name`. */
  function MoveTo(users: Users, name: string, ip: Ip): (r: Users)
    ensures OnlyRowChanged(users, r, name)
    ensures name in users ==> r[name] == users[name].(currentIp := Some(ip))
  {
    if name in users then users[name := users[name].(currentIp := Some(ip))] else users
  }
}
