/**
 * The traversal commands of `game_logic.py` (`scan`, `connect`, `ls`,
 * `download`), whose logic lives in the web routes. Each is modelled as an
 * operation on the stores with a reply datatype in place of the JSON body
 * and status code.
 */
module GameLogic {
  import opened Model

  // ---------------------------------------------------------------------
  // scan

  /** One entry of the scan listing: ip and hostname only. */
  datatype Sighting = Sighting(ip: Ip, hostname: string)

  function SightingOf(nodes: Nodes, ip: Ip): Sighting
    requires ip in nodes
  {
    Sighting(ip, nodes[ip].hostname)
  }

  /**
   * `scan`: when not connected, every public node; when connected, the
   * current node and each node the current node lists. Ids with no node
   * are dropped, and the order of rows is not modelled.
   */
  function Scan(nodes: Nodes, users: Users, name: string): (r: set<Sighting>)
    ensures forall s :: s in r ==> s.ip in nodes && s == SightingOf(nodes, s.ip)
    ensures !Truthy(CurrentIp(users, name)) ==>
      forall ip :: ip in nodes ==> (SightingOf(nodes, ip) in r <==> IsPublic(nodes[ip]))
    ensures Truthy(CurrentIp(users, name)) ==>
      var current := CurrentIp(users, name).value;
      forall ip :: ip in nodes ==> (SightingOf(nodes, ip) in r <==> ip == current || Lists(nodes, current, ip))
  {
    var current := CurrentIp(users, name);
    if !Truthy(current) then
      set ip | ip in nodes && IsPublic(nodes[ip]) :: SightingOf(nodes, ip)
    else
      set ip | ip in nodes && (ip == current.value || Lists(nodes, current.value, ip)) :: SightingOf(nodes, ip)
  }

  // ---------------------------------------------------------------------
  // connect

  datatype ConnectResult =
    | NodeNotFound
    | Connected(ip: Ip)
    | PivotedVia(ip: Ip)
    | AccessDenied(ip: Ip)

  /**
   * `connect(username, ip)`: an unknown ip fails; a public target is entered
   * from anywhere; a private target only from a current node that lists it.
   */
  function Connect(nodes: Nodes, users: Users, name: string, ip: Ip): (r: (Users, ConnectResult))
    ensures ip !in nodes ==> r == (users, NodeNotFound)
    ensures ip in nodes && IsPublic(nodes[ip]) ==> r == (MoveTo(users, name, ip), Connected(ip))
    ensures ip in nodes && !IsPublic(nodes[ip]) ==>
      var current := CurrentIp(users, name);
      if Truthy(current) && Lists(nodes, current.value, ip)
      then r == (MoveTo(users, name, ip), PivotedVia(ip))
      else r == (users, AccessDenied(ip))
  {
    if ip !in nodes then (users, NodeNotFound)
    else if IsPublic(nodes[ip]) then (MoveTo(users, name, ip), Connected(ip))
    else
      var current := CurrentIp(users, name);
      if Truthy(current) && Lists(nodes, current.value, ip)
      then (MoveTo(users, name, ip), PivotedVia(ip))
      else (users, AccessDenied(ip))
  }

  // ---------------------------------------------------------------------
  // ls

  datatype ListResult =
    | Files(names: seq<string>)
    | ListNotConnected
    | ListNodeMissing  // the route raises here: the current ip names no node

  /** `ls`: the current node's `files` list, as stored. */
  function ListFiles(nodes: Nodes, users: Users, name: string): (r: ListResult)
    ensures r.ListNotConnected? <==> !Truthy(CurrentIp(users, name))
    ensures r.ListNodeMissing? <==> Truthy(CurrentIp(users, name)) && CurrentIp(users, name).value !in nodes
    ensures r.Files? ==> r.names == nodes[CurrentIp(users, name).value].files
  {
    var current := CurrentIp(users, name);
    if !Truthy(current) then ListNotConnected
    else if current.value !in nodes then ListNodeMissing
    else Files(nodes[current.value].files)
  }

  // ---------------------------------------------------------------------
  // download

  datatype DownloadResult =
    | DownloadUnknownUser  // the route answers "Not connected to a node"
    | NoFilesFound
    | FileNotOnNode
    | Downloaded(filename: string)

  /**
   * `download(username, filename)`: gated on the keys of the current node's
   * file_data (not on its `files` list); on success one record is appended
   * at the end of the inventory.
   */
  function Download(nodes: Nodes, users: Users, name: string, filename: string): (r: (Users, DownloadResult))
    ensures !r.1.Downloaded? ==> r.0 == users
    ensures r.1 == DownloadUnknownUser <==> name !in users
    ensures r.1 == NoFilesFound <==>
      name in users && (NodeAt(nodes, users[name].currentIp).None? || NodeAt(nodes, users[name].currentIp).value.fileData.None?)
    ensures r.1.Downloaded? <==>
      && name in users
      && NodeAt(nodes, users[name].currentIp).Some?
      && NodeAt(nodes, users[name].currentIp).value.fileData.Some?
      && filename in NodeAt(nodes, users[name].currentIp).value.fileData.value
    ensures r.1.Downloaded? ==>
      var ip := users[name].currentIp.value;
      && r.1.filename == filename
      && OnlyRowChanged(users, r.0, name)
      && r.0[name] == users[name].(inventory := users[name].inventory
                                              + [Item(filename, ip, nodes[ip].fileData.value[filename])])
  {
    if name !in users then (users, DownloadUnknownUser)
    else
      var u := users[name];
      match NodeAt(nodes, u.currentIp)
      case None => (users, NoFilesFound)
      case Some(node) =>
        match node.fileData
        case None => (users, NoFilesFound)
        case Some(fileData) =>
          if filename !in fileData then (users, FileNotOnNode)
          else
            var item := Item(filename, u.currentIp.value, fileData[filename]);
            (users[name := u.(inventory := u.inventory + [item])], Downloaded(filename))
  }

  // ---------------------------------------------------------------------
  // Properties

  /** A public node is entered whatever the caller's current location. */
  lemma ConnectPublicFromAnywhere(nodes: Nodes, users: Users, name: string, ip: Ip)
    requires name in users && ip in nodes && IsPublic(nodes[ip])
    ensures var (users', result) := Connect(nodes, users, name, ip);
      && result == Connected(ip)
      && users' == users[name := users[name].(currentIp := Some(ip))]
  {
  }

  /**
   * A private node is entered iff the caller is connected to a node that
   * lists it; a refused connect changes nothing.
   */
  lemma ConnectPrivateIffListed(nodes: Nodes, users: Users, name: string, ip: Ip)
    requires ip in nodes && !IsPublic(nodes[ip])
    ensures var (users', result) := Connect(nodes, users, name, ip);
      && (result.PivotedVia? <==> Truthy(CurrentIp(users, name)) && Lists(nodes, CurrentIp(users, name).value, ip))
      && (!result.PivotedVia? ==> result == AccessDenied(ip) && users' == users)
  {
  }

  /**
   * Downloading is not de-duplicated: the same file downloaded twice gives
   * two identical records at the end of the inventory, and neither the
   * location nor the trace level moves.
   */
  lemma DownloadTwiceKeepsTwoCopies(nodes: Nodes, users: Users, name: string, filename: string)
    requires Download(nodes, users, name, filename).1.Downloaded?
    ensures var users1 := Download(nodes, users, name, filename).0;
      var (users2, result2) := Download(nodes, users1, name, filename);
      var inv := users[name].inventory;
      var item := users1[name].inventory[|inv|];
      && result2.Downloaded?
      && users2[name].inventory == inv + [item, item]
      && item.filename == filename
      && users2[name].currentIp == users[name].currentIp
      && users2[name].traceLevel == users[name].traceLevel
  {
    var users1 := Download(nodes, users, name, filename).0;
    var item := users1[name].inventory[|users[name].inventory|];
    assert users1[name].inventory == users[name].inventory + [item];
  }

  /**
   * `download` looks only at file_data: a name in `files` with no content
   * is refused, and content not listed in `files` is still downloadable.
   */
  lemma DownloadIgnoresFilesList(users: Users, name: string, ip: Ip, n: Node, listed: string, hidden: string)
    requires name in users && users[name].currentIp == Some(ip)
    requires n.files == [listed] && n.fileData == Some(map[hidden := "x"]) && listed != hidden
    ensures Download(map[ip := n], users, name, listed).1 == FileNotOnNode
    ensures Download(map[ip := n], users, name, hidden).1 == Downloaded(hidden)
  {
  }

  /** After a successful connect to a non-empty ip, `ls` lists that node's files. */
  lemma ConnectThenList(nodes: Nodes, users: Users, name: string, ip: Ip)
    requires name in users && ip != ""
    requires Connect(nodes, users, name, ip).1.Connected? || Connect(nodes, users, name, ip).1.PivotedVia?
    ensures ListFiles(nodes, Connect(nodes, users, name, ip).0, name) == Files(nodes[ip].files)
  {
  }
}
