/**
 * Properties that relate several commands: what `scan` shows against what
 * `connect` lets in, `pivot` against `connect`, downloads against `cat`,
 * and the re-applied cost of reading a trigger file twice.
 */
module Scenarios {
  import opened Model
  import TriggerEngine
  import GameState
  import GameLogic

  /**
   * Everything `scan` lists can be entered with `connect`, except possibly
   * the node the caller already stands on.
   */
  lemma ScanShowsEnterable(nodes: Nodes, users: Users, name: string, s: GameLogic.Sighting)
    requires s in GameLogic.Scan(nodes, users, name)
    requires Truthy(CurrentIp(users, name)) ==> s.ip != CurrentIp(users, name).value
    ensures s.ip in nodes
    ensures GameLogic.Connect(nodes, users, name, s.ip).1 in {GameLogic.Connected(s.ip), GameLogic.PivotedVia(s.ip)}
  {
    var current := CurrentIp(users, name);
    if Truthy(current) && !IsPublic(nodes[s.ip]) {
      assert Lists(nodes, current.value, s.ip);
    }
  }

  /**
   * Conversely, a connected caller who may enter a private node sees it in
   * `scan`: the listing hides nothing that `connect` would allow.
   */
  lemma EnterableIsScanned(nodes: Nodes, users: Users, name: string, ip: Ip)
    requires Truthy(CurrentIp(users, name)) && ip in nodes && !IsPublic(nodes[ip])
    requires GameLogic.Connect(nodes, users, name, ip).1.PivotedVia?
    ensures GameLogic.SightingOf(nodes, ip) in GameLogic.Scan(nodes, users, name)
  {
  }

  /** A successful pivot is also a successful connect, with the same new state. */
  lemma PivotImpliesConnect(nodes: Nodes, users: Users, name: string, target: Ip)
    requires GameState.Pivot(nodes, users, name, target).1.Pivoted?
    ensures var (users', result) := GameLogic.Connect(nodes, users, name, target);
      && (result.Connected? || result.PivotedVia?)
      && users' == GameState.Pivot(nodes, users, name, target).0
  {
  }

  /**
   * For a private target and a connected caller, `pivot` and `connect`
   * agree: both succeed exactly when the current node lists the target.
   */
  lemma PivotAgreesWithConnectOnPrivate(nodes: Nodes, users: Users, name: string, target: Ip)
    requires target in nodes && !IsPublic(nodes[target]) && Truthy(CurrentIp(users, name))
    ensures GameState.Pivot(nodes, users, name, target).1.Pivoted?
        <==> GameLogic.Connect(nodes, users, name, target).1.PivotedVia?
  {
  }

  /**
   * `pivot` is stricter than `connect`: a caller who is not connected is
   * refused even when the target is a public node that `connect` enters.
   */
  lemma PivotStricterWhenDisconnected(nodes: Nodes, users: Users, name: string, target: Ip)
    requires name in users && !Truthy(users[name].currentIp)
    requires target in nodes && IsPublic(nodes[target])
    ensures GameState.Pivot(nodes, users, name, target) == (users, GameState.PivotNotConnected)
    ensures GameLogic.Connect(nodes, users, name, target).1 == GameLogic.Connected(target)
  {
  }

  /**
   * A downloaded file stays readable: wherever the user moves afterwards,
   * `cat` of that name finds it on the node or in the inventory and never
   * reports it missing.
   */
  lemma DownloadedFileStaysReadable(nodes: Nodes, users: Users, rules: seq<Trigger>,
                                    name: string, filename: string, elsewhere: Ip)
    requires GameLogic.Download(nodes, users, name, filename).1.Downloaded?
    ensures var users' := MoveTo(GameLogic.Download(nodes, users, name, filename).0, name, elsewhere);
      var text := GameState.Cat(nodes, users', rules, name, filename).2;
      var inv := users'[name].inventory;
      || GameState.OnNode(nodes, Some(elsewhere), filename)
      || (&& GameState.FirstIndex(inv, filename).Some?
          && text == "[inventory] " + filename + ":\n" + inv[GameState.FirstIndex(inv, filename).value].content)
  {
    var users' := MoveTo(GameLogic.Download(nodes, users, name, filename).0, name, elsewhere);
    var inv := users'[name].inventory;
    assert inv[|inv| - 1].filename == filename;
  }

  /**
   * Reading a trigger file is charged on every read: two `cat`s of the same
   * file on the current node raise the reader's trace by twice the matched
   * modifiers, while the unlocked nodes are inserted only once.
   */
  lemma CatTwiceChargesTwice(nodes: Nodes, users: Users, rules: seq<Trigger>, name: string, filename: string)
    requires name in users && GameState.OnNode(nodes, users[name].currentIp, filename)
    ensures var (nodes1, users1, _) := GameState.Cat(nodes, users, rules, name, filename);
      var (nodes2, users2, _) := GameState.Cat(nodes1, users1, rules, name, filename);
      var delta := TriggerEngine.TraceDelta(rules, GameState.CatEvent, filename);
      && name in users2
      && users2[name].traceLevel == users[name].traceLevel + 2 * delta
      && nodes2 == nodes1
  {
    var (nodes1, users1, _) := GameState.Cat(nodes, users, rules, name, filename);
    TriggerEngine.FireEffect(nodes, users, rules, GameState.CatEvent, filename, name);
    TriggerEngine.FireEffect(nodes1, users1, rules, GameState.CatEvent, filename, name);
    var ip := users[name].currentIp.value;
    assert users1[name].currentIp == users[name].currentIp;
    assert nodes1[ip] == nodes[ip];
    assert GameState.OnNode(nodes1, users1[name].currentIp, filename);
    var (nodes2, users2, _) := GameState.Cat(nodes1, users1, rules, name, filename);
    assert nodes2.Keys == nodes1.Keys;
  }

  /**
   * The walk-through of a new player: one public node N1 holding a.txt.
   * A new session is unconnected, `scan` shows N1, `connect` enters it,
   * `cat a.txt` shows the node's copy and `download a.txt` puts one record
   * in the inventory.
   */
  lemma Walkthrough(rules: seq<Trigger>)
    requires forall t :: t in rules ==> t.eventType != GameState.CatEvent
    ensures
      var n1 := Node("n1.local", "", ["a.txt"], Some(map["a.txt" := "hi"]), None, 1);
      var nodes := map["N1" := n1];
      var (users0, session) := GameState.CreateSession(map[], "U1");
      var (users1, connected) := GameLogic.Connect(nodes, users0, "U1", "N1");
      var (nodes2, users2, text) := GameState.Cat(nodes, users1, rules, "U1", "a.txt");
      var (users3, downloaded) := GameLogic.Download(nodes2, users2, "U1", "a.txt");
      && session == "U1"
      && users0["U1"].currentIp.None?
      && GameLogic.Scan(nodes, users0, "U1") == {GameLogic.Sighting("N1", "n1.local")}
      && connected == GameLogic.Connected("N1")
      && users1["U1"].currentIp == Some("N1")
      && text == "[N1] a.txt:\nhi"
      && (nodes2, users2) == (nodes, users1)
      && downloaded == GameLogic.Downloaded("a.txt")
      && users3["U1"].inventory == [Item("a.txt", "N1", "hi")]
  {
    var n1 := Node("n1.local", "", ["a.txt"], Some(map["a.txt" := "hi"]), None, 1);
    var nodes := map["N1" := n1];
    var users0 := GameState.CreateSession(map[], "U1").0;
    var scan := GameLogic.Scan(nodes, users0, "U1");
    assert GameLogic.SightingOf(nodes, "N1") in scan;
    assert scan == {GameLogic.Sighting("N1", "n1.local")};
    var users1 := GameLogic.Connect(nodes, users0, "U1", "N1").0;
    TriggerEngine.NoMatchIsNoOp(nodes, users1, rules, GameState.CatEvent, "a.txt", "U1");
  }
}
