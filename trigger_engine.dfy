/**
 * The trigger engine (`check_triggers`): an event `(type, value)` selects
 * every matching rule of the `triggers` table; each selected rule inserts
 * its unlock node unless a node with that ip already exists, and the sum
 * of the selected rules' trace modifiers is added once to the acting
 * user's trace level.
 */
module TriggerEngine {
  import opened Model

  predicate Matches(t: Trigger, eventType: string, eventValue: string) {
    t.eventType == eventType && t.eventValue == eventValue
  }

  /**
   * The rows that `WHERE trigger_type = ? AND trigger_value = ?` selects,
   * in table order.
   */
  function Matching(rules: seq<Trigger>, eventType: string, eventValue: string): (r: seq<Trigger>)
    ensures |r| <= |rules|
    ensures forall t :: t in r <==> t in rules && Matches(t, eventType, eventValue)
    ensures r == [] <==> forall t :: t in rules ==> !Matches(t, eventType, eventValue)
  {
    if rules == [] then []
    else
      var init, last := rules[..|rules| - 1], rules[|rules| - 1];
      assert rules == init + [last];
      var m := Matching(init, eventType, eventValue);
      if Matches(last, eventType, eventValue) then m + [last] else m
  }

  /** `trace_modifier or 0`. */
  function ModifierOf(t: Trigger): int {
    t.traceModifier.GetOr(0)
  }

  /** Sum of the modifiers of the selected rules. */
  function SumModifiers(ms: seq<Trigger>): int {
    if ms == [] then 0 else SumModifiers(ms[..|ms| - 1]) + ModifierOf(ms[|ms| - 1])
  }

  /**
   * Reference definition of a trigger's trace effect, independent of the
   * query: every rule of the table contributes its modifier when it matches
   * the event and 0 otherwise.
   */
  function TraceDelta(rules: seq<Trigger>, eventType: string, eventValue: string): int {
    if rules == [] then 0
    else
      var last := rules[|rules| - 1];
      TraceDelta(rules[..|rules| - 1], eventType, eventValue)
        + (if Matches(last, eventType, eventValue) then ModifierOf(last) else 0)
  }

  /** The node that INSERT writes for a rule's `node_data`, with its defaults. */
  function Materialize(spec: NodeSpec): (n: Node)
    ensures n.neighbours.None? && IsPublic(n)
    ensures spec.hostname.None? ==> n.hostname == "unknown"
    ensures spec.hostname.Some? ==> n.hostname == spec.hostname.value
    ensures spec.ports.None? ==> n.ports == ""
    ensures spec.ports.Some? ==> n.ports == spec.ports.value
    ensures spec.files.None? ==> n.files == []
    ensures spec.files.Some? ==> n.files == spec.files.value
    ensures spec.fileData.None? ==> n.fileData == Some(map[])
    ensures spec.fileData.Some? ==> n.fileData == spec.fileData
    ensures spec.securityLevel.None? ==> n.securityLevel == 1
    ensures spec.securityLevel.Some? ==> n.securityLevel == spec.securityLevel.value
  {
    Node(
      spec.hostname.GetOr("unknown"),
      spec.ports.GetOr(""),
      spec.files.GetOr([]),
      Some(spec.fileData.GetOr(map[])),
      None,
      spec.securityLevel.GetOr(1))
  }

  /** `INSERT OR IGNORE` of one rule's unlock node. */
  function InsertIfAbsent(nodes: Nodes, t: Trigger): Nodes {
    if t.unlockIp in nodes then nodes else nodes[t.unlockIp := Materialize(t.nodeData)]
  }

  /** The node table after the selected rules' inserts, applied in order. */
  function UnlockAll(nodes: Nodes, ms: seq<Trigger>): Nodes {
    if ms == [] then nodes else InsertIfAbsent(UnlockAll(nodes, ms[..|ms| - 1]), ms[|ms| - 1])
  }

  function UnlockIps(ms: seq<Trigger>): set<Ip> {
    set t | t in ms :: t.unlockIp
  }

  /**
   * The stores after `check_triggers(eventType, eventValue, name)`. With no
   * matching rule it returns early. Otherwise it inserts the unlock nodes and
   * writes the user's trace level (read as 0 for a missing user, whose UPDATE
   * then touches no row).
   */
  function Fire(nodes: Nodes, users: Users, rules: seq<Trigger>,
                eventType: string, eventValue: string, name: string): (r: (Nodes, Users))
  {
    var ms := Matching(rules, eventType, eventValue);
    if ms == [] then (nodes, users)
    else
      var base := if name in users then users[name].traceLevel else 0;
      var trace := base + SumModifiers(ms);
      (UnlockAll(nodes, ms),
       if name in users then users[name := users[name].(traceLevel := trace)] else users)
  }

  // ---------------------------------------------------------------------
  // Properties of the trigger engine

  /** Insert-or-ignore: a node that exists before the inserts is left as it was. */
  lemma {:induction false} UnlockAllKeepsExisting(nodes: Nodes, ms: seq<Trigger>, ip: Ip)
    requires ip in nodes
    ensures ip in UnlockAll(nodes, ms) && UnlockAll(nodes, ms)[ip] == nodes[ip]
    decreases |ms|
  {
    if ms != [] {
      UnlockAllKeepsExisting(nodes, ms[..|ms| - 1], ip);
    }
  }

  /** After the inserts the table holds exactly the old ips plus every unlock ip. */
  lemma {:induction false} UnlockAllKeys(nodes: Nodes, ms: seq<Trigger>)
    ensures UnlockAll(nodes, ms).Keys == nodes.Keys + UnlockIps(ms)
    decreases |ms|
  {
    if ms != [] {
      var init, last := ms[..|ms| - 1], ms[|ms| - 1];
      UnlockAllKeys(nodes, init);
      assert ms == init + [last];
      assert UnlockIps(ms) == UnlockIps(init) + {last.unlockIp};
    }
  }

  /**
   * A new ip gets the node of the FIRST selected rule that unlocks it;
   * later rules for the same ip are ignored.
   */
  lemma {:induction false} UnlockAllFirstWins(nodes: Nodes, ms: seq<Trigger>, i: nat)
    requires i < |ms| && ms[i].unlockIp !in nodes
    requires forall j :: 0 <= j < i ==> ms[j].unlockIp != ms[i].unlockIp
    ensures ms[i].unlockIp in UnlockAll(nodes, ms)
    ensures UnlockAll(nodes, ms)[ms[i].unlockIp] == Materialize(ms[i].nodeData)
    decreases |ms|
  {
    var init, last := ms[..|ms| - 1], ms[|ms| - 1];
    if i < |ms| - 1 {
      UnlockAllFirstWins(nodes, init, i);
    } else {
      UnlockAllKeys(nodes, init);
      assert ms[i].unlockIp !in UnlockIps(init) by {
        forall t | t in init ensures t.unlockIp != ms[i].unlockIp {
          var j :| 0 <= j < |init| && init[j] == t;
        }
      }
    }
  }

  /** The selected rules' modifiers add up to the table-wide reference sum. */
  lemma {:induction false} SumMatchingIsTraceDelta(rules: seq<Trigger>, eventType: string, eventValue: string)
    ensures SumModifiers(Matching(rules, eventType, eventValue)) == TraceDelta(rules, eventType, eventValue)
    decreases |rules|
  {
    if rules != [] {
      var init, last := rules[..|rules| - 1], rules[|rules| - 1];
      SumMatchingIsTraceDelta(init, eventType, eventValue);
      var m := Matching(init, eventType, eventValue);
      if Matches(last, eventType, eventValue) {
        assert (m + [last])[..|m + [last]| - 1] == m;
      }
    }
  }

  /** An event that no rule matches changes neither store. */
  lemma NoMatchIsNoOp(nodes: Nodes, users: Users, rules: seq<Trigger>,
                      eventType: string, eventValue: string, name: string)
    requires forall t :: t in rules ==> !Matches(t, eventType, eventValue)
    ensures Fire(nodes, users, rules, eventType, eventValue, name) == (nodes, users)
  {
  }

  /**
   * What one firing does to both stores: existing nodes are untouched, the
   * node table gains exactly the matched rules' unlock ips, and only the
   * acting user's trace level moves, by the sum of the matched modifiers.
   */
  lemma FireEffect(nodes: Nodes, users: Users, rules: seq<Trigger>,
                   eventType: string, eventValue: string, name: string)
    ensures var (nodes', users') := Fire(nodes, users, rules, eventType, eventValue, name);
      && nodes'.Keys == nodes.Keys + UnlockIps(Matching(rules, eventType, eventValue))
      && (forall ip :: ip in nodes ==> nodes'[ip] == nodes[ip])
      && OnlyRowChanged(users, users', name)
      && (name in users ==>
            users'[name] == users[name].(traceLevel := users[name].traceLevel
                                                      + TraceDelta(rules, eventType, eventValue)))
  {
    var ms := Matching(rules, eventType, eventValue);
    SumMatchingIsTraceDelta(rules, eventType, eventValue);
    UnlockAllKeys(nodes, ms);
    forall ip | ip in nodes ensures UnlockAll(nodes, ms)[ip] == nodes[ip] {
      UnlockAllKeepsExisting(nodes, ms, ip);
    }
  }
}
