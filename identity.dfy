/**
 * Identity obfuscation in `game_state.py`: the `whois` lookup and the
 * cloak / uncloak / spoof / unspoof commands that change what it shows.
 */
module Identity {
  import opened Model

  /** Trace cost of one `cloak`. */
  const CloakPenalty: int := 5
  /** Trace cost of one successful `spoof`. */
  const SpoofPenalty: int := 3

  // ---------------------------------------------------------------------
  // get_whois

  /** What `whois` prints: not found, or a summary with the inventory as a count. */
  datatype WhoisResult =
    | WhoisNotFound(target: string)
    | WhoisFound(username: string, connected: string, traceLevel: int, inventorySize: nat)

  /** Every user whose spoofed_as column equals `target`. */
  function Spoofers(users: Users, target: string): (r: set<string>)
    ensures forall v :: v in r <==> v in users && users[v].spoofedAs == Some(target)
  {
    set v | v in users && users[v].spoofedAs == Some(target)
  }

  /**
   * The reply for `whois target` once the row to show, `subject`, is chosen:
   * a missing or cloaked row reads as "not found" under the name asked for;
   * otherwise the row's OWN username is shown.
   */
  function Report(users: Users, subject: string, target: string): (r: WhoisResult)
    ensures r.WhoisNotFound? <==> subject !in users || users[subject].cloaked
    ensures r.WhoisNotFound? ==> r.target == target
    ensures r.WhoisFound? ==> && r.username == subject
                              && r.connected == DisplayIp(users[subject].currentIp)
                              && r.traceLevel == users[subject].traceLevel
                              && r.inventorySize == |users[subject].inventory|
  {
    if subject !in users || users[subject].cloaked then WhoisNotFound(target)
    else
      var u := users[subject];
      WhoisFound(subject, DisplayIp(u.currentIp), u.traceLevel, |u.inventory|)
  }

  /**
   * The replies `get_whois(target)` may give: the row shown is some user
   * spoofing `target` when there is one (which one is up to the database's
   * row order), else `target`'s own row.
   */
  ghost predicate IsWhois(users: Users, target: string, r: WhoisResult) {
    if Spoofers(users, target) == {} then r == Report(users, target, target)
    else exists s :: s in Spoofers(users, target) && r == Report(users, s, target)
  }

  method GetWhois(users: Users, target: string) returns (r: WhoisResult)
    ensures IsWhois(users, target, r)
  {
    var spoofers := Spoofers(users, target);
    var subject := target;
    if spoofers != {} {
      subject :| subject in spoofers;
    }
    r := Report(users, subject, target);
  }

  // ---------------------------------------------------------------------
  // cloak_user, uncloak_user, spoof_user, unspoof_user

  datatype Reply =
    | UserNotFound
    | TargetMissing(target: string)
    | NowCloaked(name: string)
    | NowUncloaked(name: string)
    | NowSpoofing(name: string, target: string)
    | NotSpoofing(name: string)
    | NoLongerSpoofing(name: string)

  /** `cloak_user`: sets cloaked and charges the penalty on every call. */
  function Cloak(users: Users, name: string): (r: (Users, Reply))
    ensures name !in users ==> r == (users, UserNotFound)
    ensures name in users ==> && r.1 == NowCloaked(name)
                              && OnlyRowChanged(users, r.0, name)
                              && r.0[name].cloaked
                              && r.0[name].traceLevel == users[name].traceLevel + CloakPenalty
                              && r.0[name].inventory == users[name].inventory
                              && r.0[name].currentIp == users[name].currentIp
                              && r.0[name].spoofedAs == users[name].spoofedAs
  {
    if name !in users then (users, UserNotFound)
    else
      var traceLevel := users[name].traceLevel + CloakPenalty;
      (users[name := users[name].(cloaked := true, traceLevel := traceLevel)], NowCloaked(name))
  }

  /** `uncloak_user`: clears cloaked at no cost. */
  function Uncloak(users: Users, name: string): (r: (Users, Reply))
    ensures name !in users ==> r == (users, UserNotFound)
    ensures name in users ==> && r.1 == NowUncloaked(name)
                              && OnlyRowChanged(users, r.0, name)
                              && r.0[name] == users[name].(cloaked := false)
  {
    if name !in users then (users, UserNotFound)
    else (users[name := users[name].(cloaked := false)], NowUncloaked(name))
  }

  /**
   * `spoof_user`: the actor must exist; its trace is raised by the penalty
   * and the target checked afterwards, but a missing target returns before
   * the commit, so the penalty is rolled back with it.
   */
  function Spoof(users: Users, name: string, target: string): (r: (Users, Reply))
    ensures name !in users ==> r == (users, UserNotFound)
    ensures name in users && target !in users ==> r == (users, TargetMissing(target))
    ensures name in users && target in users ==>
      && r.1 == NowSpoofing(name, target)
      && OnlyRowChanged(users, r.0, name)
      && r.0[name].spoofedAs == Some(target)
      && r.0[name].traceLevel == users[name].traceLevel + SpoofPenalty
      && r.0[name].inventory == users[name].inventory
      && r.0[name].currentIp == users[name].currentIp
      && r.0[name].cloaked == users[name].cloaked
  {
    if name !in users then (users, UserNotFound)
    else
      var charged := users[name := users[name].(traceLevel := users[name].traceLevel + SpoofPenalty)];
      if target !in users then (users, TargetMissing(target))
      else (charged[name := charged[name].(spoofedAs := Some(target))], NowSpoofing(name, target))
  }

  /** `unspoof_user`: clears spoofed_as, or reports that there was nothing to clear. */
  function Unspoof(users: Users, name: string): (r: (Users, Reply))
    ensures name !in users ==> r == (users, UserNotFound)
    ensures name in users && !Truthy(users[name].spoofedAs) ==> r == (users, NotSpoofing(name))
    ensures name in users && Truthy(users[name].spoofedAs) ==>
      && r.1 == NoLongerSpoofing(name)
      && OnlyRowChanged(users, r.0, name)
      && r.0[name] == users[name].(spoofedAs := None)
  {
    if name !in users then (users, UserNotFound)
    else if !Truthy(users[name].spoofedAs) then (users, NotSpoofing(name))
    else (users[name := users[name].(spoofedAs := None)], NoLongerSpoofing(name))
  }

  // ---------------------------------------------------------------------
  // Properties

  /** The cloak penalty is charged again on every call: two cloaks cost 10. */
  lemma CloakTwiceCostsTen(users: Users, name: string)
    requires name in users
    ensures var users' := Cloak(Cloak(users, name).0, name).0;
      name in users' && users'[name].cloaked && users'[name].traceLevel == users[name].traceLevel + 10
  {
  }

  /** Uncloak undoes a cloak of an uncloaked user, except for the trace paid. */
  lemma UncloakUndoesCloak(users: Users, name: string)
    requires name in users && !users[name].cloaked
    ensures Uncloak(Cloak(users, name).0, name).0
         == users[name := users[name].(traceLevel := users[name].traceLevel + CloakPenalty)]
  {
  }

  /** Cloaking and uncloaking never change who spoofs whom. */
  lemma CloakKeepsSpoofers(users: Users, name: string, target: string)
    ensures Spoofers(Cloak(users, name).0, target) == Spoofers(users, target)
    ensures Spoofers(Uncloak(users, name).0, target) == Spoofers(users, target)
  {
  }

  /**
   * After `cloak A`, `whois A` answers "not found" when nobody spoofs A,
   * and so does `whois B` for any B whose only spoofer is A.
   */
  lemma CloakHidesFromWhois(users: Users, name: string, target: string, r: WhoisResult)
    requires name in users
    requires Spoofers(users, target) == {name} || (target == name && Spoofers(users, target) == {})
    requires IsWhois(Cloak(users, name).0, target, r)
    ensures r == WhoisNotFound(target)
  {
    CloakKeepsSpoofers(users, name, target);
  }

  /** After `uncloak A`, `whois A` shows A's full summary again when nobody spoofs A. */
  lemma UncloakRevealsToWhois(users: Users, name: string, r: WhoisResult)
    requires name in users && Spoofers(users, name) == {}
    requires IsWhois(Uncloak(users, name).0, name, r)
    ensures r == WhoisFound(name, DisplayIp(users[name].currentIp), users[name].traceLevel,
                            |users[name].inventory|)
  {
    CloakKeepsSpoofers(users, name, name);
  }

  /**
   * After `spoof A B` succeeds, and A is the only spoofer of B, `whois B`
   * shows A's own row (A's username, location, trace with the penalty and
   * inventory count), or "not found" if A is cloaked.
   */
  lemma SpoofThenWhois(users: Users, a: string, b: string, r: WhoisResult)
    requires a in users && b in users
    requires Spoofers(users, b) <= {a}
    requires IsWhois(Spoof(users, a, b).0, b, r)
    ensures users[a].cloaked ==> r == WhoisNotFound(b)
    ensures !users[a].cloaked ==>
      r == WhoisFound(a, DisplayIp(users[a].currentIp), users[a].traceLevel + SpoofPenalty,
                      |users[a].inventory|)
  {
    var users' := Spoof(users, a, b).0;
    assert Spoofers(users', b) == {a};
  }

  /**
   * After `unspoof A`, when A was the only spoofer of B, `whois B` shows
   * B's own row again, or "not found" if B does not exist or is cloaked.
   */
  lemma UnspoofThenWhois(users: Users, a: string, b: string, r: WhoisResult)
    requires a in users && users[a].spoofedAs == Some(b) && b != ""
    requires Spoofers(users, b) == {a}
    requires IsWhois(Unspoof(users, a).0, b, r)
    ensures r == Report(users, b, b)
  {
    var users' := Unspoof(users, a).0;
    assert Spoofers(users', b) == {} by {
      forall v | v in users' ensures users'[v].spoofedAs != Some(b) {
        if v != a {
          assert v !in Spoofers(users, b);
        }
      }
    }
  }

  /** Unspoof undoes a spoof of a user who was not spoofing, except for the trace paid. */
  lemma UnspoofUndoesSpoof(users: Users, a: string, b: string)
    requires a in users && b in users && users[a].spoofedAs.None? && b != ""
    ensures Unspoof(Spoof(users, a, b).0, a).0
         == users[a := users[a].(traceLevel := users[a].traceLevel + SpoofPenalty)]
  {
  }
}
