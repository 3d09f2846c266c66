# infiltr8 network-traversal and session-state engine, in Dafny

infiltr8 is a text hacking game. The world is two stores:

- a `nodes` table: ip → hostname, ports, files, file_data, neighbours and security level;
- a `users` table: username → inventory, current_ip, trace_level, cloaked and spoofed_as.

A third table holds trigger rules. Players scan the network, connect and pivot along neighbour lists, and list, download and read (`cat`) files. Reading a file on a node can fire triggers. A trigger unlocks new nodes and raises the reader's trace level. Players can also cloak themselves or spoof another user, which changes what `whois` shows.

This project models that engine.

- `model.dfy` (module `Model`) holds the records and the shared predicates. A nullable column is an `Option`. "Not connected" and "not spoofing" follow Python's truth test: NULL and the empty string both count as unset (`Truthy`). A node is public when its neighbours column is NULL or `[]`.
- `trigger_engine.dfy`, `game_state.dfy` and `identity.dfy` model `game_state.py`. `game_logic.dfy` models the inline route logic of `scan`, `connect`, `ls` and `download` in `game_logic.py`. Each command is a function from the stores before the call to the stores after it and the reply. The lemmas beside each function state what the game promises.
- `database.dfy` holds class `Db`, whose fields are the three tables. Its methods change those fields step by step, as the SQL statements do. `CheckTriggers` has the loop over the matched rules. `CatFile` calls the inventory-scanning loop `FindInInventory`. `SpoofUser` writes the penalty and then restores the committed table when the target is missing. Each method is proved to leave the tables exactly as the matching function says.
- `scenarios.dfy` relates several commands. It covers scan against connect, pivot against connect, download against cat, and the repeated trigger cost. It also has the walk-through of a new player.

Where the code is subtle, the model follows the code:

- The neighbours column is `Option<seq<Ip>>`. `pivot` answers "does not support pivoting" only when the current node is missing or its neighbours are NULL. A node whose neighbours are the list `[]` answers "X is not reachable from Y" (game_state.py:204-213). The trigger insert does not write the neighbours column (game_state.py:34-44), so an unlocked node is modelled with NULL neighbours.
- `download` looks at the keys of `file_data`, not at the `files` list. A NULL `file_data` gives "No files found.". A key that is absent gives "File not found on node". An unknown user is answered "Not connected to a node" (game_logic.py:131-145).
- A `spoof` whose target does not exist closes the connection without committing. Its +3 penalty is therefore rolled back (game_state.py:316-327).
- `whois` shows the spoofer's own row, username included, under the name that was asked for. The not-found text uses the name that was asked for (game_state.py:233-255).
- The trigger event type fired by `cat` is the literal `"cat"` (game_state.py:141).
- A `connect` by an unknown user to a public node answers "Connected" but updates no row (game_logic.py:82-93).
- The help listing spells the last command "Unfpoof". The model keeps that spelling (game_state.py:169).

## Model

| member | source | states |
|---|---|---|
| TriggerEngine.Matching | game_state.py:14-22 | selects exactly the rules whose type and value equal the event, and is empty exactly when no rule matches |
| TriggerEngine.Materialize | game_state.py:34-44 | each supplied hostname, ports, files, file_data and security level is copied into the unlocked node; an omitted one defaults to "unknown", "", [], an empty file map and 1; the node is public (no neighbours column) |
| TriggerEngine.UnlockAllKeepsExisting | game_state.py:33-44 | insert-or-ignore: a node present before the inserts is unchanged after them |
| TriggerEngine.UnlockAllKeys | game_state.py:29-44 | after the inserts the node table holds exactly the old ips plus every matched unlock ip |
| TriggerEngine.UnlockAllFirstWins | game_state.py:29-44 | a newly unlocked ip gets the node of the first matching rule that names it; later rules for that ip are ignored |
| TriggerEngine.SumMatchingIsTraceDelta | game_state.py:24-50 | the trace added is the sum over all matching rules of their modifiers, a missing modifier counting as 0 |
| TriggerEngine.NoMatchIsNoOp | game_state.py:13-22 | an event no rule matches changes neither store |
| TriggerEngine.FireEffect | game_state.py:9-52 | one firing: old nodes untouched, exactly the unlock ips added, only the actor's trace changes, by the summed modifiers once per call; a missing actor is unchanged |
| Database.Db.CheckTriggers | game_state.py:9-52 | the loop over matched rules leaves the stores as TriggerEngine.Fire says and never overwrites an existing node |
| GameState.NewUser | game_state.py:63-68 | a new row has an empty inventory, NULL ip, trace 0, not cloaked, not spoofing |
| GameState.CreateSession | game_state.py:55-72 | returns the username; adds the default row only for an unknown user; every existing row is untouched |
| GameState.CreateSessionIdempotent | game_state.py:59-72 | creating a session twice equals creating it once |
| Database.Db.CreateSession | game_state.py:55-72 | the in-place insert leaves the users table as GameState.CreateSession says |
| GameState.GetState | game_state.py:74-95 | missing user gives none; otherwise the user's inventory, ip and trace, with cloaked shown as "Yes" exactly when set |
| GameState.GetWhoami | game_state.py:172-188 | the user's own name, ip or "Not connected", and trace, whatever cloak or spoof is set; not found only for a missing user |
| GameState.UpdateState | game_state.py:97-116 | false and no change for an unknown user; otherwise only that row changes, each supplied key overwrites its field, and cloaked and spoofed_as are kept |
| GameState.UpdateNothingIsIdentity | game_state.py:102-105 | an update with no keys leaves the table unchanged |
| GameState.UpdateThenGetState | game_state.py:97-116 | get_state after update_state shows exactly the supplied values and the old cloaked flag |
| Database.Db.UpdateState | game_state.py:97-116 | the in-place update leaves the users table as GameState.UpdateState says |
| GameState.FirstIndex | game_state.py:146-150 | the index of the first inventory record with that filename, or none when no record has it |
| GameState.FindInInventory | game_state.py:146-150 | the loop stops at the first record with that filename and otherwise reports none |
| GameState.Cat | game_state.py:118-153 | unknown user: fixed message, no change; a hit in the current node's file_data fires the "cat" trigger and shows "[ip] name:\ncontent"; otherwise the first inventory copy is shown as "[inventory] ..." with no change; otherwise the not-found message naming the ip |
| Database.Db.CatFile | game_state.py:118-153 | the in-place cat leaves the stores and returns the text as GameState.Cat says |
| GameState.Pivot | game_state.py:190-226 | guards in order: not connected; current node missing or neighbours NULL; target not listed; target missing; the refusals name the current ip and the target as the messages do; only a pivot past all four moves the user, changing only current_ip |
| Database.Db.PivotToNode | game_state.py:190-226 | the in-place pivot leaves the users table as GameState.Pivot says |
| GameState.AvailableCommands | game_state.py:155-170 | the last command is spelled "Unfpoof", not "Unspoof", and is described as reversing Spoof |
| GameState.AvailableCommandsKeys | game_state.py:156-170 | the help map's keys are exactly the thirteen command names |
| GameState.AvailableCommandsExact | game_state.py:156-170 | the help map has exactly thirteen entries, one per command name |
| Identity.Spoofers | game_state.py:232-234 | exactly the users whose spoofed_as equals the target |
| Identity.Report | game_state.py:248-263 | a missing or cloaked row is "not found" under the asked name; otherwise the row's own name, ip or "Not connected", trace and inventory count |
| Identity.GetWhois | game_state.py:228-263 | the reply shows some spoofer of the target when one exists, otherwise the target's own row |
| Identity.Cloak | game_state.py:265-286 | unknown user: no change; otherwise only that row changes, cloaked is set and trace rises by exactly 5 |
| Database.Db.CloakUser | game_state.py:265-286 | the in-place cloak leaves the users table as Identity.Cloak says |
| Identity.Uncloak | game_state.py:289-303 | unknown user: no change; otherwise only cloaked is cleared, trace unchanged |
| Database.Db.UncloakUser | game_state.py:289-303 | the in-place uncloak leaves the users table as Identity.Uncloak says |
| Identity.Spoof | game_state.py:305-334 | unknown actor or unknown target: no change, the penalty rolled back; otherwise spoofed_as becomes the target and trace rises by exactly 3 |
| Database.Db.SpoofUser | game_state.py:305-334 | writing the penalty first and restoring the committed table on a missing target gives Identity.Spoof |
| Identity.Unspoof | game_state.py:336-354 | unknown user or no spoofed_as: no change; otherwise only spoofed_as is cleared |
| Database.Db.UnspoofUser | game_state.py:336-354 | the in-place unspoof leaves the users table as Identity.Unspoof says |
| Identity.CloakTwiceCostsTen | game_state.py:276 | two cloaks in a row cost 10 trace, not 5 |
| Identity.UncloakUndoesCloak | game_state.py:265-303 | uncloak after cloak restores the row except for the 5 trace paid |
| Identity.CloakKeepsSpoofers | game_state.py:278-282 | cloak and uncloak never change who spoofs whom |
| Identity.CloakHidesFromWhois | game_state.py:254-255 | after cloak A, whois A is not found when nobody spoofs A, and whois B is not found when A is B's only spoofer |
| Identity.UncloakRevealsToWhois | game_state.py:243-263 | after uncloak A, whois A shows A's full summary when nobody spoofs A |
| Identity.SpoofThenWhois | game_state.py:233-263 | after spoof A B, with A the only spoofer of B, whois B shows A's row with A's name and the raised trace, or not found if A is cloaked |
| Identity.UnspoofThenWhois | game_state.py:233-263 | after unspoof A, with A the only spoofer of B, whois B shows B's own row or not found |
| Identity.UnspoofUndoesSpoof | game_state.py:305-354 | unspoof after spoof restores the row except for the 3 trace paid |
| GameLogic.Scan | game_logic.py:33-66 | not connected: exactly the public nodes; connected: exactly the current node and the nodes it lists; ids with no node dropped; only ip and hostname shown |
| GameLogic.Connect | game_logic.py:69-108 | unknown ip: not found, no change; public target: entered from anywhere; private target: entered iff the current node lists it, else access denied and no change |
| Database.Db.Connect | game_logic.py:69-108 | the in-place connect leaves the users table as GameLogic.Connect says |
| GameLogic.ListFiles | game_logic.py:110-122 | not connected when the user is missing or has no ip; otherwise the current node's files list unchanged; a dangling ip is an error |
| GameLogic.Download | game_logic.py:124-163 | unknown user, NULL file_data and a missing key each fail with no change; success appends exactly one record {filename, current ip, content} at the end and changes nothing else |
| Database.Db.Download | game_logic.py:124-163 | the in-place append leaves the users table as GameLogic.Download says |
| GameLogic.ConnectPublicFromAnywhere | game_logic.py:85-93 | connect to a public node succeeds whatever the caller's location |
| GameLogic.ConnectPrivateIffListed | game_logic.py:95-108 | connect to a private node succeeds iff the current node lists it; a refusal changes nothing |
| GameLogic.DownloadTwiceKeepsTwoCopies | game_logic.py:147-156 | downloading the same file twice yields two identical records; location and trace unchanged |
| GameLogic.DownloadIgnoresFilesList | game_logic.py:138-145 | a name in files without content is refused and content not in files is downloadable |
| GameLogic.ConnectThenList | game_logic.py:86-122 | after a successful connect, ls lists the files of the node entered |
| Scenarios.ScanShowsEnterable | game_logic.py:42-108 | every node scan lists, other than the current one, can be entered with connect |
| Scenarios.EnterableIsScanned | game_logic.py:50-108 | a private node a connected user may enter appears in that user's scan |
| Scenarios.PivotImpliesConnect | game_state.py:190-226 | a successful pivot is a successful connect with the same new state |
| Scenarios.PivotAgreesWithConnectOnPrivate | game_state.py:203-226 | for a private target and a connected user, pivot succeeds iff connect does |
| Scenarios.PivotStricterWhenDisconnected | game_state.py:195-199 | an unconnected user's pivot fails with not connected even to a public node that connect enters |
| Scenarios.DownloadedFileStaysReadable | game_state.py:132-153 | after a download, cat of that name, from any node, finds it on the node or returns the first inventory copy |
| Scenarios.CatTwiceChargesTwice | game_state.py:136-142 | reading a trigger file twice on a node charges the trace modifiers twice and inserts nodes only once |
| Scenarios.Walkthrough | game_state.py:55-153 | new session unconnected, scan shows the public node, connect enters it, cat shows "[N1] a.txt:\nhi", download makes a one-record inventory |

## Left out

- HTTP plumbing is not modelled: Flask routing, request parsing, JSON responses, status codes, CORS, and the index, status and help routes. Results are reply datatypes instead. The status and help routes only return `GameState.GetState` and `GameState.AvailableCommands`.
- SQLite is not modelled: connections, cursors, and JSON encoding and decoding of columns, including the `JSONDecodeError` fallbacks. Columns are held already parsed. The model only knows NULL or a well-formed list for neighbours. Text such as `""`, which `scan` and `connect` read differently, is not represented.
- Rows that would make the Python raise are not modelled. This covers a NULL trace level (cloak and spoof add to it), inventory records without a filename, `node_data` values of the wrong JSON type, file contents that are not strings, and a NULL `files` column.
- Identity.GetWhois: does not fix which spoofer is shown when several users spoof the same target, because the query has no ORDER BY and SQLite's row order is unspecified.
- GameLogic.Scan: returns a set, so the order of the rows is not modelled.
- TriggerEngine.Matching: keeps the rules in table order. Which rule's node wins for a shared unlock ip follows that order. The game's query does not fix it.
- GameLogic.ListFiles: the route crashes on a current ip that names no node. The model returns the error reply `ListNodeMissing` instead.
- GameLogic.ConnectThenList: assumes the ip entered is not the empty string, because `ls` reads an empty current ip as "not connected".
- The neighbours column's default is taken to be NULL. The trigger insert leaves that column unset, and no schema in the repository declares it (`init_db.py` has no neighbours column). A default of `'[]'` would make a pivot from an unlocked node answer "not reachable" instead of "does not support pivoting".
- Trace levels are unbounded integers. SQLite's 64-bit limit is not modelled.
- Concurrency and locking are not modelled. The game has none, and each command is one atomic step of the model.
- The browser script (`static/script.js`) is not part of this model. Nor is the database setup (`init_db.py`). The setup's schema predates the neighbours, file_data, cloaked, spoofed_as and triggers columns.
