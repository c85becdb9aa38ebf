# A verified model of owsd's hard parts

owsd is a daemon that offers a host's ubus over WebSocket and, as a ubus-x proxy, shows the objects
of remote hosts on the local bus. This project models, in Dafny, the parts of it that are state
machines, ordered indexes or accounting, and proves what they promise, for the ubus-only build.

- **Proxy protocol** (`Signatures`, `ListWalk`, `SlotMask`, `ProxyLink`, `RemoteBus`, `ProxySystem`,
  `Convergence`, `ProxyRuns`, `Divergence`, `ProxyModes`, `WalkFault`). The master subscribes to the remote's events, lists its objects, keeps one local
  stub per object, and routes results of proxied calls back to the deferred local requests. The
  main results: whenever nothing is in flight the stubs are exactly the objects the remote lists and
  the master's filter passes, signatures included, if and only if the master may hear of them; a result completes the request that was issued its id, once; the merge walk
  equals a name-by-name update.
- **Pattern indexes** (`CStrings`, `Patterns`, `PatternTree`, `PatternIndex`, `AccessList`,
  `AccessCheck`). Two search trees are ordered by a comparator whose "equal" is not transitive. The
  main results: the comparator is an interval order, the proxy's filter answers as a linear scan
  would, and the access list does so under an exact condition.
- **Client registry** (`Registry`, `ClientList`, `StaleSweep`). Lowest-free-index allocation, the
  connection life cycle with its timer, and uproxyd's sweep over the listing.
- **Requests on the server** (`Requests`, `Decisions`, `Session`, `Server`, `StaleClock`, `Subscriptions`,
  `WriteQueue`). The in-flight counter, admission, access check before invocation, the stale sweep,
  subscriptions threaded through two lists, and the write queue.

Objects that the source updates in place are classes (`RemoteBus`, `ClientList`, `Session`,
`Listeners`, `Queue`, `Filter`, `List`, `Stub`). Each of their methods is proved equal to a step of
a function or relation on values, and the properties of whole runs are proved about those.

## What turned out differently from what one would expect

- **The list walk reads past its old stubs.** With an explicit end behind the old stubs (see below)
  there is one case: when the last old stub is listed with
  another signature, the code destroys it and leaves the comparison result at zero; if the reply goes
  on, the next name is handled with the cursor past the old stubs (src/ws_ubusproxy.c:301-334).
  Under that assumption `ListWalk.Walk` refines the name-by-name update exactly when this does not happen,
  `WalkFault.FaultReachable` constructs a run that gets there from any two permitted names, and
  `WalkFault.SteadyNeverFaulty` shows that no run does while objects keep their signatures. A range macro that recognises the end
  by "the predecessor is the last old stub" would go wrong in more cases, without any changed
  signature: once a stub has been created behind the last old one, that test no longer holds.
- **In rpcd mode the stubs can stay wrong.** There the remote lists every object but the session
  object decides, by event type alone, whether the master hears of additions and removals
  (src/access_check.c:350-369, src/rpc_list_ubus.h:48-51). `ProxyModes.SessionConvergesIff` has the exact
  condition; `Divergence.UnheardAddition` and `Divergence.UnheardRemoval` construct the failing runs.
- **The access list depends on the order of its configuration.** An entry that overlaps a kept one
  is dropped even if it is broader (src/ubusx_acl.c:100-125). `AccessList.NarrowFirstDenies` is a
  concrete case, `AccessList.AgreesWithScan` the exact condition, for lists of any length.
- **A call can be checked as if it were an event.** The check recognises object events by a name that
  contains `ubus.object.` and then takes the call's context for an event's (src/access_check.c:325-340).
  What is checked then is not defined; `AccessCheck.ListedMeansReachable` says for which names.
- **uproxyd's sweep can miss a client.** It overwrites its position with an index
  (src/uproxyd.c:241-255); all over-limit clients are removed exactly when none lies between another
  one's position and index (`StaleSweep.Sweep`). `StaleSweep.GapHidesClient` constructs, for any limit,
  a run of the registry after which one does.
- **Documentation and code differ on that sweep.** docs/README.md:298 has a client removed by address
  when its retry count reaches 10; the code removes by index when the count exceeds a limit, 10
  unless set with `-r` (src/uproxyd.c:40-49). The model follows the code.

## Assumptions

- The cursor's place past the last old stub is an explicit `End`; the libubox macros that produce it
  are not part of this model.
- A list reply is sorted by name, as the code itself assumes (src/ws_ubusproxy.c:286-288).
- The socket keeps the order of what is written, zero-delay timers run in order, and in the
  convergence model the connection stays up and login, listen and list requests are answered
  successfully. In rpcd mode the session object answers access questions in order, and the same way
  for the same event type.
- The websocket library gives every new connection a handle that no client has on record, and
  reports on a handle in order (established or failed, then closed).
- Removal by index is asked for an index that exists (the code dereferences the client it finds).
- `wsubus_client_connect_all` runs at start-up, before any connection.
- A call's access check is over before the call is swept as stale; a session's queue is swept at
  least every two seconds.
- A write that takes nothing reports that the library is holding data back.
- Filter patterns are not empty; a queried name is not empty and does not end in `*`.

## Model

| member | source | states |
|---|---|---|
| `CStrings.FirstDifference` | src/wsubus_client.c:63-90 | the string comparison under the comparator is decided by the first byte that differs |
| `Patterns.CompareFlips` | src/wsubus_client.c:63-90 | swapping the comparator's arguments flips its sign, for all keys, the empty one included |
| `Patterns.CompareTransitive` | src/wsubus_client.c:63-90 | "less" is transitive although "equal" is not |
| `Patterns.ZeroIsIntersection` | src/wsubus_client.c:63-90 | the comparator answers zero exactly when some object name matches both patterns |
| `Patterns.OverlapNests` | src/wsubus_client.c:92-109 | two patterns compare equal exactly when one contains the other, and `broader_pattern` then says which |
| `Patterns.CompareToName` | src/ubusx_acl.c:148-173 | comparing a name to a stored key asks exactly whether the key matches the name |
| `PatternTree.FindSpec` | src/wsubus_client.c:752-753 | in an ordered tree, search finds a key that compares equal exactly when there is one |
| `PatternTree.InsertSpec` | src/wsubus_client.c:139-143 | inserting a key that equals nothing keeps the order and adds exactly that key |
| `PatternTree.DeleteSpec` | src/wsubus_client.c:128-137 | deleting a stored key keeps the order and removes exactly that key |
| `PatternIndex.Mute` | src/wsubus_client.c:111-153 | the delete loop ends; it removes exactly the stored patterns that overlap the new one, unless a stored one contains it, and then the tree is untouched |
| `PatternIndex.NothingDeleted` | src/wsubus_client.c:111-153 | a pattern is never skipped after something was deleted for it |
| `PatternIndex.Filter.Add` | src/wsubus_client.c:111-153 | over every sequence of additions the stored patterns stay ordered and disjoint and stand for the names of all patterns ever added; which are replaced, and when the new one is skipped |
| `PatternIndex.Filter.Match` | src/wsubus_client.c:746-756 | search answers as a linear scan of everything ever added; everything matches when nothing was |
| `AccessList.ObjectPart` | src/ubusx_acl.c:90-98 | the object part of an entry ends at its first `->`, or is the whole entry |
| `AccessList.KeptGrows` | src/ubusx_acl.c:82-126 | one more entry joins the greedy disjoint subsequence exactly when it equals nothing kept |
| `AccessList.List.AddObject` | src/ubusx_acl.c:82-126 | the tree holds exactly the greedy disjoint subsequence of the configured entries |
| `AccessList.List.AllowObject` | src/ubusx_acl.c:128-138 | a name is allowed exactly when nothing is configured or a kept entry matches it |
| `AccessList.AllowsOnlyMatched` | src/ubusx_acl.c:128-138 | a non-empty list allows only names that some configured entry matches |
| `AccessList.BroadFirstCovers` | src/ubusx_acl.c:60-126 | if no entry comes after a strictly narrower one, every entry is contained in a kept one |
| `AccessList.CoveredAgrees` | src/ubusx_acl.c:60-138 | if every entry is contained in a kept one, the list answers as a scan of all entries, for lists of any length |
| `AccessList.AgreesWithScan` | src/ubusx_acl.c:60-138 | for configurations of any length: the list answers as a scan on every name if and only if every entry is contained in a kept one, or is a wildcard whose names kept entries use up byte by byte |
| `AccessList.FilledMeans` | src/ubusx_acl.c:60-138 | the byte-by-byte evaluation, no deeper than the longest entry, decides whether kept entries match every name with a given beginning |
| `AccessList.FewAgreeWithScan` | src/ubusx_acl.c:60-138 | with fewer than 254 entries containment alone is the exact condition |
| `AccessList.CoveredByComparator` | src/ubusx_acl.c:82-126 | an entry is contained in a kept one exactly when it was kept or fell to an earlier kept entry that compares equal and is at least as broad |
| `AccessList.NarrowFirstDenies` | src/ubusx_acl.c:60-138 | a concrete configuration and name on which list and scan differ |
| `AccessCheck.ListedMeansReachable` | src/access_check.c:292-355 | for a verified certificate, an object is listed exactly when calls to it pass the check, unless its name reads like an object event |
| `AccessCheck.ListedMeansHeard` | src/access_check.c:317-355 | for a verified certificate, an object is listed exactly when the events of its coming and going pass the check |
| `AccessCheck.SessionDecidesEvents` | src/access_check.c:350-369 | with any other session id every object is listed, and the session object is asked about events |
| `AccessCheck.CertificateDecides` | src/access_check.c:95-132 | on every encrypted connection a certificate session is allowed exactly when the certificate is verified and the list allows the object, announced path or event type; a missing or unverified certificate is denied everything |
| `AccessCheck.OthersAskSession` | src/access_check.c:57-88 | on a plain connection, and for any other session id, the user list decides logins that name a user, by the first name and only if there is a list; the session object is asked about all the rest |
| `AccessCheck.ListedByPrefix` | src/rpc_list_ubus.h:48-51 | a listing is restricted by the access list for every session id that begins like a certificate's |
| `Signatures.CountArgs` | src/local_stub.c:238-246 | the counting loop gives the sum of the methods' argument counts |
| `Signatures.FillArgs` | src/local_stub.c:274-278 | one method's arguments fill exactly their slice of the flat array with names and folded types and nothing else |
| `Signatures.FillStub` | src/local_stub.c:236-280 | the flat array is filled exactly to its counted size, each method's slice at the sum of the earlier counts |
| `Signatures.CutIsShape` | src/local_stub.c:236-280 | cutting the flat array at the method table's offsets gives back the signature's shape |
| `Signatures.Stub.IsSameSignature` | src/local_stub.c:93-121 | a stub built from S compares equal to T exactly when method names, argument names and folded types agree in order |
| `Signatures.FoldInvertsName` | src/util_ubus_blob.h:27-53 | a type listed by its name folds back to itself, for each of the five types |
| `Signatures.FoldByFirstByte` | src/util_ubus_blob.h:27-36 | only the first byte of a type name counts, a name folds to a type exactly when some type's name begins like it, and no name at all folds to nothing any name does |
| `Signatures.ShapesEqualIff` | src/local_stub.c:93-121 | shapes are equal exactly when the numbers of methods and arguments, their names and the folded types are, in order |
| `Signatures.TypeChangeShows` | src/local_stub.c:93-121 | an argument that changes from one listed type to another changes the signature's shape |
| `ListWalk.InsertStub` | src/local_stub.c:296-298 | inserting a new stub keeps the collection sorted and adds exactly one binding |
| `ListWalk.RemoveStub` | src/local_stub.c:308-334 | destroying a stub keeps the collection sorted and removes exactly its binding |
| `ListWalk.AdvanceCursor` | src/ws_ubusproxy.c:302-309 | the inner loop leaves the cursor on the first old stub not below the listed name, or past them all, and never on a stub created during the walk |
| `ListWalk.Place` | src/ws_ubusproxy.c:311-333 | what one listed name does: created, kept, replaced or dropped, everything else unchanged; when the cursor is left past the end with a stale zero |
| `ListWalk.Walk` | src/ws_ubusproxy.c:286-337 | the walk equals the name-by-name update, and goes wrong exactly when the last old stub is replaced and more names follow |
| `SlotMask.LowBit` | src/wsubus.impl.h:211-218 | a word and its negation share exactly the lowest set bit |
| `SlotMask.FullWhenTwenty` | src/wsubus.impl.h:192-203 | all slots are live exactly when 20 are |
| `SlotMask.New` | src/wsubus.impl.h:192-203 | the least free slot is taken; there is none exactly when 20 calls are live |
| `SlotMask.Free` | src/wsubus.impl.h:204-209 | freeing removes exactly that slot from the set |
| `SlotMask.Peel` | src/wsubus.impl.h:211-218 | one round of the iteration yields the least live slot and the mask without it |
| `SlotMask.Visit` | src/wsubus.impl.h:211-218 | the iteration ends having visited every live slot once, in increasing order |
| `ProxyLink.ReceiveRouted` | src/ws_ubusproxy.c:220-440 | every message, well-formed or not, keeps the routing invariant |
| `ProxyLink.CallRouted` | src/local_stub.c:45-91 | so does every call of a stub, refused or not |
| `ProxyLink.RunRouted` | src/ws_ubusproxy.c:220-440 | over every run: live ids are distinct, at most `call_id` and not `list_id`; every issued id is waiting, completed or dropped, once; no stubs or calls during the handshake; ids keep their request |
| `ProxyLink.RunIdsFit` | src/ws_ubusproxy.c:247-270 | a run draws at most one id per message or call, so the first 2^31 - 2 of them stay within the 32-bit `call_id` |
| `ProxyLink.ResultReachesItsRequest` | src/ws_ubusproxy.c:343-400 | a well-formed result completes exactly the request that was issued its id, which was not completed before |
| `ProxyLink.UnawaitedReplyIgnored` | src/ws_ubusproxy.c:273-369 | the reply to a superseded list, or a second result, changes nothing |
| `ProxyLink.LoginGranted` | src/ws_ubusproxy.c:225-251 | a granted session id is kept, cut to 32 bytes, and the master subscribes under it with the next id |
| `ProxyLink.LoginPending` | src/ws_ubusproxy.c:225-251 | a login stays pending exactly until a reply with code zero and a session id; any other reply changes nothing |
| `ProxyLink.ListenPending` | src/ws_ubusproxy.c:252-272 | a subscription stays pending until acknowledged with code zero; then everything is listed under a new id |
| `ProxyLink.AddedAsksList` | src/ws_ubusproxy.c:413-426 | an add event asks for a list under a new id, at any time, and does nothing else |
| `ProxyLink.BadListAwaited` | src/ws_ubusproxy.c:273-342 | an awaited list that comes without success or table stays awaited and changes nothing |
| `ProxyLink.CallIssues` | src/local_stub.c:45-91 | a call goes out under a new id, with the session's id, the object's own name, method and arguments, and that id belongs to the request; with 20 waiting only the id is spent |
| `ProxyLink.CodelessResultDrops` | src/ws_ubusproxy.c:372-399 | a result array without an integer code frees the slot and completes nothing |
| `ProxyLink.RequestGetsItsResult` | src/ws_ubusproxy.c:343-400 | over every run: the request that was issued an id is the one completed by a result with it, with that result's code |
| `ProxyLink.WithoutSorted` | src/ws_ubusproxy.c:427-436 | a remove event drops exactly the stub of that name |
| `RemoteBus.FindSlot` | src/ws_ubusproxy.c:357-368 | the search over the mask finds a live slot with the id exactly when there is one |
| `RemoteBus.RemoteBus.Establish` | src/ws_ubusproxy.c:147-197 | what is sent first, in certificate and in rpcd mode |
| `RemoteBus.RemoteBus.HandleCall` | src/local_stub.c:45-91 | the call takes the least free slot under a new id, or is refused when 20 wait |
| `RemoteBus.RemoteBus.Receive` | src/ws_ubusproxy.c:213-440 | the callback is the protocol's reaction on bit mask, call table and stub collection; it fails exactly where the walk does |
| `RemoteBus.RemoteBus.Route` | src/ws_ubusproxy.c:343-400 | the slot with the id is completed and freed, and no other |
| `Convergence.RemoteListsNames` | src/rpc_list_ubus.h:84-113 | a list answered at once, ahead of events still being checked, keeps what is known of every name: shown, announced or listed on its way |
| `Convergence.EventCheckedNames` | src/rpc_sub.c:418-485 | so does an event whose access check ends |
| `Convergence.ListReplyNames` | src/ws_ubusproxy.c:273-337 | so does merging the awaited list |
| `Convergence.OtherReplyNames` | src/ws_ubusproxy.c:273-369 | so does a superseded list's reply or a call's result |
| `Convergence.AddedNames` | src/ws_ubusproxy.c:413-426 | so does an add event, which supersedes the awaited list |
| `Convergence.RemovedNames` | src/ws_ubusproxy.c:427-436 | so does a remove event |
| `ProxySystem.RunShared` | src/ws_ubusproxy.c:133-436 | in every run, whatever is announced: during the handshake each message is alone on its way, and later replies carry ids that were drawn, listings only listed names |
| `ProxySystem.CertificateCarried` | src/ws_ubusproxy.c:180-194 | in certificate mode every request of every run carries the certificate's session id |
| `ProxySystem.SessionCarried` | src/ws_ubusproxy.c:225-272 | in rpcd mode every request after the login was answered carries the first 32 bytes of the granted session id |
| `Convergence.RunInv` | src/ws_ubusproxy.c:225-436 | every reachable state of master, remote and both queues satisfies the invariant, provided the master hears of what it wants |
| `Convergence.Converges` | src/ws_ubusproxy.c:252-342 | in every reachable state with nothing in flight, in certificate and rpcd mode, the stub map is the remote's object map restricted to listed names that pass the filter, signatures included |
| `Divergence.UnheardAddition` | src/rpc_sub.c:418-452 | if the addition of a wanted object is not heard, there is a run that ends with nothing in flight and the object not shown |
| `Divergence.UnheardRemoval` | src/rpc_sub.c:418-452 | if its removal is not heard, there is one that ends with a stub for an object that is gone |
| `Divergence.ConvergesIffHeard` | src/ws_ubusproxy.c:252-436 | the stubs are right in every quiet state of every run if and only if the events of every wanted object pass the remote's check |
| `ProxyModes.CertifiedConverges` | src/ws_ubusproxy.c:180-342 | in certificate mode, with the remote's actual check and the master's actual patterns: the stubs are the objects that the access list allows and some pattern matches |
| `ProxyModes.SessionConvergesIff` | src/ws_ubusproxy.c:153-342 | in rpcd mode the stubs are always right if and only if the session may hear both kinds of object events, or the filter passes nothing |
| `WalkFault.TakesUnlessFaulty` | src/ws_ubusproxy.c:286-337 | the master can take its next message exactly when the merge does not go wrong |
| `WalkFault.SteadyNeverFaulty` | src/ws_ubusproxy.c:286-337 | in runs whose objects keep their signatures the merge never goes wrong |
| `WalkFault.FaultReachable` | src/ws_ubusproxy.c:301-334 | for any two permitted names there is a run in which it does, when one of them changes its signature |
| `Registry.GapIsLeastFree` | src/wsubus_client.c:197-213 | the insertion point is the least unused index |
| `Registry.IndexAtLeastPosition` | src/wsubus_client.c:197-213 | a client's index is at least its position in the list |
| `Registry.CreateInv` | src/wsubus_client.c:284-360 | adding a client keeps indices increasing and one active client per address |
| `Registry.TimerInv` | src/wsubus_client.c:220-236 | a timer, which sets the state unasked, keeps the invariant because armed means Disconnected |
| `Registry.RunInv` | src/wsubus_client.c:197-420 | in every run: indices non-negative and strictly increasing, at most one client per address outside Teardown, an armed timer implies Disconnected, states fit handles |
| `Registry.TeardownAbsorbs` | src/wsubus_client.c:484-501 | no step changes a client in Teardown; only its connection's end deletes it, and nobody else |
| `Registry.TeardownUntilTheEnd` | src/wsubus_client.c:709-744 | over every run such a client stays until its connection ends |
| `Registry.RemoveThenAdd` | src/wsubus_client.c:507-542 | after removal by address an add of it succeeds under the least unused index |
| `Registry.ClosedRetries` | src/wsubus_client.c:375-420 | a client whose connection ends is Disconnected, armed and back at count zero; nobody else changes |
| `Registry.FailedRetries` | src/wsubus_client.c:402-414 | a client whose connection fails is Disconnected, armed, without handle and one attempt further; nobody else changes |
| `Registry.EstablishedConnects` | src/ws_ubusproxy.c:133-145 | a client whose connection is established is Connected with count zero; nobody else changes |
| `Registry.TimerTries` | src/wsubus_client.c:220-236 | a timer makes its client, which was Disconnected, Connecting under the new handle, or leaves it without timer if none was opened |
| `Registry.RemovedByIndex` | src/wsubus_client.c:484-501 | removal by index deletes a Disconnected client and marks any other for teardown; nobody else changes |
| `Registry.RemovedByAddress` | src/wsubus_client.c:525-533 | who is left after removal by address: other addresses as they were, connections with it in Teardown |
| `Registry.AddedClient` | src/wsubus_client.c:284-350 | a new client is Disconnected, untried, armed exactly if it came over the bus, with a valid port: the one asked for or 443 |
| `Registry.AllTried` | src/wsubus_client.c:375-399 | once the client vhost starts everyone is armed with count zero |
| `Registry.WhyDormant` | src/wsubus_client.c:220-420 | over every run: a client that is Disconnected without timer was configured before the client vhost ran, or its last timer opened no connection, and has not changed since |
| `ClientList.ClientList.UniqueIp` | src/wsubus_client.c:265-282 | an address is unique exactly when every client that has it is in Teardown |
| `ClientList.ClientList.Add` | src/wsubus_client.c:284-360 | succeeds exactly for a valid, unique address, and then inserts at the least unused index |
| `ClientList.ClientList.TimerFires` | src/wsubus_client.c:220-236 | the reconnect timer, whether or not a connection opens |
| `ClientList.ClientList.OnEstablished` | src/ws_ubusproxy.c:133-145 | a connection is closed again exactly when its client is gone or in Teardown |
| `ClientList.ClientList.OnFailed` | src/ws_ubusproxy.c:98-107 | a failed connection deletes a client in Teardown and rearms any other |
| `ClientList.ClientList.OnClosed` | src/ws_ubusproxy.c:81-97 | a closed connection likewise, with the retry count reset |
| `ClientList.ClientList.RemoveByIndex` | src/wsubus_client.c:518-524 | removal by a present index keeps the invariant |
| `ClientList.ClientList.RemoveByAddress` | src/wsubus_client.c:525-533 | removal by address keeps the invariant |
| `ClientList.RemoveLoop` | src/wsubus_client.c:525-533 | the loop that takes clients out of the list it walks treats each one exactly once |
| `StaleSweep.Sweep` | src/uproxyd.c:241-255 | for any limit the sweep ends; it removes only clients with more attempts than the limit, in increasing order, always the first, and all of them if and only if none is jumped over |
| `StaleSweep.NoGapsNothingJumped` | src/uproxyd.c:241-255 | without gaps in the indices none is jumped over |
| `StaleSweep.GapHidesClient` | src/uproxyd.c:241-255 | for any limit and three addresses there is a run of the registry after which two clients are over the limit and the sweep jumps over one |
| `StaleSweep.RegistryListsSweepable` | src/wsubus_client.c:570-607 | every listing of every run of the registry meets what the sweep needs to end |
| `Requests.MessageInv` | src/wsubus.c:155-204 | dispatching any message keeps counter equal to queued calls, through the 32-bit wrap, and adds at most one call beyond the quota |
| `Requests.AccessInv` | src/rpc_call_ubus.h:197-228 | an access decision invokes only what it allowed, and answers the rest at once |
| `Requests.CompletedInv` | src/rpc_call_ubus.h:81-127 | a completed call is answered and leaves the queue |
| `Requests.SweepInv` | src/wsubus.impl.h:278-318 | the sweep takes exactly the old calls and no subscription |
| `Requests.CloseInv` | src/wsubus.impl.h:427-438 | closing ends every queued call |
| `Decisions.MessageEffect` | src/wsubus.c:155-204 | what a message adds to the log and leaves queued: refused exactly beyond the quota, a started call queued unanswered with its arrival time, everything else answered at once |
| `Decisions.DeniedEffect` | src/rpc_call_ubus.h:210-227 | a denied call is noted as denied, answered and gone, and never invoked |
| `Decisions.NotInvokedEffect` | src/rpc_call_ubus.h:215-227 | an allowed call that cannot be invoked is answered and gone |
| `Decisions.InvokedEffect` | src/rpc_call_ubus.h:215-228 | an allowed call that is invoked waits for its result, unanswered |
| `Decisions.CompletedEffect` | src/rpc_call_ubus.h:81-127 | a completed call is answered and gone |
| `Decisions.SweepEffect` | src/wsubus.impl.h:286-315 | a sweep ends exactly the calls that are at least ten seconds old |
| `Decisions.CloseEffect` | src/wsubus.impl.h:427-438 | closing cancels exactly the queued calls |
| `Decisions.AccessSound` | src/rpc_call_ubus.h:197-228 | a decision keeps: no request decided or invoked twice, a call being checked not yet decided, a call waiting for its result invoked |
| `Session.Session.OnMessageFromClient` | src/wsubus.c:141-215 | the dispatcher and handlers on the counter and queue in place |
| `Session.Session.OnAccessCompleted` | src/rpc_call_ubus.h:197-228 | the access callback in place |
| `Session.Session.OnCallCompleted` | src/rpc_call_ubus.h:81-127 | the completion callback in place |
| `Session.Session.CleanStale` | src/wsubus.impl.h:278-318 | the sweep in place; what is left is exactly what is not an old call |
| `Session.Session.Deinit` | src/wsubus.impl.h:427-438 | after closing, the queue is empty, the counter zero and every queued request ended |
| `Server.CounterAndAge` | src/wsubus.c:155-204 | at every event boundary of every run the counter is the number of queued calls, at most 513, and no queued call is 12 s old |
| `Server.Lifecycle` | src/rpc_call_ubus.h:150-295 | in every run an invocation follows the permission for the same request, a request is decided and ends at most once, is undecided while being checked, and has ended exactly if it is not queued |
| `Server.ClosedLifecycle` | src/wsubus.impl.h:427-438 | in every run every request of a closed session has ended, exactly once, and was invoked only after permission |
| `Server.RunCauses` | src/rpc_call_ubus.h:197-228 | over every run each event has its cause: an invocation only a check that allowed that call; a response only a completion, a check that did not lead to an invocation, or an admitted message; a refusal only a full session; a stale end only a sweep at ten seconds or more |
| `Server.OpenAndTick` | src/wsubus.impl.h:339-378 | a new session starts empty, at the end, with the quota shared anew |
| `Server.CloseCauses` | src/wsubus.impl.h:427-438 | closing a session cancels exactly its queued calls and leaves the other sessions alone |
| `Server.IdleNeverRefused` | src/wsubus.c:155-158 | a session without calls in flight is never refused |
| `Server.PhaseTotal` | src/wsubus.impl.h:320-334 | while n sessions stay the same and start within quota, they together hold at most total_req_max + n calls |
| `Server.ShareIsLargest` | src/wsubus.impl.h:320-334 | a session's share is the largest value up to 512 whose n-fold is within the total |
| `StaleClock.ElapsedSeconds` | src/wsubus.impl.h:286-306 | the borrow loops end with the floor of the elapsed seconds |
| `StaleClock.IsStale` | src/wsubus.impl.h:286-310 | a call is stale exactly when at least ten seconds old |
| `Subscriptions.UnsubscribedInv` | src/rpc_sub.c:370-403 | dropping subscriptions of one connection from both lists keeps them in step and leaves every other connection's alone |
| `Subscriptions.ClosedInv` | src/wsubus.impl.h:427-438 | closing removes all of the connection's subscriptions and nobody else's |
| `Subscriptions.SweptInv` | src/wsubus.impl.h:286-314 | taking calls out of a queue keeps the two lists in step |
| `Subscriptions.RunInv` | src/rpc_sub.c:195-256 | over every run the global list restricted to a connection is, in order, the subscriptions in its queue, and none of a closed connection is left |
| `Subscriptions.Unlink` | src/rpc_sub.c:383-390 | the loop drops exactly the subscriptions with that connection and pattern from both lists, and says whether there were any |
| `Subscriptions.CancelAll` | src/wsubus.impl.h:427-438 | destroying a queue's entries unlinks exactly its subscriptions from the global list |
| `Subscriptions.SubscribeThenUnsubscribe` | src/rpc_sub.c:195-403 | a subscription is found under the pattern asked for, an unsubscribe of it then finds one and leaves none, and other patterns and connections are not touched |
| `Subscriptions.UnsubscribeSparesCalls` | src/rpc_sub.c:383-390 | unsubscribing takes no call out of the queue |
| `Subscriptions.SweepEndsOnlyStale` | src/wsubus.impl.h:286-315 | ending some calls of a connection leaves its other calls, in order, its subscriptions and every other connection alone |
| `Subscriptions.QueuedInOrder` | src/rpc_call_ubus.h:275-277 | a new connection has nothing queued; a call goes to the end of its own connection's queue only |
| `Subscriptions.Listeners.Subscribe` | src/rpc_sub.c:195-256 | a new subscription goes to the end of both lists; if the bus handler cannot be registered its status is the answer and neither list changes |
| `Subscriptions.Listeners.Unsubscribe` | src/rpc_sub.c:370-403 | exactly the subscriptions with that connection and pattern go |
| `Subscriptions.Listeners.SubList` | src/rpc_sub.c:333-368 | the listing, read off the global list, is the connection's own queue of subscriptions in order |
| `Subscriptions.Listeners.CleanStale` | src/wsubus.impl.h:278-318 | the stale sweep removes no subscription |
| `Subscriptions.Listeners.Close` | src/wsubus.impl.h:427-438 | both lists after a connection closes |
| `WriteQueue.RestAppend` | src/wsubus.impl.h:252-257 | queueing a message appends exactly its bytes to what is still to go |
| `WriteQueue.Accept` | src/wsubus.impl.h:461-473 | bytes taken from the head are exactly the next ones to go |
| `WriteQueue.Queue.Write` | src/wsubus.impl.h:231-268 | enqueueing keeps: bytes accepted, then bytes still queued, are all messages in order |
| `WriteQueue.Queue.Drain` | src/wsubus.impl.h:454-488 | so does draining, whatever the socket takes; it fails exactly when a write fails, which is then the last, and otherwise stops only with an empty queue or data held back; only the head can be partly written |

## Left out

- libwebsockets, uloop, libubus, blobmsg and json-c: their part is the environment steps and the assumptions above.
- JSON text, schema validation, HTTP serving, option and config parsing: only parsed messages and settings enter the model.
- The D-Bus side (src/dbus-io.c, src/rpc_call_dbus.h, src/rpc_list_dbus.c): its calls do not take part in the counter.
- Names of stubs on the local bus with MAC prefixes (src/local_stub.c:132-232), and replay of plain events: formatting only.
- Balance of the search trees: `PatternTree` is any binary search tree, since answers do not depend on its shape.
- Memory allocation failures, logging, certificate verification itself, and the failure code when the write callback cannot be scheduled.
- Splitting an access list into entries (src/ubusx_acl.c:60-80) and the unused method part of an entry.
- `session` object's answers: an access check that goes to rpcd is an arbitrary later decision.
- Loss of the link, which does not complete outstanding proxied calls; the model's runs of a connection end there.
- The life time of an event check after its subscription is dropped.
- How long a reconnect timer is set for; arguments of a proxied call, which are passed on as opaque text.
- AccessCheck.ListedMeansReachable: what the code reads for a called object whose name contains `ubus.object.` is not modelled beyond its being undefined.
- Convergence.Converges: runs stop where the list walk would go wrong, which `WalkFault` characterises; rpcd mode without a peer certificate, where nothing is ever sent, has no runs.
- ProxyLink.RunRouted: ids are unbounded, so the overflow of the 32-bit `call_id` is not modelled; `ProxyLink.RunIdsFit` says how long a run has to be to reach it.
