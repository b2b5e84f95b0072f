# Models of grout's control plane and shared-memory protocols

grout is a DPDK router. This project models, in Dafny 4.11, the parts of its control plane, client library and
shared-memory code that hold algorithms and protocols of their own, and proves what they promise. Verify it
with `dafny verify dfyconfig.toml`.

| file | models |
|---|---|
| `Words.dfy`, `IdPool.dfy` | the two-level bitmap id allocator, run by one thread, as a refinement of a set |
| `IdPoolThreads.dfy` | the same allocator as a transition system of atomic loads, compare-and-swaps and read-modify-writes by any number of threads |
| `CaptureRing.dfy` | the multi-producer capture ring: reserve, write cell by cell, publish; snapshot, copy cell by cell, re-check |
| `RouteResync.dfy` | the FRR plugin's resynchronisation as a state machine of event handlers, with failure and reconnection at any point |
| `IfaceTeardown.dfy` | destroying an interface under RCU while workers push to the control queue |
| `TopoSort.dfy` | the depth-first topological sort that tolerates cycles |
| `Wire.dfy`, `ApiClient.dfy`, `ApiStream.dfy` | the API client: read-ahead, descriptors, out-of-order responses, nested and interrupted streams |
| `ApiTransmit.dfy` | partial writes of client and server, request framing of the server |
| `Bond.dfy` | bond members, primary tracking, redirection table, LACP state |
| `MacRefs.dfy` | reference-counted address filters and the references bonds hold on their members |
| `Ecmp.dfy` | weighted nexthop groups |
| `L3Index.dfy` | the index of L3 nexthops |
| `CaptureOwnership.dfy` | which capture session owns which interface |
| `CpuSet.dfy` | printing and parsing of CPU lists |
| `DhcpOptions.dfy`, `DhcpClient.dfy` | the DHCP option codec and the client's state machine and timers |
| `Arithmetic.dfy`, `Common.dfy` | facts about products, quotients and remainders; shared types |

Code that updates state in place is modelled by classes and methods with loops, each proved against a specification
function or a stated property. Concurrent code and event-driven protocols are transition systems: a trace is an
initial state followed by enabled steps, and the main theorems hold of the end of every legal trace. I/O, clocks,
random numbers and calls into DPDK, libevent, the kernel or FRR are parameters or non-deterministic choices.

## Where the code does not do what one would expect

Each of these is stated by a lemma or method with a concrete run or input, beside the exact condition under which the
expected property holds.

- Id pool: `id_pool_create` accepts ranges whose 16-bit word count wraps (`LayoutFits`, `LayoutWraps`), and booking and
  releasing reach the right id, for all ids, exactly up to 65536 ids (`TargetExact`, `TwoIdsOneTarget`). Hence ids have
  one owner in all runs exactly of pools of at most 65536 ids (`OneOwnerExactly`, `TwoOwners`). With two threads the
  summary level can end up wrong in both directions: a set bit over a full word makes `id_pool_get` spin forever
  (`StaleOneMakesGetSpin`), and a clear bit over a free id hides it (`StaleZeroHidesFreeId`). The summary is right once
  nobody is about to write it, and a get that nobody disturbs hands out the lowest free id, in every run that never has
  a clear and a set of the same summary bit pending together (`UncrossedIsRight`, `UncrossedGet`); once they are, the
  run can go wrong (`CrossedGoesWrong`). What an undisturbed get does is stated for every reachable state
  (`GetExactly`, `ZeroExactly`).
- Capture ring: the sequence re-check alone admits a torn frame (`TornRead`). Without lapped producers a delivery is
  intact exactly when no cell in which the next frame differs was written before it was copied (`IntactExactly`); a
  lapped producer tears a frame even when the slot was not reserved again (`LappedWrite`).
- API client: an answer below the minimum size ends a stream loop and leaves the rest of the stream behind. What a loop
  and the loops in its body leave is stated at any nesting; nothing is left exactly when the server sends nothing after
  the first ending answer of any stream that was asked for (`Foreach`, `LeftExactly`, `ShortAnswerLeavesRest`). A
  comment in the source says that a message with a descriptor is never read together with earlier bytes; unix(7) says
  that it can be. The read-ahead then discards the descriptor: it arrives exactly when nothing was read ahead
  (`RecvMsg`, `DescriptorLost`), as in an exchange with no other response pending (`Exchange`).
- API server: a response with a descriptor overtakes queued output unless the flush before it emptied the queue
  (`RespondWithFd`, `DescriptorOvertakes`). One read callback handles one request; a second one that has arrived waits
  for more bytes (`OneAtATime`, `SecondRequestWaits`).
- Bond: changing the mode does not update the table (`ModeSwitchKeepsTable`). In every run the table names members, and
  in LACP mode active ones, exactly when the bond was updated since it exists and, if that was in active-backup mode and
  the mode is LACP now, there was no active member or it is active for LACP (`PointedExactly`, `Play`).
- Bond addresses: attaching a member to a bond whose address is derived takes away someone else's reference to the old
  bond address on the new member, exactly when there is one. If that owner lets go and the address is then configured,
  later attachments succeed while the member does not accept it (`MacRefs.Bond.Attach`, `ForeignReferenceTaken`). A
  change of address that fails half way does no harm exactly when no member needs a filter for the old address and none
  of those reached for the new one, or both are the same (`HarmExactly`). In every run the references are right exactly
  up to the first step that does one or the other (`MacRefs.Play`).
- Nexthop groups: five equal weights over eight slots leave the last member without a slot (`LastMemberStarved`). The
  32-bit products wrap for large weights, and the quota of a weight is its rounded share exactly when they do not or the
  share is one (`QuotaExactly`, `WrappedShare`). The product that gives the table size wraps too, so that three members
  can get two slots, or a group be refused for a size of zero; there is a slot for each of up to 4096 members exactly
  when the wrapped product is more than half of their number aligned (`SizeExactly`, `WrappedSize`). Removal leaves no reference exactly when the nexthop is not among the
  last entries, as many as it occurs less one (`Ecmp.Group.Remove`, `DuplicateSurvives`).
- L3 index: `nexthop_update` stores the new type, VRF and interface before the key of the old address is computed, and
  leaves them stored when no id is found. A nexthop that stays an L3 one keeps the index right exactly when its old
  address has the same scope at the place that was stored (`MoveBreaksIndex`). One that ceases to be an L3 nexthop does
  exactly when it has no address; otherwise its key outlives it (`TypeChangeBreaksIndex`). One that becomes an L3 nexthop
  does exactly when what its info area held does not read as an address with a key in the index, which would be deleted
  (`LeftoverDeletesKey`). The index is right all along a run exactly if every update met its condition (`UpdateExactly`,
  `RunExactly`). An update or a removal that reads an address without a family stops the program (`Aborts`, `Stops`).
- DHCP: the default T1, T2 and lease are in order exactly up to a lease of 613566756 seconds (`DefaultOrder`,
  `LongLeaseOutOfOrder`). Replies are parsed into the client before the state is looked at, so expiry, a NAK and
  stopping the client remove the leased address exactly when the stored reply names it (`FireExpire`,
  `ExpiryKeepsAddress`, `Input`, `NakKeepsAddress`, `Stop`, `StopKeepsAddress`).
- CPU lists: parsing inverts printing for exactly the non-empty sets; the empty one prints as an empty list, which is
  rejected (`CpuSet.RoundTrip`).

## Model

| member | source | states |
|---|---|---|
| IdPool.LayoutFits | main/id_pool.h:35-84 | the 16-bit word counts of an accepted range are exact unless it has 65535 full words and a tail, and then wrap to zero |
| IdPool.LayoutWraps | main/id_pool.h:42-52 | the first accepted range whose word count wraps to zero |
| IdPool.TargetExact | main/id_pool.h:229-238 | the 16-bit offset of book and put addresses the id given, for all ids, if and only if the pool has at most 65536 ids |
| IdPool.TwoIdsOneTarget | main/id_pool.h:229-238 | two ids of an accepted range that address the same bit |
| IdPool.BitmapSize | main/id_pool.h:43-62 | word count and tail of a bitmap on 16 bits, and for which sizes the count does not wrap |
| IdPool.AllOnes | main/id_pool.h:63-82 | the bitmap as created has a one for each id and zeros in the padding |
| IdPool.AllFree | main/id_pool.h:35-84 | bitmaps of ones are a consistent pool in which every id is free |
| IdPool.FirstFree | main/id_pool.h:99-151 | the lowest bit of the lowest word under the lowest summary bit is the smallest free id |
| IdPool.NoneFree | main/id_pool.h:99-151 | an empty summary level means that no id is free |
| IdPool.Reserving | main/id_pool.h:121-146 | clearing a bit and re-summarising keeps the levels consistent and removes exactly that id from the free ones |
| IdPool.Releasing | main/id_pool.h:279-291 | setting a bit and its summary keeps the levels consistent and adds exactly that id |
| IdPool.Pool.constructor | main/id_pool.h:35-84 | a new pool is valid, unused and entirely free |
| IdPool.Pool.Get | main/id_pool.h:99-151 | returns the smallest free id and reserves it, or 0 exactly when none is free |
| IdPool.Pool.GetRandom | main/id_pool.h:154-226 | the backward wrapping scan returns a free id and reserves it, or 0 exactly when none is free |
| IdPool.Pool.Book | main/id_pool.h:229-264 | reserves the addressed id exactly when it is in range and free, with the right error otherwise |
| IdPool.Pool.Put | main/id_pool.h:267-293 | frees the addressed id exactly when it is in range and reserved, with the right error otherwise |
| IdPoolThreads.RunsAreSafe | main/id_pool.h:99-293 | in every interleaving of any number of threads over at most 65536 ids, with summary bits however stale, free bits and owned ids are disjoint and owners exclusive |
| IdPoolThreads.StepSafe | main/id_pool.h:99-293 | every atomic step of every operation keeps that invariant |
| IdPoolThreads.OneOwner | main/id_pool.h:99-293 | no id has two owners at once and every id handed out lies in the pool |
| IdPoolThreads.OneOwnerExactly | main/id_pool.h:229-293 | ids have one owner in all runs of a pool if and only if it has at most 65536 of them |
| IdPoolThreads.TwoOwners | main/id_pool.h:154-264 | for every larger pool a legal run after which two threads own the same id |
| IdPoolThreads.HandsOutFreeIds | main/id_pool.h:121-146 | an id handed out had no owner before |
| IdPoolThreads.UsedIsExact | main/id_pool.h:90-96 | the counter is never negative and counts the owned ids whenever no call is in progress |
| IdPoolThreads.SummaryIsRight | main/id_pool.h:121-146 | when nobody is about to write a summary bit, it is right exactly if its last write agreed with the word |
| IdPoolThreads.AgreedWhen | main/id_pool.h:279-291 | clearing agrees with a full word and setting with any other |
| IdPoolThreads.UncrossedIsRight | main/id_pool.h:121-146 | in every run that never has a clear and a set of the same summary bit pending together, a bit that nobody is about to write is right |
| IdPoolThreads.CrossedGoesWrong | main/id_pool.h:121-146 | once they are pending together, the run can go on to a state in which nobody is about to write the bit and it is wrong |
| IdPoolThreads.GetEnds | main/id_pool.h:99-226 | how a get or get_random that nobody disturbs ends, from every reachable state: 0, never, or which id |
| IdPoolThreads.GetExactly | main/id_pool.h:99-151 | get returns 0 if every summary word is empty, never returns if the lowest bit of the first other one stands for a full word, and else hands out the lowest free id of that word |
| IdPoolThreads.ZeroExactly | main/id_pool.h:104-108 | the scan, forwards or backwards with wrapping, ends with 0 if and only if every summary word is empty |
| IdPoolThreads.OneEnd | main/id_pool.h:99-226 | a call that returns does so with one result and does not also spin |
| IdPoolThreads.UncrossedGet | main/id_pool.h:99-151 | in runs without crossed summary writes, once every call is finished, get hands out the lowest free id and returns 0 only if none is free |
| IdPoolThreads.SpinsForever | main/id_pool.h:104-119 | a scan that meets a set summary bit over a full word never returns on its own |
| IdPoolThreads.StaleOneMakesGetSpin | main/id_pool.h:267-293 | a legal run of two threads after which, with every call finished, a get spins forever |
| IdPoolThreads.StaleZeroHidesFreeId | main/id_pool.h:229-264 | a legal run of two threads after which, with every call finished, a get reports a full pool although an id is free |
| CaptureRing.DeliversInOrder | modules/infra/api/gr_capture.h:232-264 | in every run positions are delivered in strictly increasing order, each at most once, and only reserved ones |
| CaptureRing.DeliversFrames | modules/infra/control/capture.h:126-168 | without lapped producers every cell of a delivery is that of its frame or, if it was written before it was copied, of the frame a turn later; slots hold what was written last |
| CaptureRing.IntactExactly | modules/infra/control/capture.h:126-168 | a delivery is the frame of its position if and only if no cell in which the two frames differ was written before it was copied, and none was if the slot was not reserved again at the re-check |
| CaptureRing.NextCell | modules/infra/api/gr_capture.h:252-253 | the cell that is copied next is that of the frame a turn later exactly when that producer has written it |
| CaptureRing.StepLoss | modules/infra/api/gr_capture.h:236-263 | a position is passed over undelivered only when it was lapped |
| CaptureRing.SameSlot | modules/infra/api/gr_capture.h:241 | positions less than a turn apart use different slots |
| CaptureRing.TornRead | modules/infra/control/capture.h:126-168 | a run in which the re-check passes and a mixed frame is delivered |
| CaptureRing.LappedWrite | modules/infra/control/capture.h:126-168 | a run in which a lapped producer tears a frame whose slot was not reserved again |
| CaptureRing.Window32 | modules/infra/api/gr_capture.h:236-248 | the 32-bit tests decide as on unbounded positions while prod_head is less than 2^32 ahead |
| CaptureRing.Tests32 | modules/infra/api/gr_capture.h:232-248 | in runs without lapped producers the tests of the consumer on 32-bit positions decide as on the positions while it is less than 2^32 behind |
| CaptureRing.WrapIsMod | modules/infra/api/gr_capture.h:241 | the slot of a position is its remainder |
| CaptureRing.Slot32 | modules/infra/api/gr_capture.h:241 | the slot of a 32-bit position is that of the position for slot counts that divide 2^32 |
| RouteResync.ResyncIsSound | frr/zebra_dplane_grout.c:170-601 | over all runs with any failures and reconnections: at most one event of the chain is pending, the marker callback is set exactly while polling and is never missing, one marker is live exactly while polling, each generation does its visits in order, every sweep finds all routes of its generation attached, and no route of an earlier generation is left |
| RouteResync.NextIsFirst | frr/zebra_dplane_grout.c:383-459 | the search for the next VRF yields the head of the remaining ones |
| RouteResync.FromIsIncreasing | frr/zebra_dplane_grout.c:497-535 | the VRFs of a pass are in increasing order and exactly those to be synced |
| RouteResync.MarkerSeen | frr/zebra_dplane_grout.c:238-291 | a marker observed in the RIB means that everything queued before it is attached |
| RouteResync.StepToken | frr/zebra_dplane_grout.c:208-232 | every handler passes the single token on, and the marker callback is there when it is dispatched |
| RouteResync.StepRib | frr/zebra_dplane_grout.c:297-381 | every handler and every drain step keeps the marker, barrier and generation invariants of queue and RIB |
| RouteResync.StepTrack | frr/zebra_dplane_grout.c:461-601 | every handler leaves exactly the visits still to do: nexthops before groups before routes, each VRF once per pass |
| RouteResync.ReconnectRib | frr/zebra_dplane_grout.c:1050-1079 | a reconnection keeps the marker and generation invariants of queue and RIB |
| IfaceTeardown.NoCallbackSeesFreed | modules/infra/control/iface.c:713-754 | for every interleaving of workers and the control thread, no callback sees a freed interface, one that is deleted is announced to the callback, and every item pushed is handed over once and in order |
| IfaceTeardown.StepLetGo | modules/infra/control/iface.c:731-735 | after the grace period no worker holds the interface |
| IfaceTeardown.StepDrained | main/control_queue.c:49-68 | the bounded drain pops every item that was queued when it began |
| IfaceTeardown.StepReachable | main/control_queue.c:29-47 | whatever is held, queued or popped is published or being destroyed |
| IfaceTeardown.StepCalls | main/control_queue.c:101-104 | every callback made is safe |
| IfaceTeardown.StepOnce | main/control_queue.c:29-68 | every item pushed is handed to its callback exactly once, in order, or is still to be |
| TopoSort.BuildMatrix | main/sort.c:10-25 | the matrix is the child relation |
| TopoSort.DfsVisit | main/sort.c:33-51 | visits exactly what it should and keeps the list of finished nodes in order; terminates on the number of unvisited nodes |
| TopoSort.Finishing | main/sort.c:44-50 | a node whose children were all seen can be appended |
| TopoSort.Sort | main/sort.c:53-97 | permutes the input so that every parent precedes each child that does not lead back to it, for every relation, cyclic or not |
| Wire.PackUnpack | api/gr_api.h:17-29 | every twelve bytes are the encoding of exactly one header |
| ApiClient.Reader.RecvAll | api/gr_api_client_impl.h:194-234 | takes exactly the wanted bytes off the stream however it is chunked, or the connection failed |
| ApiClient.Reader.RecvHeader | api/gr_api_client_impl.h:287-342 | takes exactly the header off the stream, with its descriptor if and only if nothing was read ahead; a descriptor that was received is returned or closed |
| ApiClient.Reader.RecvMsg | api/gr_api_client_impl.h:379-396 | takes exactly one whole response off a stream of responses, with its descriptor if and only if nothing was read ahead |
| ApiClient.DescriptorLost | api/gr_api_client_impl.h:215-219 | a run in which a response comes without its descriptor because its bytes were read with the payload before |
| ApiClient.Client.Fetch | api/gr_api_client_impl.h:378-410 | caches the responses before the first one to the id, in order, and takes that one |
| ApiClient.Client.RecvFd | api/gr_api_client_impl.h:344-438 | returns the oldest pending response to the id and leaves every other one pending in server order; without one everything is cached and the call fails; the next response in the stream comes with its descriptor if and only if nothing was read ahead; every descriptor received is cached, closed or handed over, also when the connection fails |
| ApiClient.Client.Exchange | api/gr_api.h:108-120 | an exchange with no other response pending returns the answer with its descriptor |
| ApiClient.EncodeAllAppend | api/gr_api.h:25-29 | what the server sends in two parts is the stream of both |
| ApiStream.RestKeeps | api/gr_api_client_impl.h:483-494 | a drain touches no other response, and of the stream itself leaves what follows the first ending answer |
| ApiStream.Drain | api/gr_api_client_impl.h:483-494 | takes the answers to an id up to the first ending one, and nothing else; the return code is that of the ending answer |
| ApiStream.Iterate | api/gr_api.h:158-175 | for every body: it sees the answers before the first ending one, up to the iteration that leaves; what is pending afterwards is what was, the rest of the stream, and what the loops in the body left |
| ApiStream.Foreach | api/gr_api.h:146-175 | for every loop, at any nesting and with requests that fail: what was pending stays in place, followed by what comes after the first ending answer of its own stream and of those that its body asked for; nothing is left if and only if each of those streams ends there; how many requests were sent, what the body saw and the return code |
| ApiStream.LeftExactly | api/gr_api.h:146-175 | a loop leaves nothing if and only if the server ends every stream that was asked for at its first ending answer |
| ApiStream.LeftBetween | api/gr_api.h:146-175 | what a loop leaves are answers to its own requests and those of its body |
| ApiStream.LeftOwn | api/gr_api.h:146-175 | the answers to earlier requests are as they were, and of the loop's own stream what follows the first ending answer is left |
| ApiStream.ShortAnswerLeavesRest | api/gr_api_client_impl.h:417-422 | a run of a loop in which an answer below the minimum size leaves the rest of the stream behind |
| ApiStream.NestedShortAnswer | api/gr_api.h:146-175 | an inner loop that meets such an answer leaves the rest of its own stream, and the outer one sees all of its own |
| ApiTransmit.Advance | api/gr_api_client_impl.h:270-280 | advancing the vectors by the bytes sent leaves exactly the bytes not sent |
| ApiTransmit.SendRequest | api/gr_api_client_impl.h:236-283 | for every sequence of partial sends, header then payload reaches the socket on success and a proper prefix of them otherwise |
| ApiTransmit.Output.Respond | main/api.c:262-278 | header and payload are appended to the output |
| ApiTransmit.Output.QueueRest | main/api.c:340-350 | what is queued is exactly the bytes that were not sent |
| ApiTransmit.Output.RespondWithFd | main/api.c:286-351 | a response with a descriptor follows the earlier output exactly when the flush emptied the queue, and is dropped when it cannot be sent |
| ApiTransmit.DescriptorOvertakes | main/api.c:286-351 | a run in which a response with a descriptor overtakes a queued one |
| ApiTransmit.Input.ReadCb | main/api.c:353-400 | handles the first request as soon as all of it has arrived, whatever the reads, and closes on one that is too long; handled requests and the rest are what was received |
| ApiTransmit.OneAtATime | main/api.c:353-400 | one call handles the first of the requests that have arrived, and leaves a whole one if and only if there is a second |
| ApiTransmit.SecondRequestWaits | main/api.c:353-400 | a run in which two requests arrive together and one call leaves the second |
| ApiTransmit.FramesUnique | main/api.c:353-400 | the same bytes are never read as different requests |
| Bond.TurnsNext | modules/infra/control/bond.c:332-335 | the share of each index when indices take turns |
| Bond.FairTable | modules/infra/control/bond.c:332-335 | a table filled in turn names only the active members, in shares that differ by at most one |
| Bond.RemovedIfaces | modules/infra/control/bond.c:213-222 | the last member in the place of the one removed keeps members distinct and loses exactly one |
| Bond.TickedSound | modules/infra/control/lacp.c:138-191 | a tick keeps what is known of active members, and those still active are in time |
| Bond.Bond.UpdateActive | modules/infra/control/bond.c:254-353 | the table is shared fairly among exactly the eligible members, or is all 255 without one; in LACP mode it names active members only |
| Bond.Bond.PickBackup | modules/infra/control/bond.c:261-285 | the active member is the primary one if its link is up, else the first whose link is |
| Bond.Bond.PickLacp | modules/infra/control/bond.c:286-321 | members never heard are reset and the eligible ones listed |
| Bond.Bond.Attach | modules/infra/control/bond.c:144-206 | which interfaces are accepted; members stay distinct, the primary index stays valid and the table fair; a failure changes nothing but one to plug the port, which leaves the member attached |
| Bond.Bond.Detach | modules/infra/control/bond.c:208-252 | exactly that interface leaves, and detaching another than the primary keeps the primary interface |
| Bond.Bond.SetPrimary | modules/infra/control/bond.c:388-394 | accepts exactly the indices of members |
| Bond.Bond.PointedExactly | modules/infra/control/bond.c:254-353 | the table names members, and in LACP mode active ones, if and only if the bond was updated and, if that was in active-backup mode and the mode is LACP now, its active member is none or active |
| Bond.Bond.SetMode | modules/infra/control/bond.c:382-383 | changes the mode and leaves the table, and when the table is right in the new mode |
| Bond.Bond.LinkEvent | modules/infra/control/bond.c:471-483 | a link change leaves a fair table |
| Bond.Bond.LacpInput | modules/infra/control/lacp.c:66-95 | a member becomes active exactly when its partner is synchronized and collecting, and keeps what is known of active members |
| Bond.Bond.Tick | modules/infra/control/lacp.c:121-193 | the members active after a tick are those that were active and in time, and when the table names active members |
| Bond.Play | modules/infra/control/lacp.c:121-193 | every run keeps members distinct, a valid primary and the flags of active members; the table is right if and only if it is up to date; after a tick no active member is past its time-out |
| Bond.ModeSwitchKeepsTable | modules/infra/control/bond.c:382-394 | a bond switched to LACP whose table names a member that is not active |
| MacRefs.Iface.Add | modules/infra/control/iface.c:548-588 | adds one reference, calling the driver exactly for the first, and fails exactly when the driver or the counter does |
| MacRefs.Iface.Del | modules/infra/control/iface.c:590-633 | removes one reference if there is one, calling the driver exactly for the last |
| MacRefs.AcceptsExactly | modules/infra/control/iface.c:548-633 | an interface accepts an address if and only if it needs no filter or someone has a reference |
| MacRefs.MovedOwn | modules/infra/control/bond.c:74-79 | a member with the bond's reference to the old address has it to the new one; one without has it if and only if no reference of someone else was taken |
| MacRefs.Bond.AddAll | modules/infra/control/bond.c:17-28 | the members up to the first full counter accept the address and are charged one reference |
| MacRefs.Bond.DelAll | modules/infra/control/bond.c:30-41 | every member loses a reference to the address, the bond's or someone else's, if there is one |
| MacRefs.Bond.SetMac | modules/infra/control/bond.c:56-84 | the accounts of all members after a change; every member accepts the new address if it succeeds, and which ones still accept the old one if it fails |
| MacRefs.MovedFails | modules/infra/control/bond.c:74-79 | after a change that failed, a member still has the bond's reference if and only if it is unharmed, and one that had none has none if and only if no reference of someone else was taken |
| MacRefs.HarmExactly | modules/infra/control/bond.c:56-84 | a change of address that failed after the first members leaves the references right if and only if none of the members was harmed |
| MacRefs.Joined | modules/infra/control/bond.c:161-182 | after a derived address was set on old members and a new one, the references are right if and only if none of someone else was taken on the new one |
| MacRefs.Bond.Attach | modules/infra/control/bond.c:161-186 | after a successful attach every member accepts the bond address if and only if it is derived or all did before; right accounts stay right if and only if the address is configured or nobody else used the old one on the new member; an attach succeeds if and only if there is room where a reference is added; the accounts after one that fails |
| MacRefs.Bond.Detach | modules/infra/control/bond.c:213-237 | the account of the member that leaves, and that the others accept the address and have right accounts if they did before |
| MacRefs.Bond.Configure | modules/infra/control/bond.c:396-405 | a changed address is accepted by every member, and right accounts stay right; it succeeds if and only if every member has room once the old one is gone; the accounts after a failure |
| MacRefs.Bond.Promote | modules/infra/control/bond.c:388-394 | accepts exactly the indices of members |
| MacRefs.RunAttach | modules/infra/control/bond.c:144-186 | right references stay right if and only if the address is configured, or nobody else used the old one on the new member and, if the attach fails, no member was harmed |
| MacRefs.RunConfigure | modules/infra/control/bond.c:388-405 | for every combination of a new primary member and a new address, right references stay right if and only if the call succeeds or no member was harmed |
| MacRefs.Play | modules/infra/control/bond.c:144-252 | in every run of attach, detach, reconfiguration and other owners acquiring and releasing, up to its first step that takes a reference of someone else or fails with harm, every member accepts the bond address on exactly one reference of the bond; after that step this is not so |
| MacRefs.ForeignReferenceTaken | modules/infra/control/bond.c:161-186 | a run after which a member does not accept the configured address although every call succeeded |
| Ecmp.Distribute | modules/infra/control/group_nexthop.c:27-56 | the table is the clipped runs of the members' quotas followed by the first member |
| Ecmp.TableHolds | modules/infra/control/group_nexthop.c:43-55 | a slot holds the member whose run, by prefix sums of quotas, it lies in, and the first member after all runs |
| Ecmp.EverySlotOwned | modules/infra/control/group_nexthop.c:43-55 | every slot lies in a run or after all of them |
| Ecmp.ShareIsCount | modules/infra/control/group_nexthop.c:43-55 | the number of slots of a member is the length of its clipped run, plus the tail for the first |
| Ecmp.ShareIsQuota | modules/infra/control/group_nexthop.c:43-51 | a member other than the first has its quota unless clipped, and has a slot exactly when its run starts before the end |
| Ecmp.QuotaRounds | modules/infra/control/group_nexthop.c:44-47 | a quota whose 32-bit sum does not wrap is one, or the share rounded to the nearest |
| Ecmp.QuotaExactly | modules/infra/control/group_nexthop.c:44-47 | the 32-bit quota of a positive weight is the rounded share if and only if the sum does not wrap or is less than twice the total |
| Ecmp.ExactShare | modules/infra/control/group_nexthop.c:43-55 | shares are exact when no sum wraps and the total weight divides every weighted size |
| Ecmp.LastMemberStarved | modules/infra/control/group_nexthop.c:43-51 | five equal weights over eight slots give the last member none |
| Ecmp.WrappedShare | modules/infra/control/group_nexthop.c:44-47 | two equal weights of 2^30 that get 4094 slots and one |
| Ecmp.SizeExactly | modules/infra/control/group_nexthop.c:142-154 | the table has a slot for each member if and only if there are at most 4096 and the 32-bit product is more than half of their number aligned, which it is when it does not wrap |
| Ecmp.WrappedSize | modules/infra/control/group_nexthop.c:142-154 | three members whose table has two slots |
| Ecmp.StepHit | modules/infra/control/group_nexthop.c:64-71 | replacing a hit by the last entry keeps whether the loop will have removed everything |
| Ecmp.DistinctClear | modules/infra/control/group_nexthop.c:64-71 | distinct members: removal leaves no reference |
| Ecmp.DuplicateSurvives | modules/infra/control/group_nexthop.c:64-71 | a nexthop listed twice at the end survives its removal |
| Ecmp.Group.Remove | modules/infra/control/group_nexthop.c:58-80 | every other member stays, the table is rebuilt, and the nexthop is gone if and only if it is not among the last entries, as many as it occurs less one |
| Ecmp.Group.Import | modules/infra/control/group_nexthop.c:101-191 | an unknown nexthop, or a table size that wraps to zero, changes nothing; otherwise the sorted members and a table of the aligned and clipped 32-bit size |
| Ecmp.Group.Get | modules/infra/control/nexthop.h:106-113 | every flow gets a current member, if there is one, by the remainder of its id |
| Ecmp.MaskIsMod | modules/infra/control/nexthop.h:112 | masking with a power of two less one is the remainder |
| L3Index.Index.Lookup | modules/infra/control/l3_nexthop.c:99-113 | finds a nexthop exactly when it carries an address with that key |
| L3Index.KeyIsScan | modules/infra/control/l3_nexthop.c:72-97 | keys are equal exactly when family, VRF and address are, and the interface for link-local addresses, given zero bytes 2 and 3 |
| L3Index.ScopeKey | modules/infra/control/l3_nexthop.c:72-97 | the key of an address changes between two places exactly when the VRF or, for link-local addresses, the interface does |
| L3Index.KeyMoves | modules/infra/control/l3_nexthop.c:72-97 | no address at the new place has the key of the old one when that key changed |
| L3Index.Reindex | modules/infra/control/l3_nexthop.c:283-297 | replacing a key keeps the index an inverse exactly when the deleted key is the one the nexthop had |
| L3Index.Joins | modules/infra/control/l3_nexthop.c:280-297 | a nexthop that was not in the index joins it and keeps it an inverse exactly when the deleted key is nobody's |
| L3Index.ImportAgrees | modules/infra/control/l3_nexthop.c:234-302 | the hash after an import is the inverse of the keys carried if and only if the old address of an L3 nexthop keeps its key, or what another type left does not read as an address with a key |
| L3Index.StoreAgrees | modules/infra/control/nexthop.c:357-383 | an update that leaves the hash alone keeps it the inverse if and only if an L3 nexthop stays in scope, and one that becomes or ceases to be one has no address |
| L3Index.UpdateExactly | modules/infra/control/nexthop.c:347-395 | an index that was right is right after an update, accepted or not, from any type to any type, if and only if the update met its condition |
| L3Index.BlankRight | modules/infra/control/nexthop.c:328-334 | a nexthop that was just allocated keeps the index right, and creating it meets the condition |
| L3Index.RemoveRight | modules/infra/control/nexthop.c:493-503 | destroying a nexthop keeps the index right |
| L3Index.NextExactly | modules/infra/control/nexthop.c:317-519 | an index that was right is right after an event if and only if an update met its condition |
| L3Index.RunExactly | modules/infra/control/nexthop.c:317-519 | in every run of creations, updates and removals the index is right all along if and only if every update met its condition |
| L3Index.Index.Import | modules/infra/control/l3_nexthop.c:234-302 | which imports are accepted, which stop the program, the hash after them, and that a rejected one changes nothing |
| L3Index.Index.Update | modules/infra/control/nexthop.c:347-395 | which updates, of any type, are accepted; one without an id stores type and place, and any other rejected one changes nothing; an index that was right stays right if and only if the update met its condition |
| L3Index.Index.Create | modules/infra/control/nexthop.c:317-345 | which nexthops can be created, and that a right index stays right |
| L3Index.Index.Remove | modules/infra/control/l3_nexthop.c:166-176 | a destroyed L3 nexthop loses its key, one of another type does not look at the index; a right index stays right |
| L3Index.Play | modules/infra/control/nexthop.c:317-519 | a run of the methods ends in the state of the model, with a right index if every update met its condition |
| L3Index.MoveBreaksIndex | modules/infra/control/nexthop.c:347-395 | an accepted update, and one without an id, after which the index is wrong |
| L3Index.TypeChangeBreaksIndex | modules/infra/control/nexthop.c:347-395 | an accepted change of type in place after which the key outlives the nexthop |
| L3Index.LeftoverDeletesKey | modules/infra/control/l3_nexthop.c:235-297 | a nexthop that becomes an L3 one and deletes the key of another |
| CaptureOwnership.Captures.Start | modules/infra/control/capture.c:228-254 | a session starts exactly when what it covers is free, and then owns exactly that |
| CaptureOwnership.Captures.SetFlags | modules/infra/control/capture.c:67-87 | exactly the covered interfaces are flagged and handed over |
| CaptureOwnership.Captures.ClearFlags | modules/infra/control/capture.c:89-120 | exactly the interfaces still owned are released |
| CaptureOwnership.Captures.Stop | modules/infra/control/capture.c:386-392 | every interface owned is free again with its promiscuous counter as others left it, and no other is touched |
| CaptureOwnership.Captures.AddIface | modules/infra/control/capture.c:122-139 | a new interface goes to an "any" session exactly when it is included and there is one |
| CaptureOwnership.Captures.RemoveIface | modules/infra/control/capture.c:145-159 | a removed interface has no session, so that its id can be used again |
| CaptureOwnership.Captures.SetPromisc | modules/infra/control/iface.c:679-711 | the counter goes up and down on types that support it, never below zero |
| CaptureOwnership.Play | modules/infra/control/capture.c:67-159 | in every run a slot names a live session that covers an existing, flagged interface, and every promiscuous counter is exact |
| CpuSet.Format | api/string.c:67-102 | prints the maximal runs, two CPUs as a pair, if they fit with the trailing comma |
| CpuSet.ItemsStep | api/string.c:76-90 | skipping the CPU after a run misses nothing |
| CpuSet.ParseDec | api/string.c:104-113 | a printed number is read back, up to what follows it |
| CpuSet.Parse | api/string.c:115-149 | reads a list element by element, with all errors |
| CpuSet.RoundTrip | api/string.c:67-149 | parsing inverts printing if and only if the set is not empty, for any set size up to 2^32 |
| DhcpOptions.Parse | modules/dhcp/control/options.c:21-145 | equals the fold of the decoded options, with all errors, without reading past the end |
| DhcpOptions.DecodeEncode | modules/dhcp/control/options.c:36-60 | decoding finds the options of every list with padding anywhere |
| DhcpOptions.ParseEncode | modules/dhcp/control/options.c:36-145 | a list that is complete or closed parses to the fold of its options |
| DhcpOptions.Build | modules/dhcp/control/options.c:147-193 | writes the options of a message and the end, or fails for a short buffer |
| DhcpOptions.ParseBuilt | modules/dhcp/control/options.c:147-193 | parsing what was built gives back message type and server, and sets nothing else |
| DhcpClient.DefaultOrder | modules/dhcp/control/client.c:243-252 | the default T1, T2 and lease are in order if and only if the lease is at most 613566756 |
| DhcpClient.LongLeaseOutOfOrder | modules/dhcp/control/client.c:243-252 | the shortest lease whose default T2 comes before T1 |
| DhcpClient.Client.ScheduleTimers | modules/dhcp/control/client.c:235-286 | all three timers are those of this ACK |
| DhcpClient.Client.ParsePacket | modules/dhcp/control/packet.c:21-61 | which packets are accepted, and that options of a bad one are stored too |
| DhcpClient.Client.Input | modules/dhcp/control/client.c:288-443 | the state after every packet, which of them set the timers, what happens to the address; the NAK of a renewal removes the leased address if and only if it names it |
| DhcpClient.Client.Renew | modules/dhcp/control/client.c:375-432 | an ACK extends the lease, a NAK cancels the timers and starts again |
| DhcpClient.Client.FireT1 | modules/dhcp/control/client.c:170-185 | a T1 that fires is that of the last ACK, and renews a bound lease |
| DhcpClient.Client.FireT2 | modules/dhcp/control/client.c:187-202 | a T2 that fires is that of the last ACK, and rebinds a lease under renewal |
| DhcpClient.Client.FireExpire | modules/dhcp/control/client.c:204-233 | an expiry is that of the last ACK, ends the lease, and removes the leased address if and only if it is the stored one |
| DhcpClient.Client.Stop | modules/dhcp/control/client.c:487-512 | no timer is left, and the leased address is removed if and only if it is the stored one |
| DhcpClient.Client.Start | modules/dhcp/control/client.c:452-485 | a client that knows nothing, unless there is one or the request cannot be sent |
| DhcpClient.Play | modules/dhcp/control/client.c:155-512 | in every run the expiry timer is pending exactly in BOUND, RENEWING or REBINDING, and pending timers are those of the last ACK |
| DhcpClient.NakKeepsAddress | modules/dhcp/control/client.c:399-417 | a run in which a NAK without an address leaves the leased one configured |
| DhcpClient.StopKeepsAddress | modules/dhcp/control/client.c:487-512 | a run in which a later reply replaces the stored address and stopping leaves the leased one configured |
| DhcpClient.ExpiryKeepsAddress | modules/dhcp/control/client.c:204-233 | a run in which a later reply replaces the stored address and expiry leaves the leased one configured |

## Left out

- IdPoolThreads: the model is sequentially consistent, so memory orders weaker than the step order are not captured; a
  thread gives back only ids that it took.
- IdPoolThreads.RunsAreSafe: counting is stated for pools of at most 65536 ids; `TwoOwners` shows what larger ones do.
- IdPoolThreads.UsedIsExact: pools of more than 65536 ids, in which a release can free the id of someone else.
- IdPoolThreads.SummaryIsRight: its condition is about the last write; `UncrossedIsRight` has one that a caller can check.
- IdPool.Pool.constructor: ranges whose word count wraps, which `IdPool.LayoutFits` characterises, are excluded.
- CaptureRing: the VLAN tag rebuild, packet counters and BPF filter of `capture_enqueue`; a slot is a sequence of cells.
- RouteResync: interleavings inside a handler, what the interface, address and nexthop passes send to FRR, and FRR
  itself beyond a FIFO early-route queue, a cleanup that removes queued and attached markers, and a reset that wipes the
  RIB.
- IfaceTeardown: callbacks that themselves destroy an interface, and memory reuse after `rte_free`.
- ApiClient: non-blocking sockets and event reception; allocation failures. A read may return any part of what was sent,
  which includes all that the kernel does. After a failed read nothing is claimed of the
  stream, only of the cache and of descriptors.
- ApiStream: identifiers wrap at 32 bits; freshness is claimed while fewer than 2^32 requests were sent.
- ApiTransmit.SendRequest: payloads of 2^31 bytes or more, for which the cast of a vector length to int is wrong.
- ApiTransmit: event notifications, subscriptions and the handlers themselves.
- Bond: speeds, MTU and status events; LACP system ids, keys and the PDU layout.
- MacRefs: the secondary addresses of a bond, driver hooks that fail inside a bond operation, and primary addresses that
  change.
- Ecmp.Distribute: weights whose sum wraps at 32 bits, for which the source may stop at an assertion.
- Ecmp.Group.Import: weights whose sum wraps at 32 bits; `qsort` is a parameter, a permutation in descending order of
  weight, which the comparison by subtraction gives for weights below 2^31; reference counts of nexthops.
- L3Index: ageing, the hold queue, which ids nexthops get, origins, and interfaces that change VRF. What the callbacks of
  other types write into the info area is any bytes, and the nexthops they create and release are events of their own.
- CaptureOwnership: ring and file set-up, wrap-around of the 16-bit session id, and promiscuous mode calls that fail.
- DhcpClient: the default route, packet building, timers that cannot be created, and interfaces that disappear.
- CLI, display, configuration parsing, DPDK graph and packet nodes, netlink, the log rate limiter, VRF reference counts:
  user interface, foreign calls, or finite case analysis only.
