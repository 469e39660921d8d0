# DANOS-Open: a verified model

DANOS-Open is a network operating system's control plane. Desired state (interfaces, VRFs, next hops,
groups, routes) sits in an object store, is logged and replayed after a crash, and is pushed into a
data plane that keeps its own forwarding table. The management side speaks gNMI over a hand-written
HTTP/2, HPACK, protobuf and gRPC stack. This project models those parts in Dafny and proves what they
keep over whole runs.

`dafny verify dfyconfig.toml` checks everything.

| part | modules | the main results |
|---|---|---|
| programming pipeline | `Programming`, `ProgrammingTheorems`, `Convergence`, `IfaceLaws`, `BackendLaws`, `MockFib`, `Dpa` | `LedgerMatchesFib`, `Converges`, `SecondPassIsQuiet`, `SkippingIsSound`, `SweepKeepsIff`, `DigestBlindIffEven`, `AdminStateFollowsLedger`, `TableAfterCalls`, `NoFailureMeansSettled` |
| durable configuration | `Wal`, `WalTheorems`, `CrcLaws`, `LogLayout`, `Persist`, `PersistTheorems`, `ObjectStore`, `Probing` | `CrcIsRemainder`, `CrashRecovery`, `RecoveryIsExact`, `CrashAtAnyByte`, `RestartsAreInvisible`, `TornLogUpToOversized`, `SingleByteCorruption` |
| header compression | `HuffmanTable`, `Bits`, `Huffman`, `HuffmanCodec`, `Base128`, `HpackInt`, `HpackTable`, `HpackStatic`, `Hpack`, `HpackCodec`, `HpackLaws` | `IndicesAfterKeeping`, `DecodeIffEncoded`, `AgreesWithRfcIff`, `BlockRoundTrip`, `RunIsByTheBook`, `IntRoundTrip` |
| gRPC over HTTP/2 | `Http2`, `FlowControl`, `FlowTheorems`, `FlowLaws`, `WireLayout`, `Grpc`, `GrpcReading`, `GrpcEndToEnd`, `GrpcConnection` | `WindowsAddUp`, `SendAccounted`, `SendVerdict`, `UnparkedIff`, `WaitsWithRoomIff`, `ReadWholeIff`, `BytesBehindSurviveIff`, `EndToEnd`, `ConnectionFromOpen` |
| gNMI messages | `Protobuf`, `Gnmi`, `GnmiTheorems`, `GnmiUnknown`, `GnmiTorn`, `GnmiWriter`, `GnmiSkip`, `GnmiReader` | `SetRequestRoundTrip`, `WholeRequestFromWire`, `UpdateFromWire`, `TornIsRefused`, `TornElem`, `PatchedIffShort`, `SkipAgreesIff`, `StandsStillIff` |
| static routes | `Routes`, `RouteTheorems`, `RouteIdLaws`, `RouteConfig` | `SetResolves`, `IdsTellApart`, `DeleteUndoesSet`, `SetAgain`, `SetIsAtomicIff`, `CallsKeepKeyed` |
| smaller machines | `AntiFlap`, `AntiFlapTable`, `StatSegment`, `StatLayout`, `MsgTable` | `RepairsAreSpaced`, `OneWindow`, `PromiseIffOne`, `NeverPromised`, `StatRead`, `LookupAnswers`, `CombinedIffFirst`, `TableRefinesMap`, `TableAfterAnyRun` |

Operations that change state in C are classes with methods; each method is proved equal to a function
on the abstract state, and the theorems are about those functions. C structs are datatypes without
padding, C strings are byte sequences read up to the first NUL. Integers are unbounded except where
the code relies on their width: CRC words, hashes, varints, the 64-bit counter sums.

## What the code turned out not to promise

Each of these is a theorem with the exact condition, or a lemma with the failing input.

- A route's store id leaves out the address family. Replacing an IPv4 route by its IPv6 namesake leaves
  the IPv4 entry in the forwarding table for good (`Convergence.FamilyChangeLeavesStaleRoute`); the table
  ends up as desired exactly when no route is stale in this way (`Convergence.Converges`).
- The table keeps one entry for a destination, the ledger one for each store key, and the protocol is part
  of a store key. A static route that becomes another protocol's is taken as already there, and sweeping
  the old key takes it out; it stays lost, in sync for the ledger
  (`Convergence.ProtocolChangeLosesRoute`). A sweep leaves table and ledger in step exactly when no other
  ledger route has the same place in the table (`ProgrammingTheorems.SweepKeepsIff`).
- The dependency digest is a XOR. Replacing a next hop escapes it exactly when the group lists that hop an
  even number of times, or the two structs hash alike (`ProgrammingTheorems.DigestBlindIffEven`); a hop
  listed twice can change its gateway unnoticed (`ProgrammingTheorems.RepeatedMemberIsInvisible`).
- An interface's admin state is changed before its addresses are set. If setting them fails, the backend has
  the new state and the ledger the old one; asking for the old state again is then taken as in sync, and the
  backend keeps the wrong one for good (`IfaceLaws.DetourLosesAdminState`). Programming an entry keeps
  backend and ledger in step exactly when it is not half done in this way (`IfaceLaws.ProgramShowsIff`), and
  then they stay so over every interleaving (`IfaceLaws.AdminStateFollowsLedger`).
- A record above 1 MiB is written but hides itself and everything after it from replay
  (`WalTheorems.ReplayUpToOversized`). Of the history before the first such record, recovery rebuilds
  exactly the loggable keys among the first 4096, each with what its record keeps of a value whose length
  is cut to 32 bits (`PersistTheorems.CrashRecovery`, `PersistTheorems.RecoveryIsExact`).
- The Huffman decoder accepts the EOS symbol inside a string and stores a NUL
  (`Huffman.EosIsStoredAsNul`): its check for EOS comes after the symbol has been cut to a byte. It agrees
  with section 5.2 of RFC 7541 exactly on input that decodes without EOS or not at all
  (`Huffman.AgreesWithRfcIff`). The comment at hpack_huffman.c:101-104 calls the code incomplete and its
  first codes impossible to reconstruct from the lengths; it is complete (`HuffmanTable.LengthBounds`),
  and they follow from the number of codes of each length (`HuffmanTable.Canonical`).
- The HPACK integer reader stops after nine continuation bytes, the writer does not: reading back is
  exact when the value less the prefix is under 2^63 (`HpackInt.IntRoundTrip`).
- The dynamic table refuses a 129th entry that section 4.4 of RFC 7541 would make room for. Below the
  default limit this cannot happen; at the limit it takes 128 entries with neither name nor value
  (`HpackTable.RunIsByTheBook`, `HpackTable.BlanksFillTheTable`, `HpackTable.RefusalIsByTheBook`).
- A frame parked while the sender is blocked, or while the reader waits, is handed straight back to it
  forever. `FlowTheorems.SendVerdict` says from the queue and the windows beforehand whether a send
  completes, spins or waits for the end of the connection.
- The receiver does not return on SETTINGS. A new initial window size that would let a blocked sender go
  on does not wake it (`FlowTheorems.LostWakeUp`, `FlowTheorems.LostWakeUpOfOneByte`). A send that breaks
  off had room to send exactly when the last resize came behind the last frame that wakes the sender, was
  not to 0, and the connection's grants exceed what could be sent (`FlowTheorems.WaitsWithRoomIff`).
- A send that starts with nothing parked leaves nothing parked exactly when the windows cover the message
  before another stream's frame comes, or none comes (`FlowTheorems.UnparkedIff`); without a resize every
  send that ends does (`FlowTheorems.EndsWithNothingParked`), after one it need not
  (`FlowTheorems.EndsWithFrameParked`).
- The five-byte gRPC prelude is never charged to a window (`Grpc.PreludeOverdraws`); a new initial window
  size overwrites the stream windows instead of moving them (`FlowTheorems.ResizeAgrees`); streams share
  windows modulo 64 (`FlowTheorems.StreamsShareWindows`).
- A stream that ends inside a message yields the part that came, and HEADERS that end any other stream do
  the same (`GrpcReading.TruncatedIsAccepted`); what is returned is whole exactly when neither comes
  before the message is complete (`GrpcReading.ReadWholeIff`). What follows a message on its stream
  survives the reading exactly when some frame ends where the message ends
  (`GrpcReading.BytesBehindSurviveIff`).
- A path element whose key has no name, such as `x[=1]`, loses its key (`GnmiTheorems.ElemRoundTrip`).
- An unsigned zero is left out of an update and then missed by the decoder
  (`GnmiTheorems.UpdateRoundTrip`); nested lengths are right exactly below 2^14
  (`Protobuf.PatchedIffShort`).
- An element that breaks off inside a tag, or inside a field the decoder does not know, is taken as it is so
  far; paths, updates and requests are refused (`GnmiTorn.TornElem`, `GnmiTorn.TornIsRefused`).
- The reader's length check adds position and length in 64 bits. A length that makes the sum wrap around is
  let through and moves the position back (`GnmiSkip.LengthCheckIn64`, `GnmiSkip.SkipMovesOnIff`); skipping
  a field does what the wire format asks exactly when none does (`GnmiSkip.SkipAgreesIff`). The set
  request's loop stands still exactly at an unknown field whose length leads back to its own tag
  (`GnmiSkip.StandsStillIff`): the decoder hangs, on eleven bytes for one (`GnmiSkip.EndlessLeadsBack`).
  Where it meets no such length it returns (`GnmiSkip.ReturnsWithoutWrap`).
- Deleting a route takes back at most sixteen next hops, and takes a route with id 0 for none at all
  (`RouteTheorems.DeleteUndoesSet`). Transactions
  undo nothing: setting a route whose id is taken leaves the hops and the group behind, and a commit that
  cannot get the lock in time reports a failure although the change stays
  (`RouteTheorems.SetIsAtomicIff`, `RouteTheorems.DeleteIsAtomicIff`). Setting a route again stops at a
  member that is gone, keeping what it has overwritten, and a member listed twice keeps only its last
  gateway (`RouteTheorems.SetAgain`). The single-gateway form replaces only the first of several gateways
  (`RouteTheorems.SetOneReplacesTheFirst`).
- The anti-flap guard is documented as a limit on any stretch as long as the window. It counts in fixed
  windows, which keeps that promise exactly when the limit is one repair, and only while there is room for
  every object (`AntiFlap.PromiseIffOne`): once 256 are tracked the next one is not limited at all, so
  that over all runs no limit is kept (`AntiFlap.CrowdBreaks`, `AntiFlap.NeverPromised`). Of a tracked
  object, fewer than twice the limit of repairs fall into such a stretch (`AntiFlap.RepairsAreSpaced`).
- Combined counters are described as packets and bytes, of which the packets are summed. They are read like
  simple ones, so that index `i` yields the packets or bytes of interface `i / 2`
  (`StatLayout.CombinedLookup`): what is described holds for index 0 and for no other
  (`StatLayout.CombinedIffFirst`).
- A message name that does not fit its 72-byte field is stored cut off and not found again
  (`MsgTable.FoundIffItFits`), and takes another slot each time it is added. What the table then holds,
  and what it finds, is `MsgTable.TableAfterAnyRun`.

## Hypotheses

- The forwarding-table theorems over runs suppose of each commit (`AllApart`) that, among the routes the
  ledger has at that moment and the IPv4 routes committed, two share VRF, first four address bytes and
  prefix length exactly when they share their store key; that is all the backend keys a route by. A
  destination may change its store key over time, once the old one has been swept. Routes of other
  families, which the backend refuses, are free (`ProgrammingTheorems.OtherFamiliesAreFree`).
  `SkippingIsSound` supposes that the two dependency views in question do not collide in the digest.
- The hashes of whole structs in the dependency digest are parameters (`Hashes`); every theorem holds for
  any such hashes.
- The order in which the store is walked is any enumeration of its keys. Backend calls may fail with any
  status at any point (`Faults`), except where a theorem is about passes in which they succeed.
- `StatSegment` supposes that loads and stores take effect in one order and that the writer raises the
  flag, writes, moves the epoch on and lowers the flag.
- The reading and sending theorems hold from any queue in which no housekeeping frame is parked
  (`ParkedOnly`), which every connection keeps from its start (`Grpc.ConnectionFromOpen`).

## Model

| member | source | states |
|---|---|---|
| `Wal.BitStepInjective` | danos-core/src/wal/wal.c:22 | one shift of the CRC loses nothing: different registers stay different |
| `Wal.CrcDetectsOneByte` | danos-core/src/wal/wal.c:16-26 | changing any one byte of any string changes its CRC |
| `Wal.CrcCalc` | danos-core/src/wal/wal.c:16-26 | the two loops compute the CRC of the recursive definition |
| `CrcLaws.CrcIsRemainder` | danos-core/src/wal/wal.c:16-26 | the CRC of any string is v if and only if the string, its first 32 bits flipped, leaves the complement of v as its remainder on division by the CRC-32 generator polynomial |
| `CrcLaws.RemainderIff` | danos-core/src/wal/wal.c:20-23 | shifting a word n times leaves its remainder on division by the generator, and the only one |
| `CrcLaws.FeedWord` | danos-core/src/wal/wal.c:19-24 | feeding a word byte by byte is shifting the register, combined with the word, by the word's width |
| `CrcLaws.ResidueIff` | danos-core/src/wal/wal.c:16-26 | four bytes behind a string are its own CRC if and only if the whole has the CRC of four zero bytes |
| `LogLayout.FrameLayout` | danos-core/src/wal/wal.c:53-85 | the bytes of a record: magic, transaction, operation, type, id, length, payload, and the checksum of header and payload combined, each at its offset |
| `LogLayout.MutationLayout` | danos-core/src/persist/persist.c:83-103 | what creating, updating and deleting an object write there |
| `LogLayout.OtherRecordsAreIgnored` | danos-core/src/persist/persist.c:135-155 | records of other operations leave no trace in what is recovered |
| `Wal.LogFile.Append` | danos-core/src/wal/wal.c:53-85 | the file grows by the record's frame, or by what fits of it; the counters move only when all of it was written |
| `Wal.Replay` | danos-core/src/wal/wal.c:138-204 | the loop hands over exactly the records that parse one after another, and counts them |
| `WalTheorems.ParseFrame` | danos-core/src/wal/wal.c:148-194 | a framed record parses back to itself whatever follows; one above 1 MiB stops the replay |
| `WalTheorems.ParseTorn` | danos-core/src/wal/wal.c:148-194 | no strict prefix of a frame parses |
| `WalTheorems.ReplayDeliversLog` | danos-core/src/wal/wal.c:138-204 | every log is delivered in full and in order, and then whatever the bytes after it hold |
| `WalTheorems.ReplayStopsAtOversized` | danos-core/src/wal/wal.c:163 | a record above 1 MiB hides itself and everything after it |
| `WalTheorems.ReplayUpToOversized` | danos-core/src/wal/wal.c:138-204 | any log delivers exactly the records before its first one above 1 MiB |
| `WalTheorems.TornLogUpToOversized` | danos-core/src/wal/wal.c:138-204 | cut at any byte, it delivers the whole ones of these |
| `WalTheorems.WholeRecordsMeaning` | danos-core/src/wal/wal.c:148-194 | the count of whole records in the first k bytes is the largest that fits |
| `WalTheorems.TornLog` | danos-core/src/wal/wal.c:138-204 | cut at any byte, a log delivers exactly the records still whole |
| `WalTheorems.ParseCorrupt` | danos-core/src/wal/wal.c:67-71 | a frame with one byte changed outside its length field does not parse |
| `WalTheorems.SingleByteCorruption` | danos-core/src/wal/wal.c:148-194 | changing one byte of any record of any log outside its length field delivers exactly the records before it, or before the first oversized one |
| `Probing.LookupRefinesMap` | danos-vpp/src/api/vpp_wire.c:283-298 | looking a key up by linear probing is looking it up in the map the table stands for |
| `Probing.StoreRefinesUpdate` | danos-core/src/persist/persist.c:117-133 | storing at the probed slot is a map update, and keeps every other key findable |
| `Probing.ProbeGivesUpWhenFull` | danos-core/src/persist/persist.c:117-133 | a probe fails exactly when every slot holds another key |
| `ObjectStore.Store.constructor` | danos-core/src/object/object_registry.c:17-31 | an empty store with the asked or the default number of buckets |
| `ObjectStore.Store.Find` | danos-core/src/object/object_registry.c:52-63 | walking the key's chain finds its entry exactly when the store has one |
| `ObjectStore.Store.Create` | danos-core/src/object/object_registry.c:65-106 | adds the key to the map, or fails on empty data or an existing key and changes nothing |
| `ObjectStore.Store.Read` | danos-core/src/object/object_registry.c:108-135 | the object if it is there and fits, its size in either case |
| `ObjectStore.Store.Update` | danos-core/src/object/object_registry.c:137-168 | replaces the bytes of an existing key, else fails and changes nothing |
| `ObjectStore.Store.Delete` | danos-core/src/object/object_registry.c:170-206 | unlinking the entry removes exactly that key from the map |
| `ObjectStore.Store.CountOfType` | danos-core/src/object/object_registry.c:208-222 | the number of keys of a type |
| `ObjectStore.Store.Iterate` | danos-core/src/object/object_registry.c:224-235 | visits every key once |
| `Persist.TypeMapsInverse` | danos-core/src/persist/persist.c:20-59 | the two type maps are inverse on the mapped types |
| `Persist.ReplayTable.ProbeSlot` | danos-core/src/persist/persist.c:117-133 | the probing loop finds the slot the definition names |
| `Persist.ReplayTable.Record` | danos-core/src/persist/persist.c:135-155 | the last writer wins in the map the 4096 slots stand for; new keys are refused when it is full |
| `Persist.Persistence.OnMutation` | danos-core/src/persist/persist.c:157-169 | a loggable mutation appends its frame, or what fits of it, unless persistence is off or recovering; only a frame written in full and synced is counted |
| `Persist.Persistence.Recover` | danos-core/src/persist/persist.c:171-219 | every key ends as the replayed table says, nothing is appended to the log |
| `Persist.AppliedIsRecovered` | danos-core/src/persist/persist.c:186-214 | the order in which the slots are applied does not matter |
| `PersistTheorems.HistoryInvariant` | danos-core/src/persist/persist.c:157-169 | over every history of mutations and restarts, up to the first oversized record, the last record of each loggable key agrees with the store, but for the cut of lengths to 32 bits |
| `PersistTheorems.CrashRecovery` | danos-core/src/persist/persist.c:171-219 | for every history recovery rebuilds, key by key, what the records keep of the store before the first oversized one, for the loggable keys among the first 4096 |
| `PersistTheorems.RecoveryIsExact` | danos-core/src/persist/persist.c:83-219 | the store is rebuilt exactly if and only if every live key is recoverable and every recoverable key holds what was kept of it before the first oversized record |
| `PersistTheorems.RecoveryWithinTheTable` | danos-core/src/persist/persist.c:83-219 | with mapped types, 32-bit ids, at most 1 MiB each and at most 4096 keys nothing is lost |
| `PersistTheorems.RestartsAreInvisible` | danos-core/src/persist/persist.c:171-219 | and restarting in between, however often, makes no difference to the store or the log |
| `PersistTheorems.LogPrefixIsHistoryPrefix` | danos-core/src/persist/persist.c:157-169 | every prefix of the log is the log of a prefix of the history |
| `PersistTheorems.CrashAtAnyByte` | danos-core/src/wal/wal.c:138-204 | a crash that leaves any prefix of the log's bytes rebuilds the store of the moment its whole, readable records tell of |
| `PersistTheorems.Live` | danos-core/src/object/object_registry.c:65-206 | processes performing a history, restarts included, have the store and the log the history calls for |
| `PersistTheorems.Reboot` | danos-core/src/persist/persist.c:171-219 | from any log file the next process has exactly the store the theorems are about, and appends nothing |
| `MsgTable.Table.Add` | danos-vpp/src/api/vpp_wire.c:260-281 | the probing loop stores the name as the definition says, and counts it if new |
| `MsgTable.Table.Find` | danos-vpp/src/api/vpp_wire.c:283-298 | the id stored for the name, if any |
| `MsgTable.TableRefinesMap` | danos-vpp/src/api/vpp_wire.c:260-298 | over any run of additions of names that fit, the table is a finite map |
| `MsgTable.TableAfterAnyRun` | danos-vpp/src/api/vpp_wire.c:260-298 | after any run at all: the names held and the slots used, no long name found, and every other name with its last id unless a longer one was cut to it |
| `MsgTable.RefusedIffFull` | danos-vpp/src/api/vpp_wire.c:260-281 | an addition is refused exactly for the empty name and when every slot holds another |
| `MsgTable.FoundIffItFits` | danos-vpp/src/api/vpp_wire.c:268 | a name just added is found exactly when it fits its field |
| `MockFib.Fib.Find` | danos-netlink/src/danos_netlink.c:45-55 | the slot of the key, if the forwarding table has it |
| `MockFib.Fib.AddRoute` | danos-netlink/src/danos_netlink.c:264-296 | adds an IPv4 key of length up to 32 unless present or full; keys stay unique and the counter is the number of used slots |
| `MockFib.Fib.DelRoute` | danos-netlink/src/danos_netlink.c:298-314 | removes the key, or reports it missing |
| `MockFib.Fib.SetIface` | danos-netlink/src/danos_netlink.c:234-245 | records the admin state of an interface in range |
| `Programming.DepDigest` | danos-core/src/backend/backend_ops.c:90-115 | the loop folds the group's and the members' hashes, with marks for those that are gone |
| `Programming.ResolveRoute` | danos-core/src/backend/backend_ops.c:120-161 | the members' gateways in order, or a retry when the group or a member is gone |
| `Programming.Pipeline.Issue` | danos-core/src/backend/backend_ops.c:163-194 | the backend calls made for one object, their status and their effect |
| `Programming.Pipeline.Entry` | danos-core/src/backend/backend_ops.c:213-278 | skips what is in sync, removes old addresses first, records success in the ledger, withdraws routes that no longer resolve |
| `Programming.Pipeline.Run` | danos-core/src/backend/backend_ops.c:280-294 | a pass is the entries one after another, and it reports how many were tried, programmed and neither programmed nor taken out |
| `Programming.Pipeline.WithdrawRoute` | danos-core/src/backend/backend_ops.c:254-264 | a route leaves the ledger exactly when the backend let it go |
| `Programming.Pipeline.CollectTombstones` | danos-core/src/backend/backend_ops.c:325-346 | the first 256 ledger keys no longer desired |
| `Programming.Pipeline.SweepTombstone` | danos-core/src/backend/backend_ops.c:358-394 | one tombstone is withdrawn according to its type |
| `Programming.Pipeline.RunSweep` | danos-core/src/backend/backend_ops.c:348-397 | a sweep is the collected tombstones one after another |
| `ProgrammingTheorems.ResolutionFactors` | danos-core/src/backend/backend_ops.c:120-161 | resolution depends on nothing but what the digest is computed from |
| `ProgrammingTheorems.InvAfterProgramEntry` | danos-core/src/backend/backend_ops.c:213-278 | programming one object keeps forwarding table and ledger in step, whichever call fails |
| `ProgrammingTheorems.InvAfterSweepOne` | danos-core/src/backend/backend_ops.c:358-394 | so does sweeping one tombstone |
| `ProgrammingTheorems.LedgerMatchesFib` | danos-core/src/backend/backend_ops.c:213-397 | over every interleaving of commits, programming and sweeping, with any call failing, if each commit keeps apart from the ledger of its moment, the forwarding table holds exactly the ledger's routes, each with the next hops last accepted |
| `IfaceLaws.InterfaceCalls` | danos-core/src/backend/backend_ops.c:163-178 | the calls made for an interface that is not in sync, the admin state and the ledger after them, for any of them failing |
| `IfaceLaws.OldAddressesGoFirst` | danos-core/src/backend/backend_ops.c:233-247 | when an address changed the old ones are removed before the interface is set and given the new ones |
| `IfaceLaws.ProgramShowsIff` | danos-core/src/backend/backend_ops.c:163-178 | programming an entry keeps the backend's admin state that of the ledger if and only if it does not change the state and then fail to set the addresses |
| `IfaceLaws.AdminStateFollowsLedger` | danos-core/src/backend/backend_ops.c:213-397 | over every interleaving of commits, passes and sweeps in which no entry is half done so, an interface whose index no other has is up in the backend exactly when the ledger says so |
| `IfaceLaws.InterfacesAfterPass` | danos-core/src/backend/backend_ops.c:213-294 | after a pass without failures every desired interface in range is in sync and has the desired admin state |
| `IfaceLaws.SweptInterfacesAreDown` | danos-core/src/backend/backend_ops.c:348-397 | after the sweeps every interface no longer desired is down |
| `IfaceLaws.DetourLosesAdminState` | danos-core/src/backend/backend_ops.c:163-178 | admin state and ledger part for good when the addresses cannot be set and the old state is asked for again |
| `BackendLaws.RouteCalls` | danos-core/src/backend/backend_ops.c:179-189 | a route not in sync is added with what it resolves to; one that does not resolve, or is put off, is taken out if it was programmed |
| `BackendLaws.VrfCalls` | danos-core/src/backend/backend_ops.c:190-193 | a VRF not in sync is added, and recorded exactly if that worked |
| `BackendLaws.NoCalls` | danos-core/src/backend/backend_ops.c:197-206 | no other type of object, and none in sync, leads to a call or a change |
| `BackendLaws.SweepCalls` | danos-core/src/backend/backend_ops.c:358-394 | what sweeping a route, an interface and any other object tells the backend |
| `BackendLaws.ResolvesIff` | danos-core/src/backend/backend_ops.c:120-161 | a route is put off if and only if it is no blackhole and its group, a first member or one of the first 64 members is missing |
| `BackendLaws.ResolvedHops` | danos-core/src/backend/backend_ops.c:120-161 | otherwise the backend is given every member's gateway bytes and interface in order, and the first member's as the main one |
| `BackendLaws.BlackholesHaveNoHops` | danos-core/src/backend/backend_ops.c:129 | a blackhole is given to the backend without gateway or hops |
| `BackendLaws.TableAfterCalls` | danos-netlink/src/danos_netlink.c:264-315 | after any run of additions, for no more than 4096 prefixes, and removals the table has a route for a prefix of a VRF if and only if the last call about it added one |
| `BackendLaws.AnswersAfterCalls` | danos-netlink/src/danos_netlink.c:264-315 | other families and lengths above 32 are refused, and removing what is not there is not found |
| `BackendLaws.FullTable` | danos-netlink/src/danos_netlink.c:274-289 | with 4096 routes in it the table takes no other, and accepts one that is there |
| `BackendLaws.NoFailureMeansSettled` | danos-core/src/backend/backend_ops.c:280-294 | a pass that reports no failure has left every object in sync or out of the ledger |
| `BackendLaws.SweepTakesFirst` | danos-core/src/backend/backend_ops.c:325-346 | a sweep takes the first 256 ledger keys no longer desired, in the order of the ledger |
| `BackendLaws.CleanMeansUnchanged` | danos-core/src/backend/backend_ops.c:34-46 | over any steps, a state not marked dirty has the objects and the ledger it had when the mark was taken |
| `ProgrammingTheorems.SweepKeepsIff` | danos-core/src/backend/backend_ops.c:358-394 | sweeping a route leaves the table equal to the ledger's routes exactly when no other ledger route has its place |
| `ProgrammingTheorems.SkippingIsSound` | danos-core/src/backend/backend_ops.c:213-247 | a route skipped as in sync resolves to what the backend last accepted for it |
| `ProgrammingTheorems.DigestBlindIffEven` | danos-core/src/backend/backend_ops.c:90-115 | replacing a next hop of any group, also one that was gone, leaves the digest alone exactly when the group lists it an even number of times or the hashes are equal |
| `ProgrammingTheorems.RepeatedMemberIsInvisible` | danos-core/src/backend/backend_ops.c:90-115 | a next hop listed an even number of times changes the resolution without changing the digest |
| `ProgrammingTheorems.OtherFamiliesAreFree` | danos-netlink/src/danos_netlink.c:264-296 | routes of other families put no condition on the forwarding-table theorems |
| `Convergence.EntryComesToRest` | danos-core/src/backend/backend_ops.c:213-278 | after one programming with succeeding calls and room an entry is in sync, refused by the backend or withdrawn |
| `Convergence.PassOutcome` | danos-core/src/backend/backend_ops.c:280-294 | what a whole pass leaves at every key, in whatever order |
| `Convergence.RestingPass` | danos-core/src/backend/backend_ops.c:280-294 | with everything at rest a pass changes nothing, and issues a call exactly for what the backend refuses |
| `Convergence.SecondPassIsQuiet` | danos-core/src/backend/backend_ops.c:280-294 | a second pass over unchanged desired state changes nothing and does not mark it dirty |
| `Convergence.SweepDrops` | danos-core/src/backend/backend_ops.c:348-397 | one sweep with succeeding calls leaves no tombstone or 256 fewer, and desired keys alone |
| `Convergence.SweepsDrain` | danos-core/src/backend/backend_ops.c:348-397 | n sweeps drain up to 256 n tombstones and touch nothing else |
| `Convergence.Converges` | danos-core/src/backend/backend_ops.c:213-397 | a pass and enough sweeps leave the forwarding table equal to the wanted routes and the stale ones, hence to the wanted ones exactly when none is stale, with the next hops of the current resolution |
| `Convergence.ConvergesAfterAnyRun` | danos-core/src/backend/backend_ops.c:213-397 | and all that after any earlier run whose commits keep apart from the ledger of their moment, with whatever calls failing in it |
| `Convergence.FamilyChangeLeavesStaleRoute` | danos-core/src/object/dpa_objects.c:160-176 | a run after which the table holds a route nothing wants |
| `Convergence.ProtocolChangeLosesRoute` | danos-core/src/backend/backend_ops.c:348-397 | a run after which the table lacks a wanted route that the ledger has in sync, and no programming brings it back |
| `HuffmanTable.SymbolOfCode` | danos-mgmt/src/gnmi/hpack_huffman.c:10-75 | every code in a length's range is the code of the symbol at its place, with that length |
| `HuffmanTable.SymbolInPlace` | danos-mgmt/src/gnmi/hpack_huffman.c:10-75 | every symbol's code lies in its length's range, and the place it has there is the symbol's |
| `Huffman.DecodeEncode` | danos-mgmt/src/gnmi/hpack_huffman.c:125-197 | decoding inverts encoding for every sequence of the 257 symbols |
| `Huffman.DecodeIffEncoded` | danos-mgmt/src/gnmi/hpack_huffman.c:125-167 | bytes decode to symbols exactly if they are the encoding of those symbols, padding included |
| `Huffman.NulFreeBijection` | danos-mgmt/src/gnmi/hpack_huffman.c:125-197 | on NUL-free strings the codec is a bijection onto its encodings |
| `Huffman.EosIsStoredAsNul` | danos-mgmt/src/gnmi/hpack_huffman.c:118 | EOS anywhere in a string is accepted and comes out as a NUL, where the RFC has an error |
| `Huffman.AgreesWithRfcIff` | danos-mgmt/src/gnmi/hpack_huffman.c:125-167 | the decoder does what section 5.2 of RFC 7541 says exactly on input that decodes without EOS or not at all |
| `Huffman.ExpansionBound` | danos-mgmt/src/gnmi/hpack_huffman.c:134-154 | no input decodes to more than one symbol in five bits |
| `HuffmanCodec.Codec.BuildRanges` | danos-mgmt/src/gnmi/hpack_huffman.c:105-123 | the range table built in place holds each length's codes and symbols |
| `HuffmanCodec.Codec.Look` | danos-mgmt/src/gnmi/hpack_huffman.c:140-154 | a lookup in the table is a match among the codes of that length |
| `HuffmanCodec.Codec.HuffmanDecode` | danos-mgmt/src/gnmi/hpack_huffman.c:125-167 | succeeds exactly when the input decodes and the output fits, and then writes it |
| `HuffmanCodec.HuffmanEncode` | danos-mgmt/src/gnmi/hpack_huffman.c:169-197 | writes the padded encoding, or -1 exactly when it does not fit |
| `HpackInt.IntRoundTrip` | danos-mgmt/src/gnmi/hpack.c:168-212 | reading inverts writing exactly when the value less the prefix is under 2^63, and is refused otherwise |
| `HpackInt.ReadInt` | danos-mgmt/src/gnmi/hpack.c:168-190 | the loop reads the integer of the definition |
| `HpackInt.WriteInt` | danos-mgmt/src/gnmi/hpack.c:192-212 | writes the integer and nothing before it, or -1 exactly when it does not fit |
| `HpackTable.Evict` | danos-mgmt/src/gnmi/hpack.c:101-111 | keeps a run of the newest entries that fits |
| `HpackTable.EvictKeepsTheMost` | danos-mgmt/src/gnmi/hpack.c:101-111 | it is the longest such run |
| `HpackTable.InsertIsByTheBook` | danos-mgmt/src/gnmi/hpack.c:119-148 | below 128 entries, adding and then evicting is evicting and then adding, as section 4.4 of RFC 7541 has it |
| `HpackTable.RefusalIsByTheBook` | danos-mgmt/src/gnmi/hpack.c:121 | at 128 entries the refusal agrees with the RFC exactly for 128 copies of the new entry with no room for another |
| `HpackTable.CountIsBounded` | danos-mgmt/src/gnmi/hpack.c:96-99 | 32 times the number of entries is at most their charge |
| `HpackTable.RunStaysBounded` | danos-mgmt/src/gnmi/hpack.c:101-148 | over every run the charge stays within the limit and the entries within the array |
| `HpackTable.RunIsByTheBook` | danos-mgmt/src/gnmi/hpack.c:113-148 | within the default limit, and without blank entries, every run keeps the table the RFC prescribes |
| `HpackTable.RunBelowDefaultIsByTheBook` | danos-mgmt/src/gnmi/hpack.c:113-148 | below the default limit so does every run |
| `HpackTable.BlanksFillTheTable` | danos-mgmt/src/gnmi/hpack.c:119-148 | 128 blank entries fill the array at the default limit, and the next entry is lost |
| `HpackTable.DynTable.EvictOldest` | danos-mgmt/src/gnmi/hpack.c:101-111 | the loop evicts as the definition says and keeps the size equal to the sum |
| `HpackTable.DynTable.SetMaxSize` | danos-mgmt/src/gnmi/hpack.c:113-117 | the new limit holds at once |
| `HpackTable.DynTable.Put` | danos-mgmt/src/gnmi/hpack.c:119-148 | shifting the array and evicting is the insertion of the definition; refused exactly at 128 entries |
| `Hpack.StringRoundTrip` | danos-mgmt/src/gnmi/hpack.c:214-280 | a NUL-free string comes back, plain or Huffman-coded |
| `Hpack.RepRoundTrip` | danos-mgmt/src/gnmi/hpack.c:282-347 | each of the four representations is recognised by its pattern and decoded to its meaning |
| `Hpack.BlockRoundTrip` | danos-mgmt/src/gnmi/hpack.c:282-347 | any block an encoder may send decodes to its meaning against the table; a bad index, or a consumer that refuses a field, stops both at the same field |
| `Hpack.HeadersRoundTrip` | danos-mgmt/src/gnmi/hpack.c:224-238 | header lists sent as unindexed literals come back in order, to any consumer that takes them all, and leave the table alone |
| `Hpack.ConnectionStaysBounded` | danos-mgmt/src/gnmi/hpack.c:282-347 | no bytes whatever, and no consumer, take the table past its limit or its array |
| `HpackLaws.IndicesAfterKeeping` | danos-mgmt/src/gnmi/hpack.c:119-164 | after any run of kept fields into any table, index 61 + k is the k-th last of those the size limit keeps, then the older entries, and past them it is refused |
| `HpackLaws.NewestIs62` | danos-mgmt/src/gnmi/hpack.c:150-164 | index 62 is the field last inserted and kept |
| `HpackLaws.StaticIndices` | danos-mgmt/src/gnmi/hpack.c:154-158 | indices 1 to 61 are the static fields whatever the table holds, and 0 is refused |
| `HpackLaws.NamesByIndex` | danos-mgmt/src/gnmi/hpack.c:296-347 | a name taken by index is that of the same field |
| `HpackLaws.IndicesAfterUpdate` | danos-mgmt/src/gnmi/hpack.c:101-117 | a size update keeps the newest fields that fit the new limit |
| `HpackLaws.IndicesAfterRefusing` | danos-mgmt/src/gnmi/hpack.c:119-133 | a field larger than the limit empties the table; with 128 entries a further one is not kept |
| `HpackLaws.TextUpToNul` | danos-mgmt/src/gnmi/hpack.c:242-280 | any text is delivered up to its first NUL, plain or Huffman-coded |
| `WireLayout.RepLayout` | danos-mgmt/src/gnmi/hpack.c:282-347 | the first byte of each representation of section 6 of RFC 7541 |
| `WireLayout.TextLayout` | danos-mgmt/src/gnmi/hpack.c:214-222 | a text behind its length and Huffman bit |
| `HpackCodec.WriteString` | danos-mgmt/src/gnmi/hpack.c:214-222 | writes length and bytes, or -1 exactly when they do not fit |
| `HpackCodec.WriteLiteral` | danos-mgmt/src/gnmi/hpack.c:224-240 | writes the field's representation, or -1 exactly when it does not fit |
| `HpackCodec.ScratchSuffices` | danos-mgmt/src/gnmi/hpack.c:251-262 | the scratch buffer set aside for a Huffman string is never too small |
| `HpackCodec.Decoder.LookupIndex` | danos-mgmt/src/gnmi/hpack.c:150-164 | static entries first, then the table's, newest first |
| `HpackCodec.Decoder.ReadString` | danos-mgmt/src/gnmi/hpack.c:242-280 | reads the string of the definition, coded or plain |
| `HpackCodec.Decoder.DecodeHeaders` | danos-mgmt/src/gnmi/hpack.c:282-347 | the loop delivers the fields and leaves the table of the definition, also when it fails or the consumer refuses a field |
| `Http2.FramesRoundTrip` | danos-mgmt/src/gnmi/gnmi_grpc.c:101-117 | what one side writes the other reads, frame for frame, in front of anything |
| `Http2.FramesAreOnTheWire` | danos-mgmt/src/gnmi/gnmi_grpc.c:180-188 | nothing is read that was not on the wire, and every frame read is within the limit |
| `FlowControl.StuckForever` | danos-mgmt/src/gnmi/gnmi_grpc.c:243-260 | a turn of the sending loop changes nothing exactly when it is blocked with another stream's frame parked on top |
| `FlowTheorems.AfloatAtEveryMoment` | danos-mgmt/src/gnmi/gnmi_grpc.c:239-270 | a sound history has no moment at which more was charged than granted |
| `FlowTheorems.RecvAccounted` | danos-mgmt/src/gnmi/gnmi_grpc.c:174-235 | receiving keeps both windows equal to what the history says |
| `FlowTheorems.SendAccounted` | danos-mgmt/src/gnmi/gnmi_grpc.c:239-270 | sending keeps them so, and at no moment takes either below zero, whatever the peer sends |
| `FlowLaws.WindowsAddUp` | danos-mgmt/src/gnmi/gnmi_grpc.c:191-270 | for every queue of frames, each window ends at its start plus the numbers granted in the WINDOW_UPDATE frames taken, less the bytes sent |
| `FlowLaws.GrantToConnection` | danos-mgmt/src/gnmi/gnmi_grpc.c:215-225 | a WINDOW_UPDATE on stream 0 raises the connection window by exactly its four-byte number and nothing else |
| `FlowLaws.GrantToStream` | danos-mgmt/src/gnmi/gnmi_grpc.c:215-225 | on another stream it raises that stream's window alone |
| `FlowLaws.SettingsResize` | danos-mgmt/src/gnmi/gnmi_grpc.c:191-210 | SETTINGS set all 64 windows to the last initial window size announced, other settings none, and are acknowledged |
| `FlowLaws.RaggedSettings` | danos-mgmt/src/gnmi/gnmi_grpc.c:191-210 | settings whose length is no multiple of six are acknowledged and set nothing |
| `FlowLaws.PingIsAnswered` | danos-mgmt/src/gnmi/gnmi_grpc.c:211-214 | a PING is answered with its own payload |
| `FlowLaws.OneFrame` | danos-mgmt/src/gnmi/gnmi_grpc.c:191-270 | what a blocked sender does with one frame of each type |
| `FlowLaws.FirstChunk` | danos-mgmt/src/gnmi/gnmi_grpc.c:239-270 | the first chunk of a send is the least of both windows, 16384 and what there is |
| `WireLayout.FrameLayout` | danos-mgmt/src/gnmi/gnmi_grpc.c:101-117 | the nine bytes of a frame header |
| `WireLayout.PreludeLayout` | danos-mgmt/src/gnmi/gnmi_grpc.c:296-302 | the five bytes in front of a message |
| `FlowTheorems.SendCarriesTheMessage` | danos-mgmt/src/gnmi/gnmi_grpc.c:262-269 | the stream carries the message from its start, whole exactly when the loop completes |
| `FlowTheorems.SendKeepsToItsStream` | danos-mgmt/src/gnmi/gnmi_grpc.c:262-269 | no other stream carries anything meanwhile |
| `FlowTheorems.SendVerdict` | danos-mgmt/src/gnmi/gnmi_grpc.c:239-270 | whether the loop completes, spins or breaks off, told from windows and queue beforehand, whatever is in the queue |
| `FlowTheorems.AllGrantsCount` | danos-mgmt/src/gnmi/gnmi_grpc.c:174-270 | with no resize ahead, what can be sent is all that is granted ahead of the first foreign frame |
| `FlowTheorems.UnparkedIff` | danos-mgmt/src/gnmi/gnmi_grpc.c:239-270 | for every queue: a send starting with nothing parked leaves nothing parked exactly when the windows cover the message before another stream's frame, or none comes |
| `FlowTheorems.EndsWithNothingParked` | danos-mgmt/src/gnmi/gnmi_grpc.c:249-258 | so without a resize no send that ends leaves a frame parked |
| `FlowTheorems.EndsWithFrameParked` | danos-mgmt/src/gnmi/gnmi_grpc.c:249-258 | after a resize a send can end with another stream's frame parked |
| `FlowTheorems.WaitsWithRoomIff` | danos-mgmt/src/gnmi/gnmi_grpc.c:191-260 | for every queue: a send that breaks off had room exactly when a positive resize came behind the last waking frame and the connection's grants exceed what could be sent |
| `FlowTheorems.LostWakeUp` | danos-mgmt/src/gnmi/gnmi_grpc.c:191-212 | a resize alone that opens the window leaves the blocked sender waiting, with nothing sent |
| `FlowTheorems.LostWakeUpOfOneByte` | danos-mgmt/src/gnmi/gnmi_grpc.c:191-212 | one such input |
| `FlowTheorems.ResizeAgrees` | danos-mgmt/src/gnmi/gnmi_grpc.c:191-210 | overwriting a window agrees with section 6.9.2 of RFC 7540 exactly on an untouched one |
| `FlowTheorems.StreamsShareWindows` | danos-mgmt/src/gnmi/gnmi_grpc.c:61 | two streams have windows of their own exactly when they differ modulo 64 |
| `Grpc.ReadStuckForever` | danos-mgmt/src/gnmi/gnmi_grpc.c:1178-1197 | a turn of the reading loop changes nothing exactly when an unwanted frame is parked on top |
| `GrpcReading.ReadDelivers` | danos-mgmt/src/gnmi/gnmi_grpc.c:1169-1228 | a message is read back however it is cut and whatever housekeeping comes between, and the frames behind it are left |
| `GrpcReading.ReadReturns` | danos-mgmt/src/gnmi/gnmi_grpc.c:1169-1228 | conversely, a message returned is the one its frames carry, or the part they carry if the last of them ends a stream |
| `GrpcReading.ReadWholeIff` | danos-mgmt/src/gnmi/gnmi_grpc.c:1169-1228 | a message is returned, and was taken whole from the stream, exactly when no other stream's frame and no end of a stream comes before it is complete |
| `GrpcReading.TruncatedIsAccepted` | danos-mgmt/src/gnmi/gnmi_grpc.c:1187-1226 | a stream ending inside a message, or HEADERS ending any stream, yields the part that came |
| `GrpcReading.BytesBehindSurviveIff` | danos-mgmt/src/gnmi/gnmi_grpc.c:1199-1224 | the bytes behind a message survive exactly when some frame ends where the message ends |
| `GrpcReading.SecondMessageIsLost` | danos-mgmt/src/gnmi/gnmi_grpc.c:1199-1224 | a message behind another in the same frame is lost |
| `Grpc.MessageOnTheStream` | danos-mgmt/src/gnmi/gnmi_grpc.c:443-451 | the stream carries prelude and message, whole exactly when the call completes |
| `GrpcEndToEnd.EndToEnd` | danos-mgmt/src/gnmi/gnmi_grpc.c:443-451 | over the bytes of the wire, what one end sends as a message the other end reads as that message, whatever is sent behind it |
| `GrpcEndToEnd.WrittenCarries` | danos-mgmt/src/gnmi/gnmi_grpc.c:239-270 | every frame written while a message is sent is well-formed, and together they carry it |
| `Grpc.ConnectionAccounted` | danos-mgmt/src/gnmi/gnmi_grpc.c:239-270 | over every run of reads and replies the windows are kept, and five bytes a reply come on top |
| `Grpc.ConnectionFromOpen` | danos-mgmt/src/gnmi/gnmi_grpc.c:174-270 | and all that holds from the start of every connection, with no housekeeping frame ever parked |
| `Grpc.PreludeOverdraws` | danos-mgmt/src/gnmi/gnmi_grpc.c:447-449 | a reply overdraws the peer's window at once exactly when fewer than five bytes are left |
| `GrpcConnection.Gather` | danos-mgmt/src/gnmi/gnmi_grpc.c:1199-1224 | the inner loop gathers header and message over frames as the definition says |
| `GrpcConnection.Connection.ApplySettings` | danos-mgmt/src/gnmi/gnmi_grpc.c:191-210 | the last initial window size announced goes into all 64 windows |
| `GrpcConnection.Connection.RecvFrame` | danos-mgmt/src/gnmi/gnmi_grpc.c:174-235 | parked frames first, then the wire, housekeeping done on the way |
| `GrpcConnection.Connection.SendDataWindowed` | danos-mgmt/src/gnmi/gnmi_grpc.c:239-270 | the loop leaves the windows, queues and frames that SendAccounted, SendCarriesTheMessage and SendVerdict are about |
| `GrpcConnection.Connection.SendGrpcMessage` | danos-mgmt/src/gnmi/gnmi_grpc.c:443-451 | prelude and message go out as MessageOnTheStream and EndToEnd have it |
| `GrpcConnection.Connection.ReadGrpcMessage` | danos-mgmt/src/gnmi/gnmi_grpc.c:1169-1228 | the loop returns the result that ReadDelivers and ReadReturns are about, with the message in the caller's buffer |
| `Protobuf.VarintRoundTrip` | danos-mgmt/src/gnmi/gnmi_proto.c:138-154 | every 64-bit value is read back |
| `Protobuf.PatchedIffShort` | danos-mgmt/src/gnmi/gnmi_proto.c:102-119 | the patched length is the varint it should be exactly below 2^14 |
| `Protobuf.LenFieldRoundTrip` | danos-mgmt/src/gnmi/gnmi_proto.c:156-176 | tag and contents of a length-delimited field are read back in front of anything |
| `GnmiTheorems.ElemRoundTrip` | danos-mgmt/src/gnmi/gnmi_proto.c:206-286 | an element that fits is read back exactly when its key, if it has one, has a name |
| `GnmiTheorems.PathRoundTrip` | danos-mgmt/src/gnmi/gnmi_proto.c:198-297 | every path that fits its structure is read back |
| `GnmiTheorems.ValueRoundTrip` | danos-mgmt/src/gnmi/gnmi_proto.c:358-428 | every value is read back, except that an unsigned zero is missed |
| `GnmiTheorems.UpdateRoundTrip` | danos-mgmt/src/gnmi/gnmi_proto.c:434-466 | every update is read back if and only if its value is not an unsigned zero |
| `GnmiTheorems.UpdateSize` | danos-mgmt/src/gnmi/gnmi_proto.c:102-119 | no update grows past what the patched length can say |
| `GnmiTheorems.RequestRoundTrip` | danos-mgmt/src/gnmi/gnmi_proto.c:533-572 | the fields of a set request are collected in whatever order they come, up to the limits |
| `GnmiTheorems.SetRequestRoundTrip` | danos-mgmt/src/gnmi/gnmi_proto.c:533-572 | every request within the limits is read back |
| `GnmiUnknown.PathIgnores` | danos-mgmt/src/gnmi/gnmi_proto.c:223-297 | fields of other numbers, of any of the four wire types and anywhere among the fields of a path, do not change what it decodes to, whatever follows |
| `GnmiUnknown.KeyIgnores` | danos-mgmt/src/gnmi/gnmi_proto.c:262-279 | likewise for a key |
| `GnmiUnknown.ElemIgnores` | danos-mgmt/src/gnmi/gnmi_proto.c:246-286 | for an element, to which a field 1 or 2 of another wire type is also unknown |
| `GnmiUnknown.ValueIgnores` | danos-mgmt/src/gnmi/gnmi_proto.c:388-428 | for a value |
| `GnmiUnknown.UpdateIgnores` | danos-mgmt/src/gnmi/gnmi_proto.c:442-466 | for an update |
| `GnmiUnknown.RequestIgnores` | danos-mgmt/src/gnmi/gnmi_proto.c:533-572 | for a set request |
| `GnmiUnknown.Unskippable` | danos-mgmt/src/gnmi/gnmi_proto.c:178-192 | an unknown field of any other wire type ends an element where it is and makes the others refuse |
| `GnmiUnknown.PathFromWire` | danos-mgmt/src/gnmi/gnmi_proto.c:223-297 | every path that fits is read from any encoding of it, with unknown fields among its own, its elements' and their keys' |
| `GnmiUnknown.ValueFromWire` | danos-mgmt/src/gnmi/gnmi_proto.c:388-428 | every value is read from any encoding of it, an unsigned zero too once written out, and any number but zero as true |
| `GnmiUnknown.UpdateFromWire` | danos-mgmt/src/gnmi/gnmi_proto.c:442-466 | every update likewise, with unknown fields at every depth |
| `GnmiUnknown.RequestFromWire` | danos-mgmt/src/gnmi/gnmi_proto.c:533-572 | the fields of a request are collected from any encoding of each, in whatever order and among whatever else |
| `GnmiUnknown.WholeRequestFromWire` | danos-mgmt/src/gnmi/gnmi_proto.c:533-572 | every request within the limits and without an unsigned zero is read from any encoding of it |
| `GnmiTorn.TornIsRefused` | danos-mgmt/src/gnmi/gnmi_proto.c:223-297 | a path, update or request cut inside any of its fields is refused |
| `GnmiTorn.TornElem` | danos-mgmt/src/gnmi/gnmi_proto.c:246-286 | an element cut inside a field is kept as far as it came, unless it is cut inside the contents of a field it knows |
| `GnmiTorn.TornKey` | danos-mgmt/src/gnmi/gnmi_proto.c:262-279 | a key is, only if it is cut inside a tag |
| `GnmiTorn.TornValue` | danos-mgmt/src/gnmi/gnmi_proto.c:388-428 | and so is a value |
| `GnmiTorn.LongTexts` | danos-mgmt/src/gnmi/gnmi_proto.c:233-285 | of a text of any length each buffer keeps the bytes before the first NUL, up to its size less one |
| `GnmiTorn.ZeroEndsMessage` | danos-mgmt/src/gnmi/gnmi_proto.c:156-163 | a zero byte where a tag should be ends a message |
| `WireLayout.FieldLayout` | danos-mgmt/src/gnmi/gnmi_proto.c:51-62 | the bytes of a short field |
| `GnmiWriter.Writer.PutVarint` | danos-mgmt/src/gnmi/gnmi_proto.c:39-49 | appends the varint, or overflows exactly when it does not fit |
| `GnmiWriter.Writer.BeginNested` | danos-mgmt/src/gnmi/gnmi_proto.c:92-100 | appends the tag and one byte for the length, and returns its place |
| `GnmiWriter.Writer.EndNested` | danos-mgmt/src/gnmi/gnmi_proto.c:102-124 | patches the length in, moving the body up when it takes two bytes |
| `GnmiWriter.Writer.EncodePath` | danos-mgmt/src/gnmi/gnmi_proto.c:198-221 | appends the path's message, or overflows exactly when it does not fit |
| `GnmiWriter.Writer.EncodeTypedValue` | danos-mgmt/src/gnmi/gnmi_proto.c:358-386 | appends the value's message, nothing for an unset one, or overflows exactly when it does not fit |
| `GnmiWriter.Writer.EncodeUpdate` | danos-mgmt/src/gnmi/gnmi_proto.c:434-440 | appends path and value as one message, or overflows exactly when they do not fit |
| `GnmiReader.Reader.ReadVarint` | danos-mgmt/src/gnmi/gnmi_proto.c:138-154 | the loop reads the varint of the definition and moves past it, or sets the error |
| `GnmiReader.Reader.NextTag` | danos-mgmt/src/gnmi/gnmi_proto.c:156-163 | the field number, 0 at the end and after an error |
| `GnmiReader.Reader.ReadBytes` | danos-mgmt/src/gnmi/gnmi_proto.c:165-176 | the contents of a field, or the error when they run past the end, for lengths whose end does not wrap around |
| `GnmiSkip.LengthCheckIn64` | danos-mgmt/src/gnmi/gnmi_proto.c:168 | the 64-bit check passes exactly when the field fits or its end wraps around, and the position moves back exactly when it wraps |
| `GnmiSkip.SkipAgreesIff` | danos-mgmt/src/gnmi/gnmi_proto.c:165-192 | skipping in 64 bits does what the wire format asks exactly when no length wraps around |
| `GnmiSkip.SkipMovesOnIff` | danos-mgmt/src/gnmi/gnmi_proto.c:165-192 | it leads past the field's length exactly then |
| `GnmiSkip.ReturnsWithoutWrap` | danos-mgmt/src/gnmi/gnmi_proto.c:533-572 | a loop that meets no wrapping length returns, with what the decoder makes of the message |
| `GnmiSkip.StandsStillIff` | danos-mgmt/src/gnmi/gnmi_proto.c:533-572 | a turn of the loop changes nothing exactly at an unknown field whose length leads back to its tag |
| `GnmiSkip.NeverReturns` | danos-mgmt/src/gnmi/gnmi_proto.c:533-572 | there the loop goes on forever |
| `GnmiSkip.EndlessLeadsBack` | danos-mgmt/src/gnmi/gnmi_proto.c:533-572 | eleven bytes on which it does |
| `GnmiReader.Reader.SkipField` | danos-mgmt/src/gnmi/gnmi_proto.c:178-192 | moves past a field according to its wire type, as the 64-bit sum does exactly when it does not wrap around |
| `GnmiReader.ReadPath` | danos-mgmt/src/gnmi/gnmi_proto.c:223-297 | the loop decodes the path that PathFromWire and TornIsRefused are about, from any bytes whose lengths do not wrap around |
| `GnmiReader.ReadValue` | danos-mgmt/src/gnmi/gnmi_proto.c:388-428 | the loop decodes the value that ValueRoundTrip is about, the last field winning |
| `GnmiReader.ReadUpdate` | danos-mgmt/src/gnmi/gnmi_proto.c:442-466 | the loop decodes the update that UpdateRoundTrip is about |
| `GnmiReader.ReadSetRequest` | danos-mgmt/src/gnmi/gnmi_proto.c:533-572 | the loop decodes the request that RequestRoundTrip is about, refusing one field too many; it is what the 64-bit loop returns if that meets no wrapping length |
| `Routes.FoundIsUnique` | danos-mgmt/src/gnmi/model_routes.c:92-100 | whatever the order of the walk, the same static route is found |
| `Routes.NextId` | danos-mgmt/src/gnmi/model_routes.c:103-127 | above 100, above every id in use, and no larger than that takes |
| `RouteTheorems.CreateHopsFresh` | danos-mgmt/src/gnmi/model_routes.c:243-252 | the next hops created have new, ascending ids and change nothing that was there |
| `RouteTheorems.SetResolves` | danos-mgmt/src/gnmi/model_routes.c:198-265 | an absent route, once set, is found and resolves to the gateways asked for, in order |
| `RouteTheorems.SetCreates` | danos-mgmt/src/gnmi/model_routes.c:233-260 | the objects a new route adds: each next hop, the group and the route with all their fields, and no other |
| `RouteIdLaws.IdsTellApart` | danos-core/src/object/dpa_objects.c:159-176 | routes that differ in VRF, prefix length or protocol alone have different store ids |
| `RouteIdLaws.AddressesTellApart` | danos-core/src/object/dpa_objects.c:159-176 | and so have routes whose addresses differ in one byte; the family makes no difference |
| `RouteTheorems.SetIsAtomicIff` | danos-mgmt/src/gnmi/model_routes.c:236-265 | setting an absent route succeeds or changes nothing exactly when no transaction can be opened, or its id is free and the transaction can be committed |
| `RouteTheorems.DeleteIsAtomicIff` | danos-mgmt/src/gnmi/model_routes.c:289-331 | deleting one succeeds or changes nothing exactly when no transaction can be opened or it can be committed; the route is gone unless none can be opened |
| `RouteTheorems.DeleteUndoesSet` | danos-mgmt/src/gnmi/model_routes.c:289-331 | deleting it again restores the store exactly when it has at most sixteen gateways and its id is not 0 |
| `RouteTheorems.SetAgain` | danos-mgmt/src/gnmi/model_routes.c:212-236 | setting a route that is there, whatever its group: with as many gateways no object is added, it succeeds exactly when no member is gone, and it leads to the gateways exactly when, besides, no member gets two paths; with more or fewer it is refused |
| `RouteTheorems.SetTwice` | danos-mgmt/src/gnmi/model_routes.c:198-265 | a route just set can be set again to any gateways of the same number |
| `RouteTheorems.SetOneReplacesTheFirst` | danos-mgmt/src/gnmi/model_routes.c:147-157 | the single-gateway form replaces the first gateway, and is all of the route exactly when it had one |
| `RouteTheorems.SetOneWithoutMembers` | danos-mgmt/src/gnmi/model_routes.c:148-162 | of a route without members it replaces next hop 0 if there is one, and else fails |
| `RouteTheorems.SetOneResolves` | danos-mgmt/src/gnmi/model_routes.c:158-187 | on an absent route it resolves to the one gateway |
| `RouteTheorems.CallsKeepKeyed` | danos-mgmt/src/gnmi/model_routes.c:131-331 | over every sequence of set, set-one and delete, whatever fails, static routes stay stored under their own ids |
| `RouteTheorems.FoundIsUniqueForever` | danos-mgmt/src/gnmi/model_routes.c:92-100 | so from an empty store on every call finds the same route, whatever the order of its walk |
| `RouteConfig.RouteStore.FindStaticRoute` | danos-mgmt/src/gnmi/model_routes.c:68-100 | a match if there is one |
| `RouteConfig.RouteStore.FreshId` | danos-mgmt/src/gnmi/model_routes.c:103-127 | the loop finds the next id of the definition |
| `RouteConfig.RouteStore.SetRoute` | danos-mgmt/src/gnmi/model_routes.c:131-196 | the calls leave the store and the status that SetOneResolves and SetOneReplacesTheFirst are about, with the transaction's status on top |
| `RouteConfig.RouteStore.SetRouteEcmp` | danos-mgmt/src/gnmi/model_routes.c:198-265 | the loops leave the store and the status that SetResolves, SetAgain and SetIsAtomicIff are about |
| `RouteConfig.RouteStore.DeleteRoute` | danos-mgmt/src/gnmi/model_routes.c:289-331 | the cascade leaves the store that DeleteUndoesSet and DeleteIsAtomicIff are about, and an absent route alone |
| `AntiFlap.RepairsAreSpaced` | danos-core/src/antiflap/antiflap.c:51-94 | over every run fewer than twice the limit of repairs of a tracked object fall into any stretch of window_ms milliseconds |
| `AntiFlap.OneWindow` | danos-core/src/antiflap/antiflap.c:66-90 | of the requests within window_ms milliseconds of the one that started the window exactly the first max_count are allowed, whatever happens to other objects; one more and the object is flapping |
| `AntiFlap.CountersTell` | danos-core/src/antiflap/antiflap.c:68-90 | over every run the suppressed counts are the requests denied, in all and of each object, and total_repairs the requests it was not flapping for |
| `AntiFlap.DeniedUntilCleared` | danos-core/src/antiflap/antiflap.c:68-73 | a flapping object gets no repair until it is itself cleared |
| `AntiFlap.ClearingLetsItRepair` | danos-core/src/antiflap/antiflap.c:106-118 | and the next one at once after that |
| `AntiFlap.PromiseIffOne` | danos-core/include/danos/core/antiflap.h:6-8 | while there is room for every object, the documented bound holds for every object in every run exactly when the limit is one repair |
| `AntiFlap.CrowdBreaks` | danos-core/src/antiflap/antiflap.c:57-62 | with 256 objects tracked the next is allowed every repair, all at one instant |
| `AntiFlap.NeverPromised` | danos-core/src/antiflap/antiflap.c:57-62 | so over all runs and objects the bound holds for no limit |
| `AntiFlapTable.Table.constructor` | danos-core/src/antiflap/antiflap.c:36-44 | an empty table, zeros in the configuration replaced by the defaults |
| `AntiFlapTable.Table.FindEntry` | danos-core/src/antiflap/antiflap.c:17-25 | the entry of the object, if it is tracked |
| `AntiFlapTable.Table.CheckAndRecord` | danos-core/src/antiflap/antiflap.c:51-94 | judges and records as the definition says; the total stays the sum over the entries |
| `AntiFlapTable.Table.IsFlapping` | danos-core/src/antiflap/antiflap.c:96-104 | whether the object is tracked and flapping |
| `AntiFlapTable.Table.ClearFlapping` | danos-core/src/antiflap/antiflap.c:106-118 | resets the object's count and flag and nothing else |
| `AntiFlapTable.Table.GetStats` | danos-core/src/antiflap/antiflap.c:120-131 | the objects tracked, those flapping, and all repairs suppressed |
| `StatSegment.FinishingMovesEpoch` | danos-vpp/src/api/vpp_stat.c:298-301 | a writer cannot finish without moving the epoch on |
| `StatSegment.SteadyBetween` | danos-vpp/src/api/vpp_stat.c:298-301 | with the flag down and the epoch unmoved, nothing changed in between |
| `StatSegment.LookupMeaning` | danos-vpp/src/api/vpp_stat.c:276-296 | a name stands for the counter of the first directory entry that bears it |
| `StatSegment.FirstOfDir` | danos-vpp/src/api/vpp_stat.c:210-223 | the place and length of the directory if it lies in the segment, if the contents held still |
| `StatSegment.EntryName` | danos-vpp/src/api/vpp_stat.c:225-237 | the place of a name, exactly when it ends in the segment and within 256 bytes |
| `StatSegment.ReadSimpleCounter` | danos-vpp/src/api/vpp_stat.c:242-264 | the 64-bit total of the counter's cells, which LookupAnswers says are those of its index, if the contents held still |
| `StatSegment.IsNamed` | danos-vpp/src/api/vpp_stat.c:282-288 | whether an entry is a counter of the name, read byte by byte, if the contents held still |
| `StatSegment.Scan` | danos-vpp/src/api/vpp_stat.c:276-296 | what the name stands for, if the contents held still |
| `StatSegment.StatRead` | danos-vpp/src/api/vpp_stat.c:268-305 | a value reported is the name's at one moment of the call with no writer at work; missing means missing at such a moment, or a thousand disturbed attempts |
| `StatLayout.LookupAnswers` | danos-vpp/src/api/vpp_stat.c:209-296 | in a segment laid out from a table of counters, wherever its parts lie, a name stands for its value or for the sum over the workers of the cell with its index, modulo 2^64; other entries are passed over |
| `StatLayout.ImageLaidOut` | danos-vpp/src/api/vpp_stat.c:53-73 | every table that fits has such a segment, written little-endian entry by entry and row by row |
| `StatLayout.CellsCount` | danos-vpp/src/api/vpp_stat.c:254-261 | if two segments differ in one cell, the counter reads the same when the cell is not its own, and else differs by what the cell does |
| `StatLayout.ReadAnswers` | danos-vpp/src/api/vpp_stat.c:268-305 | a value read while the segment is rewritten is the table's answer at one moment between the writes |
| `StatLayout.LongNamesAreMissed` | danos-vpp/src/api/vpp_stat.c:225-237 | a name of 256 bytes or more is never found |
| `StatLayout.CombinedLookup` | danos-vpp/src/api/vpp_stat.c:242-264 | a combined counter with index i yields the packets or the bytes of interface i / 2 |
| `StatLayout.CombinedIffFirst` | danos-vpp/src/api/vpp_stat.c:20-23 | its packets, as described, if and only if the index is 0 |

## Left out

- Sockets, threads, locks, memory mapping, the real netlink and VPP sessions, the CLI and NETCONF text handling, the JSON bodies: input and output.
- Allocation failures other than of a transaction record: the paths that give up when memory runs out are not modelled.
- The WAL checkpoint, which truncates the log without writing a snapshot, and appending after a torn tail, which replay does not reach.
- Wrap-around of statistics counters, epochs, object ids and flow-control windows at 32 or 64 bits.
- Emptying the ledger on request (`danos_programming_forget_programmed`).
- Transactions beyond the two ways they fail, no record and no lock in time: object operations ignore them, and nothing is rolled back.
- CONTINUATION frames, request dispatch and the order of HEADERS and trailers in the gRPC server.
- Get, Subscribe and Capabilities messages and the parsing of path strings: more decoders and encoders of the same kind.
- RBAC, CoPP, VRRP, BFD, the supervisor, the FRR mapper, ZAPI and VPP message layouts: tables and fixed layouts that would only add easy members.
- PersistTheorems.Live: the device has room and syncs; Persist.Persistence.OnMutation has the other cases.
- GnmiReader.Reader.ReadBytes: lengths so large that position plus length wraps around 2^64 are refused, where the C check lets them through and the copy has no meaning in C.
- GnmiReader.Reader.SkipField: a length that wraps around is refused, where the C position moves back; GnmiSkip.SkipIn64 has the C position.
- GnmiReader.ReadPath: wrapping lengths inside a nested message are refused, where the C loop may not return.
- GnmiReader.ReadValue: likewise.
- GnmiReader.ReadUpdate: likewise.
- GnmiReader.ReadSetRequest: refuses a wrapping length, where the C loop may not return, as GnmiSkip.NeverReturns says; it must end to be a method.
- GnmiSkip.ReturnsWithoutWrap: nested messages are taken as their decoders take them; wrapping lengths are followed in the outer loop only.
- MsgTable.TableRefinesMap: names above 71 bytes make the table no map; MsgTable.TableAfterAnyRun has every run.
- StatSegment.Scan: a load outside the segment, which has no meaning in C, reads as zero, and a vector at an offset below four has length zero.
- StatLayout.LookupAnswers: supposes that a worker that keeps cells keeps the one the counter asks for; past the end of a row the C code adds what happens to follow it.
- RouteConfig.RouteStore.SetRouteEcmp: works on the finite map the chained store is proved to be, not on the chains.
- AntiFlapTable.Table.CheckAndRecord: a clock that goes back, for which the C difference wraps, because the code reads the monotonic clock.
