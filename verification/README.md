# A verified model of a chain-replicated key-value store

The store is a hash table of sorted linked lists, replicated along a chain of servers. A server
applies a write to its own table and forwards it to its successor without waiting; reads are
answered by the last server, the tail. Servers find their successors by sorting the names
ZooKeeper lists. This project models that store in Dafny, from the pointer writes of the list up
to whole runs of the chain, and proves what it keeps and exactly where it falls short.

`dafny verify dfyconfig.toml` checks everything.

## Layers

| file | content |
|---|---|
| `CStrings.dfy` | byte strings, `strcmp`, sequential node names |
| `Hashing.dfy` | the shift-and-add hash with 64-bit wrap-around and signed `char` |
| `Entries.dfy`, `Lists.dfy` | sorted runs of entries; the heap list that is spliced in place |
| `Layouts.dfy`, `Tables.dfy` | what a table's slots stand for; the heap table |
| `Operations.dfy` | PUT and DEL, sequences of them, which orders matter, snapshots |
| `Chains.dfy` | the chain as a step system: writes, deliveries, losses, joins; which steps keep it on course; agreement |
| `HeadLosses.dfy` | what a lost head leaves to its successor, and when writes survive its loss |
| `Histories.dfy` | every replica holds a prefix of the writes in effect; any number of reads move forward |
| `PerKey.dfy` | the same through one key, with messages about other keys in any order |
| `Visibility.dfy` | when a read of the tail shows the newest write |
| `Windows.dfy` | what may happen between a crash or a join and the moment it is noticed |
| `Origins.dfy` | over runs of any kind, reads show writes that took effect only |
| `Draining.dfy` | deliveries end, how many there are, and where they end |
| `Topology.dfy` | successor and tail computed from a list of names |
| `Networks.dfy` | servers with their own, possibly stale, positions and inboxes |
| `Refinements.dfy` | the live servers are a chain at every moment, also before a crash or a join has been noticed |
| `Simulations.dfy` | every run of the network is a run of the chain, and what follows for the servers |
| `Messages.dfy`, `Servers.dfy` | requests and replies; the server object with `invoke`, `handle_client`, `chain_watcher` |
| `Sessions.dfy` | what a whole connection comes to, request by request |
| `Services.dfy` | servers with real tables that serve real requests; they crash exactly where serving faults |
| `Joins.dfy` | a server that joins with the tail's GETTABLE reply |
| `Cascades.dfy` | which servers one DEL kills |
| `KeyArrays.dfy`, `Framing.dfy` | the key-array codec; frames over short reads and writes |

The heap classes (`List`, `Table`, `Server`) promise their new state as functions of the old one;
the lemmas about those functions say what that is worth. `Servers` rests on `Tables`, which rests
on `Lists`; `Services.WorkRefines` ties a served request to the events of `Networks`, and
`Simulations.RunsAreChainRuns` ties runs of `Networks` to runs of `Chains`.

An operation *takes effect* where a server changes its table for it and forwards it
(`Operations.Effective`); it is *acknowledged* if the client is told so (`Operations.Acked`). As
written the two differ: after a DEL that takes effect the server dies before it replies, so only
PUTs of strings are acknowledged (`Services.SuccessIff`), and the acknowledged writes of a run are
a sub-list of those in effect (`Chains.AckedAreEffective`).

Guards on runs are conditions on the state before each step, one per kind of step:

| guard | a step meets it if | exactly what it keeps |
|---|---|---|
| `Chains.Safe` | a write enters at the head, changes nothing or is about to be overwritten; a message taken out of turn is the only one about its key or leaves the key's last one the same; what changes a server is passed on to its successor; a lost middle server was level with its predecessor; a joiner holds what the tail holds | pending messages bring every successor level with its predecessor (`Chains.StepKeepsLinks`) |
| `HeadLosses.Lossless` | no leftover will undo the write; leftovers out of turn as above; a head is lost only when its leftovers add nothing | what the head is going to hold is all that took effect (`HeadLosses.StepKeepsIntent`) |
| `Histories.Orderly` | messages are handled in order; writes take effect at a head without leftovers, and are passed on; a lost middle server had nothing to handle; a joiner holds what the tail holds | (sufficient) every replica holds a prefix (`Histories.StepKeepsInvariant`) |
| `PerKey.KeyOrderly` | the same as far as one key goes; a message may overtake its own repeats | (sufficient) reads of the key move forward (`PerKey.KeyReadsMoveForward`); overtaking anything else about the key makes them go back (`PerKey.OvertakingReadsBack`) |

## Where code and documentation disagree

The model follows the code; a NULL dereference or a read outside an array is the outcome `Fault`,
which at the level of servers is a crash.

* `list_remove` dereferences the head of an empty list where its header promises 1
  (`Lists.RemoveMeetsContract`, `Layouts.TableRemoveMeetsContract`, `Layouts.FreshTableFaults`).
* `table_get_keys` gives up at the first empty slot (`Layouts.KeysListedIff`), so GETKEYS is
  refused and GETTABLE faults unless every slot has an entry (`Messages.GetTableIff`).
* After every successful DEL, `handle_client` reads the entry the message does not have
  (`Messages.EffectiveDelKills`, `Messages.DelIsSurvivedIff`): it dies, and its client is told
  nothing. In `Networks` the second forward of a DEL may take place or not; as written it does not,
  and the server crashes after that step, which in `Services` follows from serving the request.
  `Chains` proves agreement for every number of copies.
* `chain_watcher` compares the whole created path with bare child names and so never finds its own
  server (`Topology.CreatedPathIsNeverListed`). `Networks` and the results on refreshed servers
  take the node path to be the bare name.
* The client writes at the tail, while writes are meant to enter at the head
  (`Chains.WriteAnywhere` says when a write elsewhere is harmless, `Chains.WriteAtTailSplits`
  shows one that is not).
* Replication is called synchronous, but the head acknowledges a write when it has handed both
  copies to its successor's connection, not when the successor has handled them. Losing the head
  therefore loses nothing while its successor lives and handles what it was sent first
  (`HeadLosses.HeadLossKeepsWrites`, `HeadLosses.SettlingRecovers`). Losing a second head before
  that does (`HeadLosses.AcknowledgedWriteCanBeLost`). A new head that takes a write before it has
  handled the second copy of an older one lets the copy undo it, so that reads go back
  (`HeadLosses.StaleRepeatUndoesWrite`; `HeadLosses.WriteOverLeftoversIff` says exactly when).
* What a server takes between its successor's crash, or a join behind it, and its watcher's refresh
  is never forwarded (`Windows.WindowSplits`). `Simulations.CrashWindow` and
  `Simulations.JoinWindow` say exactly when that does no harm.
* A DEL on an idle chain kills its way through all servers that have the key
  (`Cascades.DelKillsIff`), and if all have it nobody survives (`Cascades.OneDelKillsAll`).
* Writes are called linearizable and reads consistent (README.md:54). A PUT is acknowledged before
  the tail can show it (`Visibility.AcknowledgedPutNotVisible`); `Visibility.TailReadIsCurrentIff`
  says exactly when a read is current. Reads never go back as long as messages about the key stay
  in order (`PerKey.KeyReadsMoveForward`).
* README.md:198 has a new server loaded with the full table; GETTABLE, the one way to get it,
  is refused for an empty table and kills the tail if some but not all slots have entries
  (`Joins.GetTableJoins`).
* `buffer_to_keyArray` leaves the terminator cell unwritten (`KeyArrays.DecodedIsTerminatedIff`).
* `read_all` does not notice the end of the stream: once a client has closed its connection, the
  thread that serves it goes round for ever, unless something it cannot read has ended it before
  (`Framing.ReceiveAll`).
* `send_message_to_successor` calls `write` once for the size and once for the message and reports
  success whatever they took (`Framing.SendMessage`, `Framing.ForwardArrivesIff`).

## Assumptions

* Handling one request, with its forwards, is one atomic step. `server->mutex`
  (include/server_skeleton.h:17) is declared but no code locks it.
* A live successor receives what is sent to it, whole. `Framing.ForwardArrivesIff` says when it
  does, and `Chains.DropIsExact` when it does no harm if it does not; `atoi` of a path, by which the code finds the port, is not part of this model.
* The code opens a connection per message, so `Chains` lets messages overtake each other.
* PUT values in `Chains` and `Networks` are strings, without which no PUT is served
  (`Messages.PutIsServed`); in `Services` any other value kills the server.
* In `Simulations` the lists ZooKeeper gives were current at some time, and somebody stays alive.
* A join loads the joining server as README.md:198 describes; no code does it. `Chains` and
  `Networks` let it hold anything, `Joins` loads it from a reply.
* `char` is signed, as on x86; `unsigned long` has 64 bits; `int` counters do not overflow except
  where a contract says so.

## Model

| member | source | states |
|---|---|---|
| CStrings.LessIsFirstDifference | source/entry.c:66 | strcmp order decided at the first differing byte, terminators counting as 0 |
| CStrings.LessIsTotal | source/entry.c:62-71 | strcmp order is irreflexive, asymmetric and total |
| CStrings.LessTransitive | source/entry.c:62-71 | strcmp order is transitive |
| CStrings.NodeNameOrder | source/server_skeleton.c:59-61 | on sequential node names the strcmp order is the numeric order of the counters, and names differ when counters do |
| Entries.EntryCompareIsKeyOrder | source/entry.c:62-71 | -1, 0 and 1 exactly for smaller, equal and greater keys |
| Hashing.Hash | source/table.c:337-352 | -1 for a size that is not positive; otherwise the closed polynomial modulo 2^64, modulo the size, a valid index |
| Hashing.HashConcat | source/table.c:344-349 | h(s+t) = h(s)*33^len(t) + p(t) modulo 2^64, for all keys |
| Hashing.HashSnoc | source/table.c:344-349 | the hash of no character is 5381, and one more character, signed, takes it to 33 times itself plus the character modulo 2^64 |
| Hashing.SlotIsShiftedAndAdded | source/table.c:344-351 | the slot is what shifting by 5, adding and adding the signed character, from 5381 on and in words of 64 bits, leaves modulo the size |
| Entries.InsertSorted | source/list.c:70-115 | insertion keeps the run strictly increasing by key |
| Entries.FindInsert | source/list.c:43-117 | after insertion the entry's key has the entry's value and every other key what it had |
| Entries.FindDelete | source/list.c:213-249 | after removal the key is gone and every other key has what it had |
| Entries.SortedIsCanonical | source/list.c:70-115 | two sorted runs that store the same are the same run |
| Entries.InsertOverDelete | source/table.c:143-152 | removing an existing entry before adding gives what adding over it gives |
| Lists.List.Add | source/list.c:43-117 | the heap list stays acyclic, sorted and counted; contents are the sorted insertion; 1 exactly when the key was there |
| Lists.List.Locate | source/list.c:81-110 | the walk ends at the node to overwrite or the node to link after |
| Lists.List.LinkAfter | source/list.c:95-101 | one node is spliced in after another, everything else in place |
| Lists.List.Get | source/list.c:134-152 | the stored entry of the key, or none exactly when there is none |
| Lists.List.GetKeys | source/list.c:159-183 | NULL exactly for an empty list, otherwise all keys in order and a terminator |
| Lists.List.Size | source/list.c:122-128 | the number of entries |
| Lists.List.Remove | source/list.c:213-249 | the heap list stays well formed without the key; 0 or 1 by presence, a fault exactly on an empty list |
| Lists.RemoveMeetsContract | include/list.h:51-56 | the documented result exactly when the list is not empty |
| Layouts.PutRepresents | source/table.c:113-161 | after a put the slots represent the map with the key set, every key in the slot of its hash |
| Layouts.RemoveRepresents | source/table.c:296-306 | after a removal the slots represent the map without the key; result by presence, fault exactly for an empty slot |
| Layouts.TableRemoveMeetsContract | source/table.c:291-306 | the documented 0 or 1 exactly when the key's slot is not empty |
| Layouts.FreshTableFaults | source/table.c:296-306 | on a table of any size with nothing in it every removal faults where 1 is promised |
| Layouts.LayoutIsCanonical | source/table.c:141-152 | slot count and contents determine every slot |
| Layouts.KeyListIsDomain | source/table.c:217-266 | the key list has every key once, and the sum over slots is the size of the map |
| Layouts.KeysListedIff | include/table.h:33-38 | all keys are returned exactly when no slot is empty, never with fewer keys than slots |
| Tables.Table.Create | source/table.c:48-104 | NULL exactly for a slot count that is not positive; otherwise an empty table of that many slots |
| Tables.CreateSlots | source/table.c:89-101 | as many empty valid lists as slots, no two sharing storage |
| Tables.Table.Put | source/table.c:113-161 | the table represents the old map with the key set; no two slots share storage; result 0 |
| Tables.Table.Get | source/table.c:167-192 | the value the map has for the key, or none |
| Tables.Table.Remove | source/table.c:296-306 | the table represents the old map without the key; 0, 1 or a fault by presence and empty slot |
| Tables.Table.Size | source/table.c:197-210 | the sum over slots is the cardinality of the map |
| Tables.Table.GetKeys | source/table.c:217-266 | NULL exactly if some slot is empty; otherwise every key once, in an array of size plus one cells ending in NULL |
| Tables.CopyKeys | source/table.c:241-257 | the inner loop appends one slot's keys and stays inside the array |
| Operations.BuildRepresents | source/table.c:113-306 | the table refines a map over every sequence of puts and removals |
| Operations.HistoriesDoNotShow | source/table.c:217-266 | sequences with the same last write per key leave identical slots and key lists |
| Operations.ForwardedIsEnough | source/server_skeleton.c:293-362 | repeated PUTs and suppressed no-op DELs do to a successor exactly what the operation does |
| Operations.SameEffectIff | source/server_skeleton.c:144-196 | two orders of delivery have the same effect on every store if and only if each key is last written by the same operation |
| Operations.PerKeyOrderIsEnough | source/server_skeleton.c:144-196 | equal subsequences per key leave equal stores |
| Operations.SnapshotRoundTrip | source/client_stub.c:262-274 | a snapshot loaded in any order into any number of slots gives back the store, with as many entries |
| Operations.AckedOfIsSublist | source/server_network.c:65-69 | the acknowledged ones among operations are a sub-list, in order, with exactly the PUTs of strings, and the DELs only if the second forward is repaired |
| Operations.IsStringIff | source/server_skeleton.c:296-297 | the values that can be stored are those whose copy by strdup is as long as the message says |
| Chains.WriteAnywhere | source/client_stub.c:30-64 | a write at any server keeps all links exactly when it is passed on and enters at the head, changes nothing or is about to be overwritten |
| Chains.WriteAtTailSplits | source/client_stub.c:30-75 | a client PUT at the tail leaves the head without the key although nothing is under way |
| Chains.OvertakingSplits | source/server_network.c:94-113 | a PUT overtaken by a newer one to its key leaves the tail with the older value although nothing is under way |
| Chains.TakeIsExact | source/server_network.c:94-113 | a message may overtake others exactly when it does not change who writes its key last, and what it changes is passed on |
| Chains.KeyFirstIsHarmless | source/server_network.c:94-113 | the first message about its key may always be handled |
| Chains.DropIsExact | source/server_skeleton.c:127-129 | a forwarded message may be lost, which its sender does not notice, exactly when the last one on its key stays the same or the successor already holds its outcome |
| Chains.DropSplits | source/server_skeleton.c:127-129 | a PUT sent once and lost leaves the tail without it although nothing is under way |
| Chains.BypassIsExact | source/server_skeleton.c:33-43 | losing a middle server keeps all links exactly when it was level with its predecessor; a drained link suffices |
| Chains.BypassSplits | source/server_skeleton.c:33-43 | a middle server lost before it has handled a PUT leaves the tail without it although nothing is under way |
| Chains.JoinIsExact | README.md:198 | a server that joins, whatever it was loaded with, keeps all links exactly when it holds what the tail holds |
| Chains.StepKeepsLinks | source/server_network.c:62-70 | a step of any kind, with any message in any order, keeps "pending messages would bring the successor level with its predecessor" exactly when its guard holds before it |
| Chains.RunKeepsLinks | source/server_network.c:62-70 | the same over every run, membership changes included, of which each step was safe |
| Chains.ReplicasAgree | README.md:30 | in every state reached by safe steps with nothing under way all replicas hold the same map |
| Chains.AckedAreEffective | source/server_network.c:65-69 | over every run, the acknowledged writes are a sub-list, in order, of those in effect |
| HeadLosses.HeadLossKeepsWrites | source/server_skeleton.c:304-306 | handling what a lost head had sent gives its successor exactly its store |
| HeadLosses.WriteOverLeftoversIff | source/server_skeleton.c:293-318 | a write at a head with leftovers is the last word on its key exactly when the last leftover about that key is none or the same write |
| HeadLosses.StepKeepsIntent | source/server_network.c:62-70 | a step of any kind changes what the head is going to hold by exactly the write that takes effect in it if and only if its guard holds before it |
| HeadLosses.RunKeepsIntent | source/server_network.c:62-70 | over guarded runs what the head is going to hold is the outcome of all writes in effect, in order |
| HeadLosses.SettlingRecovers | README.md:197 | after the loss of a head, a new head without leftovers holds the lost one's store and the writes in effect since |
| HeadLosses.EffectiveWritesSurvive | README.md:197-199 | with any number of heads and other servers lost under the guards, a quiet chain holds exactly the writes in effect at every replica |
| HeadLosses.StaleRepeatUndoesWrite | source/server_network.c:65-67 | a run in which the second copy of an older PUT undoes a newer one, so that tail reads show the older value again |
| HeadLosses.AcknowledgedWriteCanBeLost | README.md:30 | a run in which two heads are lost and a PUT with them, acknowledged if its value is a string |
| Histories.StepKeepsInvariant | source/server_skeleton.c:293-362 | every orderly step keeps: each replica holds a prefix of the history, each link bridges two prefixes, and the head's leftovers reach to the end of the history |
| Histories.AppliedShrinks | source/server_skeleton.c:108-140 | prefixes never grow from head to tail |
| Histories.ReplicasInOrder | source/server_skeleton.c:293-362 | with heads lost at any time, replicas are at points of one subsequence, in order, of the run's writes in effect, never further towards the tail, and the head is going to hold all of it |
| Histories.HistoryWasEffective | source/server_skeleton.c:300-361 | with heads lost at any time, the history is a subsequence, in order, of the writes in effect |
| Histories.HistoryIsEffectiveWrites | source/server_skeleton.c:300-361 | with heads lost only when they have handled their leftovers, the history is the list of writes in effect |
| Histories.ReplicasHoldPrefixes | source/server_skeleton.c:293-362 | then each replica of every reachable state holds the effect of a prefix of the run's writes, no longer than that of a replica nearer the head, and the head is going to hold all of them |
| Histories.ReadShowsEffectiveWrite | source/server_skeleton.c:320-340 | then a tail read shows what the last write to the key among some prefix of the run's writes in effect left |
| Histories.TailReadsMoveForward | README.md:54 | any number of reads of the tail along a run, with losses of heads and others and joins in between, are at points of the run's own list of writes in effect that never go back, and each shows only what had taken effect by then |
| Histories.TailReadsMoveForwardThroughLosses | README.md:54 | with heads lost at any time, the same over one subsequence, in order, of the writes in effect |
| Histories.NoServerGoesBack | source/server_skeleton.c:33-52 | in one step, a server that stays keeps what it has applied, and that stays part of the history |
| Histories.NoServerEverGoesBack | source/server_skeleton.c:33-52 | the same over every run, membership changes included |
| Origins.StepIsGenuine | source/server_network.c:62-70 | a step of any kind leaves only values and messages that were there at the start or come from writes that took effect |
| Origins.ReadsAreNotInvented | source/server_skeleton.c:320-340 | over every run, with any order, any losses and writes at any server, a tail read shows the initial value or what some write to the key that took effect left |
| PerKey.StepProjects | source/server_network.c:94-113 | seen through one key, every step of the chain is a step of a chain, in which the same write takes effect |
| PerKey.RunProjects | source/server_network.c:94-113 | a run that is orderly as far as one key goes is an orderly run of the projected chain with the key's writes |
| PerKey.KeyReadsMoveForward | README.md:54 | any number of GETs of a key at the tail are at points of the writes to the key that never go back, whatever overtakes whatever about other keys and whatever message overtakes its own repeats |
| PerKey.OvertakingReadsBack | source/server_network.c:94-113 | a message that overtakes another about its key makes GETs at the tail go back, even where all steps are safe |
| Visibility.TailReadIsCurrentIff | README.md:54 | a GET of a key at the tail shows what the head has exactly if no message under way brings news of the key, and what the head is going to have exactly if no leftover does either |
| Visibility.ReadsAreCurrentIff | README.md:54 | over guarded runs, a GET shows the last write in effect on the key exactly under that condition |
| Visibility.AcknowledgedPutNotVisible | README.md:54 | an acknowledged PUT that the tail does not show yet |
| Windows.CutIff | source/server_skeleton.c:108-128 | cut behind any server, a chain is on course exactly if both parts are and the lower one is going to hold what the upper one ends with |
| Windows.StepInWindow | source/server_skeleton.c:108-128 | while a server does not know its successor, every write and every message handled anywhere is a step of each part |
| Windows.CrashWindowIff | source/server_skeleton.c:127-129 | after the loss of a middle server and any number of writes and messages before its predecessor notices, the chain is on course exactly if that predecessor ends with what the lost one held and what was written behind it |
| Windows.JoinWindowIff | README.md:198 | after a join and any number of writes and messages before the old tail notices, the chain is on course exactly if the old tail ends with what the joiner was loaded with and what was written there |
| Windows.WindowSplits | source/server_skeleton.c:127-129 | a PUT taken before a crash has been noticed that never reaches the tail although nothing is under way |
| Draining.DeliveryDecreases | source/server_skeleton.c:304-306 | a delivery lowers the sum of 2^(d+1)-1 over messages, by exactly one for a PUT forwarded twice |
| Draining.DeliveriesAreBounded | source/server_network.c:62-70 | deliveries alone are at most, for doubled PUTs exactly, as many as that sum drops |
| Draining.WeightClosed | source/server_network.c:65-67 | a message d hops from the tail weighs 2^(d+1)-1 |
| Draining.QuiescenceIsReached | source/server_network.c:62-70 | from every state reached by safe steps every schedule of harmless deliveries that has none left has emptied all queues, with every replica at what the head was going to hold, within the pending sum; and there is one |
| Draining.EffectiveWritesArrive | README.md:199 | if no guard was broken, heads lost on the way included, that is the outcome of exactly the writes in effect, in order |
| Draining.OnePutCosts | source/server_network.c:65-67 | one PUT on a quiet chain of n servers is handled 2^n - 2 times beyond the head |
| Topology.SortedIsUnique | source/client_stub.c:324 | the sorted list does not depend on arrival order or sorting algorithm |
| Topology.WatchFindsSuccessor | source/server_skeleton.c:33-52 | a listed server gets the least greater name, and is tail exactly when no name is greater, which is when it has no successor |
| Topology.NewestBecomesTail | source/server_skeleton.c:80-83 | a node with the greatest counter sorts last, makes itself tail without successor, and is the client's tail |
| Topology.WatchFits | source/server_skeleton.c:38 | with names of at most 1016 bytes no path is cut by the 1024-byte buffers |
| Topology.CutIsLongestFit | source/server_skeleton.c:38 | what is cut is cut to the longest start that fits 1023 bytes |
| Topology.WatchWithoutMe | source/server_skeleton.c:35-52 | a server missing from the list keeps its successor and is not tail |
| Topology.CreatedPathIsNeverListed | source/server_skeleton.c:80-83 | with the created path as node path no list ever gives a server a successor or makes it tail |
| Topology.OnePathOneTail | source/client_stub.c:317-347 | when all have refreshed on the same names, next pointers form one path from least to greatest, exactly the last is tail, and the client picks it |
| Networks.StepKeepsUpward | source/server_skeleton.c:33-52 | joins, crashes, refreshes on any list and deliveries keep every next pointer above its owner |
| Networks.RunKeepsUpward | source/server_skeleton.c:33-52 | the same over every run, so in every state reachable from the empty network |
| Networks.ForwardingGoesUp | source/server_skeleton.c:108-128 | a message only ever goes to a later member |
| Networks.NoServerIsRevisited | source/server_skeleton.c:108-128 | a message visits members in strictly increasing order, however lists change on the way |
| Networks.HandlingEnds | source/server_network.c:62-70 | with no new writes or members, at most the pending sum of messages is handled, under any refreshes and crashes |
| Refinements.SubmitRefines | source/server_skeleton.c:293-362 | a write at the k-th live server is the chain's write at replica k, with no copies if it does not know the next one |
| Refinements.HandleRefines | source/server_network.c:62-70 | a message handled by a later server is the chain's delivery on the link before it |
| Refinements.HandleAtHeadRefines | source/server_network.c:62-70 | a message handled by the head is one its lost predecessor left |
| Refinements.RefreshWires | source/server_skeleton.c:33-52 | a refresh on a list that was current at some earlier time links a server to the next live one, or leaves it sending to nobody |
| Refinements.RefreshPlaces | source/server_skeleton.c:33-52 | a refresh on the live names in any order links a server to the next one, and makes exactly the last one tail |
| Refinements.RefreshingLinksAll | source/server_skeleton.c:33-52 | from any positions, once each live server has refreshed on the live names all are linked |
| Refinements.CrashRefines | README.md:197 | a crash of any server is at once the chain's loss of that replica, noticed or not, with what it had sent inherited and what was sent to it gone |
| Refinements.JoinRefines | README.md:198 | a new server with any table is at once the chain's join with that table, noticed or not |
| Simulations.RunsAreChainRuns | source/server_network.c:62-70 | every run of the servers, with writes anywhere, messages in any order, crashes and joins at any time, work before they are noticed, and refreshes on lists out of date, is a run of the chain, event for event: same stores, same messages, same writes in effect |
| Simulations.EarlierListsAreFair | source/server_skeleton.c:26 | the list of live servers of any earlier state of a run is such a list |
| Simulations.FirstServerIsFresh | source/server_skeleton.c:80-83 | the first server is a chain of its own, so runs from there on are covered |
| Simulations.AckedAreEffective | source/server_network.c:65-69 | what clients are told of along a run is a sub-list, in order, of what takes effect |
| Simulations.CrashWindow | source/server_skeleton.c:127-129 | of the servers: whatever is written and handled before a crash is noticed, the chain is on course exactly if the server before the crashed one ends with what that held and what was written behind it |
| Simulations.JoinWindow | README.md:198 | of the servers: whatever is written and handled before a join is noticed, the chain is on course exactly if the old tail ends with what the joiner was loaded with and what was written there |
| Simulations.RunsAgree | README.md:30 | after any such run of safe steps, servers with nothing to handle hold the same store |
| Simulations.WritesArrive | README.md:199 | if no write in effect was put at risk, that store is the outcome of all writes that took effect, in order |
| Simulations.ReadsMoveForward | README.md:54 | any number of reads of the last server, across crashes and joins, are at points of the list of writes that took effect at the servers, and never go back |
| Simulations.KeyReadsMoveForward | README.md:54 | the same of the reads of one key, with order asked for within that key alone |
| Services.SuccessIff | source/server_network.c:65-69 | a client is told of success exactly if its operation takes effect and is a PUT of a string |
| Services.FatalIff | source/server_network.c:62-70 | serving a PUT kills the server exactly if the value is no string, and a DEL exactly if the key is there or its slot is empty |
| Services.WorkRefines | source/server_network.c:62-70 | serving an operation, a client's or another server's, is the network's event with one forward of a DEL, followed by a crash exactly if serving faults |
| Services.PutsKillNobody | source/server_network.c:62-70 | over any run of PUTs of strings, with messages in any order, nobody dies |
| Services.NewServerIsAside | source/server_skeleton.c:236-239 | until its watcher has run a new server answers no read and sends nothing anywhere |
| Cascades.DelKillsIff | source/server_network.c:65-67 | once nothing is left of a DEL on an idle chain, a server is dead exactly if every server before it had the key and knew its successor, and it has the key itself or an empty slot for it |
| Cascades.DelCanEnd | source/server_network.c:65-67 | there is a schedule after which nothing is left of it |
| Cascades.OneDelKillsAll | source/server_network.c:65-67 | if every server knows its successor and has the key, nobody survives |
| Messages.PutIsServed | source/server_skeleton.c:293-318 | a PUT is acknowledged exactly if its value ends in its only NUL, and is then applied and forwarded zero, one or two times by successor and tail flag |
| Messages.PutFaultsIff | source/server_skeleton.c:293-319 | a PUT kills the server exactly without an entry or with a value that is no string, and then changes nothing; otherwise the reply is the request with two fields changed, and only its entry counts |
| Messages.DelFaultsIff | source/server_skeleton.c:342-362 | a DEL without an entry kills the server exactly if the key is there or its slot is empty, and is otherwise refused; only its key counts |
| Messages.EffectiveDelKills | source/server_network.c:65-67 | a DEL that removes something is applied and forwarded once before the server faults |
| Messages.DelIsSurvivedIff | source/server_skeleton.c:342-362 | a DEL leaves the server alive exactly when the key is absent and its slot not empty, and then changes nothing |
| Messages.DelWithEntry | source/server_network.c:65-67 | a DEL that carries an entry as well succeeds, and the successor is sent the DEL and then a PUT of that entry |
| Messages.GetIsServed | source/server_skeleton.c:320-340 | the tail answers a GET of a stored key with the stored bytes, OP_GET + 1 and CT_VALUE; without the key, or off the tail, it is refused with OP_ERROR and CT_NONE; nothing changes |
| Messages.GetAfterPut | source/server_skeleton.c:293-340 | after a PUT the tail answers a GET of its key with its value, and GETs of other keys as before |
| Messages.SizeIsServed | source/server_skeleton.c:363-374 | the tail answers SIZE with the number of keys stored, OP_SIZE + 1 and CT_RESULT; elsewhere it is refused |
| Messages.GetKeysIff | source/server_skeleton.c:375-398 | the tail answers GETKEYS with every stored key once, OP_GETKEYS + 1 and CT_KEYS, exactly if no slot is empty, and refuses it otherwise; off the tail, or with another content type, the request comes back as it was |
| Messages.OthersAreServed | source/server_skeleton.c:434-473 | unknown operations are refused, and STATS and GETTABLE off the tail; STATS at the tail gets OP_STATS + 1 and CT_STATS; a request whose content type does not fit comes back as it was |
| Messages.GetsTellIff | source/server_skeleton.c:320-340 | two servers answer every GET alike exactly if they are not tail or store the same |
| Messages.GetTableIff | source/server_skeleton.c:399-426 | the tail's GETTABLE is a snapshot, in the order of the key list, exactly when there are entries and no empty slot; a fault with entries and an empty slot |
| Messages.AgreeingTailsAnswerAlike | source/server_skeleton.c:375-426 | tails with equal contents and slot counts give equal replies to every request |
| Messages.ServeKeepsTable | source/server_network.c:62-68 | every request, malformed ones included, leaves a table that represents a map |
| Sessions.ConnectionIff | source/server_network.c:61-70 | a connection ends in a state with these replies exactly if every request was served in the state the one before it left, each with its reply, up to the last one, or up to the first the server dies of |
| Sessions.ServeAllConcat | source/server_network.c:61-70 | requests on one connection or on two, one after the other, come to the same |
| Sessions.PutsAreServed | source/server_network.c:61-70 | n PUTs of strings get n acknowledgements, the store is what they make of it in this order, and their copies go out in this order |
| Sessions.ReadsOwnWrites | README.md:54 | whoever PUTs and then GETs at a tail reads the last of its own PUTs of the key, or what was there before |
| Joins.GetTableJoins | source/server_skeleton.c:399-430 | a tail with entries and no empty slot answers GETTABLE, and whoever loads the answer into any number of slots continues the chain; with nothing stored it refuses and an empty table continues the chain; with an empty slot it dies |
| Joins.LateJoinIff | README.md:198 | if the chain has gone on meanwhile, the joiner continues it exactly when the tail stores what it stored when it answered |
| Joins.LateJoinSplits | README.md:198 | a joiner loaded before the tail has handled a PUT that was under way is out of date |
| Joins.LoadedAnswersAlike | source/client_stub.c:262-274 | the joiner answers every GET as the tail did, and GETTABLE too if it has as many slots |
| Servers.Server.Invoke | source/server_skeleton.c:289-477 | the request object becomes the specified reply; table, sent messages and faults are as specified |
| Servers.Server.InvokePut | source/server_skeleton.c:293-319 | the PUT case: local put, forward unless tail, reply; fault without an entry or with a value that is no string |
| Servers.Server.InvokeDel | source/server_skeleton.c:342-362 | the DEL case: forward only what removed something; fault on an empty slot |
| Servers.Server.InvokeGetKeys | source/server_skeleton.c:375-398 | the GETKEYS case: n_keys is the length of the key list |
| Servers.Server.InvokeGetTable | source/server_skeleton.c:399-430 | the GETTABLE case: one entry per key, in key-list order |
| Servers.Server.HandleRequest | source/server_network.c:63-67 | invoke and the second forward, with its fault |
| Servers.Server.HandleClient | source/server_network.c:61-70 | over the heap table: what Sessions.ConnectionIff says of a connection has happened |
| Servers.Server.ReplicateToSuccessor | source/server_skeleton.c:108-140 | one message to the successor if there is one, a PUT with a value and a DEL without |
| Servers.Server.ChainWatcher | source/server_skeleton.c:21-56 | successor path, cut to its buffer, and tail flag from the sorted list; nothing without an answer; fault without children or node path |
| Servers.GetTailPath | source/client_stub.c:317-334 | the path, cut to its buffer, of a listed name no listed name is greater than; NULL without an answer; fault without children |
| KeyArrays.EncodedCount | source/serialization.c:45-46 | the first four bytes are the number of keys, the most significant first |
| KeyArrays.EncodedAt | source/serialization.c:47-54 | behind them each key, with its NUL, begins where the lengths of those before it, each with one more, add up to |
| KeyArrays.ParseEncode | source/serialization.c:65-102 | decoding an encoding gives the keys back whatever bytes follow |
| KeyArrays.EncodeParse | source/serialization.c:21-57 | every well-formed buffer re-encodes to itself |
| KeyArrays.KeyArrayToBuffer | source/serialization.c:21-57 | -1 for a missing array; otherwise the encoding, of size 4 plus each length plus one |
| KeyArrays.CountKeys | source/serialization.c:28-33 | the loop counts the keys and the bytes of their encoding |
| KeyArrays.CopyKeys | source/serialization.c:49-54 | the loop writes exactly the encoded keys behind the count and fills the buffer |
| KeyArrays.BufferToKeyArray | source/serialization.c:65-102 | for any bytes: the keys of a well-formed message in order and then what memory held; NULL exactly for a count below -1; a fault exactly for a message that ends too soon or the greatest count |
| KeyArrays.DecodedIsTerminatedIff | include/serialization.h:16 | the decoded array is terminated if memory happened to hold NULL, and otherwise has no terminator anywhere |
| KeyArrays.DecodeOfEncode | include/serialization.h:10-16 | any encoded key list decodes, to an array that can be encoded again only by that luck |
| KeyArrays.NetworkOrder | source/serialization.c:45-46 | the four bytes htonl leaves, the most significant first, are worth the int, or 2^32 more than a negative one |
| KeyArrays.ReadInNetworkOrder | source/serialization.c:72-74 | ntohl of four bytes is what they are worth, the most significant first, less 2^32 if the first bit is set |
| KeyArrays.DecodeEncodeInt | source/serialization.c:45-46 | htonl then ntohl is the identity on 32-bit ints |
| KeyArrays.EncodeDecodeInt | source/serialization.c:72-74 | ntohl then htonl is the identity on four bytes |
| Framing.WriteAll | source/message.c:9-17 | everything is written, or -1 exactly if a call failed and a prefix was |
| Framing.ReadAll | source/message.c:19-27 | exactly len bytes are read in order if so many are coming; -1 exactly if a call failed; no end if the stream ends before |
| Framing.FrameStartsWithSize | source/server_network.c:152-154 | a frame is the size of the message in four bytes, the most significant first, and the message |
| Framing.HopelessIff | source/server_network.c:125-131 | a size is hopeless exactly if the first bit of its four bytes is set |
| Framing.UnframeFrame | source/server_network.c:119-161 | a frame is read back whatever follows it |
| Framing.FramesAreUnambiguous | source/server_network.c:144-161 | one byte stream is the frames of at most one list of messages |
| Framing.UnframeFrames | source/server_network.c:119-161 | from the frames of any messages, whatever incomplete frame follows, exactly those messages are read back |
| Framing.FramesOfUnframed | source/server_network.c:119-161 | every byte stream is the frames of the messages read from it and a remainder |
| Framing.NetworkSend | source/server_network.c:144-161 | the frame is on the stream, or -1 exactly if a call failed |
| Framing.NetworkReceive | source/server_network.c:119-142 | over any stream: the first frame's payload and the rest; NULL on a failure or a negative size; no end if the frame is not complete |
| Framing.SendAll | source/client_network.c:89-103 | messages sent one after the other appear as their frames, whatever the short writes |
| Framing.ReceiveAll | source/server_network.c:61-62 | over any stream, whatever the short reads: exactly its messages in order up to the first that cannot be unpacked, a prefix of them on failure, and otherwise no end of the loop once the stream has ended |
| Framing.SendMessage | source/server_skeleton.c:180-195 | the forwarded message: some first bytes of the size and of the payload are sent, and success is reported unless a call failed |
| Framing.ForwardArrivesIff | source/server_skeleton.c:180-195 | the successor receives the forwarded message exactly if both writes took everything; with a cut payload it receives nothing and hangs |

## Left out

- Histories.StepKeepsInvariant: requires orderly steps, which is enough but not necessary; PerKey.KeyReadsMoveForward asks for order within one key only, PerKey.OvertakingReadsBack shows that this much is needed, and Chains.StepKeepsLinks and Origins.ReadsAreNotInvented cover steps of every kind.
- Chains.RunKeepsLinks: says nothing of a run with an unsafe step, after which a later step may bring the chain back on course by chance.
- Servers.Server.ChainWatcher: does not model that nothing registers `chain_watcher` with ZooKeeper; `qsort` is any correct sorting by `compare_nodes`.
- Servers.Server.HandleClient: serves a given list of requests; that the thread never ends once the client has closed its connection is Framing.ReceiveAll.
- Simulations.RunsAreChainRuns: ends with the last server alive; a crash of that one is not a step of the chain.
- Networks.StepKeepsUpward: a refresh on an empty list, where the code reads outside the list, is a fault in Servers.Server.ChainWatcher and not a step here.
- Framing.SendMessage: a forwarded message cut short or lost is not a step of `Networks`; Chains.DropIsExact says when it would do no harm.
- Sockets, connecting, accepting, timeouts, ports and address strings; protobuf packing, whose payloads are opaque bytes; ZooKeeper sessions and watch registration.
- Data races between threads, `malloc` failures, leaks and the order of `free`; NULL list, table and key arguments, which the types rule out.
- Statistics other than the reply code of OP_STATS; logging; destruction of lists and tables; `entry_duplicate`, `entry_replace`, `block_replace`, which the core does not use.
- `rtable_get_table` and the other client stubs, which copy a reply field by field; the command-line programs and the ZooKeeper samples.
