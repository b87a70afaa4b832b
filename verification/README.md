# Domotics: a verified model of the controller, its devices and their messages

A home-automation system written in C. One single-threaded controller owns two arrays of 128
slots, its device array and the routing table, which together describe a forest of hubs, timers,
bulbs, windows and fridges. Every device is a process of its own; all talk in lines of text over
FIFOs. This project models the parts where something can go wrong and proves what holds of them.

| files | part of the system |
|---|---|
| `Domotics` | constants, return codes, device types |
| `Forest`, `Linking`, `Subtree`, `Routing` | the routing table: ancestor chains, the bounded cycle walk, link, removal |
| `Registry`, `Purge`, `CascadeOrder`, `Retained`, `Skipping`, `CascadeFate`, `CascadeFrame`, `CascadeTimeout`, `CascadeEffect`, `CascadeSteps`, `ControllerLaws`, `DeleteExamples`, `Outcomes`, `Controller` | the device array and the routing table kept in step by add, link, rollback, crash, adoption, cascade delete and shutdown (module `ControllerTables` holds the class `Controller`) |
| `Directory`, `Reaping` | the registered devices by id, what each operation does to them, and the processes that end |
| `ChildList`, `Membership`, `MembershipRuns`, `MembershipAlways` | the lists the hub and timer processes keep, and LINK / CHILD_ADDED / CHILD_REMOVED between them and the controller |
| `Roster` | the controller's two tables as the parents the membership protocol talks about |
| `InfoText`, `LeafCommands`, `HubTree` | the commands of bulbs, windows and fridges, a hub switching and questioning the tree below it, and the text of the INFO replies |
| `Numerals`, `Wire`, `Framing` | printing and parsing of messages, and the byte-at-a-time reader |
| `TimeOfDay`, `TimerDevice` | the timer's daily window (module `TimerProcess` holds the class `TimerDevice`) |
| `UsageTime` | accumulated on-time of bulbs, windows and fridges |
| `Pending`, `Timeouts` | the 64 slots for outstanding requests, and whether their deadlines leave time for an answer |

Code that changes arrays and fields in place is modelled by classes with arrays and loops. Each
such method is tied to a function on values (for example `Finalized`, `Linked`, `Purged`,
`Removed`), and the laws are proved about those functions. What the operating system or another
process answers is a parameter, or chosen anew at every call (`Outcomes`). The parameter `calm` means that every
exchange with a running device succeeds and no process dies by itself; a message to a device that
was removed then fails, because its FIFO was unlinked.

## What was found

Six things one might expect of the code do not hold. Each is stated with the exact condition
under which it does, or with its exact effect.

* **Deleting a device can fail with every exchange working.** The delete keeps a pointer to an
  array slot while the recursion below it shifts the array, and then sends DEL to whatever device
  stands there. `Occupant` says which that is after any sequence of removals, and `FateOf` which
  devices a delete removes and with what code it ends; `DeleteDevice` does exactly that. It succeeds
  exactly when the order of removals is `Safe`: at no level does a smaller id leave before all
  larger ids have left. That is so when every child has a larger id than its parent
  (`IncreasingIsSafe`), and is not whenever a descendant has a smaller id and some device outside
  the subtree a larger one (`StrangerIsHit`). Otherwise there are two ways to fail (`DeleteCodes`):
    * The slot holds a stale copy of a device that is gone. The answer is ERR_DEVICE_NOT_FOUND, the
      device stays, and only devices below it went (`NotFoundLeaves`). A cascade passes over such a
      device and goes on.
    * The slot of some device in the subtree holds another device that is still there, or a child of
      it was passed over. That end times out, and with it the whole command. What was removed until
      then, and which single device was finalised on top, is in `TimeoutLeaves`: the device whose
      end timed out, which takes a child of it that was passed over, or one with a larger id,
      possibly the very device named in the command.

  `DeleteExamples` has four installations of three or four devices: a bystander removed instead of
  the device, a device not found, a device removed although the command times out and leaves a hub
  below it, and a hub left to the controller.
* **A timer can get two children in the controller's table.** The LINK notice sent to an orphan
  carries the orphan's own id as request id, so its late reply can land on the FIFO of the link
  request with that number and be read as the new parent's consent. `LinkExact` gives the
  condition under which a link is honest whatever the processes do in the meantime; over runs in
  which every link meets it (`RunsKeep`), a timer has at most one child and holds it, and a hub
  never forgets one. It is met whenever the request id is not the id of a running device
  (`ApartRunsKeep`). `TwoChildrenRun` is a run that ends with two. In every run, careful or not, a
  process holds each of its children, or has not read of it yet, or refused it (`RunsAlways`).
* **CHILD_REMOVED is processed twice in a hub**, with two counters. `DoubleRemoval` says what that
  does to any list: the first pass replaces one occurrence of the id by the last entry under the
  base counter, the second takes one occurrence out. No other id is ever lost (`RemovedLaw`), but
  the removed one may stay: exactly if it stood in the list at least three times, or twice with the
  first pass removing neither (`StillListed`). From a clean list the first removal leaves the last id
  twice, unless it takes the last entry (`FirstRemoval`); a hub with three children that die in the
  order of the list ends up listing the last of them (`ThirdStaysListed`, and as a run of the whole
  protocol `DeadChildStaysListed`).
* **A fridge loses open time.** A door command that finds the door open loses exactly the delay
  between the update before it and the command itself (`Fridge.Switch`). Over any sequence of
  messages at most the longest such delay is missing per door command (`Fridge.Serve`,
  `Fridge.NeverMoreThanTrueTime`, `Fridge.AtMostTheDelays`).
* **Accepted times are not always `HH:MM`.** A string passes exactly if it has five characters with
  a colon in the middle, a number below 24 before it and a number below 60 after it, where a number
  is two digits, one digit after a white space or a sign, or, behind the colon, one digit before
  anything else (`AcceptedExactly`); `"-0:7x"` passes and `"99:99"` does not. The accepted strings
  of the form `HH:MM` are those with digits on both sides of the colon (`AcceptedForm`), and
  `" 7:+5"` is none of them (`LooseTimeAccepted`). Comparison still agrees with minute order for
  every accepted string (`CompareIsMinuteOrder`).

* **A SWITCH can time out with every device working and every message delivered.** The deadline of
  a request counts the direct children only, and a hub waits 7 seconds for each child, while every
  device takes up to 3 seconds before it passes a command on. A hub is always in time exactly if
  none of its children has to wait for children of its own (`HubInTime`), and a hub inside another
  answers that one in time exactly if it has at most one child, with nobody below (`ChildInTime`).

Two branches turn out to be unreachable: the one in which a hub clears its list and copies it onto
itself, and the timer's own handling of CHILD_REMOVED after the common one.

## Model

| member | source | states |
|---|---|---|
| Linking.WalkBound | code/src/core/hierarchy.c:80-107 | pigeonhole: before it stops, the walk over the ancestors meets a new slot at every step, so at most as many as there are slots |
| Linking.WalkNeverStops | code/src/core/hierarchy.c:99-106 | a walk that has met one id more than there are slots without stopping never stops, so the safety counter cuts off nothing but endless walks |
| Linking.LinkCodes | code/src/core/hierarchy.c:35-74 | which answers need no walk, and exactly when each is given |
| Linking.LinkKeepsRooted | code/src/core/hierarchy.c:35-112 | on any table, with detached or cyclic chains too: after an OK link the child's chain reaches the controller and every id whose chain did still does |
| Linking.RollbackRestores | code/src/controller/controller.c:1293-1376 | from a rooted table, linking back to the old parent is always OK and gives the old table back |
| Forest.RootedIsAcyclic | code/src/core/hierarchy.c:75-107 | a device whose chain reaches the controller is not among its own ancestors |
| Routing.RoutingTable.Init | code/src/core/routing.c:32-41 | every slot is free |
| Routing.RoutingTable.FindIndex | code/src/core/hierarchy.c:20-31 | the first slot with the id, or -1; looking up -1 finds the first free slot |
| Routing.RoutingTable.AddNode | code/src/core/routing.c:44-69 | error code for every input; on OK only the first free slot changes, to the new node under the controller |
| Routing.RoutingTable.RemoveNode | code/src/core/routing.c:72-100 | the node's slot becomes free and exactly its children get parent -1; nothing else changes |
| Routing.RoutingTable.GetParentId | code/src/core/routing.c:103-119 | the parent in the slot that carries the id, or not found |
| Routing.RoutingTable.CollectChildren | code/src/core/routing.c:122-144 | writes exactly the children in slot order, or reports that they do not fit |
| Routing.RoutingTable.LinkDevices | code/src/core/hierarchy.c:35-112 | on any table: stops within 129 steps, answers exactly what the hierarchy demands (self link, unknown, wrong type, ancestor, dead end, endless chain), and only an OK result writes, namely the child's parent; on a rooted table a link between two live devices answers ERR_CYCLE_DETECTED iff the child is an ancestor of the parent, else OK |
| Subtree.ChildrenOf | code/src/core/routing.c:122-144 | the collected ids are exactly the live devices whose parent is the given one, each once |
| Subtree.BuriedWellFormed | code/src/controller/controller.c:218-253 | freeing a dead device's slot and giving its children to the controller keeps the forest rooted and every parent a live control device |
| Subtree.BelowSomeChild | code/src/controller/controller.c:439-471 | whatever lies strictly below a device lies below one of its children |
| CascadeOrder.OrderIsDesc | code/src/controller/controller.c:439-471 | the recursion lists the device and its descendants, each exactly once |
| CascadeOrder.OrderFrame | code/src/controller/controller.c:455-468 | removing devices elsewhere changes neither the order below a device nor whether that order is safe |
| CascadeOrder.IncreasingIsSafe | code/src/controller/controller.c:935-959 | when every child has a larger id than its parent, every cascade is safe for the retained slot |
| Registry.RoomInTable | code/src/controller/controller.c:842-895 | while fewer than 128 devices are registered the routing table has a free slot, so adding a node cannot fail |
| Registry.AddedValid | code/src/controller/controller.c:846-907 | a registered new device keeps both tables in step, sorted and rooted |
| Registry.AddRollback | code/src/controller/controller.c:908-912 | taking the node out again right after adding it restores the routing table |
| Registry.LinkCanBeTakenBack | code/src/controller/controller.c:1316-1376 | in every valid state the second routing link of a rollback succeeds and restores the table |
| Registry.LinkedValid | code/src/controller/controller.c:1293-1369 | writing the new parent into both tables keeps the invariant |
| Registry.FinalizedValid | code/src/controller/controller.c:218-253 | removing a dead device and adopting its children keeps the invariant |
| Registry.AdoptNext | code/src/controller/controller.c:218-223 | one round of the adoption loop changes the entry and the node of a device together, or neither |
| Registry.AdoptAll | code/src/controller/controller.c:218-253 | after the adoption loop erasing the dead node detaches nobody |
| Retained.OccupantIsId | code/src/controller/controller.c:132-136 | after a sequence of removals the slot where a device stood still holds it iff no smaller id went before all larger ones |
| Retained.OccupantRank | code/src/controller/controller.c:132-136 | which device stands in the slot, by rank: with n larger ids at the start, the survivor of the first n removals that has as many larger survivors as there were removals short of n |
| Retained.StaleExactly | code/src/controller/controller.c:132-136 | the slot holds a copy of a removed device iff more than n devices went and the largest survivor of the first n went later |
| Purge.SlotAfter | code/src/controller/controller.c:132-136 | after any sequence of removals the array slot, stale region included, holds exactly that occupant |
| Purge.PurgedValid | code/src/controller/controller.c:439-471 | any sequence of removals keeps the invariant and takes out exactly the named ids |
| CascadeEffect.PurgedOrder | code/src/controller/controller.c:922-986 | removing a subtree in cascade order leaves exactly the other devices, in their order, with their parents, in both tables |
| CascadeEffect.FateLeaves | code/src/controller/controller.c:439-471 | also when some devices are passed over, what went before a timeout is out of both tables and nothing else is disturbed |
| CascadeFrame.FateSafe | code/src/controller/controller.c:922-986 | a cascade ends well iff its order is safe, and then everything went in that order |
| CascadeFate.FateFollows | code/src/controller/controller.c:455-468 | devices come to an end in post-order, all of them unless the next one's end times out |
| CascadeFate.FateParts | code/src/controller/controller.c:455-468 | each device that came to an end went, in order, or was passed over |
| CascadeFate.FateDownClosed | code/src/controller/controller.c:439-471 | what went before a timeout went with everything below it |
| CascadeTimeout.FateStopped | code/src/controller/controller.c:956-985 | at a timeout the device removed last is the occupant of the retained slot of the device whose end timed out; it is that device only if one of its children was passed over |
| CascadeFrame.FateFrame | code/src/controller/controller.c:455-468 | removing devices elsewhere does not change the fate of a subtree |
| CascadeSteps.CascadeStep | code/src/controller/controller.c:455-468 | one round of the cascade loop: it goes on after OK and after ERR_DEVICE_NOT_FOUND, and stops at a timeout, with exactly the state the fate of the children says |
| CascadeSteps.SlotAfterChildren | code/src/controller/controller.c:935-956 | after the children are done the retained slot holds its occupant; the pid there finds exactly that device if it is still registered |
| CascadeSteps.DeleteEnds | code/src/controller/controller.c:956-985 | the end of a delete: ERR_DEVICE_NOT_FOUND if the device in the slot is gone, else that device is removed and the wait decides between OK and ERR_TIMEOUT, exactly as the fate says |
| ControllerLaws.DeleteCodes | code/src/controller/controller.c:922-986 | the three answers of a calm delete and exactly when each is given: OK iff the order is safe, ERR_DEVICE_NOT_FOUND iff nothing below timed out and the retained slot is stale, else ERR_TIMEOUT |
| ControllerLaws.NotFoundLeaves | code/src/controller/controller.c:959-962 | after ERR_DEVICE_NOT_FOUND the device is still there, only devices below it went, with everything below themselves, and the others keep order and parents |
| ControllerLaws.TimeoutLeaves | code/src/controller/controller.c:439-471 | what a timed-out delete of any depth leaves: the prefix of the post-order that came to an end, which of it went, the one device finalised in addition and whose slot it stood in, and that the named device is gone iff it is that one |
| ControllerLaws.DeleteIsExact | code/src/controller/controller.c:922-986 | a delete succeeds iff its order is safe; then it removed exactly the device and its descendants and the survivors keep order and parents |
| ControllerLaws.IncreasingDelete | code/src/controller/controller.c:922-986 | with larger ids below smaller ones a delete always succeeds and leaves tables of the same kind |
| ControllerLaws.AdoptionIsExact | code/src/controller/controller.c:218-253 | a dead device's children, and nobody else, get parent 0; every other device stays; no node is left with parent -1 |
| ControllerLaws.NothingLeft | code/src/controller/controller.c:1383-1413 | with no device registered every routing slot is free |
| ControllerLaws.StrangerIsHit | code/src/controller/controller.c:935-956 | a delete is unsafe whenever a descendant has a smaller id and a device outside the subtree a larger one |
| DeleteExamples.DeleteCanMissItsDevice | code/src/controller/controller.c:935-985 | a valid installation in which a calm delete times out, keeps the device and removes a bystander |
| DeleteExamples.DeleteCanNotFindItsDevice | code/src/controller/controller.c:956-962 | two bulbs under a hub: deleting the hub removes the bulbs, answers ERR_DEVICE_NOT_FOUND and keeps the hub |
| DeleteExamples.DeleteCanTimeOutAndRemove | code/src/controller/controller.c:935-985 | a chain of three: the delete times out at the middle device, which stays, and the named device is gone |
| DeleteExamples.DeleteCanLeaveAChild | code/src/controller/controller.c:462-467 | a hub under a hub: the inner one is not found and passed over, the outer one goes, and the command times out |
| ControllerTables.Controller.constructor | code/src/controller/controller.c:792-808 | empty, valid tables |
| ControllerTables.Controller.FindDevice | code/src/controller/controller.c:617-631 | the live slot with the id, or -1 iff there is none |
| ControllerTables.Controller.FindIndexByPid | code/src/controller/controller.c:269-285 | the first live slot with the pid, or -1 iff there is none |
| ControllerTables.Controller.RemoveAtIndex | code/src/controller/controller.c:120-137 | the later entries move down by one; an index outside the live entries changes nothing |
| ControllerTables.Controller.AdoptChildren | code/src/controller/controller.c:218-243 | both tables give exactly the dead device's children to the controller |
| ControllerTables.Controller.FinalizeDeadDevice | code/src/controller/controller.c:152-266 | a known pid removes exactly its device, with its children given to the controller; an unknown one changes nothing; the code is that of writing the registry file |
| ControllerTables.Controller.AddDevice | code/src/controller/controller.c:831-919 | the code is that of the first step that fails; OK adds exactly one entry to the directory, with the next id, the type asked for and a pid of its own, under the controller, and its routing node has the same type; every failure leaves the live tables as they were, and all but a full table use up an id |
| ControllerTables.Controller.LinkDevices | code/src/controller/controller.c:1262-1380 | OK changes exactly the child's parent in both tables; each failure, before or after the routing change, restores both tables; the code is the one of the tables, or else that of the first of the seven later steps that fails |
| ControllerTables.Controller.ReapTerminatedChildren | code/src/utils/cleanup.c:79-112 | for any list of dead pids: exactly the devices with a listed pid go, and each survivor keeps type, pid and parent, or gets parent 0 if the parent went |
| ControllerTables.Controller.CollectSubtree | code/src/controller/controller.c:722-754 | the device followed by its direct children; it cannot fail for a registered device |
| ControllerTables.Controller.WaitSubtreeRemoved | code/src/controller/controller.c:757-789 | exactly the devices go whose process ended at one of the looks; OK iff none of the ids is left at the last look, and it is given up only after the last |
| ControllerTables.Controller.DeleteChildrenCascade | code/src/controller/controller.c:439-471 | terminates under every outcome and keeps the invariant; with calm exchanges state and code are exactly the fate of the children |
| ControllerTables.Controller.DeleteDevice | code/src/controller/controller.c:922-986 | terminates under every outcome, keeps the invariant, only removes devices, and on OK the device is gone; with calm exchanges state and code are exactly the fate of the device |
| ControllerTables.Controller.SendDel | code/src/controller/controller.c:345-363 | with calm exchanges OK iff the device in the slot is still registered, else ERR_DEVICE_NOT_FOUND |
| ControllerTables.Controller.EndDevice | code/src/controller/controller.c:956-985 | the retained slot decides which device gets DEL and is finalised, or that none is found; if DEL or the wait for the process fails, its code is the answer and nothing changes |
| ControllerTables.Controller.Destroy | code/src/controller/controller.c:1383-1413 | OK means both tables are empty; with calm exchanges and increasing ids it is always OK |
| ControllerTables.Controller.Round | code/src/ipc/event_loop.c:205-357 | after one round no device is left that had one of the pids handed out as dead |
| ControllerTables.Controller.Run | code/src/controller/controller.c:152-1413 | every sequence of rounds, under every outcome of every exchange, keeps the invariant and the pids distinct; an id is never given to another device, and no device is left whose pid was handed out as dead |
| Directory.RoutedAlike | code/src/controller/controller.c:831-919 | the device array and the routing table have the same devices with the same types and parents, and every parent is registered |
| Directory.DirectoryAdded | code/src/controller/controller.c:846-907 | an add makes one new entry, with the type asked for; nobody else changes |
| Directory.DirectoryLinked | code/src/controller/controller.c:1293-1369 | a link changes one entry, in its parent alone |
| Directory.DirectoryFinalized | code/src/controller/controller.c:218-253 | a burial takes one entry out and gives its children to the controller; nobody else changes |
| Directory.OnlyWentTwice | code/src/controller/controller.c:152-266 | devices that go one after the other leave what they would leave together |
| Reaping.ReapedOne | code/src/utils/cleanup.c:94-105 | with the pids apart, one more dead pid takes out exactly its device |
| ChildList.AddedLaw | code/src/devices/hub.c:51-75 | after an add exactly the old ids and, if accepted, the new one are listed; a new id goes to the end and sets both counters; when it is refused and with which code |
| ChildList.RemovedLaw | code/src/devices/hub.c:545-566 | however the two passes interleave, no other id is lost and none invented |
| ChildList.DoubleRemoval | code/src/core/device_common.c:80-101 | for every list and id: how often each id is listed after a removal was processed twice, and both counters |
| ChildList.StillListed | code/src/devices/hub.c:78-96 | a removed id is still listed iff it was listed at least three times, or twice and the first pass removed neither |
| ChildList.FirstRemoval | code/src/core/device_common.c:80-101 | the exact list after the first removal from a clean one: clean for the last entry, a duplicate of the last id and counters apart for any other |
| ChildList.ThirdStaysListed | code/src/devices/hub.c:545-566 | removing three children in the order of the list leaves the third one listed |
| ChildList.HubDevice.AddChildLocal | code/src/devices/hub.c:51-75 | new list and return code for every id |
| ChildList.HubDevice.HandleChildRemovedCommon | code/src/core/device_common.c:80-101 | the first pass, over the base counter |
| ChildList.HubDevice.RemoveChildLocal | code/src/devices/hub.c:78-96 | the second pass, over the hub's counter, and its return code |
| ChildList.HubDevice.ChildRemoved | code/src/core/device_common.c:276-283 | one message runs both passes |
| ChildList.HubDevice.LoadChildren | code/src/devices/hub.c:136-184 | always OK, never changes what is listed; the copy branch is unreachable |
| Membership.HandleLaw | code/src/devices/timer.c:283-339 | a process keeps every child it is not told to drop, gains only the child it is told of, and holds it after answering OK |
| Membership.DeliverKeeps | code/src/core/device_common.c:276-320 | a process taking one message keeps the agreement between the two sides |
| Membership.BuryKeeps | code/src/controller/controller.c:205-247 | burying a dead device, with or without the notices getting through, keeps it |
| Membership.ParentForgets | code/src/controller/controller.c:208-213 | a parent that is told of a dead child and reads the notice no longer counts it, unless a hub listed it twice |
| Membership.CommitKeeps | code/src/controller/controller.c:1363-1369 | accepting the answer keeps it |
| Membership.GiveUpKeeps | code/src/controller/controller.c:1356-1376 | giving up on a link after a timeout, an error or a failed write keeps it, although CHILD_ADDED may still be under way |
| Membership.LinkExact | code/src/controller/controller.c:1334-1369 | a link is honest for every behaviour of the processes iff no orphan's notice is queued that could answer in the new parent's place |
| Membership.ThreatIsReal | code/src/controller/controller.c:237-240 | if there is such a notice, some behaviour makes the controller record a child its parent does not hold |
| Membership.OneChildPerTimer | code/src/devices/timer.c:283-314 | in every state of the invariant a timer has at most one child in the table and the timer process holds it |
| Membership.HubNeverForgets | code/src/devices/hub.c:51-96 | in every state of the invariant base count <= count <= 128, the hub lists all its children and only ids it was once told |
| MembershipRuns.NextKeeps | code/src/controller/controller.c:1334-1369 | every event keeps the invariant, a link provided it is started when no notice can answer for the parent |
| MembershipRuns.RunsKeep | code/src/controller/controller.c:1334-1369 | over all interleavings of adds, failed adds, links, timeouts, crashes, burials and message handling with careful links, the two sides agree at every point |
| MembershipRuns.ApartRunsKeep | code/src/controller/controller.c:1338-1346 | the same for all runs in which no link uses the id of a running device as its request id, which the controller can tell beforehand |
| MembershipRuns.MishapCanArise | code/src/controller/controller.c:226-242 | a run of ordinary events that leaves an orphan's notice queued under the next link's request id |
| MembershipRuns.TimerGetsTwoChildren | code/src/controller/controller.c:1340-1369 | from there one link gives the timer a second child in the table while the timer process will refuse it |
| MembershipRuns.TwoChildrenRun | code/src/controller/controller.c:226-242 | one run from the start, after which the controller is between commands and its table has two children for a running timer that holds one |
| MembershipRuns.DeadChildStaysListed | code/src/devices/hub.c:545-566 | a run from the start after which a hub has read every notice and lists a device that died and left the table |
| MembershipAlways.RunsAlways | code/src/controller/controller.c:1334-1369 | over all runs, careful or not: every child in the table is held by its parent's process, or CHILD_ADDED is still queued there, or was refused |
| MembershipAlways.HubOverRuns | code/src/devices/hub.c:51-96 | over all runs: base count <= count <= 128, a hub lists only ids it was told of, and each of its children unless it has not read of it or refused it |
| MembershipAlways.RefusedWhenFull | code/src/devices/hub.c:66-69 | a hub refuses a device only when its list is full of others |
| Roster.RosterById | code/src/controller/controller.c:831-919 | the protocol's map is the parents of the directory |
| Roster.RosterAdded | code/src/controller/controller.c:846-907 | adding a device gives the map one new entry, under the controller, as in the protocol |
| Roster.RosterLinked | code/src/controller/controller.c:1293-1369 | a link changes one entry of the map, as the protocol's commit does |
| Roster.RosterFinalized | code/src/controller/controller.c:218-253 | a burial takes one entry out and gives its children to the controller, as in the protocol |
| Roster.NextNames | code/src/controller/controller.c:1262-1380 | whatever the controller does to its tables is a step the protocol has, links included, and keeps the two maps equal |
| Roster.TablesFollow | code/src/controller/controller.c:831-1380 | every run of the tables is a run of the protocol; a device the tables give to a parent is held by its process, or not yet read of, or was refused |
| LeafCommands.BulbObeys | code/src/devices/bulb.c:171-219 | which labels and positions a bulb accepts, and whether it is on after each |
| LeafCommands.WindowObeys | code/src/devices/window.c:120-174 | which labels and positions a window accepts, and whether it is open after each |
| LeafCommands.FridgeObeys | code/src/devices/fridge.c:129-190 | which labels and positions a fridge accepts, and whether its door is open after each |
| InfoText.AcrossSpace | code/src/devices/hub.c:257-264 | a key without spaces found in a reply lies inside one of its words |
| InfoText.InsidePair | code/src/devices/hub.c:257-264 | inside key=value the search finds name=start iff the key ends in the name and the value begins with the start |
| InfoText.ReadsTheState | code/src/devices/hub.c:250-268 | from the reply of a bulb, window, fridge or hub, whatever its numbers, a hub reads exactly the state printed, and nothing from manual_override or unknown |
| InfoText.ReadsTheDevice | code/src/devices/bulb.c:48-65 | from every reply, whatever the state and the other numbers, the kind, the id, the parent and the state word are read back under their keys |
| InfoText.ReadsTheOverride | code/src/devices/bulb.c:48-65 | a bulb's reply says whether it was switched by hand |
| InfoText.WordsForStates | code/src/devices/window.c:27-37 | the word printed for each state of each kind |
| HubTree.Device.constructor | code/src/devices/hub.c:651-674 | disjoint trees under a hub form a tree, also when the list names a child twice; every device starts off or closed |
| HubTree.Device.LeafSwitch | code/src/devices/window.c:120-174 | any label and position at a bulb, window or fridge: the status and state of the leaf's own process, by the same function as UsageTime |
| HubTree.Device.Switch | code/src/devices/hub.c:587-631 | a hub that accepts the command answers OK whatever gets lost, and exactly the devices reached take the state and lose their override; a refused command changes nothing |
| HubTree.Device.ReachedExactly | code/src/devices/hub.c:355-380 | who is reached: the device itself, of the children of each one reached those the message gets to, and nobody else |
| HubTree.Device.SwitchChild | code/src/devices/hub.c:272-326 | what one child makes of the command it gets or misses |
| HubTree.Device.PropagateToChildren | code/src/devices/hub.c:329-387 | the loop over any list of children, one named twice included, with lost replies skipped, switches exactly the devices reached |
| HubTree.Device.CheckConsistency | code/src/devices/hub.c:390-453 | the loop with its early exits over any list of children, one named twice included, finds them consistent iff every descendant answers and all leaves are in one state, and then stores that state |
| HubTree.Device.AskChild | code/src/devices/hub.c:414-433 | the state one child reports: present iff it answers and its leaves agree; a child asked again says the same |
| HubTree.Device.AskNext | code/src/devices/hub.c:409-446 | asking the next child of the list leaves what those before it said true, whether or not it is one of them |
| HubTree.Device.Info | code/src/devices/hub.c:456-490 | the reply names a state iff every descendant answers and every leaf is in that state; otherwise the hub goes to manual_override; kind, id and parent, and a bulb's override, are read back from it; leaves stay as they are but for doors due to close |
| HubTree.Device.OneState | code/src/devices/hub.c:434-446 | a tree is unanimous about at most one state |
| HubTree.Device.SwitchThenInfo | code/src/devices/hub.c:329-490 | after a switch, an INFO at any device of the tree reports a state iff everything below answers and each leaf below was reached and switched to it, or was missed and in it already; with no message lost it reports the state switched to, without override |
| Numerals.ParsePrinted | code/src/core/serialization.c:16-40 | reading back a printed 32-bit number gives that number |
| Wire.RoundTrip | code/src/core/serialization.c:63-185 | a message with no separator or newline in sender, command and arguments, and no newline in the payload, is read back as it was, as a request, without source if it came from EXT |
| Wire.DecodedIsClean | code/src/core/serialization.c:96-185 | whatever line is accepted, the message fits its arrays and is already normal |
| Wire.DecodeNormalises | code/src/core/serialization.c:96-185 | writing and re-reading the message of any accepted line gives the same message |
| Wire.CutJoined | code/src/core/serialization.c:116-128 | cutting joined fields at the separators gives the fields back, the last of which may contain separators |
| Wire.FieldOrder | code/src/core/serialization.c:75-86 | the eleven fields on the wire and their order |
| Wire.DecodeNeedsBars | code/src/core/serialization.c:116-124 | a line with fewer than ten separators is refused |
| Wire.DecodedWhen | code/src/core/serialization.c:130-184 | any other is accepted iff its numbers can be read, the source only of messages from inside; which field goes where, and what is cut off |
| Framing.SerializeMessage | code/src/core/serialization.c:63-92 | OK iff the text and its terminator fit, and then the buffer holds the text |
| Framing.StrCSpn | code/src/core/serialization.c:111 | the text before the first newline or terminator |
| Framing.SplitFields | code/src/core/serialization.c:116-128 | writing terminators over ten delimiters leaves exactly the eleven fields in the buffer, or fails iff there are fewer delimiters |
| Framing.DeserializeMessage | code/src/core/serialization.c:96-185 | on any terminated buffer: the same message, or the same failure, as the reading function on the text |
| Framing.ReadFields | code/src/core/serialization.c:131-184 | the fields copied and parsed one by one, stopping at the first that is not a number |
| Framing.ReadLine | code/src/ipc/message.c:29-69 | takes bytes up to the newline and never writes past the buffer; every way of ending has its code |
| Framing.RecvMessage | code/src/ipc/message.c:14-70 | one call on any FIFO content: code, message and what is left; a drained FIFO reports a timeout |
| Framing.StreamRoundTrip | code/src/ipc/message.c:14-70 | reading a concatenation of sendable messages gives those messages in order and leaves nothing; a further call finds no message |
| Framing.LimitsAgree | code/src/core/routing.c:193-209 | a line is taken whole by the reader iff it is short enough to have been sent |
| TimeOfDay.CompareIsMinuteOrder | code/src/devices/timer.c:60-71 | comparing two accepted strings is comparing minutes of the day, for every string the validation lets through |
| TimeOfDay.AcceptedExactly | code/src/devices/timer.c:33-57 | exactly which strings pass the validation, and the minute each stands for |
| TimeOfDay.AcceptedForm | code/src/devices/timer.c:33-57 | an accepted string is of the form HH:MM iff there are digits on both sides of the colon |
| TimeOfDay.LooseTimeAccepted | code/src/devices/timer.c:33-57 | a string that is not of the form HH:MM passes the validation and stands for a minute |
| TimeOfDay.ClockTextAccepted | code/src/devices/timer.c:433 | the printed system time is accepted and means that minute |
| TimeOfDay.WindowIsModular | code/src/devices/timer.c:439-449 | the three-way test is on iff (now - begin) mod 1440 < (end - begin) mod 1440 |
| TimeOfDay.WindowIs | code/src/devices/timer.c:439-449 | on from begin up to but not including end, past midnight if the end comes first, never if they are equal |
| TimeOfDay.OnMinutesPerDay | code/src/devices/timer.c:439-449 | exactly (end - begin) mod 1440 minutes of a day are on |
| TimerProcess.TimerDevice.Update | code/src/devices/timer.c:410-472 | unset, overridden, childless or unreachable: no change, each said of the field; otherwise the state is the one the window demands |
| TimerProcess.TimerDevice.ScheduledOn | code/src/devices/timer.c:435-449 | the window test on the clock and the stored strings is the modular window |
| TimerProcess.TimerDevice.Set | code/src/devices/timer.c:250-280 | stores exactly the accepted times |
| TimerProcess.TimerDevice.Switch | code/src/devices/timer.c:206-235 | a failed propagation changes nothing; a forwarded command ends the override even when its position is then refused |
| TimerProcess.TimerDevice.Report | code/src/devices/timer.c:238-245 | a STATUS that begins with manual_override sets the override, any other changes nothing |
| TimerProcess.TimerDevice.Serve | code/src/devices/timer.c:186-472 | over any sequence of looks, reports, SWITCH, SET and child messages: overridden iff a report has had no forwarded SWITCH after it, and from a report to the next forwarded SWITCH the state does not change |
| TimerProcess.TimerDevice.Episode | code/src/devices/timer.c:206-472 | a report, any messages but a forwarded SWITCH, then one and a look at the clock: no change until the SWITCH, and the window's state after the look |
| TimerProcess.TimerDevice.AddChild | code/src/devices/timer.c:283-314 | a second child is refused and the first one kept; status and slot are those of the membership protocol |
| TimerProcess.TimerDevice.RemoveChild | code/src/devices/timer.c:317-339 | only its own child is dropped, as in the membership protocol; the timer's own pass is unreachable after the common one |
| UsageTime.Account | code/src/devices/bulb.c:31-45 | total and open interval together remain the true time |
| UsageTime.Bulb.UpdateUsageTime | code/src/devices/bulb.c:31-45 | the total is the true on-time up to now |
| UsageTime.Bulb.Switch | code/src/devices/bulb.c:171-219 | accounting stays exact through every accepted and refused switch; state, override and status |
| UsageTime.Window.Update | code/src/devices/window.c:221-232 | the total is the true open time up to now |
| UsageTime.Window.Switch | code/src/devices/window.c:120-174 | accounting stays exact; every label and position, "open off" doing nothing; the two switch flags mirror the window |
| UsageTime.Fridge.Update | code/src/devices/fridge.c:286-313 | after an update an open door was opened by a command less than 30 seconds ago, and only such a door is open |
| UsageTime.Fridge.Info | code/src/devices/fridge.c:55-81 | reports the true open time minus what was lost so far, and loses nothing itself |
| UsageTime.Fridge.Switch | code/src/devices/fridge.c:129-190 | for every label and position: a command that moves the door while it is open loses exactly the delay between update and command and is counted with it, any other loses nothing; the thermostat follows up and down and leaves the door alone |
| UsageTime.Fridge.NeverMoreThanTrueTime | code/src/devices/fridge.c:39-51 | the total never exceeds the true open time and misses at most the longest delay per door command that found the door open; Switch says how both are counted |
| UsageTime.Fridge.Serve | code/src/devices/fridge.c:286-313 | over any sequence of rounds, INFO and SWITCH: no more interruptions than door commands, and no longer delay than the longest of theirs |
| UsageTime.Fridge.AtMostTheDelays | code/src/devices/fridge.c:129-190 | with delays of at most 3 seconds the total misses at most 3 seconds per door command handled |
| Pending.PendingTable.ClearPending | code/src/controller/controller.c:703-719 | frees the slot and closes its descriptor |
| Pending.PendingTable.AllocPending | code/src/controller/controller.c:664-682 | takes the first free slot, or fails iff all are in use |
| Pending.PendingTable.Issue | code/src/controller/controller.c:1033-1083 | a request that fails on the way out leaves no slot and no descriptor behind; a sent one fills one free slot, with the deadline its target's type and children call for |
| Pending.PendingTable.Complete | code/src/controller/controller.c:1168-1218 | an answer frees exactly the slot of its descriptor; anything else frees nothing |
| Pending.PendingTable.HandleReplies | code/src/ipc/event_loop.c:128-181 | each ready descriptor is read once; answered and broken requests free their slot, empty reads keep it, no other slot changes |
| Pending.PendingTable.ExpirePending | code/src/controller/controller.c:1221-1259 | frees exactly the slots that are due; every outstanding deadline is then in the future |
| Pending.RoundLaw | code/src/ipc/event_loop.c:128-181 | a request stays outstanding iff its deadline is past at none of the three looks and nothing, or an empty read, came; else its slot is freed |
| Pending.PendingTable.Round | code/src/ipc/event_loop.c:205-357 | one round of the event loop with its three expiries, the typed request and the replies: what becomes of each slot, and no outstanding deadline has passed |
| Pending.PendingTable.Run | code/src/ipc/event_loop.c:185-357 | over any sequence of rounds every request issued is answered, failed, discarded, expired or outstanding, and each open descriptor belongs to exactly one slot |
| Timeouts.HubInTime | code/src/controller/controller.c:1430-1445 | with every delay in its range a hub answers a SWITCH before the controller's deadline whatever the delays iff none of its children waits for others |
| Timeouts.ChildInTime | code/src/devices/hub.c:272-326 | a child hub answers within the 7 seconds its parent waits iff it has at most one child, which waits for nobody |
| Timeouts.LeafInTime | code/src/controller/controller.c:1438-1445 | a device that waits for no others is always in time, for the controller and for a hub |

## Left out

* Processes, signals, FIFOs, `select`, sleeping and `waitpid`: every call that depends on them returns an arbitrary result, or success throughout when `calm`.
* The content of the registry file: only whether writing it succeeds.
* The shell, the command parser, the manual client and all printing.
* The wrap-around of `int` ids and request ids after 2^31 and of `unsigned long` totals.
* Interrupted reads (EINTR), which the reader repeats, and partial writes.
* Events on the controller's own FIFO (STATUS, OVERRIDE), the SET command of the fridge, and the STATUS message that puts a hub into override.
* In `Timeouts`: every delay but the devices' own and the waiting for children. The deadlines of INFO, whose loop stops at the first silent child, are not compared.
* The five extra rounds that read late replies when the shell exits.
* A pid that the operating system hands out while a process with that pid was not yet waited for. The exact result of a delete is stated for distinct pids, which every run keeps.
* That the lists in the devices equal the controller's table: re-linking does not tell the old parent. The inclusions are proved instead.
* Timers inside a tree that is switched and queried: their INFO may change their state first. They are modelled separately.
- HubTree.Device: the children are references to the devices behind the FIFOs; a late reply is one that does not arrive, and a late message is handled when it was sent or never. The sets of devices a message gets to and that answer are those of one pass; for a child named twice they hold what is reached at least once and what answers every time, since a second SWITCH or INFO changes nothing more.
- ControllerTables.Controller.Destroy: the scan for the first entry with a pid is the first entry, since every live entry has one.
- ControllerTables.Controller.CollectSubtree: the two local id arrays are sequences here.
- ControllerTables.Controller.EndDevice: with AdoptChildren, RemoveDead, Register, Reap, LookOnce, DeleteChild, Execute, HandleReply, Type, Framing.ReadLine, Framing.CutOne, Fridge.MoveDoor, HubTree.Device.AskNext, Word and CloseIfDue, and TimerDevice.Meet and Resume it is a part of one C function, given a contract of its own.
- UsageTime.Bulb.Switch: the words of a SWITCH are the cases the handlers compare them with, not strings.
- Membership.LinkExact: the exchange of LINK with the child before CHILD_ADDED only uses up a request id; a failing one ends the command before anything changes.
