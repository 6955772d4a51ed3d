# Chatter: a Dafny model of one group-chat actor

The 2019 project of the distributed-systems lab (`it.unitn.ds1`) is a view-synchronous
group chat built from Akka actors. Each `Chatter` actor has four jobs:

- it originates chat messages and multicasts them to the members of its installed view;
- it holds back incoming messages until their stability acknowledgement arrives;
- it runs a flush protocol whenever the coordinator (identity 0) announces a new view;
- at the coordinator, it admits joining actors and evicts members whose beacons stop.

Each handler runs to completion on the actor's private state. So the actor is modelled
as one Dafny class, `ChatterActor.Chatter`, with one method per handler and helper.
Every `tell` the actor makes is appended to an `outbox` sequence. Every callback it
schedules is appended to `scheduled`. Every history line is appended to `chatHistory`.
A shuffled send order is taken to be the view's own order.

The project has four files:

- `java_lists.dfy` (module `JavaLists`): the `java.util` list operations the actor
  relies on, stated over sequences. These are `indexOf`, `remove(int)`, `remove(Object)`,
  `containsAll`, `Collections.max`, and the "every member except me" filter that each
  multicast loop performs.
- `messages.dfy` (module `ChatterMessages`): the values the actor exchanges and keeps.
  These are views (`Groups`), chat messages, wire messages and envelopes, timers,
  history events and handler outcomes. It also holds how a join and an eviction build
  the next view.
- `lookups.dfy` (module `ChatterLookups`): the read-only lookups
  (`findIndexViewId`, `findDuplicate`, `canDeliver`). It also gives reference
  definitions for what `findDeliverable`, `deleteOldMsg`, the join's highest-identity
  loop and the flush drain compute.
- `chatter.dfy` (module `ChatterActor`): the actor class, with fields that mirror the
  Java fields.

The class's methods run the Java loops as `while` loops, with invariants. Each method
is proved against the reference definitions. The properties are:

- A normal message is queued exactly when it belongs to a later view, or to the
  installed view and is not yet delivered.
- A stability acknowledgement moves the first queued message it names to the
  delivered list. The other queued messages keep their order, and nothing is lost or
  invented: the multiset of queued plus delivered messages is unchanged.
- `crashed` is never reset. A crashed actor ignores chat, view, flush and timeout
  messages.
- While a view change is in progress, nothing is originated.
- A join assigns an identity above every identity in the views the coordinator holds,
  and extends both member lists of the newest view in step.
- An eviction removes the same position from both member lists.
- A flush empties the queue. Only the queue's head is re-sent and delivered, because
  the member iterator is shared by the whole drain.
- Installing a view lowers the inhibit counter by one, clears the flush record, and
  leaves no queued message of an older view. Every handler keeps that last fact
  (`QueueCurrent`), so a stable acknowledgement only delivers messages of the installed
  view or later.

## Model

Source paths are relative to the repository root.

| member | source | states |
|---|---|---|
| JavaLists.Count | lab/projects/2019-project/src/main/java/it/unitn/ds1/Chatter.java:260 | The number of occurrences of a value is at most the length, and is zero exactly when the value is absent (a multicast is complete when self occurs once). |
| JavaLists.IndexOf | lab/projects/2019-project/src/main/java/it/unitn/ds1/Chatter.java:473 | `indexOf` is -1 exactly when the element is absent. Otherwise it holds the element, and no earlier position does. |
| JavaLists.RemoveAt | lab/projects/2019-project/src/main/java/it/unitn/ds1/Chatter.java:474 | `remove(int)` shortens the list by exactly one. |
| JavaLists.RemoveAtSpec | lab/projects/2019-project/src/main/java/it/unitn/ds1/Chatter.java:474 | `remove(int)` keeps the earlier elements in place and shifts the later ones down by one. Together with the removed element, the result is the old multiset. |
| JavaLists.RemoveAtMultiset | lab/projects/2019-project/src/main/java/it/unitn/ds1/Chatter.java:474 | The removed element plus what remains is exactly the old multiset: `remove(int)` loses and invents nothing. |
| JavaLists.RemoveFirst | lab/projects/2019-project/src/main/java/it/unitn/ds1/Chatter.java:475 | `remove(Object)` shortens the list by one when the element is present, and leaves it unchanged when it is absent. |
| JavaLists.RemoveFirstCount | lab/projects/2019-project/src/main/java/it/unitn/ds1/Chatter.java:475 | `remove(Object)` takes away exactly one occurrence of a present element and no occurrence of any other value. |
| JavaLists.RemoveFirstIsRemoveAtIndexOf | lab/projects/2019-project/src/main/java/it/unitn/ds1/Chatter.java:473-475 | Removing a present member by value removes the position `indexOf` reports. So removing that index from the identity list keeps the two lists aligned. |
| JavaLists.MaxOf | lab/projects/2019-project/src/main/java/it/unitn/ds1/Chatter.java:294-295 | `Collections.max` of a non-empty list is an element of it and bounds every element. |
| JavaLists.Without | lab/projects/2019-project/src/main/java/it/unitn/ds1/Chatter.java:249-252 | The members a send loop reaches, skipping self, number the group size minus the occurrences of self. |
| JavaLists.WithoutMembers | lab/projects/2019-project/src/main/java/it/unitn/ds1/Chatter.java:249-251 | A send loop reaches exactly the members other than self. |
| JavaLists.WithoutFirstOther | lab/projects/2019-project/src/main/java/it/unitn/ds1/Chatter.java:232-237 | The first member the crash loop does not skip is the first member other than self. |
| JavaLists.WithoutOnlyMe | lab/projects/2019-project/src/main/java/it/unitn/ds1/Chatter.java:232-238 | A group holding only self leaves the crash loop with no peer. |
| JavaLists.ContainsAllLength | lab/projects/2019-project/src/main/java/it/unitn/ds1/Chatter.java:419 | When the flush record passes `containsAll` against a view whose member addresses are distinct, the record has at least as many entries as the view has members. InstallNext states this for the record it clears. |
| ChatterMessages.Admit | lab/projects/2019-project/src/main/java/it/unitn/ds1/Chatter.java:299-305 | The joined view carries the new view id, has one more member, and contains the newcomer. |
| ChatterMessages.AdmitKeepsPairs | lab/projects/2019-project/src/main/java/it/unitn/ds1/Chatter.java:299-305 | A join keeps the identity and address lists of equal length. The pairs are the old ones followed by (newId, newcomer). |
| ChatterMessages.Evict | lab/projects/2019-project/src/main/java/it/unitn/ds1/Chatter.java:470-479 | The evicted view carries the new view id and has one member fewer. |
| ChatterMessages.EvictKeepsPairs | lab/projects/2019-project/src/main/java/it/unitn/ds1/Chatter.java:470-479 | An eviction keeps both lists of equal length. Its pairs are the old pairs with the evicted position removed, so every survivor keeps its identity. |
| ChatterMessages.BroadcastIsTells | lab/projects/2019-project/src/main/java/it/unitn/ds1/Chatter.java:245-259 | A multicast is one tell to each member other than self, in member order. |
| ChatterLookups.FindIndexViewId | lab/projects/2019-project/src/main/java/it/unitn/ds1/Chatter.java:487-498 | The result is -1 or a position holding a view with the requested id. |
| ChatterLookups.FindIndexViewIdSpec | lab/projects/2019-project/src/main/java/it/unitn/ds1/Chatter.java:487-498 | The lookup returns -1 exactly when no held view has the id. Otherwise it returns the first position that has it. |
| ChatterLookups.NextViewNewer | lab/projects/2019-project/src/main/java/it/unitn/ds1/Chatter.java:411-419 | When the held views are in increasing id order and none is older than the installed view, the view onFlush waits for (the one after the installed view, or the first held view) is newer than the installed view. |
| ChatterLookups.ListIdOf | lab/projects/2019-project/src/main/java/it/unitn/ds1/Chatter.java:594-603 | For the first held view with the given id, the result is that view's identity list, as `findIndexViewId` picks it. When no view has the id, Java fails on `groups.get(-1)` and the model yields `[]`. Its only caller logs an install, where the installed view is held. |
| ChatterLookups.FindDuplicate | lab/projects/2019-project/src/main/java/it/unitn/ds1/Chatter.java:532-540 | True exactly when some delivered message has the same id. |
| ChatterLookups.FirstDeliverable | lab/projects/2019-project/src/main/java/it/unitn/ds1/Chatter.java:546-556 | The position where findDeliverable stops is -1, or a queued message the acknowledgement names (`canDeliver`). |
| ChatterLookups.FirstDeliverableSpec | lab/projects/2019-project/src/main/java/it/unitn/ds1/Chatter.java:546-560 | The search fails exactly when no queued message is named. Otherwise no earlier queued message is named. |
| ChatterLookups.AllRecentSpec | lab/projects/2019-project/src/main/java/it/unitn/ds1/Chatter.java:500-507 | The recursive recent-queue predicate holds exactly when every queued message is of view v or later. |
| ChatterLookups.AllRecentSnoc | lab/projects/2019-project/src/main/java/it/unitn/ds1/Chatter.java:518-519 | Queueing a normal message of the installed view or later keeps the queue recent. |
| ChatterLookups.AllRecentRemoveAt | lab/projects/2019-project/src/main/java/it/unitn/ds1/Chatter.java:513-516 | Delivering a queued message through a stable acknowledgement keeps the queue recent. The delivered message is of the installed view or later. |
| ChatterLookups.Purge | lab/projects/2019-project/src/main/java/it/unitn/ds1/Chatter.java:500-507 | A purge never lengthens the queue. |
| ChatterLookups.PurgeMembers | lab/projects/2019-project/src/main/java/it/unitn/ds1/Chatter.java:500-507 | A message survives deleteOldMsg exactly when it was queued and belongs to the installed view or a later one. |
| ChatterLookups.PurgeStep | lab/projects/2019-project/src/main/java/it/unitn/ds1/Chatter.java:501-506 | One iterator step of deleteOldMsg removes the current message if it is older, or passes it. Either way it extends the purged prefix by one message of the original queue. |
| ChatterLookups.PurgeKeepsRecent | lab/projects/2019-project/src/main/java/it/unitn/ds1/Chatter.java:500-507 | No message of an older view is left in the queue. |
| ChatterLookups.PurgeCount | lab/projects/2019-project/src/main/java/it/unitn/ds1/Chatter.java:500-507 | Every occurrence of a recent message survives, and no occurrence of an older one does. |
| ChatterLookups.PurgeIdempotent | lab/projects/2019-project/src/main/java/it/unitn/ds1/Chatter.java:500-507 | A second deleteOldMsg within the same view removes nothing. |
| ChatterLookups.MaxKnownId | lab/projects/2019-project/src/main/java/it/unitn/ds1/Chatter.java:291-296 | The highest identity the join loop finds is never negative, because the loop starts from 0. |
| ChatterLookups.MaxKnownIdSpec | lab/projects/2019-project/src/main/java/it/unitn/ds1/Chatter.java:291-297 | Every identity in every held view is at most that maximum, and a positive maximum is one of them. So max + 1 is fresh among the held views. |
| ChatterLookups.Rescued | lab/projects/2019-project/src/main/java/it/unitn/ds1/Chatter.java:367-389 | A flush delivers at most one queued message: the head, retagged type 2. It does so exactly when the queue and the peer list are both non-empty. |
| ChatterLookups.Retag | lab/projects/2019-project/src/main/java/it/unitn/ds1/Chatter.java:375 | The flush copy has type 2 and agrees with the queued message on every other field. |
| ChatterLookups.RescuedRecent | lab/projects/2019-project/src/main/java/it/unitn/ds1/Chatter.java:367-389 | When no queued message is older than a view, neither is the message a flush delivers. |
| ChatterLookups.DeliveriesSpec | lab/projects/2019-project/src/main/java/it/unitn/ds1/Chatter.java:562-573 | Each delivered message gets its own "deliver" history line, in delivery order. |
| ChatterLookups.DrainTouchesOnlyHead | lab/projects/2019-project/src/main/java/it/unitn/ds1/Chatter.java:367-389 | Every chat message a flush sends is the retagged head, sent to a member other than self, once per peer. It is delivered locally exactly when it is sent at all. |
| ChatterActor.StableAck | lab/projects/2019-project/src/main/java/it/unitn/ds1/Chatter.java:241-243 | The acknowledgement has type 1 and the sender's view. `canDeliver` (lines 558-560) accepts exactly the message with the acked id. Its id differs from every numbered message id of the sender. |
| ChatterActor.Chatter.constructor | lab/projects/2019-project/src/main/java/it/unitn/ds1/Chatter.java:20-58 | A new actor has the given identity, and zero counters and view. It is not crashed, holds no views, its queues and records are empty, and it has sent and scheduled nothing. The empty queue satisfies `QueueCurrent`. |
| ChatterActor.Chatter.AppendToHistory | lab/projects/2019-project/src/main/java/it/unitn/ds1/Chatter.java:567-569 | One "send multicast" line is appended, with this actor's identity, the message id and the installed view. |
| ChatterActor.Chatter.AppendToHistoryDeliver | lab/projects/2019-project/src/main/java/it/unitn/ds1/Chatter.java:571-573 | One "deliver multicast" line is appended, with the sender's identity and the installed view. |
| ChatterActor.Chatter.AppendToHistoryInstall | lab/projects/2019-project/src/main/java/it/unitn/ds1/Chatter.java:575-577 | One "install view" line is appended, with the identities of the installed view. Its only caller has just made that view the installed one, so the lookup in `displayListId` (594-603) cannot fail there. |
| ChatterActor.Chatter.Deliver | lab/projects/2019-project/src/main/java/it/unitn/ds1/Chatter.java:562-565 | The message is appended to the delivered list, and one deliver line is logged. |
| ChatterActor.Chatter.Multicast | lab/projects/2019-project/src/main/java/it/unitn/ds1/Chatter.java:245-263 | The message goes to every member but self, in order. The result is true exactly when self occurs exactly once in the group, that is, when `message_sent == size - 1`. |
| ChatterActor.Chatter.MulticastAndCrash | lab/projects/2019-project/src/main/java/it/unitn/ds1/Chatter.java:229-239 | The message goes to exactly the first member other than self, and the actor is then crashed. With no such member, nothing is sent and nothing changes. |
| ChatterActor.Chatter.SendChatMsg | lab/projects/2019-project/src/main/java/it/unitn/ds1/Chatter.java:198-224 | A crashed actor changes nothing. A normal message schedules the next timer, and bumps `sendCount` only when sends are not inhibited. While inhibited, nothing is built or sent. Otherwise there are three cases. When the installed view is not held, the lookup fails. A pending crash sends to one peer and crashes. A live send multicasts, and a complete multicast of a normal message is followed by its stable acknowledgement to every peer and a sent line. |
| ChatterActor.Chatter.MulticastAndAck | lab/projects/2019-project/src/main/java/it/unitn/ds1/Chatter.java:216-222 | The live branch of sendChatMsg: the multicast, then on completion of a normal message the acknowledgement and the sent line. The counters and the timers are untouched. |
| ChatterActor.Chatter.StableMsg | lab/projects/2019-project/src/main/java/it/unitn/ds1/Chatter.java:241-243 | The acknowledgement `<id>- STABLE` (type 1, naming the acked id) is originated like any message. It never schedules a timer, bumps the count or logs a line. |
| ChatterActor.Chatter.OnTimerMsg | lab/projects/2019-project/src/main/java/it/unitn/ds1/Chatter.java:277-279 | The next normal message, numbered by the current send count, is originated with the effects sendChatMsg promises. |
| ChatterActor.Chatter.OnStartChatMsg | lab/projects/2019-project/src/main/java/it/unitn/ds1/Chatter.java:318-324 | A live actor originates the given normal message, then arms its own beacon timeout. It does not arm it when the send threw or crashed the actor. |
| ChatterActor.Chatter.SetTimeout | lab/projects/2019-project/src/main/java/it/unitn/ds1/Chatter.java:438-455 | A crashed actor schedules nothing. Otherwise it schedules its own timeout, or, for a member, that member's timeout, and records the member in the timer map. |
| ChatterActor.Chatter.OnBeacon | lab/projects/2019-project/src/main/java/it/unitn/ds1/Chatter.java:269-275 | A beacon from a member in the timer map re-arms that member's timeout. Any other beacon changes nothing. |
| ChatterActor.Chatter.OnCrash | lab/projects/2019-project/src/main/java/it/unitn/ds1/Chatter.java:609-617 | Either a crash during the next multicast is armed, or the actor crashes now. The other flag is untouched. |
| ChatterActor.Chatter.DeleteOldMsg | lab/projects/2019-project/src/main/java/it/unitn/ds1/Chatter.java:500-507 | The in-place iterator removal leaves exactly the purge of the old queue, in order. No message of an older view remains. |
| ChatterActor.Chatter.FindDeliverable | lab/projects/2019-project/src/main/java/it/unitn/ds1/Chatter.java:546-556 | The first named message is removed from the queue and returned. With none, nothing is returned and the queue is unchanged. |
| ChatterActor.Chatter.DeliverStable | lab/projects/2019-project/src/main/java/it/unitn/ds1/Chatter.java:513-516 | The first queued message named by the acknowledgement moves from the queue to `delivered`, with one deliver line. If none is named, nothing changes. Queue plus delivered keep their multiset, and the queue stays recent. |
| ChatterActor.Chatter.OnChatMsg | lab/projects/2019-project/src/main/java/it/unitn/ds1/Chatter.java:509-530 | For a live actor: a normal message is appended to the queue iff it is of a later view, or of this view and undelivered. `delivered` and the history are untouched. A stable acknowledgement moves the first named queued message to `delivered` with one deliver line, or changes nothing. Queue plus delivered keep their multiset. A type-2 message of this view that is undelivered is delivered. One of a later view is queued. Anything else changes nothing. Any other type throws, and only for a live actor. The queue stays free of messages older than the installed view (`QueueCurrent`), so every newly delivered message is of the installed view or later. |
| ChatterActor.Chatter.RescueHead | lab/projects/2019-project/src/main/java/it/unitn/ds1/Chatter.java:370-387 | From the iterator's position to the end, the retagged message goes to each peer passed. It is delivered once, on the first send, and never if no peer is passed. |
| ChatterActor.Chatter.DrainQueue | lab/projects/2019-project/src/main/java/it/unitn/ds1/Chatter.java:367-389 | Afterwards the queue is empty. Only its old head was sent to the peers and delivered, because the shared member iterator is used up by the head. |
| ChatterActor.Chatter.SendFlushTokens | lab/projects/2019-project/src/main/java/it/unitn/ds1/Chatter.java:391-402 | FLUSH for the given view goes to every member but self, in order. |
| ChatterActor.Chatter.Flush | lab/projects/2019-project/src/main/java/it/unitn/ds1/Chatter.java:363-403 | A crashed actor does nothing. Otherwise the queue is drained into the newest view as above, and FLUSH follows to every peer of that view. It keeps `QueueCurrent`. |
| ChatterActor.Chatter.ViewChange | lab/projects/2019-project/src/main/java/it/unitn/ds1/Chatter.java:341-346 | The inhibit counter rises by one, and the newest view is announced to its peers (even by a crashed actor). The flush follows for `lastViewToBeInstalled`. It keeps `QueueCurrent`. |
| ChatterActor.Chatter.OnViewMessage | lab/projects/2019-project/src/main/java/it/unitn/ds1/Chatter.java:351-361 | A crashed actor changes nothing. Otherwise: the inhibit counter rises by one, and the view is held and flushed for. The actor tells itself to start chatting when it is the view's newest member and has installed no view. A view with no identities throws after the flush. It keeps `QueueCurrent`: no queued message is older than the installed view. |
| ChatterActor.Chatter.InstallNext | lab/projects/2019-project/src/main/java/it/unitn/ds1/Chatter.java:419-428 | The next view becomes installed, and the previous one (if held) is removed. The install is logged, and the inhibit counter falls by one. The queue keeps only messages of the new view or later, and the flush record is cleared. So `QueueCurrent` holds after the install. When the held views were in order and `index1` is the installed view's position, the new view id is greater than the old one. For a view whose addresses are distinct, the cleared record had at least one entry per member. |
| ChatterActor.Chatter.OnFlush | lab/projects/2019-project/src/main/java/it/unitn/ds1/Chatter.java:405-432 | A crashed actor changes nothing. A FLUSH for an unheld view only records the sender. Otherwise the view after the installed one is awaited, which is `groups[0]` when the installed view is not held. The sender and self are recorded. Once the record contains every awaited member, the view is installed as in InstallNext; until then only the record changes. Without a next view, the lookup throws. It keeps `QueueCurrent`: no queued message is older than the installed view. When the held views were in order, the installed view id never decreases. |
| ChatterActor.Chatter.OnJoinGroupMsg | lab/projects/2019-project/src/main/java/it/unitn/ds1/Chatter.java:329-336 | The actor takes the assigned identity. Only the coordinator (identity 0) also holds the initial view. |
| ChatterActor.Chatter.MaxHeldId | lab/projects/2019-project/src/main/java/it/unitn/ds1/Chatter.java:290-297 | The loop fails (Collections.max of an empty list) iff some held view has no identities. Otherwise it yields the reference maximum MaxKnownId. |
| ChatterActor.Chatter.AdmitNewcomer | lab/projects/2019-project/src/main/java/it/unitn/ds1/Chatter.java:299-312 | The joined view is held, sent to the newcomer with its identity, and announced to its peers. The inhibit counter rises. A live coordinator also flushes and arms the newcomer's timeout. A crashed one does neither. |
| ChatterActor.Chatter.JoinAs | lab/projects/2019-project/src/main/java/it/unitn/ds1/Chatter.java:299-315 | The admission as above. Then, when the joined view has two members, a normal message is originated with sendChatMsg's effects on top of the flush. |
| ChatterActor.Chatter.AdmitRequest | lab/projects/2019-project/src/main/java/it/unitn/ds1/Chatter.java:289-316 | For a request past the membership checks, `lastViewToBeInstalled` rises. A held view without identities makes the request throw with nothing else changed. Otherwise the newcomer gets max + 1, greater than every identity in the held views, and is admitted as in JoinAs. It keeps `QueueCurrent`. |
| ChatterActor.Chatter.OnRequestJoin | lab/projects/2019-project/src/main/java/it/unitn/ds1/Chatter.java:284-316 | Two requests throw with nothing changed: one while the installed view is not held, and one from a member of the installed view. Otherwise the request goes on as in AdmitRequest: `lastViewToBeInstalled` rises. If some held view has no identities, the request throws with nothing else changed. Otherwise the newcomer gets max + 1, greater than every identity in the held views, and is admitted as in JoinAs. It keeps `QueueCurrent`: no queued message is older than the installed view. |
| ChatterActor.Chatter.SendBeacon | lab/projects/2019-project/src/main/java/it/unitn/ds1/Chatter.java:465-468 | A member sends one beacon to the first member of its installed view and re-arms its own timeout. It throws when that view is not held or is empty. |
| ChatterActor.Chatter.EvictTimedOut | lab/projects/2019-project/src/main/java/it/unitn/ds1/Chatter.java:469-481 | At a live coordinator (its caller checks this), the timed-out member and the identity at its position are removed from the newest view, which becomes a new view with id `lastViewToBeInstalled + 1`. The new view is held, announced and flushed. A member that is absent, or an index past the identity list, throws with nothing changed. |
| ChatterActor.Chatter.OnTimeout | lab/projects/2019-project/src/main/java/it/unitn/ds1/Chatter.java:461-482 | A crashed actor changes nothing. A member sends its beacon, as in SendBeacon. The coordinator evicts, as in EvictTimedOut. The timer map is never changed. It keeps `QueueCurrent`: no queued message is older than the installed view. |

## Left out

- The Akka runtime (actor system, `Props`, the `createReceive` dispatch) is not modelled.
  Handlers are called directly, and `getSender()` is a parameter.
- Scheduler timers are entries appended to `scheduled`. The random 3-6 s delay of the
  pacing timer is not recorded, and `Cancellable.cancel` in onBeacon is not modelled:
  a cancelled timeout stays in the log.
- `Thread.sleep` jitter and `getRandomNumberInRange` have no effect on the state, so they
  are left out.
- `Collections.shuffle` is taken as the identity permutation, so every multicast goes
  out in member order.
- `printHistory`, `displayGroup` and the console prints are I/O. The history is a
  sequence of events rather than a string buffer, and `displayListId` is the identity
  list it would print.
- CausalMulticast.java is not part of this model. So `CausalMulticast.addToGroup`
  (called by onRequestJoin) and the static `group` list it mutates are left out.
  Views are immutable values here, so the aliasing of that list into view 0 is not
  reproduced.
- The in-place `m.type = 2` in flush is modelled as a retagged copy (`Retag`). Any other
  holder of the same message object would see the change in Java but not here.
- A thrown exception ends the handler with `Raised` and the state at the throw point.
  Akka's supervisor restart, which would reset the actor, is not modelled.
- Integers are unbounded: Java `int` overflow of `sendCount`, identities and view ids is
  not modelled.
- Message ids are the datatype `MsgId` rather than strings. The three textual forms
  (`<id>-<count>`, `<id>- STABLE`, `-1`) are taken to be distinct, as they are for
  non-negative identities.
- InstallNext, OnFlush: installed view ids increase only when announcements arrive in
  order. onViewMessage holds any announced view (Chatter.java:356), so a late, older
  announcement is installed after a newer one, and the view id goes down. The model
  states monotonicity only under `InOrder`, and it does not prove that the handlers
  keep `InOrder`.
- OnRequestJoin: the new identity is fresh only among the views still held. onFlush
  drops the superseded view, so an identity evicted with it can be handed out again.
- At-most-once delivery is not a property of the code, and the model does not claim it.
  A normal message of the installed view can be queued and then delivered as a flush
  copy (type 2). A later stable acknowledgement then delivers the queued original too,
  because the STABLE path (Chatter.java:513-516) does not check `findDuplicate`.
- onStartChatMsg takes the message id its sender built, not an arbitrary string.
- The lab1 causal-delivery exercise (its Chatter.java and CausalDelivery.java) is not
  part of this model.
