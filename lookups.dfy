/** The read-only lookups of the chat actor (findIndexViewId, findDuplicate,
    canDeliver), the position findDeliverable stops at, what deleteOldMsg leaves in
    the hold-back queue, the highest identity a join sees, and what a flush rescues
    from the queue. */
module ChatterLookups {
  import opened JavaLists
  import opened ChatterMessages

  /** findIndexViewId: the position of the first held view with id v, or -1. */
  function FindIndexViewId(groups: seq<Groups>, v: int): (i: int)
    ensures -1 <= i < |groups|
    ensures 0 <= i ==> groups[i].viewId == v
  {
    if groups == [] then -1
    else if groups[0].viewId == v then 0
    else
      var j := FindIndexViewId(groups[1..], v);
      if j == -1 then -1 else j + 1
  }

  /** The lookup fails exactly when no held view has id v, and otherwise stops at
      the first one that has. */
  lemma {:induction false} FindIndexViewIdSpec(groups: seq<Groups>, v: int)
    ensures FindIndexViewId(groups, v) == -1 <==> forall j :: 0 <= j < |groups| ==> groups[j].viewId != v
    ensures forall j :: 0 <= j < FindIndexViewId(groups, v) ==> groups[j].viewId != v
  {
    if groups != [] && groups[0].viewId != v {
      FindIndexViewIdSpec(groups[1..], v);
      assert forall j :: 1 <= j < |groups| ==> groups[j] == groups[1..][j - 1];
    }
  }

  /** The held views are in increasing id order and none is older than the installed
      view v: what announcements arriving in order leave behind. */
  ghost predicate InOrder(groups: seq<Groups>, v: int) {
    && (forall i, j :: 0 <= i < j < |groups| ==> groups[i].viewId < groups[j].viewId)
    && (forall i :: 0 <= i < |groups| ==> groups[i].viewId >= v)
  }

  /** With the views in order, the view after the installed one (the first held view
      when the installed one is not held) is newer than it. */
  lemma NextViewNewer(groups: seq<Groups>, v: int)
    requires InOrder(groups, v)
    requires FindIndexViewId(groups, v) + 1 < |groups|
    ensures groups[FindIndexViewId(groups, v) + 1].viewId > v
  {
  }

  /** The identities of the first held view with id v: the list displayListId prints.
      Where no view is held Java fails on groups.get(-1); the model yields [] there. */
  function ListIdOf(groups: seq<Groups>, v: int): (ids: seq<int>)
    ensures forall i :: 0 <= i < |groups| && groups[i].viewId == v && (forall j :: 0 <= j < i ==> groups[j].viewId != v) ==>
      ids == groups[i].listId
    ensures (forall i :: 0 <= i < |groups| ==> groups[i].viewId != v) ==> ids == []
  {
    FindIndexViewIdSpec(groups, v);
    var i := FindIndexViewId(groups, v);
    if i == -1 then [] else groups[i].listId
  }

  /** findDuplicate: whether a message with this id has already been delivered. */
  function FindDuplicate(delivered: seq<ChatMsg>, id: MsgId): (found: bool)
    ensures found <==> exists j :: 0 <= j < |delivered| && delivered[j].id == id
  {
    if delivered == [] then false
    else delivered[0].id == id || FindDuplicate(delivered[1..], id)
  }

  /** canDeliver: the stability acknowledgement names the queued message. */
  predicate CanDeliver(stableMessage: ChatMsg, incoming: ChatMsg) {
    stableMessage.stableMessageId == incoming.id
  }

  /** The position findDeliverable stops at: the first queued message the
      acknowledgement names, or -1 when it names none. */
  function FirstDeliverable(q: seq<ChatMsg>, stableMessage: ChatMsg): (k: int)
    ensures -1 <= k < |q|
    ensures 0 <= k ==> CanDeliver(stableMessage, q[k])
  {
    if q == [] then -1
    else if CanDeliver(stableMessage, q[0]) then 0
    else
      var j := FirstDeliverable(q[1..], stableMessage);
      if j == -1 then -1 else j + 1
  }

  /** The acknowledgement names no queued message exactly when the search fails;
      otherwise the search stops at the first one it names. */
  lemma {:induction false} FirstDeliverableSpec(q: seq<ChatMsg>, stableMessage: ChatMsg)
    ensures FirstDeliverable(q, stableMessage) == -1 <==> forall j :: 0 <= j < |q| ==> !CanDeliver(stableMessage, q[j])
    ensures forall j :: 0 <= j < FirstDeliverable(q, stableMessage) ==> !CanDeliver(stableMessage, q[j])
  {
    if q != [] && !CanDeliver(stableMessage, q[0]) {
      FirstDeliverableSpec(q[1..], stableMessage);
      assert forall j :: 1 <= j < |q| ==> q[j] == q[1..][j - 1];
    }
  }

  /** What deleteOldMsg leaves in the queue: the messages of view v or later, in
      queue order. */
  function Purge(q: seq<ChatMsg>, v: int): (r: seq<ChatMsg>)
    ensures |r| <= |q|
  {
    if q == [] then []
    else (if q[0].viewId < v then [] else [q[0]]) + Purge(q[1..], v)
  }

  /** A purge keeps exactly the messages of view v or later. */
  lemma {:induction false} PurgeMembers(q: seq<ChatMsg>, v: int, m: ChatMsg)
    ensures m in Purge(q, v) <==> m in q && m.viewId >= v
  {
    if q != [] {
      assert q == [q[0]] + q[1..];
      PurgeMembers(q[1..], v, m);
    }
  }

  /** Purging a queue purges each of its parts and keeps their order. */
  lemma {:induction false} PurgeConcat(a: seq<ChatMsg>, b: seq<ChatMsg>, v: int)
    ensures Purge(a + b, v) == Purge(a, v) + Purge(b, v)
  {
    if a == [] {
      assert a + b == b;
    } else {
      var head := if a[0].viewId < v then [] else [a[0]];
      assert (a + b)[0] == a[0];
      assert (a + b)[1..] == a[1..] + b;
      PurgeConcat(a[1..], b, v);
      assert Purge(a + b, v) == head + (Purge(a[1..], v) + Purge(b, v));
      assert Purge(a, v) == head + Purge(a[1..], v);
    }
  }

  /** Purging a queue extended by one message keeps that message exactly when it
      belongs to view v or later. */
  lemma PurgeSnoc(q: seq<ChatMsg>, m: ChatMsg, v: int)
    ensures Purge(q + [m], v) == Purge(q, v) + (if m.viewId < v then [] else [m])
  {
    PurgeConcat(q, [m], v);
    assert [m][1..] == [];
  }

  /** One step of deleteOldMsg's iterator over the original queue q0: when the
      list holds the purged first k messages followed by the rest of q0, and the
      iterator is at position i, just after the purged part, removing the message
      there if it is older than v (and moving past it otherwise) leaves the purged
      first k + 1 messages followed by the rest. */
  lemma PurgeStep(q0: seq<ChatMsg>, k: nat, q: seq<ChatMsg>, i: nat, v: int)
    requires k < |q0| && q == Purge(q0[..k], v) + q0[k..] && i == |Purge(q0[..k], v)|
    ensures i < |q| && q[i] == q0[k]
    ensures q[i].viewId < v ==> RemoveAt(q, i) == Purge(q0[..k + 1], v) + q0[k + 1..] && i == |Purge(q0[..k + 1], v)|
    ensures q[i].viewId >= v ==> q == Purge(q0[..k + 1], v) + q0[k + 1..] && i + 1 == |Purge(q0[..k + 1], v)|
  {
    var kept := Purge(q0[..k], v);
    assert q0[..k + 1] == q0[..k] + [q0[k]];
    PurgeSnoc(q0[..k], q0[k], v);
    assert q0[k..] == [q0[k]] + q0[k + 1..];
    if q0[k].viewId < v {
      RemoveAtMiddle(kept, q0[k], q0[k + 1..]);
    } else {
      assert q == (kept + [q0[k]]) + q0[k + 1..];
    }
  }

  /** No message of q belongs to a view older than v. */
  predicate AllRecent(q: seq<ChatMsg>, v: int) {
    q == [] || (q[0].viewId >= v && AllRecent(q[1..], v))
  }

  /** AllRecent holds exactly when every position of q holds a message of view v or
      later. */
  lemma {:induction false} AllRecentSpec(q: seq<ChatMsg>, v: int)
    ensures AllRecent(q, v) <==> forall j :: 0 <= j < |q| ==> q[j].viewId >= v
  {
    if q != [] {
      AllRecentSpec(q[1..], v);
      assert forall j :: 1 <= j < |q| ==> q[j] == q[1..][j - 1];
    }
  }

  /** Appending a message of view v or later keeps a queue recent. */
  lemma AllRecentSnoc(q: seq<ChatMsg>, m: ChatMsg, v: int)
    requires AllRecent(q, v) && m.viewId >= v
    ensures AllRecent(q + [m], v)
  {
    AllRecentSpec(q, v);
    AllRecentSpec(q + [m], v);
  }

  /** Taking any message out of a recent queue keeps it recent, and the message taken
      out is itself of view v or later. */
  lemma AllRecentRemoveAt(q: seq<ChatMsg>, k: nat, v: int)
    requires AllRecent(q, v) && k < |q|
    ensures q[k].viewId >= v && AllRecent(RemoveAt(q, k), v)
  {
    AllRecentSpec(q, v);
    RemoveAtSpec(q, k);
    AllRecentSpec(RemoveAt(q, k), v);
  }

  /** Every message a purge keeps belongs to view v or later. */
  lemma PurgeKeepsRecent(q: seq<ChatMsg>, v: int)
    ensures forall j :: 0 <= j < |Purge(q, v)| ==> Purge(q, v)[j].viewId >= v
  {
    var r := Purge(q, v);
    forall j | 0 <= j < |r| ensures r[j].viewId >= v {
      PurgeMembers(q, v, r[j]);
    }
  }

  /** Every occurrence of a message of view v or later survives a purge, and no
      occurrence of an older one does. */
  lemma {:induction false} PurgeCount(q: seq<ChatMsg>, v: int, m: ChatMsg)
    ensures Count(Purge(q, v), m) == if m.viewId >= v then Count(q, m) else 0
  {
    if q != [] {
      PurgeCount(q[1..], v, m);
      var head := if q[0].viewId < v then [] else [q[0]];
      var rest := Purge(q[1..], v);
      assert Purge(q, v) == head + rest;
      if head != [] {
        assert (head + rest)[0] == q[0];
        assert (head + rest)[1..] == rest;
      } else {
        assert head + rest == rest;
      }
    }
  }

  /** A second purge at the same view removes nothing more. */
  lemma {:induction false} PurgeIdempotent(q: seq<ChatMsg>, v: int)
    ensures Purge(Purge(q, v), v) == Purge(q, v)
  {
    if q != [] {
      PurgeIdempotent(q[1..], v);
      var head := if q[0].viewId < v then [] else [q[0]];
      PurgeConcat(head, Purge(q[1..], v), v);
    }
  }

  /** The highest identity in the held views, or 0 when it is not positive: the value
      onRequestJoin's loop computes with Collections.max (views with no identities
      contribute nothing here; the loop throws on them instead). */
  function MaxKnownId(groups: seq<Groups>): (h: int)
    ensures h >= 0
  {
    if groups == [] then 0
    else
      var before := MaxKnownId(groups[..|groups| - 1]);
      var last := groups[|groups| - 1];
      if last.listId == [] then before
      else
        var top := MaxOf(last.listId);
        if top > before then top else before
  }

  /** Every identity in the held views is at most MaxKnownId, and a positive
      MaxKnownId is one of them. */
  lemma {:induction false} MaxKnownIdSpec(groups: seq<Groups>)
    ensures forall i, j :: 0 <= i < |groups| && 0 <= j < |groups[i].listId| ==> groups[i].listId[j] <= MaxKnownId(groups)
    ensures MaxKnownId(groups) == 0 ||
      exists i, j :: 0 <= i < |groups| && 0 <= j < |groups[i].listId| && groups[i].listId[j] == MaxKnownId(groups)
  {
    if groups != [] {
      var init := groups[..|groups| - 1];
      var last := groups[|groups| - 1];
      MaxKnownIdSpec(init);
      assert forall i :: 0 <= i < |init| ==> init[i] == groups[i];
      if last.listId != [] {
        var top := MaxOf(last.listId);
        assert forall j :: 0 <= j < |last.listId| ==> last.listId[j] in last.listId;
        if top > MaxKnownId(init) {
          var j :| 0 <= j < |last.listId| && last.listId[j] == top;
          assert groups[|groups| - 1].listId[j] == MaxKnownId(groups);
        }
      }
    }
  }

  /** The copy of a queued message that a flush re-sends and delivers. */
  function Retag(m: ChatMsg): (r: ChatMsg)
    ensures r.kind == FLUSH_CARRIED && r.(kind := m.kind) == m
  {
    m.(kind := FLUSH_CARRIED)
  }

  /** The queued messages a flush delivers locally: only the head of the queue, and
      only if the newest view has a peer, because the member iterator is created once
      for the whole drain and is used up by the head. */
  function Rescued(q: seq<ChatMsg>, peers: seq<Ref>): (r: seq<ChatMsg>)
    ensures |r| <= 1
    ensures r != [] <==> q != [] && peers != []
    ensures r != [] ==> r[0].id == q[0].id && r[0].senderId == q[0].senderId && r[0].viewId == q[0].viewId && r[0].kind == FLUSH_CARRIED
  {
    if q != [] && peers != [] then [Retag(q[0])] else []
  }

  /** When no queued message is older than view v, neither is the one a flush
      delivers: the rescued head keeps its view. */
  lemma RescuedRecent(q: seq<ChatMsg>, peers: seq<Ref>, v: int)
    requires forall j :: 0 <= j < |q| ==> q[j].viewId >= v
    ensures forall m :: m in Rescued(q, peers) ==> m.viewId >= v
  {
  }

  /** The chat messages a flush sends: the retagged head of the queue to every member
      but `me`. */
  function RescueSends(q: seq<ChatMsg>, members: seq<Ref>, me: Ref): seq<Envelope> {
    if q == [] then [] else Broadcast(members, me, Chat(Retag(q[0])))
  }

  /** Everything a flush for view v sends: the rescued head of the queue to every
      member but `me`, then FLUSH to every member but `me`. */
  function FlushSends(q: seq<ChatMsg>, members: seq<Ref>, me: Ref, v: int): seq<Envelope> {
    RescueSends(q, members, me) + Broadcast(members, me, FlushToken(v))
  }

  /** The history lines for delivering the given messages within view v. */
  function Deliveries(actor: int, v: int, ms: seq<ChatMsg>): (es: seq<Event>)
    ensures |es| == |ms|
  {
    if ms == [] then [] else [Delivered(actor, ms[0].id, ms[0].senderId, v)] + Deliveries(actor, v, ms[1..])
  }

  /** Each delivered message gets its own history line, in delivery order. */
  lemma {:induction false} DeliveriesSpec(actor: int, v: int, ms: seq<ChatMsg>)
    ensures forall i :: 0 <= i < |ms| ==> Deliveries(actor, v, ms)[i] == Delivered(actor, ms[i].id, ms[i].senderId, v)
  {
    if ms != [] {
      DeliveriesSpec(actor, v, ms[1..]);
    }
  }

  /** A flush never rescues any queued message but the head: every message it sends
      or delivers is the head retagged FLUSH_CARRIED, it sends it to each peer once,
      and it delivers it exactly when it sends it at all. */
  lemma DrainTouchesOnlyHead(q: seq<ChatMsg>, members: seq<Ref>, me: Ref)
    requires |q| >= 1
    ensures forall e :: e in RescueSends(q, members, me) ==> e.body == Chat(Retag(q[0])) && e.dest in members && e.dest != me
    ensures forall m :: m in Rescued(q, Without(members, me)) ==> m == Retag(q[0])
    ensures |RescueSends(q, members, me)| == |members| - Count(members, me)
    ensures Rescued(q, Without(members, me)) != [] <==> RescueSends(q, members, me) != []
  {
    BroadcastIsTells(members, me, Chat(Retag(q[0])));
    var s := RescueSends(q, members, me);
    forall e | e in s ensures e.body == Chat(Retag(q[0])) && e.dest in members && e.dest != me {
      var i :| 0 <= i < |s| && s[i] == e;
      assert Without(members, me)[i] in Without(members, me);
      WithoutMembers(members, me, e.dest);
    }
  }
}
