/** The chat actor: the per-process engine of view-synchronous group communication.
    Each handler runs to completion on the actor's own state, so the actor is a class
    whose methods are its handlers and helpers. Everything it `tell`s is appended to
    `outbox`, every callback it schedules to `scheduled`, and every line of its history
    to `chatHistory`. A shuffled send order is taken to be the view's own order. */
module ChatterActor {
  import opened JavaLists
  import opened ChatterMessages
  import opened ChatterLookups

  /** Delay of a participant's own beacon timeout, in milliseconds. */
  const BEACON_INTERVAL: int := 5000
  /** Delay of the coordinator's timeout for one member, in milliseconds. */
  const MANAGER_TIMEOUT: int := 10000

  /** The acknowledgement a sender multicasts after a complete multicast of `acked`. */
  function StableAck(actor: int, view: int, acked: MsgId): (ack: ChatMsg)
    ensures ack.kind == STABLE && ack.viewId == view
    ensures forall m :: CanDeliver(ack, m) <==> m.id == acked
    ensures forall c :: ack.id != Numbered(actor, c)
  {
    ChatMsg(StableTag(actor), actor, view, STABLE, acked)
  }

  /** A join request from `sender` gets past onRequestJoin's checks: the installed
      view is held, `sender` is not one of its members, and no held view is without
      identities. */
  predicate Admissible(groups: seq<Groups>, viewId: int, sender: Ref) {
    var current := FindIndexViewId(groups, viewId);
    && current != -1 && sender !in groups[current].group
    && forall i :: 0 <= i < |groups| ==> groups[i].listId != []
  }

  class Chatter {
    /** This actor's own address (getSelf()). */
    const self: Ref
    /** The actor's identity in the group; 0 is the coordinator. */
    var id: int
    /** The id of the installed view. */
    var viewId: int
    /** Positive while a view change is in progress: no chat message is originated. */
    var inhibitSends: int
    /** The id of the last view the coordinator created. */
    var lastViewToBeInstalled: int
    /** Number of chat messages originated so far. */
    var sendCount: nat
    /** Set once the actor has crashed; it then ignores protocol messages. */
    var crashed: bool
    /** Set when the actor is to crash during its next multicast. */
    var hasToCrash: bool
    /** The views the actor holds: the installed one and those announced after it. */
    var groups: seq<Groups>
    /** The hold-back queue of messages not yet deliverable. */
    var mq: seq<ChatMsg>
    /** The messages delivered so far, in delivery order. */
    var delivered: seq<ChatMsg>
    /** The actors a FLUSH was received from (or recorded for) in this view change. */
    var receivedFlush: seq<Ref>
    /** The members the current view change waits for. */
    var intersectionListId: seq<Ref>
    /** The members the coordinator runs a timeout for (the keys of its timer map). */
    var leases: set<Ref>
    /** Callbacks scheduled on this actor, in scheduling order. */
    var scheduled: seq<Timer>
    /** The history log. */
    var chatHistory: seq<Event>
    /** Every `tell`, in sending order. */
    var outbox: seq<Envelope>

    /** The hold-back queue holds no message of a view older than the installed one:
        what deleteOldMsg establishes at each installation and every handler keeps. */
    ghost predicate QueueCurrent()
      reads this`mq, this`viewId
    {
      AllRecent(mq, viewId)
    }

    constructor (self: Ref, id: int)
      ensures QueueCurrent()
      ensures this.self == self && this.id == id
      ensures viewId == 0 && inhibitSends == 0 && lastViewToBeInstalled == 0 && sendCount == 0
      ensures !crashed && !hasToCrash
      ensures groups == [] && mq == [] && delivered == [] && receivedFlush == [] && intersectionListId == []
      ensures leases == {} && scheduled == [] && chatHistory == [] && outbox == []
    {
      this.self := self;
      this.id := id;
      viewId, inhibitSends, lastViewToBeInstalled, sendCount := 0, 0, 0, 0;
      crashed, hasToCrash := false, false;
      groups, mq, delivered, receivedFlush, intersectionListId := [], [], [], [], [];
      leases, scheduled, chatHistory, outbox := {}, [], [], [];
    }

    /* ------------------------- history ------------------------- */

    /** appendToHistory(ChatMsg): log a multicast sent within the installed view. */
    method AppendToHistory(m: ChatMsg)
      modifies this`chatHistory
      ensures chatHistory == old(chatHistory) + [Sent(id, m.id, viewId)]
    {
      chatHistory := chatHistory + [Sent(id, m.id, viewId)];
    }

    /** appendToHistoryDeliver: log a delivery within the installed view. */
    method AppendToHistoryDeliver(m: ChatMsg)
      modifies this`chatHistory
      ensures chatHistory == old(chatHistory) + [Delivered(id, m.id, m.senderId, viewId)]
    {
      chatHistory := chatHistory + [Delivered(id, m.id, m.senderId, viewId)];
    }

    /** appendToHistory(FlushMsg): log the installation announced by a FLUSH for view
        f, listing the identities of the installed view (displayListId, which fails
        unless that view is held). */
    method AppendToHistoryInstall(f: int)
      requires FindIndexViewId(groups, viewId) != -1
      modifies this`chatHistory
      ensures chatHistory == old(chatHistory) + [Installed(id, f, ListIdOf(groups, viewId))]
    {
      var index := FindIndexViewId(groups, viewId);
      chatHistory := chatHistory + [Installed(id, f, groups[index].listId)];
    }

    /** deliver: log the delivery and record the message as delivered. */
    method Deliver(m: ChatMsg)
      modifies this`delivered, this`chatHistory
      ensures delivered == old(delivered) + [m]
      ensures chatHistory == old(chatHistory) + [Delivered(id, m.id, m.senderId, viewId)]
    {
      AppendToHistoryDeliver(m);
      delivered := delivered + [m];
    }

    /* ------------------------- sending ------------------------- */

    /** multicast: tell w to every member of g but this actor; the multicast is
        complete when exactly |g| - 1 tells were made, that is when this actor occurs
        exactly once in the view. */
    method Multicast(w: Wire, g: Groups) returns (full: bool)
      modifies this`outbox
      ensures outbox == old(outbox) + Broadcast(g.group, self, w)
      ensures full <==> Count(g.group, self) == 1
    {
      var messageSent := 0;
      var i := 0;
      while i < |g.group|
        invariant 0 <= i <= |g.group|
        invariant outbox == old(outbox) + Broadcast(g.group[..i], self, w)
        invariant messageSent == |Broadcast(g.group[..i], self, w)|
      {
        var p := g.group[i];
        assert g.group[..i + 1] == g.group[..i] + [p];
        BroadcastSnoc(g.group[..i], p, self, w);
        if p != self {
          outbox := outbox + [Envelope(p, w)];
          messageSent := messageSent + 1;
        }
        i := i + 1;
      }
      assert g.group[..i] == g.group;
      BroadcastIsTells(g.group, self, w);
      full := messageSent == |g.group| - 1;
    }

    /** multicastAndCrash: tell w to the first member other than this actor, then
        crash; with no such member nothing is sent and the actor does not crash. */
    method MulticastAndCrash(w: Wire, g: Groups)
      modifies this`outbox, this`crashed
      ensures var peers := Without(g.group, self);
        if peers == [] then outbox == old(outbox) && crashed == old(crashed)
        else outbox == old(outbox) + [Envelope(peers[0], w)] && crashed
    {
      var i := 0;
      while i < |g.group|
        invariant 0 <= i <= |g.group|
        invariant forall j :: 0 <= j < i ==> g.group[j] == self
        invariant outbox == old(outbox) && crashed == old(crashed)
      {
        var p := g.group[i];
        if p != self {
          WithoutFirstOther(g.group, i, self);
          outbox := outbox + [Envelope(p, w)];
          crashed := true;
          return;
        }
        i := i + 1;
      }
      WithoutOnlyMe(g.group, self);
    }

    /** What originating m within its view leaves, compared with the earlier outbox
        and history, when the actor is live and no view change is in progress. When
        that view is not held the lookup fails. Otherwise m goes to the first peer only
        when the actor is to crash, after which it is crashed, and to every peer when
        it is not; in the latter case a complete multicast of a normal message is
        followed by its stability acknowledgement and a history line. */
    ghost predicate Originated(m: ChatMsg, outbox0: seq<Envelope>, history0: seq<Event>, r: Outcome)
      reads this`groups, this`hasToCrash, this`outbox, this`crashed, this`chatHistory
    {
      var at := FindIndexViewId(groups, m.viewId);
      if at == -1 then
        r == Raised(IndexOutOfBounds) && outbox == outbox0 && !crashed && chatHistory == history0
      else
        var members := groups[at].group;
        var peers := Without(members, self);
        && r == Done
        && if hasToCrash then
             && chatHistory == history0
             && outbox == outbox0 + (if peers == [] then [] else [Envelope(peers[0], Chat(m))])
             && crashed == (peers != [])
           else
             var full := m.kind == NORMAL && Count(members, self) == 1;
             && !crashed
             && outbox == outbox0 + Broadcast(members, self, Chat(m))
                  + (if full then Broadcast(members, self, Chat(StableAck(m.senderId, m.viewId, m.id))) else [])
             && chatHistory == history0 + (if full then [Sent(m.senderId, m.id, m.viewId)] else [])
    }

    /** sendChatMsg: originate a chat message of the given kind within the installed
        view. A crashed actor does nothing. A normal message schedules the next one.
        While a view change is in progress nothing is built or sent. Otherwise the
        message goes to every peer of the installed view, or, when the actor is to
        crash, to the first peer only, after which it is crashed; a complete multicast
        of a normal message is followed by its stability acknowledgement and logged
        as sent. */
    method SendChatMsg(mid: MsgId, kind: int, stable: MsgId) returns (r: Outcome)
      modifies this`scheduled, this`sendCount, this`outbox, this`crashed, this`chatHistory
      decreases if kind == NORMAL then 2 else 0, 1
      ensures old(crashed) ==>
        && r == Done && scheduled == old(scheduled) && sendCount == old(sendCount)
        && outbox == old(outbox) && crashed && chatHistory == old(chatHistory)
      ensures !old(crashed) ==> scheduled == old(scheduled) + (if kind == NORMAL then [Tick] else [])
      ensures !old(crashed) ==> sendCount == old(sendCount) + (if kind == NORMAL && old(inhibitSends) == 0 then 1 else 0)
      ensures !old(crashed) && old(inhibitSends) != 0 ==>
        r == Done && outbox == old(outbox) && !crashed && chatHistory == old(chatHistory)
      ensures !old(crashed) && old(inhibitSends) == 0 ==>
        Originated(ChatMsg(mid, old(id), old(viewId), kind, stable), old(outbox), old(chatHistory), r)
    {
      r := Done;
      if crashed {
        return;
      }
      if kind == NORMAL {
        scheduled := scheduled + [Tick];
        if inhibitSends == 0 {
          sendCount := sendCount + 1;
        }
      }
      if inhibitSends == 0 {
        var m := ChatMsg(mid, id, viewId, kind, stable);
        var index := FindIndexViewId(groups, viewId);
        if index == -1 {
          return Raised(IndexOutOfBounds);
        }
        if hasToCrash {
          MulticastAndCrash(Chat(m), groups[index]);
        } else {
          r := MulticastAndAck(m, groups[index]);
        }
      }
    }

    /** The sending step of sendChatMsg for message m in the installed view g when the
        actor is not to crash: m goes to every peer, and when m is a normal message and
        the multicast was complete, its stability acknowledgement follows and m is
        logged as sent. */
    method MulticastAndAck(m: ChatMsg, g: Groups) returns (r: Outcome)
      requires !crashed && !hasToCrash && inhibitSends == 0
      requires m.senderId == id && m.viewId == viewId
      requires var at := FindIndexViewId(groups, viewId); at != -1 && groups[at] == g
      modifies this`scheduled, this`sendCount, this`outbox, this`crashed, this`chatHistory
      decreases if m.kind == NORMAL then 2 else 0, 0
      ensures scheduled == old(scheduled) && sendCount == old(sendCount)
      ensures Originated(m, old(outbox), old(chatHistory), r)
    {
      r := Done;
      var result := Multicast(Chat(m), g);
      if result && m.kind == NORMAL {
        ghost var sent := outbox;
        r := StableMsg(m.id);
        assert r == Done && !crashed && outbox == sent + Broadcast(g.group, self, Chat(StableAck(id, viewId, m.id)));
        AppendToHistory(m);
      }
    }

    /** stableMsg: originate the stability acknowledgement of message `acked`. */
    method StableMsg(acked: MsgId) returns (r: Outcome)
      modifies this`scheduled, this`sendCount, this`outbox, this`crashed, this`chatHistory
      decreases 1, 0
      ensures old(crashed) ==> r == Done && outbox == old(outbox) && crashed
      ensures scheduled == old(scheduled) && sendCount == old(sendCount) && chatHistory == old(chatHistory)
      ensures !old(crashed) && old(inhibitSends) != 0 ==> r == Done && outbox == old(outbox) && !crashed
      ensures !old(crashed) && old(inhibitSends) == 0 ==>
        Originated(StableAck(old(id), old(viewId), acked), old(outbox), old(chatHistory), r)
    {
      r := SendChatMsg(StableTag(id), STABLE, acked);
    }

    /** onTimerMsg: the pacing timer fires and the next normal message, numbered by
        the send count, is originated. */
    method OnTimerMsg() returns (r: Outcome)
      modifies this`scheduled, this`sendCount, this`outbox, this`crashed, this`chatHistory
      ensures old(crashed) ==> r == Done && unchanged(this`scheduled, this`sendCount, this`outbox, this`chatHistory) && crashed
      ensures !old(crashed) ==> scheduled == old(scheduled) + [Tick]
      ensures !old(crashed) ==> sendCount == old(sendCount) + (if old(inhibitSends) == 0 then 1 else 0)
      ensures !old(crashed) && old(inhibitSends) != 0 ==>
        r == Done && outbox == old(outbox) && !crashed && chatHistory == old(chatHistory)
      ensures !old(crashed) && old(inhibitSends) == 0 ==>
        Originated(ChatMsg(Numbered(old(id), old(sendCount)), old(id), old(viewId), NORMAL, NoRef), old(outbox), old(chatHistory), r)
    {
      r := SendChatMsg(Numbered(id, sendCount), NORMAL, NoRef);
    }

    /** onStartChatMsg: a live actor originates the normal message it was told to
        start with and arms its own beacon timeout, unless that send failed or crashed it. */
    method OnStartChatMsg(mid: MsgId) returns (r: Outcome)
      modifies this`scheduled, this`sendCount, this`outbox, this`crashed, this`chatHistory, this`leases
      ensures leases == old(leases)
      ensures old(crashed) ==> r == Done && unchanged(this`scheduled, this`sendCount, this`outbox, this`chatHistory) && crashed
      ensures !old(crashed) ==>
        scheduled == old(scheduled) + [Tick] + (if crashed || r.Raised? then [] else [SelfTimeout(BEACON_INTERVAL)])
      ensures !old(crashed) ==> sendCount == old(sendCount) + (if old(inhibitSends) == 0 then 1 else 0)
      ensures !old(crashed) && old(inhibitSends) != 0 ==>
        r == Done && outbox == old(outbox) && !crashed && chatHistory == old(chatHistory)
      ensures !old(crashed) && old(inhibitSends) == 0 ==>
        Originated(ChatMsg(mid, old(id), old(viewId), NORMAL, NoRef), old(outbox), old(chatHistory), r)
    {
      r := Done;
      if crashed {
        return;
      }
      r := SendChatMsg(mid, NORMAL, NoRef);
      if r.Raised? {
        return;
      }
      ghost var sent := outbox;
      ghost var told := chatHistory;
      SetTimeout(BEACON_INTERVAL, None);
      assert outbox == sent && chatHistory == told;
    }

    /* ---------------------- timers and crashes ---------------------- */

    /** setTimeout: a live actor schedules its own beacon timeout (no member) or, at
        the coordinator, the timeout of a member, which it then keeps in its timer map. */
    method SetTimeout(time: int, member: Option<Ref>)
      modifies this`scheduled, this`leases
      ensures crashed ==> scheduled == old(scheduled) && leases == old(leases)
      ensures !crashed ==> member.None? ==> scheduled == old(scheduled) + [SelfTimeout(time)] && leases == old(leases)
      ensures !crashed ==> member.Some? ==>
        scheduled == old(scheduled) + [MemberTimeout(member.value, time)] && leases == old(leases) + {member.value}
    {
      if crashed {
        return;
      }
      if member.None? {
        scheduled := scheduled + [SelfTimeout(time)];
      } else {
        scheduled := scheduled + [MemberTimeout(member.value, time)];
        leases := leases + {member.value};
      }
    }

    /** onBeacon: a beacon from a member the coordinator times renews that member's
        timeout; any other beacon is ignored. */
    method OnBeacon(sender: Ref)
      modifies this`scheduled, this`leases
      ensures leases == old(leases)
      ensures sender in leases && !crashed ==> scheduled == old(scheduled) + [MemberTimeout(sender, MANAGER_TIMEOUT)]
      ensures !(sender in leases && !crashed) ==> unchanged(this`scheduled, this`leases)
    {
      if sender in leases {
        SetTimeout(MANAGER_TIMEOUT, Some(sender));
      }
    }

    /** onCrash: crash now, or arm a crash during the next multicast. */
    method OnCrash(crashedDuringMulticast: bool)
      modifies this`crashed, this`hasToCrash
      ensures crashedDuringMulticast ==> hasToCrash && crashed == old(crashed)
      ensures !crashedDuringMulticast ==> crashed && hasToCrash == old(hasToCrash)
    {
      if crashedDuringMulticast {
        hasToCrash := true;
      } else {
        crashed := true;
      }
    }

    /* ------------------------- delivery ------------------------- */

    /** deleteOldMsg: drop from the queue every message of a view older than the
        installed one, keeping the others in order. */
    method DeleteOldMsg()
      modifies this`mq
      ensures mq == Purge(old(mq), viewId)
      ensures forall j :: 0 <= j < |mq| ==> mq[j].viewId >= viewId
    {
      ghost var q0 := mq;
      var q, v := mq, viewId;
      var i := 0;
      ghost var k := 0;
      while i < |q|
        invariant 0 <= k <= |q0|
        invariant q == Purge(q0[..k], v) + q0[k..]
        invariant i == |Purge(q0[..k], v)|
        decreases |q0| - k
      {
        PurgeStep(q0, k, q, i, v);
        if q[i].viewId < v {
          q := RemoveAt(q, i);
        } else {
          i := i + 1;
        }
        k := k + 1;
      }
      assert q0[..k] == q0 && q == Purge(q0, v) + [];
      PurgeKeepsRecent(q0, v);
      mq := q;
    }

    /** findDeliverable: remove from the queue the first message the acknowledgement
        names and return it; when it names none, the queue is unchanged. */
    method FindDeliverable(stableMessage: ChatMsg) returns (found: Option<ChatMsg>)
      modifies this`mq
      ensures var k := FirstDeliverable(old(mq), stableMessage);
        if k == -1 then found == None && mq == old(mq)
        else found == Some(old(mq)[k]) && mq == RemoveAt(old(mq), k)
    {
      FirstDeliverableSpec(mq, stableMessage);
      var i := 0;
      while i < |mq|
        invariant 0 <= i <= |mq|
        invariant mq == old(mq)
        invariant forall j :: 0 <= j < i ==> !CanDeliver(stableMessage, mq[j])
      {
        if CanDeliver(stableMessage, mq[i]) {
          found := Some(mq[i]);
          mq := RemoveAt(mq, i);
          return;
        }
        i := i + 1;
      }
      found := None;
    }

    /** The STABLE case of onChatMsg: the first queued message the acknowledgement
        names moves from the queue to the delivered list. */
    method DeliverStable(msg: ChatMsg)
      requires QueueCurrent()
      modifies this`mq, this`delivered, this`chatHistory
      ensures QueueCurrent()
      ensures forall j :: |old(delivered)| <= j < |delivered| ==> delivered[j].viewId >= viewId
      ensures multiset(mq) + multiset(delivered) == old(multiset(mq) + multiset(delivered))
      ensures var k := FirstDeliverable(old(mq), msg);
        if k == -1 then
          mq == old(mq) && delivered == old(delivered) && chatHistory == old(chatHistory)
        else
          var m := old(mq)[k];
          && m.id == msg.stableMessageId
          && mq == RemoveAt(old(mq), k)
          && delivered == old(delivered) + [m]
          && chatHistory == old(chatHistory) + [Delivered(id, m.id, m.senderId, viewId)]
    {
      var deliverable := FindDeliverable(msg);
      if deliverable.Some? {
        var k := FirstDeliverable(old(mq), msg);
        RemoveAtMultiset(old(mq), k);
        AllRecentRemoveAt(old(mq), k, viewId);
        Deliver(deliverable.value);
      }
    }

    /** onChatMsg: a crashed actor ignores every chat message. A normal message joins
        the queue when it belongs to a later view, or to the installed view and has not
        been delivered. A stable acknowledgement delivers the first queued message it
        names, which moves from the queue to the delivered list. A flush-carried
        message of the installed view that has not been delivered is delivered at once;
        one of a later view joins the queue. Any other type is a protocol violation. */
    method OnChatMsg(msg: ChatMsg) returns (r: Outcome)
      requires QueueCurrent()
      modifies this`mq, this`delivered, this`chatHistory
      ensures QueueCurrent()
      ensures forall j :: |old(delivered)| <= j < |delivered| ==> delivered[j].viewId >= viewId
      ensures old(crashed) ==> r == Done && unchanged(this`mq, this`delivered, this`chatHistory)
      ensures r.Raised? <==> !old(crashed) && msg.kind !in {NORMAL, STABLE, FLUSH_CARRIED}
      ensures r.Raised? ==> r.failure == UnknownMessageType && unchanged(this`mq, this`delivered, this`chatHistory)
      ensures !old(crashed) && msg.kind == NORMAL ==>
        && delivered == old(delivered)
        && chatHistory == old(chatHistory)
        && mq == if msg.viewId > viewId || (msg.viewId == viewId && !FindDuplicate(old(delivered), msg.id))
                 then old(mq) + [msg] else old(mq)
      ensures !old(crashed) && msg.kind == STABLE ==>
        && multiset(mq) + multiset(delivered) == old(multiset(mq) + multiset(delivered))
        && var k := FirstDeliverable(old(mq), msg);
           if k == -1 then
             mq == old(mq) && delivered == old(delivered) && chatHistory == old(chatHistory)
           else
             var m := old(mq)[k];
             && m.id == msg.stableMessageId
             && mq == RemoveAt(old(mq), k)
             && delivered == old(delivered) + [m]
             && chatHistory == old(chatHistory) + [Delivered(id, m.id, m.senderId, viewId)]
      ensures !old(crashed) && msg.kind == FLUSH_CARRIED ==>
        if msg.viewId == viewId && !FindDuplicate(old(delivered), msg.id) then
          && mq == old(mq)
          && delivered == old(delivered) + [msg]
          && chatHistory == old(chatHistory) + [Delivered(id, msg.id, msg.senderId, viewId)]
        else
          && mq == (if msg.viewId > viewId then old(mq) + [msg] else old(mq))
          && delivered == old(delivered)
          && chatHistory == old(chatHistory)
    {
      r := Done;
      if crashed {
        return;
      }
      if msg.kind == STABLE {
        DeliverStable(msg);
      } else if msg.kind == NORMAL {
        if msg.viewId > viewId || (msg.viewId == viewId && !FindDuplicate(delivered, msg.id)) {
          AllRecentSnoc(mq, msg, viewId);
          mq := mq + [msg];
        }
      } else if msg.kind == FLUSH_CARRIED {
        if msg.viewId == viewId && !FindDuplicate(delivered, msg.id) {
          Deliver(msg);
        } else if msg.viewId > viewId {
          AllRecentSnoc(mq, msg, viewId);
          mq := mq + [msg];
        }
      } else {
        r := Raised(UnknownMessageType);
      }
    }

    /* ---------------------- view change ---------------------- */

    /** One pass of flush's inner loop for the queued message `head`: the shared
        member iterator advances from `start` to the end, telling the retagged head to
        every peer it passes and delivering it locally on the first such tell. */
    method RescueHead(head: ChatMsg, members: seq<Ref>, start: nat)
      requires start <= |members|
      modifies this`outbox, this`delivered, this`chatHistory
      ensures var sends := Broadcast(members[start..], self, Chat(Retag(head)));
        && outbox == old(outbox) + sends
        && delivered == old(delivered) + (if sends == [] then [] else [Retag(head)])
        && chatHistory == old(chatHistory) + (if sends == [] then [] else [Delivered(id, head.id, head.senderId, viewId)])
    {
      var m := head;
      var justSent := false;
      var cursor := start;
      while cursor < |members|
        invariant start <= cursor <= |members|
        invariant outbox == old(outbox) + Broadcast(members[start..cursor], self, Chat(Retag(head)))
        invariant justSent <==> Broadcast(members[start..cursor], self, Chat(Retag(head))) != []
        invariant m == if justSent then Retag(head) else head
        invariant delivered == old(delivered) + (if justSent then [Retag(head)] else [])
        invariant chatHistory == old(chatHistory) + (if justSent then [Delivered(id, head.id, head.senderId, viewId)] else [])
      {
        var a := members[cursor];
        assert members[start..cursor + 1] == members[start..cursor] + [a];
        BroadcastSnoc(members[start..cursor], a, self, Chat(Retag(head)));
        if a != self {
          m := m.(kind := FLUSH_CARRIED);
          outbox := outbox + [Envelope(a, Chat(m))];
          if !justSent {
            Deliver(m);
            justSent := true;
          }
        }
        cursor := cursor + 1;
      }
      assert members[start..cursor] == members[start..];
    }

    /** The queue is empty and, compared with the given earlier queue, delivered list
        and history, exactly what a flush into a view with these members rescues has
        been delivered and logged. */
    ghost predicate Drained(members: seq<Ref>, mq0: seq<ChatMsg>, delivered0: seq<ChatMsg>, history0: seq<Event>)
      reads this`mq, this`delivered, this`chatHistory, this`id, this`viewId
    {
      var rescued := Rescued(mq0, Without(members, self));
      && mq == []
      && delivered == delivered0 + rescued
      && chatHistory == history0 + Deliveries(id, viewId, rescued)
    }

    /** flush's first loop: empty the queue, passing each message to RescueHead with
        the member iterator where the previous message left it, so that only the head
        of the queue reaches any peer. */
    method DrainQueue(members: seq<Ref>)
      modifies this`mq, this`outbox, this`delivered, this`chatHistory
      ensures Drained(members, old(mq), old(delivered), old(chatHistory))
      ensures outbox == old(outbox) + RescueSends(old(mq), members, self)
    {
      ghost var q0 := mq;
      ghost var rescued := Rescued(q0, Without(members, self));
      var cursor := 0;
      while mq != []
        invariant |mq| <= |q0| && mq == q0[|q0| - |mq|..]
        invariant cursor == 0 || cursor == |members|
        invariant |mq| == |q0| ==>
          cursor == 0 && outbox == old(outbox) && delivered == old(delivered) && chatHistory == old(chatHistory)
        invariant |mq| < |q0| ==>
          && cursor == |members|
          && outbox == old(outbox) + RescueSends(q0, members, self)
          && delivered == old(delivered) + rescued
          && chatHistory == old(chatHistory) + Deliveries(id, viewId, rescued)
        decreases |mq|
      {
        var head := mq[0];
        if |mq| == |q0| {
          assert members[cursor..] == members && head == q0[0];
          DrainTouchesOnlyHead(q0, members, self);
        } else {
          assert members[cursor..] == [];
        }
        RescueHead(head, members, cursor);
        cursor := |members|;
        mq := mq[1..];
      }
    }

    /** flush's second loop: tell FLUSH for view v to every member but this actor. */
    method SendFlushTokens(v: int, members: seq<Ref>)
      modifies this`outbox
      ensures outbox == old(outbox) + Broadcast(members, self, FlushToken(v))
    {
      var j := 0;
      while j < |members|
        invariant 0 <= j <= |members|
        invariant outbox == old(outbox) + Broadcast(members[..j], self, FlushToken(v))
      {
        var a := members[j];
        assert members[..j + 1] == members[..j] + [a];
        BroadcastSnoc(members[..j], a, self, FlushToken(v));
        if a != self {
          outbox := outbox + [Envelope(a, FlushToken(v))];
        }
        j := j + 1;
      }
      assert members[..j] == members;
    }

    /** flush: drain the queue into the newest view, then send FLUSH for view v to
        every peer of that view. The member iterator is created once for the whole
        drain, so only the head of the queue is retagged FLUSH_CARRIED, sent to every
        peer and delivered locally (once, on the first send); the other queued
        messages are dropped unsent. A crashed actor does nothing. */
    method Flush(v: int)
      requires |groups| > 0 && QueueCurrent()
      modifies this`mq, this`outbox, this`delivered, this`chatHistory
      ensures QueueCurrent()
      ensures old(crashed) ==> unchanged(this`mq, this`outbox, this`delivered, this`chatHistory)
      ensures !old(crashed) ==>
        var members := groups[|groups| - 1].group;
        && Drained(members, old(mq), old(delivered), old(chatHistory))
        && outbox == old(outbox) + FlushSends(old(mq), members, self, v)
    {
      if crashed {
        return;
      }
      var members := groups[|groups| - 1].group;
      DrainQueue(members);
      SendFlushTokens(v, members);
    }

    /** viewChange: announce the newest view to its other members, raise the inhibit
        counter, and flush for the view being installed. The announcement goes out even
        from a crashed actor; the flush does not. */
    method ViewChange()
      requires |groups| > 0 && QueueCurrent()
      modifies this`inhibitSends, this`outbox, this`mq, this`delivered, this`chatHistory
      ensures QueueCurrent()
      ensures inhibitSends == old(inhibitSends) + 1
      ensures var last := groups[|groups| - 1];
        var announce := Broadcast(last.group, self, ViewAnnounce(last));
        if crashed then
          outbox == old(outbox) + announce && mq == old(mq) && delivered == old(delivered) && chatHistory == old(chatHistory)
        else
          && Drained(last.group, old(mq), old(delivered), old(chatHistory))
          && outbox == old(outbox) + announce + FlushSends(old(mq), last.group, self, lastViewToBeInstalled)
    {
      var last := groups[|groups| - 1];
      inhibitSends := inhibitSends + 1;
      var _ := Multicast(ViewAnnounce(last), last);
      Flush(lastViewToBeInstalled);
    }

    /** onViewMessage: a live member that is told of a new view raises the inhibit
        counter, holds the view and flushes for it. Then, when the newest member of
        that view is this actor and it has installed no view yet, it tells itself to
        start chatting; a view with no identities makes that check fail. */
    method OnViewMessage(vm: Groups) returns (r: Outcome)
      requires QueueCurrent()
      modifies this`inhibitSends, this`groups, this`mq, this`outbox, this`delivered, this`chatHistory
      ensures QueueCurrent()
      ensures old(crashed) ==> r == Done && unchanged(this`inhibitSends, this`groups, this`mq, this`outbox, this`delivered, this`chatHistory)
      ensures !old(crashed) ==>
        var starts := vm.listId != [] && vm.listId[|vm.listId| - 1] == id && viewId == 0;
        && r == (if vm.listId == [] then Raised(IndexOutOfBounds) else Done)
        && inhibitSends == old(inhibitSends) + 1
        && groups == old(groups) + [vm]
        && Drained(vm.group, old(mq), old(delivered), old(chatHistory))
        && outbox == old(outbox) + FlushSends(old(mq), vm.group, self, vm.viewId)
             + (if starts then [Envelope(self, StartChat(Numbered(id, sendCount)))] else [])
    {
      r := Done;
      if crashed {
        return;
      }
      inhibitSends := inhibitSends + 1;
      groups := groups + [vm];
      Flush(vm.viewId);
      var newest := groups[|groups| - 1].listId;
      if newest == [] {
        return Raised(IndexOutOfBounds);
      }
      if newest[|newest| - 1] == id && viewId == 0 {
        outbox := outbox + [Envelope(self, StartChat(Numbered(id, sendCount)))];
      }
    }

    /** The installation step of onFlush, once every member of the view after the one
        at `index1` has flushed: that view becomes the installed one and the view at
        `index1` (if any) is dropped, the installation is logged, the inhibit counter
        falls by one, the queue is purged of older views and the record is cleared. */
    method InstallNext(index1: int, f: int)
      requires -1 <= index1 && index1 + 1 < |groups|
      requires ContainsAll(receivedFlush, groups[index1 + 1].group)
      modifies this`viewId, this`groups, this`chatHistory, this`inhibitSends, this`mq, this`receivedFlush
      ensures viewId == old(groups)[index1 + 1].viewId
      ensures index1 == FindIndexViewId(old(groups), old(viewId)) && InOrder(old(groups), old(viewId)) ==>
        viewId > old(viewId)
      ensures NoRepeats(old(groups)[index1 + 1].group) ==>
        |old(receivedFlush)| >= |old(groups)[index1 + 1].group|
      ensures groups == if index1 == -1 then old(groups) else RemoveAt(old(groups), index1)
      ensures FindIndexViewId(groups, viewId) != -1
      ensures chatHistory == old(chatHistory) + [Installed(old(id), f, ListIdOf(groups, viewId))]
      ensures inhibitSends == old(inhibitSends) - 1
      ensures mq == Purge(old(mq), viewId) && QueueCurrent()
      ensures receivedFlush == []
    {
      var next := groups[index1 + 1];
      if NoRepeats(next.group) {
        ContainsAllLength(receivedFlush, next.group);
      }
      if index1 == FindIndexViewId(groups, viewId) && InOrder(groups, viewId) {
        NextViewNewer(groups, viewId);
      }
      viewId := next.viewId;
      if index1 != -1 {
        RemoveAtSpec(groups, index1);
        groups := RemoveAt(groups, index1);
        assert groups[index1] == next;
      } else {
        assert groups[0] == next;
      }
      FindIndexViewIdSpec(groups, viewId);
      AppendToHistoryInstall(f);
      inhibitSends := inhibitSends - 1;
      DeleteOldMsg();
      AllRecentSpec(mq, viewId);
      receivedFlush := [];
    }

    /** onFlush: the flush barrier. A FLUSH for a view this actor does not hold only
        records its sender. Otherwise the view after the installed one (the first held
        view when the installed one is not held) is the one waited for: the sender and
        this actor are recorded, and once every member of that view is recorded the
        view is installed: the previous view is dropped, the installation is logged,
        the inhibit counter falls by one, the queue is purged of older views and the
        record is cleared. Without a next view the lookup fails. */
    method OnFlush(sender: Ref, f: int) returns (r: Outcome)
      requires QueueCurrent()
      modifies this`viewId, this`groups, this`chatHistory, this`inhibitSends, this`mq, this`receivedFlush, this`intersectionListId
      ensures QueueCurrent()
      ensures InOrder(old(groups), old(viewId)) ==> old(viewId) <= viewId
      ensures old(crashed) ==> r == Done && unchanged(this`viewId, this`groups, this`chatHistory, this`inhibitSends, this`mq, this`receivedFlush, this`intersectionListId)
      ensures !old(crashed) && FindIndexViewId(old(groups), f) == -1 ==>
        && r == Done
        && receivedFlush == old(receivedFlush) + [sender]
        && viewId == old(viewId) && groups == old(groups) && chatHistory == old(chatHistory)
        && inhibitSends == old(inhibitSends) && mq == old(mq) && intersectionListId == old(intersectionListId)
      ensures !old(crashed) && FindIndexViewId(old(groups), f) != -1 ==>
        var index1 := FindIndexViewId(old(groups), old(viewId));
        index1 + 1 >= |old(groups)| ==> r == Raised(IndexOutOfBounds) && unchanged(this`viewId, this`groups, this`chatHistory, this`inhibitSends, this`mq, this`receivedFlush, this`intersectionListId)
      ensures !old(crashed) && FindIndexViewId(old(groups), f) != -1 ==>
        var index1 := FindIndexViewId(old(groups), old(viewId));
        index1 + 1 < |old(groups)| ==>
          var next := old(groups)[index1 + 1];
          var heard := old(receivedFlush) + [sender];
          var acks := heard + (if self in heard then [] else [self]);
          && r == Done
          && intersectionListId == next.group
          && if ContainsAll(acks, next.group) then
               && viewId == next.viewId
               && groups == (if index1 == -1 then old(groups) else RemoveAt(old(groups), index1))
               && FindIndexViewId(groups, viewId) != -1
               && chatHistory == old(chatHistory) + [Installed(old(id), f, ListIdOf(groups, viewId))]
               && inhibitSends == old(inhibitSends) - 1
               && mq == Purge(old(mq), viewId)
               && receivedFlush == []
             else
               && receivedFlush == acks
               && viewId == old(viewId) && groups == old(groups) && chatHistory == old(chatHistory)
               && inhibitSends == old(inhibitSends) && mq == old(mq)
    {
      r := Done;
      if crashed {
        return;
      }
      var tmp := FindIndexViewId(groups, f);
      if tmp != -1 {
        var index1 := FindIndexViewId(groups, viewId);
        if index1 + 1 >= |groups| {
          return Raised(IndexOutOfBounds);
        }
        var next := groups[index1 + 1];
        intersectionListId := next.group;
        receivedFlush := receivedFlush + [sender];
        if self !in receivedFlush {
          receivedFlush := receivedFlush + [self];
        }
        if ContainsAll(receivedFlush, intersectionListId) {
          InstallNext(index1, f);
        }
      } else {
        receivedFlush := receivedFlush + [sender];
      }
    }

    /* ---------------------- membership ---------------------- */

    /** onJoinGroupMsg: take the identity the coordinator assigned; the coordinator
        itself (identity 0) also holds the initial view. */
    method OnJoinGroupMsg(newId: int, g: Groups)
      modifies this`groups, this`id
      ensures id == newId
      ensures groups == old(groups) + (if newId == 0 then [g] else [])
    {
      if newId == 0 {
        groups := groups + [g];
      }
      id := newId;
    }

    /** The loop of onRequestJoin that takes Collections.max of every held view's
        identities: it fails on the first view with no identities, and otherwise
        yields the highest identity in the views it holds, or 0. */
    method MaxHeldId() returns (r: Option<int>)
      ensures r.None? <==> exists i :: 0 <= i < |groups| && groups[i].listId == []
      ensures r.Some? ==> r.value == MaxKnownId(groups)
    {
      var max := 0;
      var i := 0;
      while i < |groups|
        invariant 0 <= i <= |groups|
        invariant forall j :: 0 <= j < i ==> groups[j].listId != []
        invariant max == MaxKnownId(groups[..i])
      {
        if groups[i].listId == [] {
          return None;
        }
        var top := MaxOf(groups[i].listId);
        if top > max {
          max := top;
        }
        assert groups[..i + 1][..i] == groups[..i];
        i := i + 1;
      }
      assert groups[..i] == groups;
      return Some(max);
    }

    /** The rest of onRequestJoin once the newcomer's identity is known: the newest view
        plus the newcomer is held, sent to the newcomer, announced and flushed; the
        newcomer's timeout is armed, and a chat is started once the view has two
        members. */
    method JoinAs(sender: Ref, newId: int) returns (r: Outcome)
      requires |groups| > 0 && QueueCurrent()
      modifies this`groups, this`outbox, this`inhibitSends, this`mq, this`delivered,
        this`chatHistory, this`scheduled, this`leases, this`sendCount, this`crashed
      ensures var nv := Admit(old(groups)[|old(groups)| - 1], lastViewToBeInstalled, newId, sender);
        groups == old(groups) + [nv] && inhibitSends == old(inhibitSends) + 1
      ensures old(crashed) ==>
        var nv := Admit(old(groups)[|old(groups)| - 1], lastViewToBeInstalled, newId, sender);
        && r == Done && outbox == old(outbox) + [Envelope(sender, JoinReply(newId, nv))] + Broadcast(nv.group, self, ViewAnnounce(nv))
        && crashed && sendCount == old(sendCount) && scheduled == old(scheduled) && leases == old(leases)
        && mq == old(mq) && delivered == old(delivered) && chatHistory == old(chatHistory)
      ensures !old(crashed) ==>
        var nv := Admit(old(groups)[|old(groups)| - 1], lastViewToBeInstalled, newId, sender);
        && scheduled == old(scheduled) + [MemberTimeout(sender, MANAGER_TIMEOUT)] + (if |nv.group| == 2 then [Tick] else [])
        && leases == old(leases) + {sender}
        && mq == [] && delivered == old(delivered) + Rescued(old(mq), Without(nv.group, self))
        && sendCount == old(sendCount) + (if |nv.group| == 2 && old(inhibitSends) == -1 then 1 else 0)
      ensures !old(crashed) ==>
        var nv := Admit(old(groups)[|old(groups)| - 1], lastViewToBeInstalled, newId, sender);
        var flushed := old(outbox) + [Envelope(sender, JoinReply(newId, nv))] + Broadcast(nv.group, self, ViewAnnounce(nv))
          + FlushSends(old(mq), nv.group, self, lastViewToBeInstalled);
        var logged := old(chatHistory) + Deliveries(id, viewId, Rescued(old(mq), Without(nv.group, self)));
        if |nv.group| == 2 && old(inhibitSends) == -1 then
          Originated(ChatMsg(Numbered(id, old(sendCount)), id, viewId, NORMAL, NoRef), flushed, logged, r)
        else
          r == Done && !crashed && outbox == flushed && chatHistory == logged
    {
      var nv := AdmitNewcomer(sender, newId);
      r := Done;
      if |nv.group| == 2 {
        r := SendChatMsg(Numbered(id, sendCount), NORMAL, NoRef);
      }
    }

    /** The admission step of onRequestJoin: the newest view plus the newcomer is held,
        sent to the newcomer, announced to the other members and flushed, and the
        newcomer's timeout is armed. A crashed coordinator still holds, sends and
        announces the view, but neither flushes nor arms the timeout. */
    method AdmitNewcomer(sender: Ref, newId: int) returns (nv: Groups)
      requires |groups| > 0 && QueueCurrent()
      modifies this`groups, this`outbox, this`inhibitSends, this`mq, this`delivered, this`chatHistory,
        this`scheduled, this`leases
      ensures nv == Admit(old(groups)[|old(groups)| - 1], old(lastViewToBeInstalled), newId, sender)
      ensures groups == old(groups) + [nv]
      ensures inhibitSends == old(inhibitSends) + 1
      ensures var announce := old(outbox) + [Envelope(sender, JoinReply(newId, nv))] + Broadcast(nv.group, self, ViewAnnounce(nv));
        if old(crashed) then
          && outbox == announce && scheduled == old(scheduled) && leases == old(leases)
          && mq == old(mq) && delivered == old(delivered) && chatHistory == old(chatHistory)
        else
          && Drained(nv.group, old(mq), old(delivered), old(chatHistory))
          && outbox == announce + FlushSends(old(mq), nv.group, self, old(lastViewToBeInstalled))
          && scheduled == old(scheduled) + [MemberTimeout(sender, MANAGER_TIMEOUT)]
          && leases == old(leases) + {sender}
    {
      var last := groups[|groups| - 1];
      nv := Admit(last, lastViewToBeInstalled, newId, sender);
      groups := groups + [nv];
      outbox := outbox + [Envelope(sender, JoinReply(newId, nv))];
      ViewChange();
      SetTimeout(MANAGER_TIMEOUT, Some(sender));
    }

    /** The admission half of onRequestJoin, once the request has passed the membership
        checks: a new view id is taken, Collections.max of the held identities fails on
        a view without identities, and otherwise the newcomer joins with max + 1. */
    method AdmitRequest(sender: Ref) returns (r: Outcome)
      requires QueueCurrent()
      requires FindIndexViewId(groups, viewId) != -1 && sender !in groups[FindIndexViewId(groups, viewId)].group
      modifies this`lastViewToBeInstalled, this`groups, this`outbox, this`inhibitSends, this`mq, this`delivered,
        this`chatHistory, this`scheduled, this`leases, this`sendCount, this`crashed
      ensures QueueCurrent()
      ensures lastViewToBeInstalled == old(lastViewToBeInstalled) + 1
      ensures !Admissible(old(groups), old(viewId), sender) ==>
        && r == Raised(NoSuchElement)
        && unchanged(this`groups, this`outbox, this`inhibitSends, this`mq, this`delivered,
             this`chatHistory, this`scheduled, this`leases, this`sendCount, this`crashed)
      ensures Admissible(old(groups), old(viewId), sender) ==>
        var newId := MaxKnownId(old(groups)) + 1;
        forall i, j :: 0 <= i < |old(groups)| && 0 <= j < |old(groups)[i].listId| ==> old(groups)[i].listId[j] < newId
      ensures Admissible(old(groups), old(viewId), sender) ==>
        var nv := Admit(old(groups)[|old(groups)| - 1], lastViewToBeInstalled, MaxKnownId(old(groups)) + 1, sender);
        groups == old(groups) + [nv] && inhibitSends == old(inhibitSends) + 1
      ensures Admissible(old(groups), old(viewId), sender) && old(crashed) ==>
        var newId := MaxKnownId(old(groups)) + 1;
        var nv := Admit(old(groups)[|old(groups)| - 1], lastViewToBeInstalled, newId, sender);
        && r == Done && outbox == old(outbox) + [Envelope(sender, JoinReply(newId, nv))] + Broadcast(nv.group, self, ViewAnnounce(nv))
        && crashed && sendCount == old(sendCount) && scheduled == old(scheduled) && leases == old(leases)
        && mq == old(mq) && delivered == old(delivered) && chatHistory == old(chatHistory)
      ensures Admissible(old(groups), old(viewId), sender) && !old(crashed) ==>
        var nv := Admit(old(groups)[|old(groups)| - 1], lastViewToBeInstalled, MaxKnownId(old(groups)) + 1, sender);
        && scheduled == old(scheduled) + [MemberTimeout(sender, MANAGER_TIMEOUT)] + (if |nv.group| == 2 then [Tick] else [])
        && leases == old(leases) + {sender}
        && mq == [] && delivered == old(delivered) + Rescued(old(mq), Without(nv.group, self))
        && sendCount == old(sendCount) + (if |nv.group| == 2 && old(inhibitSends) == -1 then 1 else 0)
      ensures Admissible(old(groups), old(viewId), sender) && !old(crashed) ==>
        var newId := MaxKnownId(old(groups)) + 1;
        var nv := Admit(old(groups)[|old(groups)| - 1], lastViewToBeInstalled, newId, sender);
        var flushed := old(outbox) + [Envelope(sender, JoinReply(newId, nv))] + Broadcast(nv.group, self, ViewAnnounce(nv))
          + FlushSends(old(mq), nv.group, self, lastViewToBeInstalled);
        var logged := old(chatHistory) + Deliveries(id, viewId, Rescued(old(mq), Without(nv.group, self)));
        if |nv.group| == 2 && old(inhibitSends) == -1 then
          Originated(ChatMsg(Numbered(id, old(sendCount)), id, viewId, NORMAL, NoRef), flushed, logged, r)
        else
          r == Done && !crashed && outbox == flushed && chatHistory == logged
    {
      lastViewToBeInstalled := lastViewToBeInstalled + 1;
      var max := MaxHeldId();
      if max.None? {
        return Raised(NoSuchElement);
      }
      assert max.value == MaxKnownId(old(groups));
      assert forall i, j :: 0 <= i < |old(groups)| && 0 <= j < |old(groups)[i].listId| ==> old(groups)[i].listId[j] <= max.value by {
        MaxKnownIdSpec(old(groups));
      }
      r := JoinAs(sender, max.value + 1);
    }

    /** onRequestJoin: the coordinator admits a new member. A request from a member of
        the installed view is refused; so is one while the installed view is not held.
        Otherwise a new view id is taken, and unless some held view has no identities
        (which makes Collections.max fail) the newcomer is admitted with an identity
        above every identity in the views it holds. */
    method OnRequestJoin(sender: Ref) returns (r: Outcome)
      requires QueueCurrent()
      modifies this`lastViewToBeInstalled, this`groups, this`outbox, this`inhibitSends, this`mq, this`delivered,
        this`chatHistory, this`scheduled, this`leases, this`sendCount, this`crashed
      ensures QueueCurrent()
      ensures var current := FindIndexViewId(old(groups), old(viewId));
        current == -1 || sender in old(groups)[current].group ==>
          && r == Raised(if current == -1 then IndexOutOfBounds else AlreadyInGroup)
          && unchanged(this`lastViewToBeInstalled, this`groups, this`outbox, this`inhibitSends, this`mq, this`delivered,
               this`chatHistory, this`scheduled, this`leases, this`sendCount, this`crashed)
      ensures var current := FindIndexViewId(old(groups), old(viewId));
        current != -1 && sender !in old(groups)[current].group ==>
          lastViewToBeInstalled == old(lastViewToBeInstalled) + 1
      ensures var current := FindIndexViewId(old(groups), old(viewId));
        current != -1 && sender !in old(groups)[current].group && !Admissible(old(groups), old(viewId), sender) ==>
          && r == Raised(NoSuchElement)
          && unchanged(this`groups, this`outbox, this`inhibitSends, this`mq, this`delivered,
               this`chatHistory, this`scheduled, this`leases, this`sendCount, this`crashed)
      ensures Admissible(old(groups), old(viewId), sender) ==>
        var newId := MaxKnownId(old(groups)) + 1;
        forall i, j :: 0 <= i < |old(groups)| && 0 <= j < |old(groups)[i].listId| ==> old(groups)[i].listId[j] < newId
      ensures Admissible(old(groups), old(viewId), sender) ==>
        var nv := Admit(old(groups)[|old(groups)| - 1], lastViewToBeInstalled, MaxKnownId(old(groups)) + 1, sender);
        groups == old(groups) + [nv] && inhibitSends == old(inhibitSends) + 1
      ensures Admissible(old(groups), old(viewId), sender) && old(crashed) ==>
        var newId := MaxKnownId(old(groups)) + 1;
        var nv := Admit(old(groups)[|old(groups)| - 1], lastViewToBeInstalled, newId, sender);
        && r == Done && outbox == old(outbox) + [Envelope(sender, JoinReply(newId, nv))] + Broadcast(nv.group, self, ViewAnnounce(nv))
        && crashed && sendCount == old(sendCount) && scheduled == old(scheduled) && leases == old(leases)
        && mq == old(mq) && delivered == old(delivered) && chatHistory == old(chatHistory)
      ensures Admissible(old(groups), old(viewId), sender) && !old(crashed) ==>
        var nv := Admit(old(groups)[|old(groups)| - 1], lastViewToBeInstalled, MaxKnownId(old(groups)) + 1, sender);
        && scheduled == old(scheduled) + [MemberTimeout(sender, MANAGER_TIMEOUT)] + (if |nv.group| == 2 then [Tick] else [])
        && leases == old(leases) + {sender}
        && mq == [] && delivered == old(delivered) + Rescued(old(mq), Without(nv.group, self))
        && sendCount == old(sendCount) + (if |nv.group| == 2 && old(inhibitSends) == -1 then 1 else 0)
      ensures Admissible(old(groups), old(viewId), sender) && !old(crashed) ==>
        var newId := MaxKnownId(old(groups)) + 1;
        var nv := Admit(old(groups)[|old(groups)| - 1], lastViewToBeInstalled, newId, sender);
        var flushed := old(outbox) + [Envelope(sender, JoinReply(newId, nv))] + Broadcast(nv.group, self, ViewAnnounce(nv))
          + FlushSends(old(mq), nv.group, self, lastViewToBeInstalled);
        var logged := old(chatHistory) + Deliveries(id, viewId, Rescued(old(mq), Without(nv.group, self)));
        if |nv.group| == 2 && old(inhibitSends) == -1 then
          Originated(ChatMsg(Numbered(id, old(sendCount)), id, viewId, NORMAL, NoRef), flushed, logged, r)
        else
          r == Done && !crashed && outbox == flushed && chatHistory == logged
    {
      var current := FindIndexViewId(groups, viewId);
      if current == -1 {
        return Raised(IndexOutOfBounds);
      }
      if sender in groups[current].group {
        return Raised(AlreadyInGroup);
      }
      r := AdmitRequest(sender);
    }

    /** A member's side of onTimeout: send a beacon to the coordinator (the first
        member of the installed view) and re-arm its own timeout. */
    method SendBeacon() returns (r: Outcome)
      modifies this`outbox, this`scheduled, this`leases
      ensures leases == old(leases)
      ensures var at := FindIndexViewId(groups, viewId);
        if at == -1 || groups[at].group == [] then
          r == Raised(IndexOutOfBounds) && outbox == old(outbox) && scheduled == old(scheduled)
        else
          && r == Done
          && outbox == old(outbox) + [Envelope(groups[at].group[0], BeaconMsg)]
          && scheduled == old(scheduled) + (if crashed then [] else [SelfTimeout(BEACON_INTERVAL)])
    {
      var at := FindIndexViewId(groups, viewId);
      if at == -1 || groups[at].group == [] {
        return Raised(IndexOutOfBounds);
      }
      var manager := groups[at].group[0];
      outbox := outbox + [Envelope(manager, BeaconMsg)];
      SetTimeout(BEACON_INTERVAL, None);
      r := Done;
    }

    /** The coordinator's side of onTimeout for a live coordinator: a new view without
        the timed out member, and without the identity at its position, is held,
        announced and flushed. A timeout that names no member of the newest view (or
        names one past the end of its identities) fails the removal. */
    method EvictTimedOut(target: Option<Ref>) returns (r: Outcome)
      requires !crashed && QueueCurrent()
      modifies this`outbox, this`lastViewToBeInstalled, this`groups, this`inhibitSends, this`mq, this`delivered, this`chatHistory
      ensures var k := if old(groups) == [] || target.None? then -1 else IndexOf(old(groups)[|old(groups)| - 1].group, target.value);
        if k == -1 || k >= |old(groups)[|old(groups)| - 1].listId| then
          r == Raised(IndexOutOfBounds) && unchanged(this`outbox, this`lastViewToBeInstalled, this`groups, this`inhibitSends, this`mq, this`delivered, this`chatHistory)
        else
          var last := old(groups)[|old(groups)| - 1];
          var nv := Evict(last, old(lastViewToBeInstalled) + 1, k);
          && r == Done
          && nv.group == RemoveFirst(last.group, target.value)
          && lastViewToBeInstalled == old(lastViewToBeInstalled) + 1
          && groups == old(groups) + [nv]
          && inhibitSends == old(inhibitSends) + 1
          && Drained(nv.group, old(mq), old(delivered), old(chatHistory))
          && outbox == old(outbox) + Broadcast(nv.group, self, ViewAnnounce(nv)) + FlushSends(old(mq), nv.group, self, lastViewToBeInstalled)
    {
      if groups == [] {
        return Raised(IndexOutOfBounds);
      }
      var last := groups[|groups| - 1];
      var index := if target.None? then -1 else IndexOf(last.group, target.value);
      if index == -1 || index >= |last.listId| {
        return Raised(IndexOutOfBounds);
      }
      var tmp := RemoveAt(last.listId, index);
      var tmp1 := RemoveFirst(last.group, target.value);
      RemoveFirstIsRemoveAtIndexOf(last.group, target.value);
      lastViewToBeInstalled := lastViewToBeInstalled + 1;
      var nv := Groups(lastViewToBeInstalled, tmp, tmp1);
      assert nv == Evict(last, lastViewToBeInstalled, index);
      groups := groups + [nv];
      ViewChange();
      r := Done;
    }

    /** onTimeout: a crashed actor ignores it; otherwise a member sends its beacon and
        the coordinator (identity 0) evicts the member that timed out. */
    method OnTimeout(target: Option<Ref>) returns (r: Outcome)
      requires QueueCurrent()
      modifies this`outbox, this`scheduled, this`leases, this`lastViewToBeInstalled, this`groups, this`inhibitSends,
        this`mq, this`delivered, this`chatHistory
      ensures QueueCurrent()
      ensures old(crashed) ==> r == Done && unchanged(this`outbox, this`scheduled, this`leases, this`lastViewToBeInstalled, this`groups, this`inhibitSends, this`mq, this`delivered, this`chatHistory)
      ensures leases == old(leases)
      ensures !old(crashed) && old(id) != 0 ==>
        var at := FindIndexViewId(old(groups), old(viewId));
        && lastViewToBeInstalled == old(lastViewToBeInstalled) && groups == old(groups) && inhibitSends == old(inhibitSends)
        && mq == old(mq) && delivered == old(delivered) && chatHistory == old(chatHistory)
        && if at == -1 || old(groups)[at].group == [] then
             r == Raised(IndexOutOfBounds) && outbox == old(outbox) && scheduled == old(scheduled)
           else
             && r == Done
             && outbox == old(outbox) + [Envelope(old(groups)[at].group[0], BeaconMsg)]
             && scheduled == old(scheduled) + [SelfTimeout(BEACON_INTERVAL)]
      ensures !old(crashed) && old(id) == 0 ==>
        var k := if old(groups) == [] || target.None? then -1 else IndexOf(old(groups)[|old(groups)| - 1].group, target.value);
        && scheduled == old(scheduled)
        && if k == -1 || k >= |old(groups)[|old(groups)| - 1].listId| then
             r == Raised(IndexOutOfBounds) && unchanged(this`outbox, this`scheduled, this`leases, this`lastViewToBeInstalled, this`groups, this`inhibitSends, this`mq, this`delivered, this`chatHistory)
           else
             var last := old(groups)[|old(groups)| - 1];
             var nv := Evict(last, old(lastViewToBeInstalled) + 1, k);
             && r == Done
             && nv.group == RemoveFirst(last.group, target.value)
             && lastViewToBeInstalled == old(lastViewToBeInstalled) + 1
             && groups == old(groups) + [nv]
             && inhibitSends == old(inhibitSends) + 1
             && Drained(nv.group, old(mq), old(delivered), old(chatHistory))
             && outbox == old(outbox) + Broadcast(nv.group, self, ViewAnnounce(nv)) + FlushSends(old(mq), nv.group, self, lastViewToBeInstalled)
    {
      r := Done;
      if crashed {
        return;
      }
      if id != 0 {
        r := SendBeacon();
      } else {
        r := EvictTimedOut(target);
      }
    }
  }
}
