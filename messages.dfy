/** The values the chat actor exchanges and keeps: views (`Groups`), chat messages,
    flush tokens and the other wire messages, the timers it schedules, the events of
    its history log, and the exceptions its handlers raise. */
module ChatterMessages {
  import opened JavaLists

  /** An actor address; the protocol only ever compares addresses for equality. */
  type Ref = nat

  /** A message id: "<sender>-<count>" for an originated message, "<sender>- STABLE"
      for a stability acknowledgement, "-1" for the stable reference of a message that
      acknowledges nothing. The three textual forms never coincide, since a send count
      is never negative. */
  datatype MsgId = Numbered(origin: int, count: nat) | StableTag(origin: int) | NoRef

  /** The values of ChatMsg.type the protocol understands. */
  const NORMAL: int := 0
  const STABLE: int := 1
  const FLUSH_CARRIED: int := 2

  /** A chat message; `kind` stays an int so that an unknown type can arrive. */
  datatype ChatMsg = ChatMsg(id: MsgId, senderId: int, viewId: int, kind: int, stableMessageId: MsgId)

  /** A view: its id, the member identities and the member addresses, where
      listId[i] is the identity of group[i]. */
  datatype Groups = Groups(viewId: int, listId: seq<int>, group: seq<Ref>)

  /** Both member lists of a view have one entry per member. */
  predicate WellFormed(v: Groups) {
    |v.listId| == |v.group|
  }

  /** The (identity, address) pairs of a well-formed view, in member order. */
  function Members(v: Groups): seq<(int, Ref)>
    requires WellFormed(v)
  {
    seq(|v.listId|, i requires 0 <= i < |v.listId| => (v.listId[i], v.group[i]))
  }

  /** The view a join appends: the latest view's members followed by the newcomer
      with its fresh identity. */
  function Admit(last: Groups, viewId: int, newId: int, who: Ref): (v: Groups)
    ensures v.viewId == viewId
    ensures |v.group| == |last.group| + 1 && who in v.group
  {
    Groups(viewId, last.listId + [newId], last.group + [who])
  }

  /** Admitting keeps both lists of equal length, every member paired with its
      identity, and pairs the newcomer with its fresh identity at the end. */
  lemma AdmitKeepsPairs(last: Groups, viewId: int, newId: int, who: Ref)
    requires WellFormed(last)
    ensures WellFormed(Admit(last, viewId, newId, who))
    ensures Members(Admit(last, viewId, newId, who)) == Members(last) + [(newId, who)]
  {
  }

  /** The view an eviction appends: the member at position k removed from both lists,
      so that every remaining identity stays paired with its address. */
  function Evict(last: Groups, viewId: int, k: nat): (v: Groups)
    requires k < |last.listId| && k < |last.group|
    ensures v.viewId == viewId
    ensures |v.group| == |last.group| - 1
  {
    Groups(viewId, RemoveAt(last.listId, k), RemoveAt(last.group, k))
  }

  /** Evicting removes the same position from both lists, so the lists keep equal
      length and every remaining member stays paired with its own identity. */
  lemma EvictKeepsPairs(last: Groups, viewId: int, k: nat)
    requires WellFormed(last) && k < |last.listId|
    ensures WellFormed(Evict(last, viewId, k))
    ensures Members(Evict(last, viewId, k)) == RemoveAt(Members(last), k)
  {
  }

  /** What one actor sends another (JoinGroupMsg, ViewMessage, ChatMsg, FlushMsg,
      Beacon and the StartChatMsg an actor sends itself). */
  datatype Wire =
    | JoinReply(newId: int, view: Groups)
    | ViewAnnounce(view: Groups)
    | Chat(msg: ChatMsg)
    | FlushToken(flushViewId: int)
    | BeaconMsg
    | StartChat(msgId: MsgId)

  /** One `tell`: the destination and the message. */
  datatype Envelope = Envelope(dest: Ref, body: Wire)

  /** The `tell`s of one message to each destination, in order. */
  function Tells(dests: seq<Ref>, w: Wire): (out: seq<Envelope>)
    ensures |out| == |dests|
    ensures forall i :: 0 <= i < |dests| ==> out[i] == Envelope(dests[i], w)
  {
    if dests == [] then [] else [Envelope(dests[0], w)] + Tells(dests[1..], w)
  }

  /** Telling a message to two lists of destinations in turn is telling it to their
      concatenation. */
  lemma TellsConcat(a: seq<Ref>, b: seq<Ref>, w: Wire)
    ensures Tells(a + b, w) == Tells(a, w) + Tells(b, w)
  {
  }

  /** Telling a message to one more destination appends one `tell`. */
  lemma TellsSnoc(ds: seq<Ref>, d: Ref, w: Wire)
    ensures Tells(ds + [d], w) == Tells(ds, w) + [Envelope(d, w)]
  {
  }

  /** The tells of one message to every member of a list but `me`, in list order:
      what a loop over the members that skips `p.equals(getSelf())` sends. */
  function Broadcast(members: seq<Ref>, me: Ref, w: Wire): seq<Envelope> {
    if members == [] then []
    else (if members[0] == me then [] else [Envelope(members[0], w)]) + Broadcast(members[1..], me, w)
  }

  /** A broadcast is one tell to each member other than `me`, in member order. */
  lemma {:induction false} BroadcastIsTells(members: seq<Ref>, me: Ref, w: Wire)
    ensures Broadcast(members, me, w) == Tells(Without(members, me), w)
  {
    if members != [] {
      BroadcastIsTells(members[1..], me, w);
      var h := if members[0] == me then [] else [members[0]];
      assert Without(members, me) == h + Without(members[1..], me);
      TellsConcat(h, Without(members[1..], me), w);
    }
  }

  /** Extending a member list by one: the broadcast gains one tell to the new member
      unless it is `me`. */
  lemma BroadcastSnoc(s: seq<Ref>, p: Ref, me: Ref, w: Wire)
    ensures Broadcast(s + [p], me, w) == Broadcast(s, me, w) + (if p == me then [] else [Envelope(p, w)])
  {
    BroadcastIsTells(s, me, w);
    BroadcastIsTells(s + [p], me, w);
    WithoutSnoc(s, p, me);
    if p != me {
      TellsSnoc(Without(s, me), p, w);
    } else {
      assert Tells(Without(s, me), w) + [] == Tells(Without(s, me), w);
    }
  }

  /** A callback scheduled on the actor itself: the TimerMsg that paces the next
      chat message, a participant's own beacon Timeout, and a coordinator's Timeout
      for one member; the last two carry their delay in milliseconds. */
  datatype Timer = Tick | SelfTimeout(delayMs: int) | MemberTimeout(member: Ref, delayMs: int)

  /** One line of an actor's history: a multicast it sent, a message it delivered and
      a view it installed, each tagged with the actor's identity. */
  datatype Event =
    | Sent(actor: int, msgId: MsgId, viewId: int)
    | Delivered(actor: int, msgId: MsgId, from: int, viewId: int)
    | Installed(actor: int, viewId: int, listId: seq<int>)

  /** The exceptions a handler can throw. */
  datatype Failure =
    | AlreadyInGroup      // onRequestJoin: "Peer already in the group"
    | UnknownMessageType  // onChatMsg: "Unknown message type"
    | IndexOutOfBounds    // List.get / List.remove with an index outside the list
    | NoSuchElement       // Collections.max of an empty list

  /** How a handler ends: normally, or by throwing. */
  datatype Outcome = Done | Raised(failure: Failure)

  datatype Option<T> = None | Some(value: T)
}
