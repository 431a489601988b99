/** The message routes: `POST /send` stores a message and repoints its conversation's
    `lastMessage`; `POST /:id/read` adds the caller to a message's readers. Both relay an
    event to live sockets afterwards, best-effort. */
module MessageRoute {
  import opened Wrappers
  import opened Db
  import Seqs
  import ConversationRoute

  /** The JSON body of `POST /send`; `None` stands for a field that is absent or null. */
  datatype SendBody = SendBody(
    conversationId: Option<Id>, content: Option<string>, mediaURL: Option<string>, mediaType: Option<string>)

  /** The realtime server as the handler sees it through `req.io`: absent, working,
      throwing on the room emit, or throwing on the global emit after the room emit went out. */
  datatype SocketLayer = NoSocket | Connected | Broken | BrokenAfterRoom

  /** Where an event goes: the conversation's room, or every connection. */
  datatype Target = Room(conversation: Id) | Everyone

  /** `message:new`, `message:read`, `conversation:<id>:message:update` and
      `conversation:<id>:message:read`. */
  datatype EventName =
    | MessageNew
    | MessageRead
    | ConversationMessageUpdate(conversation: Id)
    | ConversationMessageRead(conversation: Id)

  datatype Payload = NewMessage(message: Message) | ReadReceipt(messageId: Id, userId: Id)

  datatype Emission = Emission(target: Target, event: EventName, payload: Payload)

  const SendRejected: string := "conversationId and content or mediaURL required"
  const SendFailed: string := "Failed to send message"
  const MessageSent: string := "Message sent"
  const MessageMissing: string := "Message not found"
  const MarkedRead: string := "Message marked as read"
  const ReadFailed: string := "Failed to update read status"

  /** JavaScript truthiness of an optional string: present and not `""`. */
  predicate Truthy(v: Option<string>) {
    v.Some? && v.value != ""
  }

  /** `v || null`. */
  function OrNull(v: Option<string>): (r: Option<string>)
    ensures r.Some? <==> Truthy(v)
    ensures r.Some? ==> r == v
  {
    if Truthy(v) then v else None
  }

  /** The guard of `/send`: no conversation, or neither text nor media. */
  predicate SendIsRejected(body: SendBody) {
    body.conversationId.None? || (!Truthy(body.content) && !Truthy(body.mediaURL))
  }

  /** The document `Message.create` stores for an accepted body. */
  function StoredMessage(id: Id, sender: Id, body: SendBody): (m: Message)
    requires !SendIsRejected(body)
    ensures m.id == id && m.sender == sender && m.conversation == body.conversationId.value
    ensures m.readBy == []
    ensures m.content.Some? || m.mediaURL.Some?
    ensures m.content.Some? ==> m.content == body.content && m.content.value != ""
    ensures m.mediaURL.Some? ==> m.mediaURL == body.mediaURL && m.mediaURL.value != ""
    ensures m.mediaType.Some? <==> Truthy(body.mediaType)
    ensures m.content.Some? <==> Truthy(body.content)
    ensures m.mediaURL.Some? <==> Truthy(body.mediaURL)
    ensures m.content == OrNull(body.content) && m.mediaURL == OrNull(body.mediaURL)
    ensures m.mediaType == OrNull(body.mediaType)
  {
    Message(id, body.conversationId.value, sender, OrNull(body.content), OrNull(body.mediaURL), OrNull(body.mediaType), [])
  }

  /** `Conversation.findByIdAndUpdate(cid, { lastMessage: mid, updatedAt: now })`; an unknown
      `cid` matches nothing and changes nothing. */
  function SetLastMessage(convs: seq<Conversation>, cid: Id, mid: Id, now: nat): (r: seq<Conversation>)
    ensures |r| == |convs|
    ensures forall i :: 0 <= i < |r| ==> r[i].id == convs[i].id && r[i].participants == convs[i].participants
    ensures forall i :: 0 <= i < |r| && convs[i].id == cid ==> r[i].lastMessage == Some(mid) && r[i].updatedAt == now
    ensures forall i :: 0 <= i < |r| && convs[i].id != cid ==> r[i] == convs[i]
  {
    seq(|convs|, i requires 0 <= i < |convs| =>
      if convs[i].id == cid then convs[i].(lastMessage := Some(mid), updatedAt := now) else convs[i])
  }

  /** The two emits inside `try { … } catch {}`: to the room, then to every connection. With no
      socket server both optional calls are skipped; when the room emit throws, nothing is sent;
      when the global emit throws, the room emit has already gone out. Whatever happens, what is
      sent is a prefix of the two intended emissions. */
  function Relay(io: SocketLayer, room: Id, roomEvent: EventName, globalEvent: EventName, payload: Payload)
    : (r: seq<Emission>)
    ensures r <= [Emission(Room(room), roomEvent, payload), Emission(Everyone, globalEvent, payload)]
    ensures io.Connected? ==> r == [Emission(Room(room), roomEvent, payload), Emission(Everyone, globalEvent, payload)]
    ensures io.BrokenAfterRoom? ==> r == [Emission(Room(room), roomEvent, payload)]
    ensures io.NoSocket? || io.Broken? ==> r == []
  {
    match io
    case Connected => [Emission(Room(room), roomEvent, payload), Emission(Everyone, globalEvent, payload)]
    case BrokenAfterRoom => [Emission(Room(room), roomEvent, payload)]
    case _ => []
  }

  /** `$addToSet`: add `x` unless it is already there. */
  function AddToSet(s: seq<Id>, x: Id): (r: seq<Id>)
    ensures x in r
    ensures forall y :: y in r <==> y in s || y == x
    ensures NoRepeats(s) ==> NoRepeats(r)
    ensures s <= r && |r| <= |s| + 1
  {
    if x in s then s else s + [x]
  }

  /** Adding a reader twice is the same as adding it once. */
  lemma AddToSetIdempotent(s: seq<Id>, x: Id)
    ensures AddToSet(AddToSet(s, x), x) == AddToSet(s, x)
  {
  }

  /** Readers are only ever added: the reader set grows monotonically. */
  lemma {:induction false} AddAllKeepsReaders(s: seq<Id>, readers: seq<Id>)
    ensures forall y :: y in s ==> y in AddAll(s, readers)
    ensures forall r :: r in readers ==> r in AddAll(s, readers)
    ensures NoRepeats(s) ==> NoRepeats(AddAll(s, readers))
    decreases |readers|
  {
    if readers != [] {
      AddAllKeepsReaders(AddToSet(s, readers[0]), readers[1..]);
    }
  }

  /** The reader set after each reader in `readers` marks the message read, in order. */
  function AddAll(s: seq<Id>, readers: seq<Id>): seq<Id>
    decreases |readers|
  {
    if readers == [] then s else AddAll(AddToSet(s, readers[0]), readers[1..])
  }

  /** `POST /send` for the authenticated user `sender`. Store calls, in order: create the
      message (0), update the conversation (1), reload the message (2); a throwing call
      ends the request with 500, keeping whatever the calls before it wrote. */
  method Send(db: Store, sender: Id, body: SendBody, io: SocketLayer, fault: Fault)
    returns (reply: Reply<Message>, relayed: seq<Emission>)
    requires db.Valid()
    modifies db
    ensures db.Valid()
    ensures db.users == old(db.users)
    ensures SendIsRejected(body) ==>
      reply == Reply(BadRequest, SendRejected, None) && relayed == [] && unchanged(db)
    ensures !SendIsRejected(body) && !Survives(fault, 1) ==>
      reply == Reply(ServerError, SendFailed, None) && relayed == [] && unchanged(db)
    ensures !SendIsRejected(body) && Survives(fault, 1) ==>
      var m := StoredMessage(old(db.nextId), sender, body);
      && db.messages == old(db.messages) + [m]
      && db.nextId == old(db.nextId) + 1
      && db.clock == old(db.clock) + (if Survives(fault, 2) then 1 else 0)
      && db.conversations ==
           (if Survives(fault, 2) then SetLastMessage(old(db.conversations), m.conversation, m.id, old(db.clock))
            else old(db.conversations))
      && (Survives(fault, 3) ==>
            reply == Reply(Created, MessageSent, Some(m))
            && relayed == Relay(io, m.conversation, MessageNew, ConversationMessageUpdate(m.conversation), NewMessage(m)))
      && (!Survives(fault, 3) ==> reply == Reply(ServerError, SendFailed, None) && relayed == [])
  {
    relayed := [];
    if SendIsRejected(body) {
      reply := Reply(BadRequest, SendRejected, None);
    } else if !Survives(fault, 1) {
      reply := Reply(ServerError, SendFailed, None);
    } else {
      // Message.create
      var m := StoredMessage(db.nextId, sender, body);
      InsertMessage(db, m);
      if Survives(fault, 2) {
        TouchConversation(db, m.conversation, m.id);
      }
      if Survives(fault, 3) {
        // Message.findById(...).populate("sender"): the message just stored
        relayed := Relay(io, m.conversation, MessageNew, ConversationMessageUpdate(m.conversation), NewMessage(m));
        reply := Reply(Created, MessageSent, Some(m));
      } else {
        reply := Reply(ServerError, SendFailed, None);
      }
    }
  }

  /** A message sent successfully is the newest one its conversation lists: fetching the
      conversation's messages right after, with any limit and no cursor, gives a page that
      ends with it. */
  method SendThenFetch(db: Store, sender: Id, body: SendBody, io: SocketLayer, limit: Option<nat>)
    returns (sent: Reply<Message>, fetched: Reply<seq<Message>>)
    requires db.Valid() && !SendIsRejected(body)
    modifies db
    ensures db.Valid()
    ensures sent.status == Created && sent.data.Some?
    ensures fetched.status == Ok && fetched.data.Some? && fetched.data.value != []
    ensures fetched.data.value[|fetched.data.value| - 1] == sent.data.value
  {
    var relayed;
    sent, relayed := Send(db, sender, body, io, Healthy);
    fetched := ConversationRoute.Messages(db.messages, body.conversationId.value, limit, None, Healthy);
    ConversationRoute.AppendedMessageEndsPage(old(db.messages), sent.data.value, limit.GetOr(ConversationRoute.DefaultLimit));
  }

  /** `Message.create`: stores `m` under the next id. */
  method InsertMessage(db: Store, m: Message)
    requires db.Valid() && m.id == db.nextId && m.readBy == []
    modifies db
    ensures db.Valid()
    ensures db.messages == old(db.messages) + [m] && db.nextId == old(db.nextId) + 1
    ensures db.users == old(db.users) && db.conversations == old(db.conversations) && db.clock == old(db.clock)
  {
    AppendKeepsMessagesOk(db.messages, db.nextId, m);
    UsersAdvance(db.users, db.nextId, db.nextId + 1);
    CounterAdvance(db.conversations, [], db.nextId, db.nextId + 1);
    db.messages, db.nextId := db.messages + [m], db.nextId + 1;
  }

  /** `Conversation.findByIdAndUpdate(cid, { lastMessage: mid, updatedAt: new Date() })`. */
  method TouchConversation(db: Store, cid: Id, mid: Id)
    requires db.Valid()
    modifies db
    ensures db.Valid()
    ensures db.conversations == SetLastMessage(old(db.conversations), cid, mid, old(db.clock))
    ensures db.clock == old(db.clock) + 1
    ensures db.users == old(db.users) && db.messages == old(db.messages) && db.nextId == old(db.nextId)
  {
    SetLastKeepsOk(db.conversations, db.nextId, cid, mid, db.clock);
    db.conversations, db.clock := SetLastMessage(db.conversations, cid, mid, db.clock), db.clock + 1;
  }

  /** Storing a message under the next id keeps the message invariant. */
  lemma AppendKeepsMessagesOk(ms: seq<Message>, nextId: Id, m: Message)
    requires MessagesOk(ms, nextId) && m.id == nextId && m.readBy == []
    ensures MessagesOk(ms + [m], nextId + 1)
  {
    var s := ms + [m];
    forall i, j | 0 <= i < j < |s| ensures s[i].id < s[j].id {
      assert s[i] == ms[i];
    }
  }

  /** Repointing `lastMessage` keeps ids and participants, so the conversation invariant. */
  lemma SetLastKeepsOk(convs: seq<Conversation>, nextId: Id, cid: Id, mid: Id, now: nat)
    requires ConversationsOk(convs, nextId)
    ensures ConversationsOk(SetLastMessage(convs, cid, mid, now), nextId)
  {
    var r := SetLastMessage(convs, cid, mid, now);
    forall i, j, a: Id, b: Id | 0 <= i < j < |r| && a != b && IsPairOf(r[i], a, b) ensures !IsPairOf(r[j], a, b) {
      assert IsPairOf(convs[i], a, b);
    }
  }

  /** The position of the message with id `id`. */
  function MessageIndex(ms: seq<Message>, id: Id): (r: Option<nat>)
    ensures r.Some? ==> r.value < |ms| && ms[r.value].id == id
    ensures r.None? ==> forall i :: 0 <= i < |ms| ==> ms[i].id != id
  {
    Seqs.FirstIndex(ms, (m: Message) => m.id == id)
  }

  /** `POST /:id/read` for the authenticated user `reader`: one store call,
      `Message.findByIdAndUpdate(id, { $addToSet: { readBy: reader } }, { new: true })`. */
  method MarkRead(db: Store, reader: Id, id: Id, io: SocketLayer, fault: Fault)
    returns (reply: Reply<Message>, relayed: seq<Emission>)
    requires db.Valid()
    modifies db
    ensures db.Valid()
    ensures db.users == old(db.users) && db.conversations == old(db.conversations)
    ensures db.nextId == old(db.nextId) && db.clock == old(db.clock)
    ensures !Survives(fault, 1) ==>
      reply == Reply(ServerError, ReadFailed, None) && relayed == [] && db.messages == old(db.messages)
    ensures Survives(fault, 1) && MessageIndex(old(db.messages), id).None? ==>
      reply == Reply(NotFound, MessageMissing, None) && relayed == [] && db.messages == old(db.messages)
    ensures Survives(fault, 1) && MessageIndex(old(db.messages), id).Some? ==>
      var i := MessageIndex(old(db.messages), id).value;
      var updated := old(db.messages)[i].(readBy := AddToSet(old(db.messages)[i].readBy, reader));
      && db.messages == old(db.messages)[i := updated]
      && reply == Reply(Ok, MarkedRead, Some(updated))
      && relayed == Relay(io, updated.conversation, MessageRead, ConversationMessageRead(updated.conversation),
                          ReadReceipt(id, reader))
  {
    if !Survives(fault, 1) {
      return Reply(ServerError, ReadFailed, None), [];
    }
    var found := MessageIndex(db.messages, id);
    if found.None? {
      return Reply(NotFound, MessageMissing, None), [];
    }
    var i := found.value;
    var updated := db.messages[i].(readBy := AddToSet(db.messages[i].readBy, reader));
    db.messages := db.messages[i := updated];
    relayed := Relay(io, updated.conversation, MessageRead, ConversationMessageRead(updated.conversation),
                     ReadReceipt(id, reader));
    reply := Reply(Ok, MarkedRead, Some(updated));
  }

  /** Marking a message read never touches another message, and the reader set it leaves
      holds the old readers plus the caller, without repeats. */
  lemma MarkReadLocal(ms: seq<Message>, nextId: Id, id: Id, reader: Id)
    requires MessagesOk(ms, nextId)
    requires MessageIndex(ms, id).Some?
    ensures
      var i := MessageIndex(ms, id).value;
      var ms' := ms[i := ms[i].(readBy := AddToSet(ms[i].readBy, reader))];
      && (forall j :: 0 <= j < |ms| && ms[j].id != id ==> ms'[j] == ms[j])
      && reader in ms'[i].readBy
      && (forall y :: y in ms[i].readBy ==> y in ms'[i].readBy)
      && NoRepeats(ms'[i].readBy)
  {
    var i := MessageIndex(ms, id).value;
    assert NoRepeats(ms[i].readBy);
  }
}
