/** The document store behind the backend routes: users, conversations and messages, each
    collection a sequence in insertion order. Identifiers are naturals handed out by one
    counter, so every collection is in ascending id order; `updatedAt` reads a logical clock. */
module Db {
  import opened Wrappers

  type Id = nat

  /** A user document, with the fields of the User schema that the routes read or write. */
  datatype User = User(id: Id, userName: string, email: string, password: string)

  /** A conversation document: its participants, the pointer to its latest message and
      the logical time of its last update. */
  datatype Conversation = Conversation(id: Id, participants: seq<Id>, lastMessage: Option<Id>, updatedAt: nat)

  /** A message document; `readBy` is the set of readers, kept as a sequence without repeats. */
  datatype Message = Message(
    id: Id, conversation: Id, sender: Id,
    content: Option<string>, mediaURL: Option<string>, mediaType: Option<string>,
    readBy: seq<Id>)

  /** An HTTP answer: the status code, the `message` text of the JSON body and its `data`. */
  datatype Reply<T> = Reply(status: nat, message: string, data: Option<T>)

  const Ok: nat := 200
  const Created: nat := 201
  const BadRequest: nat := 400
  const NotFound: nat := 404
  const Conflict: nat := 409
  const ServerError: nat := 500

  /** Which store call throws, if any: under `FailsAt(k)` the calls before the `k`-th
      (counting from 0) succeed and the `k`-th throws. */
  datatype Fault = Healthy | FailsAt(step: nat)

  /** The first `k` store calls of a handler succeed. */
  predicate Survives(fault: Fault, k: nat) {
    fault.Healthy? || fault.step >= k
  }

  predicate NoRepeats<T(==)>(s: seq<T>) {
    forall i, j :: 0 <= i < j < |s| ==> s[i] != s[j]
  }

  /** `c` is a one-to-one conversation of `a` and `b`: what
      `{ participants: { $all: [a, b], $size: 2 } }` selects. */
  predicate IsPairOf(c: Conversation, a: Id, b: Id) {
    |c.participants| == 2 && a in c.participants && b in c.participants
  }

  predicate UsersOk(users: seq<User>, nextId: Id) {
    && (forall i, j :: 0 <= i < j < |users| ==> users[i].id < users[j].id)
    && (forall i :: 0 <= i < |users| ==> users[i].id < nextId)
    && (forall i, j :: 0 <= i < j < |users| ==> users[i].email != users[j].email)
    && (forall i, j :: 0 <= i < j < |users| ==> users[i].userName != users[j].userName)
  }

  /** At most one one-to-one conversation per pair of distinct users. */
  ghost predicate UniquePairs(convs: seq<Conversation>) {
    forall i, j, a: Id, b: Id :: 0 <= i < j < |convs| && a != b && IsPairOf(convs[i], a, b) ==> !IsPairOf(convs[j], a, b)
  }

  ghost predicate ConversationsOk(convs: seq<Conversation>, nextId: Id) {
    && (forall i, j :: 0 <= i < j < |convs| ==> convs[i].id < convs[j].id)
    && (forall i :: 0 <= i < |convs| ==> convs[i].id < nextId)
    && UniquePairs(convs)
  }

  predicate AscendingIds(ms: seq<Message>) {
    forall i, j :: 0 <= i < j < |ms| ==> ms[i].id < ms[j].id
  }

  predicate MessagesOk(ms: seq<Message>, nextId: Id) {
    && AscendingIds(ms)
    && (forall i :: 0 <= i < |ms| ==> ms[i].id < nextId)
    && (forall i :: 0 <= i < |ms| ==> NoRepeats(ms[i].readBy))
  }

  /** Advancing the id counter keeps the conversation and message invariants. */
  lemma CounterAdvance(convs: seq<Conversation>, ms: seq<Message>, n: Id, m: Id)
    requires n <= m
    requires ConversationsOk(convs, n) && MessagesOk(ms, n)
    ensures ConversationsOk(convs, m) && MessagesOk(ms, m)
  {
  }

  lemma UsersAdvance(users: seq<User>, n: Id, m: Id)
    requires n <= m && UsersOk(users, n)
    ensures UsersOk(users, m)
  {
  }

  class Store {
    var users: seq<User>
    var conversations: seq<Conversation>
    var messages: seq<Message>
    var nextId: Id
    var clock: nat

    ghost predicate Valid()
      reads this
    {
      UsersOk(users, nextId) && ConversationsOk(conversations, nextId) && MessagesOk(messages, nextId)
    }

    constructor ()
      ensures Valid()
      ensures users == [] && conversations == [] && messages == []
      ensures nextId == 0 && clock == 0
    {
      users, conversations, messages := [], [], [];
      nextId, clock := 0, 0;
    }
  }
}
