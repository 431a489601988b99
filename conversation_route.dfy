/** The conversation routes: `GET /` lists the caller's conversations, most recently
    updated first; `POST /create` finds or creates the one-to-one conversation with another
    user; `GET /:id/messages` returns one page of a conversation's messages. */
module ConversationRoute {
  import opened Wrappers
  import opened Db
  import Seqs

  const ListFailed: string := "Failed to fetch conversations"
  const Listed: string := "Conversations fetched successfully"
  const UserIdRequired: string := "userId is required"
  const ExistingFetched: string := "Existing conversation fetched"
  const ConversationCreated: string := "Conversation created"
  const CreateFailed: string := "Failed to create conversation"
  const MessagesFetched: string := "Messages fetched"
  const MessagesFailed: string := "Failed to fetch messages"

  /** The page size used when the request has no `limit`. */
  const DefaultLimit: nat := 50

  // ---------------------------------------------------------------- listing

  predicate NewestFirst(s: seq<Conversation>) {
    forall i, j :: 0 <= i < j < |s| ==> s[i].updatedAt >= s[j].updatedAt
  }

  /** Places `c` in front of the first conversation that is not newer than it. */
  function InsertByRecency(c: Conversation, s: seq<Conversation>): seq<Conversation> {
    if s == [] || c.updatedAt >= s[0].updatedAt then [c] + s
    else [s[0]] + InsertByRecency(c, s[1..])
  }

  /** Insertion keeps a newest-first sequence newest first; the result starts with `c` or
      with the old head. */
  lemma {:induction false} InsertKeepsOrder(c: Conversation, s: seq<Conversation>)
    requires NewestFirst(s)
    ensures var r := InsertByRecency(c, s);
      NewestFirst(r) && r != [] && (r[0] == c || (s != [] && r[0] == s[0]))
  {
    if s != [] && c.updatedAt < s[0].updatedAt {
      InsertKeepsOrder(c, s[1..]);
    }
  }

  /** Insertion adds `c` and loses nothing. */
  lemma {:induction false} InsertAddsOne(c: Conversation, s: seq<Conversation>)
    ensures multiset(InsertByRecency(c, s)) == multiset(s) + multiset{c}
  {
    if s != [] && c.updatedAt < s[0].updatedAt {
      InsertAddsOne(c, s[1..]);
      assert s == [s[0]] + s[1..];
      assert InsertByRecency(c, s) == [s[0]] + InsertByRecency(c, s[1..]);
    }
  }

  /** `.sort({ updatedAt: -1 })`. */
  function SortByRecency(s: seq<Conversation>): (r: seq<Conversation>)
    ensures NewestFirst(r)
    ensures multiset(r) == multiset(s)
  {
    if s == [] then []
    else
      var rest := SortByRecency(s[1..]);
      InsertKeepsOrder(s[0], rest);
      InsertAddsOne(s[0], rest);
      assert s == [s[0]] + s[1..];
      InsertByRecency(s[0], rest)
  }

  /** `Conversation.find({ participants: { $in: [userId] } }).sort({ updatedAt: -1 })`. */
  function ConversationsOf(convs: seq<Conversation>, userId: Id): (r: seq<Conversation>)
    ensures forall c :: c in r <==> c in convs && userId in c.participants
    ensures NewestFirst(r)
    ensures multiset(r) == multiset(Seqs.Filter(convs, (c: Conversation) => userId in c.participants))
  {
    var mine := Seqs.Filter(convs, (c: Conversation) => userId in c.participants);
    var r := SortByRecency(mine);
    assert forall c :: c in r <==> c in multiset(mine);
    r
  }

  /** `GET /` for the authenticated user `userId`; the one store call may throw. */
  function List(convs: seq<Conversation>, userId: Id, fault: Fault): (reply: Reply<seq<Conversation>>)
    ensures !Survives(fault, 1) ==> reply == Reply(ServerError, ListFailed, None)
    ensures Survives(fault, 1) ==> reply.status == Ok && reply.data.Some?
    ensures Survives(fault, 1) ==> forall c :: c in reply.data.value <==> c in convs && userId in c.participants
    ensures Survives(fault, 1) ==> NewestFirst(reply.data.value)
    ensures Survives(fault, 1) ==> reply.message == Listed
    ensures Survives(fault, 1) ==>
      multiset(reply.data.value) == multiset(Seqs.Filter(convs, (c: Conversation) => userId in c.participants))
    ensures Survives(fault, 1) ==> reply == Reply(Ok, Listed, Some(ConversationsOf(convs, userId)))
  {
    if !Survives(fault, 1) then Reply(ServerError, ListFailed, None)
    else Reply(Ok, Listed, Some(ConversationsOf(convs, userId)))
  }

  // ---------------------------------------------------------------- find or create

  /** `Conversation.findOne({ participants: { $all: [a, b], $size: 2 } })`: the first
      one-to-one conversation holding both ids. */
  function ExistingPair(convs: seq<Conversation>, a: Id, b: Id): (r: Option<Conversation>)
    ensures r.Some? ==> r.value in convs && IsPairOf(r.value, a, b)
    ensures r.None? ==> forall i :: 0 <= i < |convs| ==> !IsPairOf(convs[i], a, b)
  {
    if convs == [] then None
    else if IsPairOf(convs[0], a, b) then Some(convs[0])
    else ExistingPair(convs[1..], a, b)
  }

  /** The lookup does not depend on which of the two users asks. */
  lemma {:induction false} ExistingPairSymmetric(convs: seq<Conversation>, a: Id, b: Id)
    ensures ExistingPair(convs, a, b) == ExistingPair(convs, b, a)
  {
    if convs != [] {
      ExistingPairSymmetric(convs[1..], a, b);
    }
  }

  /** The lookup finds the first match, so appending a document never changes an
      answer that was already there. */
  lemma {:induction false} ExistingPairAppend(convs: seq<Conversation>, c: Conversation, a: Id, b: Id)
    ensures ExistingPair(convs + [c], a, b) ==
      if ExistingPair(convs, a, b).Some? then ExistingPair(convs, a, b)
      else if IsPairOf(c, a, b) then Some(c) else None
  {
    if convs == [] {
      assert [c][1..] == [];
    } else {
      assert (convs + [c])[1..] == convs[1..] + [c];
      ExistingPairAppend(convs[1..], c, a, b);
    }
  }

  /** After a creation for the pair `a`, `b`, a later request for the same pair,
      made by either of them, finds the conversation just created. */
  lemma SecondCreateFindsFirst(convs: seq<Conversation>, id: Id, now: nat, a: Id, b: Id)
    requires ExistingPair(convs, a, b).None?
    ensures
      var c := Conversation(id, [a, b], None, now);
      && ExistingPair(convs + [c], a, b) == Some(c)
      && ExistingPair(convs + [c], b, a) == Some(c)
  {
    var c := Conversation(id, [a, b], None, now);
    ExistingPairAppend(convs, c, a, b);
    ExistingPairSymmetric(convs, a, b);
    ExistingPairAppend(convs, c, b, a);
  }

  /** Appending `[a, b]` when no conversation of that pair exists keeps the one-per-pair rule. */
  lemma AppendKeepsUniquePairs(convs: seq<Conversation>, c: Conversation, a: Id, b: Id)
    requires UniquePairs(convs)
    requires ExistingPair(convs, a, b).None?
    requires c.participants == [a, b]
    ensures UniquePairs(convs + [c])
  {
    var s := convs + [c];
    forall i, j, x: Id, y: Id | 0 <= i < j < |s| && x != y && IsPairOf(s[i], x, y)
      ensures !IsPairOf(s[j], x, y)
    {
      if j == |convs| {
        assert s[i] == convs[i];
      }
    }
  }

  /** `POST /create` by `self` with body field `userId` (`None` when absent or empty).
      Store calls, in order: the lookup (0), the insertion (1), the reload (2). */
  method Create(db: Store, self: Id, userId: Option<Id>, fault: Fault) returns (reply: Reply<Conversation>)
    requires db.Valid()
    modifies db
    ensures db.Valid()
    ensures db.users == old(db.users) && db.messages == old(db.messages)
    ensures userId.None? ==> reply == Reply(BadRequest, UserIdRequired, None) && unchanged(db)
    ensures userId.Some? && !Survives(fault, 1) ==> reply == Reply(ServerError, CreateFailed, None) && unchanged(db)
    ensures userId.Some? && Survives(fault, 1) && ExistingPair(old(db.conversations), self, userId.value).Some? ==>
      reply == Reply(Ok, ExistingFetched, ExistingPair(old(db.conversations), self, userId.value)) && unchanged(db)
    ensures userId.Some? && Survives(fault, 1) && ExistingPair(old(db.conversations), self, userId.value).None? ==>
      var c := Conversation(old(db.nextId), [self, userId.value], None, old(db.clock));
      && (!Survives(fault, 2) ==> reply == Reply(ServerError, CreateFailed, None) && unchanged(db))
      && (Survives(fault, 2) ==>
            && db.conversations == old(db.conversations) + [c]
            && db.nextId == old(db.nextId) + 1 && db.clock == old(db.clock) + 1
            && reply == (if Survives(fault, 3) then Reply(Created, ConversationCreated, Some(c))
                         else Reply(ServerError, CreateFailed, None)))
  {
    if userId.None? {
      return Reply(BadRequest, UserIdRequired, None);
    }
    var other := userId.value;
    if !Survives(fault, 1) {
      return Reply(ServerError, CreateFailed, None);
    }
    var existing := ExistingPair(db.conversations, self, other);
    if existing.Some? {
      return Reply(Ok, ExistingFetched, existing);
    }
    if !Survives(fault, 2) {
      return Reply(ServerError, CreateFailed, None);
    }
    // Conversation.create, stamped with the current time
    var c := Conversation(db.nextId, [self, other], None, db.clock);
    AppendKeepsUniquePairs(db.conversations, c, self, other);
    db.conversations := db.conversations + [c];
    db.nextId := db.nextId + 1;
    db.clock := db.clock + 1;
    if !Survives(fault, 3) {
      return Reply(ServerError, CreateFailed, None);
    }
    reply := Reply(Created, ConversationCreated, Some(c));
  }

  /** Two requests in a row for the same pair of distinct users, the second made by the
      other user, yield one conversation: the second answer is the first one's. */
  method CreateTwice(db: Store, a: Id, b: Id) returns (first: Reply<Conversation>, second: Reply<Conversation>)
    requires db.Valid() && a != b
    modifies db
    ensures db.Valid()
    ensures first.data.Some? && second.data.Some? && first.data == second.data
    ensures second.status == Ok
    ensures |db.conversations| <= old(|db.conversations|) + 1
    ensures second.data.value in db.conversations && IsPairOf(second.data.value, a, b)
    ensures forall c :: c in db.conversations && IsPairOf(c, a, b) ==> c == second.data.value
  {
    first := Create(db, a, Some(b), Healthy);
    if first.status == Created {
      SecondCreateFindsFirst(old(db.conversations), old(db.nextId), old(db.clock), a, b);
    } else {
      ExistingPairSymmetric(db.conversations, a, b);
    }
    second := Create(db, b, Some(a), Healthy);
    OnlyPair(db.conversations, second.data.value, a, b);
  }

  /** Under the one-per-pair rule, a stored conversation of the pair is the only one. */
  lemma OnlyPair(convs: seq<Conversation>, c: Conversation, a: Id, b: Id)
    requires UniquePairs(convs) && a != b
    requires c in convs && IsPairOf(c, a, b)
    ensures forall d :: d in convs && IsPairOf(d, a, b) ==> d == c
  {
    var i :| 0 <= i < |convs| && convs[i] == c;
    forall d | d in convs && IsPairOf(d, a, b) ensures d == c {
      var j :| 0 <= j < |convs| && convs[j] == d;
      SamePairSameIndex(convs, i, j, a, b);
    }
  }

  lemma SamePairSameIndex(convs: seq<Conversation>, i: nat, j: nat, a: Id, b: Id)
    requires UniquePairs(convs) && a != b
    requires i < |convs| && j < |convs|
    requires IsPairOf(convs[i], a, b) && IsPairOf(convs[j], a, b)
    ensures i == j
  {
  }

  // ---------------------------------------------------------------- pagination

  /** The message filter `{ conversation: cid }`, with `_id: { $lt: before }` when
      `before` is given. */
  function PageFilter(cid: Id, before: Option<Id>): Message -> bool {
    (m: Message) => m.conversation == cid && (before.None? || m.id < before.value)
  }

  /** The messages whose id is below `t`. */
  function Below(t: Id): Message -> bool {
    (m: Message) => m.id < t
  }

  /** The messages the filter selects, in store (ascending id) order. */
  function Candidates(ms: seq<Message>, cid: Id, before: Option<Id>): seq<Message> {
    Seqs.Filter(ms, PageFilter(cid, before))
  }

  /** How many messages a page holds: MongoDB's `limit(0)` sets no limit. */
  function PageSize(available: nat, limit: nat): (n: nat)
    ensures n <= available
    ensures limit > 0 ==> n <= limit
    ensures n == available || n == limit
    ensures limit == 0 ==> n == available
    ensures limit > 0 ==> n == if available < limit then available else limit
  {
    if limit == 0 || available < limit then available else limit
  }

  /** `Message.find(query).sort({ _id: -1 }).limit(limit)` followed by `reverse()`. The store
      holds messages in ascending id order, so sorting by descending id reverses them; the
      page is the newest `limit` candidates, oldest first. */
  function Page(ms: seq<Message>, cid: Id, limit: nat, before: Option<Id>): (page: seq<Message>)
    ensures var cs := Candidates(ms, cid, before);
      page == cs[|cs| - PageSize(|cs|, limit)..]
    ensures limit > 0 ==> |page| <= limit
  {
    var cs := Candidates(ms, cid, before);
    var newestFirst := Seqs.Reverse(cs);
    var limited := Seqs.Take(newestFirst, if limit == 0 then |newestFirst| else limit);
    var page := Seqs.Reverse(limited);
    Seqs.ReverseTakeReverse(cs, if limit == 0 then |newestFirst| else limit);
    page
  }

  /** Every message of a page belongs to the requested conversation and, with a cursor,
      is older than the cursor. */
  lemma PageSelects(ms: seq<Message>, cid: Id, limit: nat, before: Option<Id>)
    ensures forall m :: m in Page(ms, cid, limit, before) ==> m in ms && m.conversation == cid
    ensures before.Some? ==> forall m :: m in Page(ms, cid, limit, before) ==> m.id < before.value
  {
    var cs := Candidates(ms, cid, before);
    var page := Page(ms, cid, limit, before);
    var k := |cs| - PageSize(|cs|, limit);
    assert page == cs[k..];
    forall m | m in page ensures m in cs {
      Seqs.InSuffix(cs, k, m);
    }
  }

  /** A page of an id-ordered store is itself in id order. */
  lemma PageAscending(ms: seq<Message>, cid: Id, limit: nat, before: Option<Id>)
    ensures AscendingIds(ms) ==> AscendingIds(Page(ms, cid, limit, before))
  {
    if AscendingIds(ms) {
      FilterAscending(ms, PageFilter(cid, before));
    }
  }

  /** `GET /:id/messages?limit=&before=`; `limit` is `None` when the query has none. */
  function Messages(ms: seq<Message>, cid: Id, limit: Option<nat>, before: Option<Id>, fault: Fault)
    : (reply: Reply<seq<Message>>)
    ensures !Survives(fault, 1) ==> reply == Reply(ServerError, MessagesFailed, None)
    ensures Survives(fault, 1) ==> reply.status == Ok && reply.message == MessagesFetched && reply.data.Some?
    ensures Survives(fault, 1) && limit.None? ==> |reply.data.value| <= DefaultLimit
    ensures Survives(fault, 1) ==> reply.data == Some(Page(ms, cid, limit.GetOr(DefaultLimit), before))
    ensures Survives(fault, 1) ==> forall m :: m in reply.data.value ==> m in ms && m.conversation == cid
    ensures Survives(fault, 1) && before.Some? ==> forall m :: m in reply.data.value ==> m.id < before.value
    ensures Survives(fault, 1) && AscendingIds(ms) ==> AscendingIds(reply.data.value)
  {
    if !Survives(fault, 1) then Reply(ServerError, MessagesFailed, None)
    else
      PageSelects(ms, cid, limit.GetOr(DefaultLimit), before);
      PageAscending(ms, cid, limit.GetOr(DefaultLimit), before);
      Reply(Ok, MessagesFetched, Some(Page(ms, cid, limit.GetOr(DefaultLimit), before)))
  }

  lemma {:induction false} FilterAscending(ms: seq<Message>, p: Message -> bool)
    requires AscendingIds(ms)
    ensures AscendingIds(Seqs.Filter(ms, p))
    decreases |ms|
  {
    if ms != [] {
      FilterAscending(ms[1..], p);
      var rest := Seqs.Filter(ms[1..], p);
      forall m | m in rest ensures ms[0].id < m.id {
        assert m in ms[1..];
      }
    }
  }

  /** In an ascending sequence, the elements below the id of the element at `k` are
      exactly the ones before it. */
  lemma BelowIsPrefix(s: seq<Message>, k: nat)
    requires AscendingIds(s) && k < |s|
    ensures Seqs.Filter(s, Below(s[k].id)) == s[..k]
  {
    assert s == s[..k] + s[k..];
    Seqs.FilterAppend(s[..k], s[k..], Below(s[k].id));
    AllBelow(s, k);
    NoneBelow(s, k);
  }

  lemma AllBelow(s: seq<Message>, k: nat)
    requires AscendingIds(s) && k < |s|
    ensures Seqs.Filter(s[..k], Below(s[k].id)) == s[..k]
  {
    var t := s[k].id;
    forall i | 0 <= i < |s[..k]| ensures Below(t)(s[..k][i]) {
      assert s[..k][i] == s[i];
    }
    Seqs.FilterAll(s[..k], Below(t));
  }

  lemma NoneBelow(s: seq<Message>, k: nat)
    requires AscendingIds(s) && k < |s|
    ensures Seqs.Filter(s[k..], Below(s[k].id)) == []
  {
    var t := s[k].id;
    forall i | 0 <= i < |s[k..]| ensures !Below(t)(s[k..][i]) {
      assert s[k..][i] == s[k + i];
    }
    Seqs.FilterNone(s[k..], Below(t));
  }

  /** Narrowing the cursor to `t`, at or below the original one, is filtering the
      candidates by `id < t`. */
  lemma {:induction false} RefineCursor(ms: seq<Message>, cid: Id, before: Option<Id>, t: Id)
    requires before.Some? ==> t <= before.value
    ensures Candidates(ms, cid, Some(t)) == Seqs.Filter(Candidates(ms, cid, before), Below(t))
    decreases |ms|
  {
    if ms != [] {
      RefineCursor(ms[1..], cid, before, t);
      var m := ms[0];
      var head := if PageFilter(cid, before)(m) then [m] else [];
      var inner := Candidates(ms[1..], cid, before);
      assert Candidates(ms, cid, before) == head + inner;
      Seqs.FilterAppend(head, inner, Below(t));
      if PageFilter(cid, before)(m) {
        Seqs.FilterSingleton(m, Below(t));
      }
      assert Candidates(ms, cid, Some(t)) ==
        (if PageFilter(cid, Some(t))(m) then [m] else []) + Candidates(ms[1..], cid, Some(t));
    }
  }

  /** Paging backwards: with `before` set to the oldest id of a page, the next page holds
      older messages only, so the two pages never overlap. */
  lemma PagesDoNotOverlap(ms: seq<Message>, cid: Id, l1: nat, l2: nat, before: Option<Id>)
    requires AscendingIds(ms)
    requires Page(ms, cid, l1, before) != []
    ensures var p1 := Page(ms, cid, l1, before);
      var p2 := Page(ms, cid, l2, Some(p1[0].id));
      forall x, y :: x in p2 && y in p1 ==> x.id < y.id
  {
    var p1 := Page(ms, cid, l1, before);
    PageAscending(ms, cid, l1, before);
    PageSelects(ms, cid, l2, Some(p1[0].id));
    AllBelowFirst(Page(ms, cid, l2, Some(p1[0].id)), p1);
  }

  /** Messages older than the first of an ascending run are older than all of it. */
  lemma AllBelowFirst(p2: seq<Message>, p1: seq<Message>)
    requires AscendingIds(p1) && p1 != []
    requires forall x :: x in p2 ==> x.id < p1[0].id
    ensures forall x, y :: x in p2 && y in p1 ==> x.id < y.id
  {
    forall x, y | x in p2 && y in p1 ensures x.id < y.id {
      var j :| 0 <= j < |p1| && p1[j] == y;
      if j > 0 {
        assert p1[0].id < p1[j].id;
      }
    }
  }

  /** Paging backwards leaves no gap either: the next page followed by the current one is
      exactly the page of their combined size. */
  lemma ConsecutivePagesJoin(ms: seq<Message>, cid: Id, l1: nat, l2: nat, before: Option<Id>)
    requires AscendingIds(ms)
    requires l1 > 0 && l2 > 0
    requires Page(ms, cid, l1, before) != []
    ensures var p1 := Page(ms, cid, l1, before);
      Page(ms, cid, l2, Some(p1[0].id)) + p1 == Page(ms, cid, l1 + l2, before)
  {
    var cs := Candidates(ms, cid, before);
    var j := |cs| - PageSize(|cs|, l1);
    var p1 := Page(ms, cid, l1, before);
    var p3 := Page(ms, cid, l1 + l2, before);
    PageStart(ms, cid, l1, before);
    assert p1 == cs[j..] && p1[0].id == cs[j].id;
    NextPage(ms, cid, before, j, l2);
    var p2 := Page(ms, cid, l2, Some(p1[0].id));
    assert p2 == cs[j - PageSize(j, l2)..j];
    assert p3 == cs[|cs| - PageSize(|cs|, l1 + l2)..];
    SuffixesJoin(cs, l1, l2);
  }

  /** A message appended to the store closes the first page of its conversation: whatever
      the limit, that page is not empty and ends with the new message. */
  lemma AppendedMessageEndsPage(ms: seq<Message>, m: Message, limit: nat)
    ensures var page := Page(ms + [m], m.conversation, limit, None);
      page != [] && page[|page| - 1] == m
  {
    var f := PageFilter(m.conversation, None);
    Seqs.FilterAppend(ms, [m], f);
    Seqs.FilterSingleton(m, f);
    var cs := Candidates(ms + [m], m.conversation, None);
    assert cs == Seqs.Filter(ms, f) + [m];
    assert cs[|cs| - 1] == m;
  }

  /** A non-empty page starts at candidate `|cs| - PageSize(|cs|, limit)`. */
  lemma PageStart(ms: seq<Message>, cid: Id, limit: nat, before: Option<Id>)
    requires Page(ms, cid, limit, before) != []
    ensures var cs := Candidates(ms, cid, before);
      var j := |cs| - PageSize(|cs|, limit);
      j < |cs| && Page(ms, cid, limit, before)[0] == cs[j]
  {
  }

  /** The slices of two consecutive pages, taken from the back of the candidates, make up
      the slice of the page of their combined size. */
  lemma SuffixesJoin(cs: seq<Message>, l1: nat, l2: nat)
    requires l1 > 0 && l2 > 0
    ensures var j := |cs| - PageSize(|cs|, l1);
      cs[j - PageSize(j, l2)..j] + cs[j..] == cs[|cs| - PageSize(|cs|, l1 + l2)..]
  {
    var j := |cs| - PageSize(|cs|, l1);
    PageSizeAdds(|cs|, l1, l2);
    Seqs.SliceJoin(cs, j - PageSize(j, l2), j);
  }

  /** The page with cursor at the `j`-th candidate is made of the candidates just before it. */
  lemma NextPage(ms: seq<Message>, cid: Id, before: Option<Id>, j: nat, limit: nat)
    requires AscendingIds(ms)
    requires j < |Candidates(ms, cid, before)|
    ensures var cs := Candidates(ms, cid, before);
      Page(ms, cid, limit, Some(cs[j].id)) == cs[j - PageSize(j, limit)..j]
  {
    var cs := Candidates(ms, cid, before);
    NextCandidates(ms, cid, before, j);
    var cs2 := Candidates(ms, cid, Some(cs[j].id));
    assert cs2 == cs[..j];
    assert Page(ms, cid, limit, Some(cs[j].id)) == cs2[j - PageSize(j, limit)..];
  }

  /** Sizes of consecutive pages add up, as long as both limits are set. */
  lemma PageSizeAdds(n: nat, l1: nat, l2: nat)
    requires l1 > 0 && l2 > 0
    ensures PageSize(n, l1 + l2) == PageSize(n, l1) + PageSize(n - PageSize(n, l1), l2)
  {
  }

  /** The candidates below the `j`-th candidate are the first `j` candidates. */
  lemma NextCandidates(ms: seq<Message>, cid: Id, before: Option<Id>, j: nat)
    requires AscendingIds(ms)
    requires j < |Candidates(ms, cid, before)|
    ensures var cs := Candidates(ms, cid, before);
      Candidates(ms, cid, Some(cs[j].id)) == cs[..j]
  {
    var cs := Candidates(ms, cid, before);
    FilterAscending(ms, PageFilter(cid, before));
    assert PageFilter(cid, before)(cs[j]);
    RefineCursor(ms, cid, before, cs[j].id);
    BelowIsPrefix(cs, j);
  }
}
