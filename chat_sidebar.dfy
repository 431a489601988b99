/** The conversation sidebar: the search box filter over the conversation list and the
    message shown when nothing is listed. */
module ChatSidebar {
  import opened Wrappers
  import opened ClientTypes
  import Seqs
  import Text

  /** The filter's test: an empty query keeps everything; otherwise the other participant's
      name or the latest message's text must contain the query, ignoring case. */
  predicate Keeps(conv: ClientConversation, me: ClientUser, query: string) {
    || query == ""
    || (OtherParticipant(conv, me).Some? && Text.IncludesIgnoringCase(OtherParticipant(conv, me).value.userName, query))
    || (conv.lastMessage.Some? && Text.IncludesIgnoringCase(conv.lastMessage.value.content, query))
  }

  /** `filteredConversations`. */
  function FilterConversations(convs: seq<ClientConversation>, me: ClientUser, query: string)
    : (r: seq<ClientConversation>)
    ensures query == "" ==> r == convs
    ensures forall c :: c in r <==> c in convs && Keeps(c, me, query)
    ensures Seqs.IsSubseq(r, convs)
  {
    var keep := (c: ClientConversation) => Keeps(c, me, query);
    Seqs.FilterIsSubseq(convs, keep);
    assert query == "" ==> Seqs.Filter(convs, keep) == convs by {
      if query == "" {
        Seqs.FilterAll(convs, keep);
      }
    }
    Seqs.Filter(convs, keep)
  }

  /** Under a non-empty query, a conversation with nobody else in it and no message yet has
      nothing to match and is dropped. */
  lemma NothingToMatchIsDropped(convs: seq<ClientConversation>, me: ClientUser, query: string, c: ClientConversation)
    requires query != ""
    requires forall i :: 0 <= i < |c.participants| ==> c.participants[i].id == me.id
    requires c.lastMessage.None?
    ensures c !in FilterConversations(convs, me, query)
  {
  }

  /** What the list shows when nothing is listed: the text, and whether the
      "Start your first chat" button is offered. */
  datatype EmptyState = EmptyState(text: string, offerFirstChat: bool)

  function EmptyStateFor(filtered: seq<ClientConversation>, query: string): (e: Option<EmptyState>)
    ensures e.Some? <==> filtered == []
    ensures e.Some? ==> (e.value.text == "No conversations found" <==> query != "")
    ensures e.Some? ==> (e.value.text == "No conversations yet" <==> query == "")
    ensures e.Some? ==> (e.value.offerFirstChat <==> query == "")
  {
    if filtered != [] then None
    else if query != "" then Some(EmptyState("No conversations found", false))
    else Some(EmptyState("No conversations yet", true))
  }

  /** With an empty query the empty state can only mean there are no conversations. */
  lemma EmptyQueryEmptyListMeansNone(convs: seq<ClientConversation>, me: ClientUser)
    requires EmptyStateFor(FilterConversations(convs, me, ""), "").Some?
    ensures convs == []
  {
  }
}
