/** The records the React client renders: users, conversations with their latest message,
    and messages. Ids are the strings the API sends; dates are left out. */
module ClientTypes {
  import opened Wrappers
  import Seqs

  datatype ClientUser = ClientUser(id: string, userName: string, email: string, isOnline: bool)

  /** A conversation's `lastMessage` summary. */
  datatype LastMessage = LastMessage(id: string, content: string, sender: ClientUser)

  datatype ClientConversation = ClientConversation(
    id: string, participants: seq<ClientUser>, lastMessage: Option<LastMessage>)

  datatype ClientMessage = ClientMessage(
    id: string, content: string, sender: ClientUser, readBy: seq<string>, isEdited: bool)

  /** No participant before index `i` is someone other than `me`. */
  predicate FirstOther(conv: ClientConversation, me: ClientUser, i: int) {
    forall j :: 0 <= j < i && j < |conv.participants| ==> conv.participants[j].id == me.id
  }

  /** `participants.find(p => p._id !== currentUser._id)`: the first participant who is not
      the current user. */
  function OtherParticipant(conv: ClientConversation, me: ClientUser): (r: Option<ClientUser>)
    ensures r.Some? <==> exists i :: 0 <= i < |conv.participants| && conv.participants[i].id != me.id
    ensures r.Some? ==> r.value in conv.participants && r.value.id != me.id
    ensures r.Some? ==>
      exists i :: 0 <= i < |conv.participants| && conv.participants[i] == r.value && FirstOther(conv, me, i)
  {
    Seqs.FindFirst(conv.participants, (p: ClientUser) => p.id != me.id)
  }
}
