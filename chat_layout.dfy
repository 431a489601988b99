/** The signed-in screen: which conversation is open, whether the people search is shown,
    and what the narrow (mobile) and wide (desktop) layouts put on screen. The window width
    is a parameter of `HandleResize`. */
module ChatLayout {
  import opened Wrappers
  import opened ClientTypes
  import Seqs

  const MobileBreakpoint: int := 768

  /** `conv.participants.some(p => p._id === userId)`. */
  predicate HasParticipant(conv: ClientConversation, userId: string) {
    exists i :: 0 <= i < |conv.participants| && conv.participants[i].id == userId
  }

  function WithParticipant(userId: string): ClientConversation -> bool {
    (conv: ClientConversation) => HasParticipant(conv, userId)
  }

  /** `conversations.find(...)`: the first conversation the user takes part in. */
  function ConversationWith(conversations: seq<ClientConversation>, userId: string): (r: Option<ClientConversation>)
    ensures r.None? <==> forall c :: c in conversations ==> !HasParticipant(c, userId)
    ensures r.Some? ==> r.value in conversations && HasParticipant(r.value, userId)
    ensures r.Some? ==> exists i :: 0 <= i < |conversations| && conversations[i] == r.value && FirstWith(conversations, userId, i)
  {
    match Seqs.FirstIndex(conversations, WithParticipant(userId))
    case None => None
    case Some(i) => Some(conversations[i])
  }

  /** No conversation before index `i` has the user as a participant. */
  predicate FirstWith(conversations: seq<ClientConversation>, userId: string, i: nat)
    requires i < |conversations|
  {
    forall j :: 0 <= j < i ==> !HasParticipant(conversations[j], userId)
  }

  /** What fills the layout. `Welcome` is the desktop placeholder shown when no conversation
      is open. */
  datatype Pane = SearchPane | SidebarPane | ChatPane(conv: ClientConversation) | Welcome

  /** The desktop layout: a sidebar column beside a main column. */
  datatype Desktop = Desktop(side: Pane, main: Pane)

  class LayoutState {
    var selected: Option<ClientConversation>
    var showSearchPeople: bool
    var isMobile: bool

    constructor (width: int)
      ensures selected.None? && !showSearchPeople && isMobile == (width < MobileBreakpoint)
    {
      selected, showSearchPeople, isMobile := None, false, width < MobileBreakpoint;
    }

    /** `handleResize`. */
    method HandleResize(width: int)
      modifies this
      ensures isMobile == (width < MobileBreakpoint)
      ensures selected == old(selected) && showSearchPeople == old(showSearchPeople)
    {
      isMobile := width < MobileBreakpoint;
    }

    /** `handleConversationSelect(conversation)`: opens it, and on a narrow screen also
        closes the people search. */
    method HandleConversationSelect(conv: ClientConversation)
      modifies this
      ensures selected == Some(conv) && isMobile == old(isMobile)
      ensures showSearchPeople == (old(showSearchPeople) && !old(isMobile))
    {
      selected := Some(conv);
      if isMobile {
        showSearchPeople := false;
      }
    }

    /** `handleBackToSidebar`. */
    method HandleBackToSidebar()
      modifies this
      ensures selected.None?
      ensures showSearchPeople == old(showSearchPeople) && isMobile == old(isMobile)
    {
      selected := None;
    }

    /** `handleStartNewChat`. */
    method HandleStartNewChat()
      modifies this
      ensures showSearchPeople
      ensures selected == old(selected) && isMobile == old(isMobile)
    {
      showSearchPeople := true;
    }

    /** `handleCloseSearch`. */
    method HandleCloseSearch()
      modifies this
      ensures !showSearchPeople
      ensures selected == old(selected) && isMobile == old(isMobile)
    {
      showSearchPeople := false;
    }

    /** `handleUserSelect(user)`: reports the user to `onStartConversation` (the returned
        id), closes the search, and opens the first conversation the user takes part in;
        when there is none, the open conversation stays as it was. */
    method HandleUserSelect(user: ClientUser, conversations: seq<ClientConversation>) returns (started: string)
      modifies this
      ensures started == user.id && !showSearchPeople && isMobile == old(isMobile)
      ensures selected == if ConversationWith(conversations, user.id).Some? then ConversationWith(conversations, user.id) else old(selected)
      ensures selected.Some? && selected != old(selected) ==> selected.value in conversations && HasParticipant(selected.value, user.id)
    {
      started := user.id;
      showSearchPeople := false;
      var existing := ConversationWith(conversations, user.id);
      if existing.Some? {
        selected := existing;
      }
    }

    /** The narrow layout: the search when open, else the open conversation, else the list. */
    function MobileView(): (p: Pane)
      reads this
      ensures p.SearchPane? <==> showSearchPeople
      ensures p.ChatPane? <==> !showSearchPeople && selected.Some?
      ensures p.ChatPane? ==> p.conv == selected.value
      ensures !p.Welcome?
    {
      if showSearchPeople then SearchPane
      else if selected.Some? then ChatPane(selected.value)
      else SidebarPane
    }

    /** The wide layout: search or list on the side, the open conversation or the welcome
        placeholder in the main column. */
    function DesktopView(): (d: Desktop)
      reads this
      ensures d.side == if showSearchPeople then SearchPane else SidebarPane
      ensures d.main.ChatPane? <==> selected.Some?
      ensures d.main.ChatPane? ==> d.main.conv == selected.value
      ensures d.main.Welcome? <==> selected.None?
    {
      Desktop(if showSearchPeople then SearchPane else SidebarPane,
              if selected.Some? then ChatPane(selected.value) else Welcome)
    }
  }

  /** On a narrow screen, picking a conversation from the list always shows it, whatever
      the search was doing. */
  method SelectShowsChatOnMobile(layout: LayoutState, conv: ClientConversation)
    requires layout.isMobile
    modifies layout
    ensures layout.MobileView() == ChatPane(conv)
  {
    layout.HandleConversationSelect(conv);
  }

  /** Going back on a narrow screen returns to the list (the search being closed). */
  method BackShowsListOnMobile(layout: LayoutState)
    requires layout.isMobile && !layout.showSearchPeople
    modifies layout
    ensures layout.MobileView() == SidebarPane
  {
    layout.HandleBackToSidebar();
  }
}
