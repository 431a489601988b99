# Chat-App core, modelled in Dafny

Chat-App is a one-to-one chat system. It has an Express/Mongoose backend and a React client.
This project models the parts of both that make decisions.

**Backend**
- The `auth` middleware: reads the Bearer token and rejects missing or invalid tokens.
- The message routes:
  - `POST /send` stores a message, repoints its conversation's `lastMessage`, and relays the event to sockets;
  - `POST /:id/read` adds the caller to `readBy` with `$addToSet`.
- The conversation routes:
  - listing by participant, newest-updated first;
  - find-or-create of a one-to-one conversation;
  - cursor pagination of a conversation's messages.
- The signup route: schema bounds, email uniqueness, save.
- The user search route: search filter, requester exclusion, 50-result cap.

**Client**
- The sign-up, login and six-slot OTP forms.
- The chat input buffer.
- The conversation row, its preview and its truncation.
- The sidebar filter and its empty state.
- Grouping of messages by date, and the flags each bubble is drawn with.
- The read-receipt icon.
- The authentication step machine in `App`, and its user search.
- The view and selection state of the chat layout.

**How the store is modelled.** `Db.Store` is a class with one sequence per collection, kept in insertion order. Ids come from a single counter, so every collection is in ascending id order. `updatedAt` reads a logical clock. The store's invariant, `Valid`, says:
- ids ascend and stay below the counter;
- emails and user names are unique;
- there is at most one one-to-one conversation per pair of users;
- reader lists have no repeats.

The route handlers that write are methods that modify the store and preserve `Valid`. The routes that only read are functions over the sequences.

**How failures are modelled.** A handler's store calls may throw. The parameter `Fault` says which call throws: `FailsAt(k)` means the `k`-th call throws and the earlier ones have already written. A throwing call gives the route's 500 answer. The socket server reached through `req.io` is the parameter `SocketLayer`: absent, working, throwing on the room emit, or throwing on the global emit after the room emit has gone out. Emissions are returned as a sequence, and the HTTP answer never depends on them.

**Parameters.** Token verification (`jwt.verify`), the Zod email check and the client's date-header key are function parameters.

**Client components.** Components that keep state are classes whose fields are the component's `useState` cells. Each handler is a method that updates those fields. What a component renders is a function of the fields.

## Model

| member | source | states |
|---|---|---|
| AuthMiddleware.ExtractToken | Backend/src/middleware/auth.js:6-9 | A token exists iff the header (`""` when absent) starts with exactly `"Bearer "`. The token is the rest of the header after those 7 characters. |
| AuthMiddleware.Authenticate | Backend/src/middleware/auth.js:5-30 | `next` runs iff the header has the prefix, a non-empty token follows, and `verify` accepts it. `req.user` is then the decoded payload. Every rejection is 401. "token missing" is returned iff there is no token or it is empty. |
| AuthMiddleware.AbsentHeaderIsMissing | Backend/src/middleware/auth.js:6-17 | An absent header is answered with 401 "Authorization token missing". |
| AuthMiddleware.BarePrefixIsMissing | Backend/src/middleware/auth.js:7-17 | The header `"Bearer "` gives the empty token, which is rejected as missing whatever `verify` says. |
| AuthMiddleware.PrefixIsExact | Backend/src/middleware/auth.js:6-17 | For every header shorter than 7 characters or whose first 7 characters are not exactly `"Bearer "` (case and space included): no token, and 401 "Authorization token missing" whatever `verify` says. |
| MessageRoute.OrNull | Backend/src/routes/message/message.route.js:23-25 | `v \|\| null`: present iff the value is truthy, and then it is unchanged. |
| MessageRoute.StoredMessage | Backend/src/routes/message/message.route.js:20-26 | The stored message has the next id, the caller as sender and the requested conversation. It has text or media. Each of `content`, `mediaURL` and `mediaType` is stored iff it is truthy, and then unchanged; otherwise it is null (`OrNull`). `readBy` is empty. |
| MessageRoute.SetLastMessage | Backend/src/routes/message/message.route.js:28-32 | The matching conversation gets `lastMessage` = the new id and `updatedAt` = now. Every other conversation is unchanged, and ids and participants are kept. |
| MessageRoute.Relay | Backend/src/routes/message/message.route.js:39-43 | What is sent is always a prefix of [room emit, global emit]. A working socket sends both. A socket whose global emit throws has already sent the room emit. An absent socket, or one whose room emit throws, sends nothing. The error is swallowed. |
| MessageRoute.AddToSet | Backend/src/routes/message/message.route.js:64-68 | `$addToSet`: the result holds the old readers plus `x` and nothing else. It extends the old list by at most one. It keeps the no-repeats property. |
| MessageRoute.AddToSetIdempotent | Backend/src/routes/message/message.route.js:66 | Adding the same reader twice equals adding it once. |
| MessageRoute.AddAllKeepsReaders | Backend/src/routes/message/message.route.js:64-68 | After any sequence of reads, earlier readers are still present, every new reader is present, and there are no repeats. |
| MessageRoute.Send | Backend/src/routes/message/message.route.js:10-58 | A rejected body gives 400 and no change. A failed create gives 500 and no change. Otherwise the message is appended under the next id. If the update call survives, the conversation is repointed. If the reload survives, the reply is 201 with the message and the room and global relays; otherwise it is 500 and the earlier writes persist. The clock advances iff the conversation update ran. `Valid` is preserved. |
| MessageRoute.SendThenFetch | Backend/src/routes/message/message.route.js:20-50 | On a valid store, a send with an acceptable body is answered with 201. Fetching that conversation's messages right after, with any limit and no cursor, gives 200 and a non-empty page whose last element is the sent message. |
| MessageRoute.InsertMessage | Backend/src/routes/message/message.route.js:20-26 | `Message.create` appends the message under the next id, advances the counter, leaves everything else as it was, and preserves `Valid`. |
| MessageRoute.TouchConversation | Backend/src/routes/message/message.route.js:29-32 | The conversations become `SetLastMessage` of the old ones at the current clock. The clock advances. `Valid` is preserved. |
| MessageRoute.AppendKeepsMessagesOk | Backend/src/routes/message/message.route.js:20-26 | Storing a message under the next id keeps ids ascending and below the counter. |
| MessageRoute.SetLastKeepsOk | Backend/src/routes/message/message.route.js:29-32 | Repointing `lastMessage` keeps the conversation invariant, including one conversation per pair. |
| MessageRoute.MessageIndex | Backend/src/routes/message/message.route.js:64-65 | Finds the position of the message with the given id, or reports that no message has it. |
| MessageRoute.MarkRead | Backend/src/routes/message/message.route.js:61-103 | A store failure gives 500 and no change. An unknown id gives 404 and no change. Otherwise only that message's `readBy` becomes `AddToSet(readBy, reader)`, and the reply is 200 with the updated message plus the read-receipt relays. |
| MessageRoute.MarkReadLocal | Backend/src/routes/message/message.route.js:64-68 | Marking one message read leaves every other message unchanged. The reader is added, no earlier reader is lost, and the list has no repeats. |
| ConversationRoute.InsertKeepsOrder | Backend/src/routes/conversation/conversation.route.js:16 | Inserting into a newest-first sequence keeps it newest first. |
| ConversationRoute.InsertAddsOne | Backend/src/routes/conversation/conversation.route.js:16 | Insertion adds exactly the new conversation as a multiset. |
| ConversationRoute.SortByRecency | Backend/src/routes/conversation/conversation.route.js:16 | `sort({ updatedAt: -1 })`: the result is newest first and a permutation of the input. |
| ConversationRoute.ConversationsOf | Backend/src/routes/conversation/conversation.route.js:13-16 | Holds exactly the conversations whose participants include the caller, newest updated first, each as often as in the store. |
| ConversationRoute.List | Backend/src/routes/conversation/conversation.route.js:10-33 | A store failure gives 500. Otherwise the reply is 200, "Conversations fetched successfully", with the caller's conversations newest first, each as often as it is stored: the data is `ConversationsOf`, whose multiset is that of the conversations naming the caller. |
| ConversationRoute.ExistingPair | Backend/src/routes/conversation/conversation.route.js:49-51 | `findOne` with `$all`/`$size: 2`: it returns a stored two-party conversation holding both ids, or `None` iff there is none. |
| ConversationRoute.ExistingPairSymmetric | Backend/src/routes/conversation/conversation.route.js:50 | The lookup gives the same answer whichever of the two users asks. |
| ConversationRoute.ExistingPairAppend | Backend/src/routes/conversation/conversation.route.js:49-51 | Appending a conversation never changes an answer the lookup already gave. |
| ConversationRoute.SecondCreateFindsFirst | Backend/src/routes/conversation/conversation.route.js:49-66 | After a pair is created, a later lookup by either user finds the new conversation. |
| ConversationRoute.AppendKeepsUniquePairs | Backend/src/routes/conversation/conversation.route.js:64-66 | Creating `[self, userId]` when no conversation of that pair exists keeps at most one conversation per pair. |
| ConversationRoute.Create | Backend/src/routes/conversation/conversation.route.js:36-84 | No `userId` gives 400 and no change. A failed lookup gives 500 and no change. An existing pair gives 200 with it and no change. Otherwise exactly one conversation `[self, userId]` is appended with the next id. The reply is 201 with it, or 500 when the reload throws. `Valid` is preserved. |
| ConversationRoute.CreateTwice | Backend/src/routes/conversation/conversation.route.js:49-76 | Two sequential creates for the same distinct pair, the second by the other user, return the same conversation; the second returns 200. At most one conversation is added. Afterwards the returned conversation is stored, is a one-to-one conversation of the pair, and is the only stored conversation of the pair. |
| ConversationRoute.OnlyPair | Backend/src/routes/conversation/conversation.route.js:49-66 | Under the one-per-pair rule, a stored conversation of a pair of distinct users is the only stored conversation of that pair. |
| ConversationRoute.SamePairSameIndex | Backend/src/routes/conversation/conversation.route.js:49-66 | Under the one-per-pair rule, two positions holding a conversation of the same pair of distinct users are the same position. |
| ConversationRoute.PageSize | Backend/src/routes/conversation/conversation.route.js:97 | `limit(n)` keeps min(available, `n`) documents, and all of them when `n` is 0. |
| ConversationRoute.Page | Backend/src/routes/conversation/conversation.route.js:91-104 | The page is the last `limit` candidates (all of them when `limit` is 0), the candidates being the messages that match the filter and lie below the cursor, in store order. Store order is ascending ids, and so newest last, when the store is `Valid` (see `PageAscending`). It has at most `limit` messages when `limit` is positive. |
| ConversationRoute.PageSelects | Backend/src/routes/conversation/conversation.route.js:91-94 | Every message of a page is a stored message of that conversation. With a cursor, its id is below `before`. |
| ConversationRoute.PageAscending | Backend/src/routes/conversation/conversation.route.js:95-104 | A page is in ascending id order. |
| ConversationRoute.Messages | Backend/src/routes/conversation/conversation.route.js:87-113 | A store failure gives 500. Otherwise the reply is 200, "Messages fetched", and its data is `Page` with the given limit (50 when absent) and cursor. So it holds at most that many messages, only that conversation's, all below the cursor when one is given, and in ascending id order when the store is. |
| ConversationRoute.AppendedMessageEndsPage | Backend/src/routes/conversation/conversation.route.js:91-104 | After a message is appended to the store, the cursor-less page of its conversation is non-empty for every limit and ends with that message. |
| ConversationRoute.FilterAscending | Backend/src/routes/conversation/conversation.route.js:95 | Filtering keeps ascending id order. |
| ConversationRoute.BelowIsPrefix | Backend/src/routes/conversation/conversation.route.js:93 | In id order, the messages below the `k`-th message's id are exactly the first `k` messages. |
| ConversationRoute.RefineCursor | Backend/src/routes/conversation/conversation.route.js:91-94 | Moving the cursor down to `t` is filtering the candidates by `id < t`. |
| ConversationRoute.PagesDoNotOverlap | Backend/src/routes/conversation/conversation.route.js:92-104 | When the next page's cursor is the oldest id of the current page, every message of the next page is older than every message of the current page. |
| ConversationRoute.ConsecutivePagesJoin | Backend/src/routes/conversation/conversation.route.js:89-104 | Paging backwards leaves no gap: the next page followed by the current one is the page of their combined limit. |
| ConversationRoute.NextPage | Backend/src/routes/conversation/conversation.route.js:92-104 | The page whose cursor is the `j`-th candidate is the slice of candidates ending just before it. |
| ConversationRoute.NextCandidates | Backend/src/routes/conversation/conversation.route.js:91-94 | The candidates below the `j`-th candidate are the first `j` candidates. |
| ConversationRoute.PageSizeAdds | Backend/src/routes/conversation/conversation.route.js:97 | Two consecutive page sizes add up to the size of one page with the summed limit. |
| AuthRoute.DraftAsWritten | Backend/src/routes/auth/auth.route.js:36-40 | The document built with the key `user_name` has no schema `userName`. |
| AuthRoute.Draft | Backend/src/routes/auth/auth.route.js:36-40 | The document built with the schema's key carries the submitted name, email and password. |
| AuthRoute.Saved | Backend/src/models/User.js:5-14 | `save()` succeeds only with a name. The saved user has the next id, an unused email and name, the submitted email and password, and the trimmed name of 3 to 30 characters. |
| AuthRoute.InsertUser | Backend/src/routes/auth/auth.route.js:41 | Appends a fresh user under the next id. Nothing else changes. `Valid` is preserved. |
| AuthRoute.FreshKeepsUsersOk | Backend/src/models/User.js:5-13 | A fresh user keeps ids ascending and emails and names unique. |
| AuthRoute.AsWrittenSaveAlwaysThrows | Backend/src/routes/auth/auth.route.js:36-41 | As written, `save()` fails for every body that passes the schema. |
| AuthRoute.DraftWith | Backend/src/routes/auth/auth.route.js:36-40 | Under the written `user_name` key the document has no name; under the schema's key it has the submitted name. Email and password are the submitted ones either way. |
| AuthRoute.Signup | Backend/src/routes/auth/auth.route.js:14-55 | The route with the name-key choice as a parameter: `SnakeCaseKey` is the code as written, `SchemaKey` the corrected route. A schema failure gives 400 and no change. A failed lookup gives 500. A registered email gives 409 and no change (only the email is looked up). Otherwise a successful save adds exactly one user and gives 201, and a failed save gives 500 and no change. Whether the save succeeds is `Saved` of the draft the key builds. |
| AuthRoute.SignupAsWritten | Backend/src/routes/auth/auth.route.js:14-55 | The route as written never answers 201. Every answer is 400, 409 or 500, and no user is added. |
| AuthRoute.FreshSignupIsSaved | Backend/src/routes/auth/auth.route.js:36-45 | With the name under the schema's key, a valid body with a fresh email and a fresh trimmed name is saved with the submitted email and password. |
| UsersRoute.BuildFilter | Backend/src/routes/user/users.route.js:12-24 | The filter searches iff the query is a non-empty string, and excludes the requester's id when there is one. |
| UsersRoute.FindUsers | Backend/src/routes/user/users.route.js:26-28 | The corrected search, which uses the schema's `userName` (see Findings). The result is the profiles of the first min(matching, 50) matching users, in store order. The requester never appears. |
| UsersRoute.NoQueryListsEveryone | Backend/src/routes/user/users.route.js:12-19 | Without a query, every user other than the requester is listed (up to the cap). |
| UsersRoute.ListedIffMatches | Backend/src/routes/user/users.route.js:13-28 | When the matches fit under the cap, a user is listed iff their name or email contains the query, ignoring case, and they are not the requester. |
| UsersRoute.ListedWhenMatches | Backend/src/routes/user/users.route.js:13-28 | When the matches fit under the cap, a matching user is listed. |
| UsersRoute.List | Backend/src/routes/user/users.route.js:9-43 | The corrected route (see Findings). A store failure gives 500. Otherwise the reply is 200 with `FindUsers`. |
| UsersRoute.ListAsWritten | Backend/src/routes/user/users.route.js:9-43 | The route as written. A store failure gives 500. Otherwise the reply is 200 with the id and email of the first min(matching, 50) users whose email contains the query (ignoring case), in store order, leaving out the requester. |
| UsersRoute.NameOnlyMatchMissingFromListAsWritten | Backend/src/routes/user/users.route.js:12-28 | For a user who is not the requester, whose name contains the query and whose email does not: the route as written leaves them out of its answer, while the corrected route lists them whenever the matches fit under the cap. |
| UsersRoute.FindUsersAsWritten | Backend/src/routes/user/users.route.js:12-28 | As written, the result is the id and email of the first min(matching, 50) users whose email contains the query (ignoring case), in store order, and never the requester. Only the email can match, because the `user_name` clause matches no stored user and the projection returns no name. |
| UsersRoute.NameOnlyMatchUnlistedAsWritten | Backend/src/routes/user/users.route.js:13-15 | As written, a user whose name contains a non-empty query but whose email does not is never listed. The corrected filter does match that user (unless it is the requester). |
| OtpVerification.PastedDigits | chat-app/src/components/auth/OTPVerification.tsx:46 | The pasted text is digits only, at most 6, and a prefix of the clipboard's digits. It is all of them when there are fewer than 6. |
| OtpVerification.PasteSlots | chat-app/src/components/auth/OTPVerification.tsx:47 | The new buffer has exactly 6 slots. |
| OtpVerification.PasteSpellsDigits | chat-app/src/components/auth/OTPVerification.tsx:46-48 | The joined buffer after a paste is the pasted digits, and every slot holds at most one character. |
| OtpVerification.OtpForm.constructor | chat-app/src/components/auth/OTPVerification.tsx:14 | The form starts with six empty slots. |
| OtpVerification.OtpForm.CompleteIffFilled | chat-app/src/components/auth/OTPVerification.tsx:38-39 | The joined code has length 6 iff no slot is empty. |
| OtpVerification.OtpForm.HandleInputChange | chat-app/src/components/auth/OTPVerification.tsx:17-28 | A value longer than one character changes nothing. Otherwise only slot `index` changes, and any character is accepted. Focus advances iff the value is non-empty and `index < 5`. |
| OtpVerification.OtpForm.HandleKeyDown | chat-app/src/components/auth/OTPVerification.tsx:30-34 | Focus moves back one slot iff the key is Backspace, the slot is empty and `index > 0`. |
| OtpVerification.OtpForm.HandlePaste | chat-app/src/components/auth/OTPVerification.tsx:44-53 | The buffer becomes the pasted slots and the code becomes the pasted digits. Focus goes to `min(pasted, 5)`: the first empty slot, or the last slot. |
| OtpVerification.OtpForm.HandleSubmit | chat-app/src/components/auth/OTPVerification.tsx:36-42 | The code is submitted iff all six slots are filled, and it then has length 6. |
| OtpVerification.OtpForm.SubmitDisabled | chat-app/src/components/auth/OTPVerification.tsx:96 | The button is disabled iff loading or some slot is empty. When it is enabled, a submit goes through. |
| SignUp.SignUpForm.ValidateForm | chat-app/src/components/auth/SignUp.tsx:22-49 | There is one error per failing field with the source's message. A blank name, email or password gets "required". Confirmation is checked independently. The result is valid iff the error map is empty, iff the entries are acceptable. |
| SignUp.SignUpForm.HandleSubmit | chat-app/src/components/auth/SignUp.tsx:51-60 | The form hands on name, email and password exactly as entered, iff they are acceptable. |
| SignUp.SignUpForm.HandleInputChange | chat-app/src/components/auth/SignUp.tsx:62-67 | Only the named field changes. Its error is blanked iff one was shown. |
| Login.LoginForm.ValidateForm | chat-app/src/components/auth/Login.tsx:20-35 | Email is "required" when blank, otherwise invalid unless it matches the pattern. An empty password is "required", and there is no minimum length. The result is valid iff no error was recorded. |
| Login.LoginForm.HandleSubmit | chat-app/src/components/auth/Login.tsx:37-45 | The form hands on the credentials as entered, iff they are acceptable. |
| Login.LoginForm.HandleInputChange | chat-app/src/components/auth/Login.tsx:47-52 | Only the named field changes. Its error is blanked iff one was shown. |
| Text.TrimEmptyIffBlank | chat-app/src/components/auth/SignUp.tsx:25 | `!s.trim()` holds iff every character is JavaScript whitespace. |
| Text.LooksLikeEmailNotBlank | chat-app/src/components/auth/SignUp.tsx:31-35 | An address the `\S+@\S+\.\S+` pattern accepts is never blank. |
| ChatInput.ChatInputBox.SendDisabled | chat-app/src/components/chat/ChatInput.tsx:86 | The send button is disabled iff the buffer is blank. |
| ChatInput.ChatInputBox.HandleSubmit | chat-app/src/components/chat/ChatInput.tsx:14-23 | Sends iff the buffer is not blank. What it sends is the trimmed buffer, non-empty and trimmed, and the buffer is then cleared. A blank buffer is left as it is. |
| ChatInput.ChatInputBox.HandleKeyDown | chat-app/src/components/chat/ChatInput.tsx:25-30 | Enter without Shift submits. Every other key sends nothing and leaves the buffer unchanged. |
| ChatInput.ChatInputBox.HandleInputChange | chat-app/src/components/chat/ChatInput.tsx:32-33 | The buffer becomes the new value. |
| ChatListItem.TruncateMessage | chat-app/src/components/chat/ChatListItem.tsx:51-53 | A message up to `maxLength` (default 40) is unchanged. A longer one becomes its first `maxLength` characters followed by `"..."`, so its length is `maxLength + 3`. |
| ChatListItem.View | chat-app/src/components/chat/ChatListItem.tsx:33-35 | Nothing is rendered iff every participant is the current user. The row's participant is someone else. With no last message the preview is "No messages yet". Otherwise it is the truncated text, marked "You: " iff the current user sent it. |
| ClientTypes.OtherParticipant | chat-app/src/components/chat/ChatListItem.tsx:33 | The first participant whose id is not the current user's, or `None` iff there is none. |
| MessageList.KeyOrder | chat-app/src/components/chat/MessageList.tsx:141-149 | The group keys are distinct, and they are exactly the date keys of the messages. |
| MessageList.GroupMessagesByDate | chat-app/src/components/chat/MessageList.tsx:140-152 | There is one non-empty group per date key, in first-appearance order. Each group holds that key's messages in input order. The group sizes add up to the number of messages. |
| MessageList.StepKnownKey | chat-app/src/components/chat/MessageList.tsx:145-148 | Pushing onto an existing group keeps the grouping invariant. |
| MessageList.StepNewKey | chat-app/src/components/chat/MessageList.tsx:145-148 | Opening a group for a new key keeps the grouping invariant. |
| MessageList.EachMessageInOneGroup | chat-app/src/components/chat/MessageList.tsx:143-149 | A message is in the group of key `k` iff its date key is `k`. |
| MessageList.FlagsAt | chat-app/src/components/chat/MessageList.tsx:182-193 | `showAvatar` equals `showTime`. `isOwn` holds iff the sender is the current user. |
| MessageList.OnlyRunEndShowsAvatar | chat-app/src/components/chat/MessageList.tsx:183-192 | Within a run of messages from one sender, only the last can show the avatar and time. The last of the group always does. |
| MessageBubble.ReadStatusIcon | chat-app/src/components/chat/MessageBubble.tsx:37-45 | No icon iff not own. A double check iff own and read by someone; otherwise a single check. |
| MessageBubble.BubbleLayout | chat-app/src/components/chat/MessageBubble.tsx:49-82 | The avatar is shown iff `showAvatar` and not own. The spacer is shown iff `showAvatar` and own. "edited" is shown iff edited. The time row is shown iff `showTime`, and the icon appears only in it. |
| ChatSidebar.FilterConversations | chat-app/src/components/chat/ChatSidebar.tsx:46-52 | An empty query keeps everything. Otherwise a conversation is kept iff the other participant's name or the last message contains the query, ignoring case. The result is an order-preserving subsequence. |
| ChatSidebar.NothingToMatchIsDropped | chat-app/src/components/chat/ChatSidebar.tsx:49-51 | Under a non-empty query, a conversation with no other participant and no last message is dropped. |
| ChatSidebar.EmptyStateFor | chat-app/src/components/chat/ChatSidebar.tsx:120-135 | The empty state is shown iff nothing is listed. It reads "No conversations found" iff there is a query. The "Start your first chat" button is shown iff there is no query. |
| ChatSidebar.EmptyQueryEmptyListMeansNone | chat-app/src/components/chat/ChatSidebar.tsx:46-47 | With no query, the empty state means there are no conversations. |
| App.SearchUsers | chat-app/src/App.tsx:188-196 | Returns exactly the users other than the current one who match the query (any user under an empty query), in original order. |
| App.EmptySearchListsAll | chat-app/src/App.tsx:189 | With no query and no current user, every user is returned. |
| App.AppState.constructor | chat-app/src/App.tsx:31-34 | The app starts at the login step, with no user, no pending email, and not loading. |
| App.AppState.Render | chat-app/src/App.tsx:199-243 | The chat layout is rendered iff the step is chat and there is a user; null is rendered iff the step is chat and there is no user. The OTP screen shows the pending email. |
| App.AppState.NeverBlank | chat-app/src/App.tsx:231-243 | In every state the handlers can reach, something is rendered. |
| App.AppState.BeginRequest | chat-app/src/App.tsx:129 | `loading` becomes true, and nothing else changes. |
| App.AppState.CompleteSignUp | chat-app/src/App.tsx:132-134 | The step becomes OTP, the pending email is the submitted email, and loading ends. |
| App.AppState.CompleteLogin | chat-app/src/App.tsx:143-152 | The step becomes chat with a user carrying the submitted email, and loading ends. |
| App.AppState.CompleteVerifyOtp | chat-app/src/App.tsx:161-170 | The step becomes chat with a user carrying the pending email, and loading ends. |
| App.AppState.SwitchToLogin | chat-app/src/App.tsx:203 | The step becomes login, and nothing else changes. |
| App.AppState.SwitchToSignUp | chat-app/src/App.tsx:213 | The step becomes sign-up, and nothing else changes. |
| App.SignUpThenVerify | chat-app/src/App.tsx:128-171 | Signing up and then verifying renders the chat for a user with the signed-up email. |
| ChatLayout.ConversationWith | chat-app/src/components/chat/ChatLayout.tsx:75-77 | The first conversation the user takes part in, or `None` iff there is none. |
| ChatLayout.LayoutState.constructor | chat-app/src/components/chat/ChatLayout.tsx:42-44 | Nothing is selected, search is closed, and the layout is mobile iff the width is below 768. |
| ChatLayout.LayoutState.HandleResize | chat-app/src/components/chat/ChatLayout.tsx:47-49 | The layout is mobile iff the width is below 768, and nothing else changes. |
| ChatLayout.LayoutState.HandleConversationSelect | chat-app/src/components/chat/ChatLayout.tsx:55-61 | The conversation is selected. Search closes only on mobile. |
| ChatLayout.LayoutState.HandleBackToSidebar | chat-app/src/components/chat/ChatLayout.tsx:63-65 | The selection is cleared, and nothing else changes. |
| ChatLayout.LayoutState.HandleStartNewChat | chat-app/src/components/chat/ChatLayout.tsx:67-69 | Search opens, and nothing else changes. |
| ChatLayout.LayoutState.HandleCloseSearch | chat-app/src/components/chat/ChatLayout.tsx:83-85 | Search closes, and nothing else changes. |
| ChatLayout.LayoutState.HandleUserSelect | chat-app/src/components/chat/ChatLayout.tsx:71-81 | The user is reported and search always closes. The first conversation with the user is selected; if there is none, the selection is unchanged. |
| ChatLayout.LayoutState.MobileView | chat-app/src/components/chat/ChatLayout.tsx:88-119 | Search is shown iff open. The chat is shown iff search is closed and a conversation is selected. Otherwise the sidebar is shown. |
| ChatLayout.LayoutState.DesktopView | chat-app/src/components/chat/ChatLayout.tsx:122-186 | The side column shows search iff it is open, otherwise the sidebar. The main column shows the chat iff a conversation is selected, otherwise the welcome placeholder. |
| ChatLayout.SelectShowsChatOnMobile | chat-app/src/components/chat/ChatLayout.tsx:55-61 | On mobile, selecting a conversation always shows it. |
| ChatLayout.BackShowsListOnMobile | chat-app/src/components/chat/ChatLayout.tsx:63-65 | On mobile with search closed, going back shows the list. |

## Left out

- The Socket.IO server (Backend/src/socket/index.js) and event-loop concurrency are not modelled. Emits are a returned sequence whose errors are swallowed.
- Concurrent find-or-create races are not modelled; only sequential requests are. `CreateTwice` assumes two distinct users. With equal ids the `$all`/`$size: 2` query matches any two-party conversation holding the caller, and that case has no lemma.
- JWT signature and expiry checking is the function parameter `verify`.
- Password hashing, OTP generation and email sending are not modelled: they are random or are I/O. The signup route stores the password as submitted.
- The Zod email check is the function parameter `isEmail`.
- Mongoose `populate`, automatic timestamps and ObjectId internals are not modelled. Ids are naturals from one counter, and `updatedAt` is a logical clock.
- Message.js is not part of this model. Message documents carry the fields the routes write, and `readBy` starts empty.
- ConversationRoute.Messages: the limit is a natural number. A `Number(limit)` that is NaN or negative is not modelled.
- UsersRoute.FindUsers: the `$regex` search is modelled as a literal substring test with ASCII case folding, so regular-expression metacharacters in the query are not interpreted.
- UsersRoute.FindUsersAsWritten: a filter on `user_name`, a path the User schema does not declare, is sent to MongoDB unchanged. This is Mongoose's behaviour when `strictQuery` is off, the default from Mongoose 7 on. The Mongoose version and its settings are not part of this model. With `strictQuery` on, the unknown path would be stripped from the filter instead, and that behaviour is not modelled.
- AuthRoute.Signup: the route checks only the email before saving (Backend/src/routes/auth/auth.route.js:27), so a duplicate user name is not answered with 409. It surfaces as a failed save (500). The route sends no OTP email. The model follows the code on both points. `Signup` itself takes the name key as a parameter: with `SnakeCaseKey` it is the code as written, and `SignupAsWritten` states that it never answers 201. With `SchemaKey` it is the corrected route of the Findings row.
- The empty `POST /login` handler has no behaviour and is not modelled.
- The routers in routes/index.js, main.js, the database connection and the response helpers are setup code and are not modelled.
- Date and time formatting (`formatTime`, `formatDateHeader`, `formatLastSeen`) is not modelled. The message-group key is the function parameter `dateKey`.
- The random unread count in ChatListItem is not modelled.
- DOM effects are not modelled: focus calls are returned as an index, the textarea auto-resize is dropped, and the window width is a parameter of `HandleResize`.
- The simulated request delays in App are not modelled. Each async handler is split into `BeginRequest` and its `Complete…` method. App's `handleResendOTP`, `handleSendMessage` and `handleStartConversation` only log, so they are not modelled.
- `toLowerCase`, `trim` and `\S` are modelled over ASCII letters and the JavaScript whitespace characters. Unicode case folding beyond ASCII and UTF-16 code-unit lengths are not modelled.
- The presentational components (AuthLayout, ChatArea, ChatHeader, SearchPeople) contain no decisions beyond the ones modelled here and are not modelled.

## Findings

| source | as written | input that shows it | evidently intended | confidence | as-written member | corrected member |
|---|---|---|---|---|---|---|
| Backend/src/routes/auth/auth.route.js:36-41 | The new User document is built with the key `user_name`, but the User schema (Backend/src/models/User.js:5-12) names the required field `userName`, so the name is dropped and `save()` throws on the missing required field. | Any body that passes the schema with an unregistered email, e.g. `{ user_name: "alice", email: "a@b.co", password: "secret1" }` gets 500 "Something went wrong" instead of 201. | The name is saved under `userName`, and a fresh valid signup is stored and answered with 201. | not executed | AuthRoute.AsWrittenSaveAlwaysThrows | AuthRoute.FreshSignupIsSaved |
| Backend/src/routes/user/users.route.js:13-15 | The search clause and the projection name `user_name`, but the User schema (Backend/src/models/User.js:5-12) stores the name as `userName`. So the name clause matches no stored user and no name is returned, assuming `strictQuery` is off. | A user `{ userName: "alice", email: "a@b.co" }` and the query `ali`: the name contains the query and the email does not, so the user is not listed. | A user whose name or email contains the query is listed, with the name. | not executed | UsersRoute.NameOnlyMatchUnlistedAsWritten | UsersRoute.ListedIffMatches |
