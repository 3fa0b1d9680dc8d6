# chat-app core in Dafny

This project models the core of a real-time chat application. The backend is an Express
server with an SQL Server database and Socket.IO. The React frontend talks to it.

The database tables (users, conversations, participants, messages, reactions, sessions) are
the fields of one `Tables.Db` object. Every HTTP route handler is one of two kinds:

- a handler that writes to the database is a method of its route module that takes the
  `Db` object, with a `modifies` frame naming the tables it writes and the reply status as
  its result;
- a handler that only reads is a function with a `reads` clause.

A validation failure, a missing row and a refused permission come back as the route's HTTP
status (400, 403, 404, 500). SQL queries are written out as sequence functions in module
`Query`: filtering, first match, stable sorting by an ordering, paging and reversing.

The socket server of `server.js` is the class `Realtime.Server`. It holds the
`userSockets` map and an outbox of the events it emits; each socket is a
`Realtime.Socket`.

The frontend helpers are modelled in their own modules:

- the time labels and preview truncation of the conversation list;
- the notification list;
- the group creation dialog;
- the private chat window's state machine;
- the age computation and form initialisation of the profile card;
- the theme context.

Each of these is a function where the source computes a value, and a class where the
component keeps state.

Modules: `Common` (options, trimming, case folding, substring search), `Query`, `Tables`,
`Auth`, `Users`, `Upload`, `Groups`, `Conversations`, `Reactions`, `Messages`, `Realtime`,
`ConversationList`, `NotificationManager`, `CreateGroupModal`, `PrivateChatWindow`,
`UserProfile`, `ThemeContext`.

The clock (`GETDATE()`, `Date.now()`, `new Date()`), password hashing and checking, e-mail
validation, the stored file and `window.location` are all parameters of the operations
that use them.

## Model

| member | source | states |
|---|---|---|
| Tables.Db.constructor | backend/config/initDatabase.js:10-63 | an empty database has empty tables |
| Tables.ActiveRole | backend/routes/groups.js:201-214 | the role of an active (conversation, user) row; None exactly when there is no active row |
| Tables.ActiveRoleUnique | backend/routes/groups.js:201-214 | when pairs are unique, the role check reads the one row of the pair |
| Tables.SetActive | backend/routes/conversations.js:310-316 | sets `is_active` on the pair's rows only; every other row is unchanged |
| Tables.SetActiveKeepsPairs | backend/routes/groups.js:309-316 | setting `is_active` keeps (conversation, user) pairs unique |
| Tables.SetActiveKeepsIn | backend/routes/groups.js:354-361 | setting `is_active` keeps every row in an existing conversation |
| Tables.SetActiveEffect | backend/routes/groups.js:309-316 | afterwards the pair is an active member iff the flag is set and a row existed; every other pair keeps its role |
| Tables.MemberCount | backend/routes/conversations.js:40-43 | counts the active rows of a conversation; 0 iff there are none |
| Tables.RowRole | backend/routes/groups.js:220-228 | the role of a row of the pair, active or not; None iff there is no row |
| Tables.RowRoleUnique | backend/routes/groups.js:220-228 | when pairs are unique, the row's role is that of its one row |
| Tables.MaxConversationId | backend/routes/groups.js:31-40 | bounds every conversation id |
| Tables.NextConversationId | backend/routes/groups.js:31-40 | an identity value above every existing conversation id |
| Tables.MaxMessageId | backend/server.js:152-174 | bounds every message id |
| Tables.NextMessageId | backend/server.js:152-174 | an identity value above every existing message id |
| Tables.MaxUserId | backend/routes/auth.js:51-53 | bounds every user id |
| Tables.NextUserId | backend/routes/auth.js:51-53 | an identity value above every existing user id |
| Tables.FindUser | backend/routes/conversations.js:88-98 | the user with that id, or None iff there is none |
| Tables.FindConversation | backend/routes/groups.js:128-147 | the conversation with that id, or None iff there is none |
| Tables.FindMessage | backend/routes/messages.js:63-70 | the message with that id, or None iff there is none |
| Tables.UpdateUser | backend/routes/users.js:95-118 | an `UPDATE Users … WHERE user_id`: the row with the id is rewritten and every other row kept |
| Tables.UpdateConversation | backend/routes/groups.js:410-420 | an `UPDATE Conversations … WHERE conversation_id`: the row with the id is rewritten and every other row kept |
| Auth.NewAccount | backend/routes/auth.js:49-53 | the inserted user row: next id, the hash, display name defaulting to the username, profile not completed, offline |
| Common.Trim | backend/routes/auth.js:10 | no longer than the input; neither end is white space; empty iff the input is all white space |
| Common.ValidatorLength | backend/routes/auth.js:10-13 | at most the number of characters; exactly that number when there is no variation selector |
| Auth.RegisterValid | backend/routes/auth.js:9-14 | accepted input has a username of at least 3 characters after trimming, an accepted e-mail and a password of at least 6 characters |
| Common.ValidatorSkipsSelector | backend/routes/auth.js:10-13 | `isLength` counts a heart with its emoji selector as one character |
| Auth.RegisterKeepsUnique | backend/routes/auth.js:28-53 | inserting a name and e-mail that are not taken keeps usernames and e-mails unique |
| Auth.Register | backend/routes/auth.js:9-78 | invalid input gives 400; a taken username or e-mail gives 400; otherwise 201 with exactly the new row appended; uniqueness is kept |
| Auth.RegisterTwiceRefused | backend/routes/auth.js:28-38 | once an account exists, registering the same username again is refused whatever the e-mail |
| Auth.FindByUsername | backend/routes/auth.js:103-124 | the user with that username, None iff there is none |
| Auth.CheckLogin | backend/routes/auth.js:83-134 | blank inputs give 400; login succeeds iff the user is found and the password checks against its hash; every other failure is the same 401 |
| Auth.LoginFailuresIndistinguishable | backend/routes/auth.js:112-134 | an unknown username and a wrong password give the same reply |
| Auth.SetOnline | backend/routes/auth.js:137-139 | sets `is_online` and `last_seen` on the user's row only |
| Auth.Login | backend/routes/auth.js:83-167 | the reply is CheckLogin's; a refusal changes nothing; a success marks the user online |
| Auth.CloseUserSessions | backend/routes/auth.js:180-182 | closes the user's active sessions at `now` and keeps every other row |
| Auth.LogoutEffect | backend/routes/auth.js:172-195 | afterwards a session is active iff it was active and is another user's; likewise for online |
| Auth.Logout | backend/routes/auth.js:172-195 | always 200; the user goes offline and their sessions are closed |
| Users.CompleteProfile | backend/routes/users.js:53-130 | invalid fields give 400; a missing row gives 500; an already completed profile gives 400; otherwise the row gets the trimmed name, date, gender and the completed flag |
| Users.CompleteProfileOnce | backend/routes/users.js:83-92 | a second complete-profile call on the same user is refused |
| Users.Requested | backend/routes/users.js:157-182 | the field assignments PUT /profile makes: at most four, and none iff no field is sent |
| Users.BuildUpdate | backend/routes/users.js:157-176 | the loop of `updateFields.push` builds exactly the requested assignments |
| Users.ApplyAll | backend/routes/users.js:184-209 | the assignments change only the profile columns: id, username, e-mail, hash, avatar, flags and timestamps are kept; the display name is kept unless assigned |
| Users.ApplyAllAppend | backend/routes/users.js:184-209 | applying two lists of assignments one after the other is applying them joined |
| Users.ProfileUpdateEffect | backend/routes/users.js:157-209 | each sent field is written trimmed; fields not sent keep their values; nothing else in the row changes |
| Users.UpdateProfile | backend/routes/users.js:136-222 | invalid input gives 400; no field gives 400 with no change; valid input with some field gives 200 with exactly the requested fields and `updated_at` written |
| Users.DirectoryOrderIsTotalPreorder | backend/routes/users.js:254 | `ORDER BY is_online DESC, display_name ASC` is a total preorder |
| Users.Directory | backend/routes/users.js:228-256 | sorted by that order; every row is another user matching the search; every matching user is listed |
| Users.DirectoryExcludesCaller | backend/routes/users.js:243 | the caller never appears in the directory |
| Users.UploadAvatar | backend/routes/users.js:273-301 | a missing url gives 400 and no change; otherwise the caller's `avatar_url` is set |
| Users.UpdateTheme | backend/routes/users.js:319-340 | any theme other than `light` or `dark` gives 400 and no change; otherwise that theme is stored |
| Users.UpdateThemeKeepsThemes | backend/routes/users.js:324-340 | afterwards every stored theme is still the value it was or one of `light`/`dark` |
| Upload.FileUrl | backend/routes/upload.js:17 | the url is `/uploads/` followed by exactly the stored name |
| Upload.FileUrlInjective | backend/routes/upload.js:17 | distinct stored names give distinct urls |
| Upload.MessageTypeOf | backend/routes/upload.js:23-30 | `image` iff the mimetype starts with `image/`; `video` iff `video/`; `audio` iff `audio/`; otherwise `file` |
| Upload.PrefixesExclusive | backend/routes/upload.js:23-30 | no mimetype has two of the three prefixes |
| Upload.UploadOne | backend/routes/upload.js:8-50 | refused with 400 iff no file arrived; otherwise the file's description |
| Upload.MultipleTypeOf | backend/routes/upload.js:67 | in a multiple upload a file is `image` iff its mimetype starts with `image/`, otherwise `file` |
| Upload.UploadMany | backend/routes/upload.js:53-82 | refused with 400 iff no files or an empty list; otherwise one description per file, in order |
| Upload.ManyAgreesWithOne | backend/routes/upload.js:23-68 | both routes agree on `image`; a file that is neither video nor audio is described the same by either route |
| Groups.MemberRows | backend/routes/groups.js:53-64 | the member rows inserted: each is an active `member` of the new group, other than the creator, from the requested ids |
| Groups.CreateGroupRows | backend/routes/groups.js:42-64 | the creator's `admin` row first, then member rows |
| Groups.MemberRowsCover | backend/routes/groups.js:53-64 | every requested id other than the creator gets a row |
| Groups.CreateGroupCoversIds | backend/routes/groups.js:42-64 | every requested id, creator included, ends up with a row |
| Groups.MemberRowsDistinct | backend/routes/groups.js:53-64 | distinct requested ids give distinct users |
| Groups.CreateGroupKeepsValid | backend/routes/groups.js:31-64 | with distinct ids, the insertions keep pairs unique and every row in an existing conversation |
| Groups.MemberRowsCount | backend/routes/groups.js:53-64 | the active rows added number the requested ids other than the creator |
| Groups.CreateGroupMemberCount | backend/routes/groups.js:79-80 | `member_count` is one plus the requested ids other than the creator |
| Groups.CreateGroupDuplicateIds | backend/routes/groups.js:53-64 | a repeated id in `memberIds` is inserted twice |
| Groups.InsertMembers | backend/routes/groups.js:53-64 | the loop appends exactly the member rows |
| Groups.InsertGroup | backend/routes/groups.js:31-64 | appends the group row, the creator's admin row and the member rows; with distinct ids the tables stay valid |
| Groups.CreateGroup | backend/routes/groups.js:7-100 | a blank name or no members gives 400 and no change; otherwise 200 (`res.json`) with the group row, the rows, and `member_count` |
| Groups.ActiveMemberViews | backend/routes/groups.js:150-163 | every active member with a user row appears |
| Groups.ActiveMemberViewsSound | backend/routes/groups.js:150-163 | every listed member comes from an active row and its user |
| Groups.RoleRankIsTextDescending | backend/routes/groups.js:163 | `role DESC` on the texts puts `member` before `admin` |
| Groups.MemberOrderIsTotalPreorder | backend/routes/groups.js:163 | the member ordering is a total preorder |
| Groups.GetGroup | backend/routes/groups.js:103-180 | refused with 403 iff the caller is not an active member; otherwise the group, the caller's role and the active members sorted by role and join time |
| Groups.GetGroupListsActiveMembers | backend/routes/groups.js:150-163 | a listed member has an active row with that role |
| Groups.AddMember | backend/routes/groups.js:218-251 | afterwards the pair has a row; at most one row is added |
| Groups.AddAll | backend/routes/groups.js:218-251 | the loop adds at most one row per requested user, removes none, and leaves the last requested user with a row |
| Groups.AddMemberKeepsUnique | backend/routes/groups.js:218-251 | inserting or reactivating keeps pairs unique |
| Groups.AddMemberOwnRow | backend/routes/groups.js:235-249 | the pair ends active, keeping an existing row's role, else as `member`; every row of the pair is active with `joined_at` set to the time of the add |
| Groups.AddMemberOthers | backend/routes/groups.js:218-251 | no other pair changes |
| Groups.AddAllKeepsUnique | backend/routes/groups.js:218-251 | the whole loop keeps pairs unique |
| Groups.AddAllOthers | backend/routes/groups.js:218-251 | pairs outside the request keep their role |
| Groups.AddAllKeepsRows | backend/routes/groups.js:218-251 | no row disappears |
| Groups.AddAllRequested | backend/routes/groups.js:218-251 | every requested user ends an active member, with its old role or `member` |
| Groups.AddAllInConversations | backend/routes/groups.js:218-251 | rows stay in existing conversations |
| Groups.AddMembers | backend/routes/groups.js:185-265 | no ids gives 400; a caller who is not an active admin gives 403; otherwise 200 and the loop's result |
| Groups.RemoveMember | backend/routes/groups.js:269-330 | no id gives 400; a non-admin caller gives 403; removing oneself gives 400; otherwise 200 and the member's row deactivated |
| Groups.Leave | backend/routes/groups.js:333-375 | the creator gets 400 and no change; anyone else's row is deactivated |
| Groups.Rename | backend/routes/groups.js:378-430 | a blank name gives 400; a non-admin caller gives 403; otherwise only that group's name (trimmed) and `updated_at` change |
| Groups.UploadAvatar | backend/routes/groups.js:491-541 | a missing url gives 400; a non-admin caller gives 403; otherwise only that group's avatar and `updated_at` change |
| Groups.PromoteRows | backend/routes/groups.js:465-476 | same number of rows |
| Groups.PromoteKeepsUnique | backend/routes/groups.js:465-476 | promotion keeps pairs unique |
| Groups.PromoteTarget | backend/routes/groups.js:465-476 | the member's row becomes `admin` if it exists |
| Groups.PromoteKeepsMembership | backend/routes/groups.js:465-476 | who is an active member does not change |
| Groups.PromoteOthers | backend/routes/groups.js:465-476 | no other pair's role changes |
| Groups.Promote | backend/routes/groups.js:434-488 | no id gives 400; a non-admin caller gives 403; otherwise 200 and the row promoted |
| Conversations.UnreadCount | backend/routes/conversations.js:32-38 | 0 iff no visible unread message to the user is in the conversation |
| Conversations.LastMessage | backend/routes/conversations.js:50-55 | none iff no visible message; otherwise a visible one, the newest |
| Conversations.Summarize | backend/routes/conversations.js:15-55 | one row of the list: the conversation itself, no other user for a group, a visible newest message of the conversation, the unread count, and the active member count, 0 iff there is no active member |
| Conversations.OtherUser | backend/routes/conversations.js:46-49 | none for a group, and none for a private conversation without another participant row; otherwise the user of the first such row, another user than the caller |
| Conversations.OtherUserPresent | backend/routes/conversations.js:46-49 | a private conversation with another participant row, all of whose users exist, shows one of those users |
| Conversations.ListConversations | backend/routes/conversations.js:7-70 | most recent first; each entry is a conversation of which the user is an active member, with its summary; each such conversation appears exactly as often as in the conversations table, and no other |
| Conversations.ListConversationsComplete | backend/routes/conversations.js:7-70 | every conversation of which the user is an active member is listed |
| Conversations.ExistingPrivate | backend/routes/conversations.js:103-113 | the private conversation between the two users, None iff there is none |
| Conversations.FreshRowsKeepMembership | backend/routes/conversations.js:118-143 | rows for the new conversation leave every other membership as it was |
| Conversations.GetOrCreateFindsNew | backend/routes/conversations.js:118-143 | after creation, lookup finds the new conversation and the tables stay valid |
| Conversations.PrivateRows | backend/routes/conversations.js:135-141 | the two rows of the new conversation: both users are active members, and they are its only users |
| Conversations.CreatePrivate | backend/routes/conversations.js:118-143 | appends the new private conversation and both users' rows; the tables stay valid and the lookup finds it |
| Conversations.GetOrCreate | backend/routes/conversations.js:75-158 | no id or the caller's own gives 400; an unknown user gives 404; otherwise the existing conversation, or a new one the lookup then finds |
| Conversations.WithSenders | backend/routes/conversations.js:186-214 | each row is a visible message of the conversation joined with its sender |
| Conversations.WithSendersComplete | backend/routes/conversations.js:186-214 | every visible message with a sender is joined |
| Conversations.WithSendersUniqueKeys | backend/routes/conversations.js:186-214 | joined rows keep unique message ids |
| Conversations.HistoryPage | backend/routes/conversations.js:186-214 | the `OFFSET`/`FETCH` window of the conversation's visible messages ordered newest first: its length is `min(limit, N - offset)` (0 past the end), row `i` stands at position `offset + i` of that order, the rows are distinct visible messages with their senders, sorted newest first |
| Conversations.HistoryPageWhole | backend/routes/conversations.js:186-214 | from offset 0 with a page size of at least N, the page holds exactly the visible messages |
| Conversations.SortedSendersUnique | backend/routes/conversations.js:186-214 | sorting keeps message ids unique |
| Conversations.SummariesForAppend | backend/routes/conversations.js:219-244 | the rows of a message in a joined list are its rows in each part |
| Conversations.SummariesForOne | backend/routes/conversations.js:219-244 | the rows of one message's groups belong to that message only |
| Conversations.ReactionRowsFor | backend/routes/conversations.js:219-244 | the reaction rows of a page give each page message its own groups |
| Conversations.SummariesForStep | backend/routes/conversations.js:236-244 | one step of the row loop adds that row to its message |
| Conversations.SummariesForEmpty | backend/routes/conversations.js:236-244 | a message has no groups iff no row belongs to it |
| Conversations.BuildReactionsMap | backend/routes/conversations.js:236-244 | the loop's map has a key iff a row has that message; each entry is that message's groups |
| Conversations.PageIds | backend/routes/conversations.js:219-225 | the page's message ids, in order and distinct |
| Conversations.Views | backend/routes/conversations.js:247-250 | each message with its sender and its map entry |
| Conversations.ViewsReactions | backend/routes/conversations.js:219-250 | each message gets exactly its own reaction groups |
| Conversations.HistoryReply | backend/routes/conversations.js:162-265 | 403 iff the caller is not an active member; bad paging gives 500; otherwise the page's `min(limit, N - offset)` messages delivered oldest first: reversed, they are the newest-first window from `offset`; each with its sender and its reactions grouped by emoji |
| Conversations.History | backend/routes/conversations.js:162-265 | the handler's loop gives HistoryReply |
| Conversations.MarkReadRows | backend/routes/conversations.js:280-284 | marks read exactly the unread messages to the user in the conversation |
| Conversations.MarkReadClearsUnread | backend/routes/conversations.js:270-297 | afterwards the unread count is 0 |
| Conversations.MarkReadIdempotent | backend/routes/conversations.js:280-284 | a second mark-read changes nothing |
| Conversations.MarkReadKeepsIds | backend/routes/conversations.js:280-284 | message ids stay unique |
| Conversations.MarkRead | backend/routes/conversations.js:270-297 | 200 and the messages marked |
| Conversations.DeleteConversation | backend/routes/conversations.js:302-327 | 200 and the caller's row deactivated |
| Reactions.Distinct | backend/routes/reactions.js:157 | the distinct emojis, without repeats |
| Reactions.EmojiColumn | backend/routes/reactions.js:157 | the emoji of each row |
| Reactions.UsersWith | backend/routes/reactions.js:147-168 | the users who gave an emoji, one per row |
| Reactions.Groups | backend/routes/reactions.js:157 | one group per distinct emoji |
| Reactions.GroupsCover | backend/routes/reactions.js:157 | an emoji has a group iff some row has it |
| Reactions.GroupsEntry | backend/routes/reactions.js:147-168 | a group's count is its number of rows and users; a user is in it iff they gave that emoji |
| Reactions.MessageReactions | backend/routes/reactions.js:147-168 | the message's groups, sorted by count descending |
| Reactions.MessageReactionsUsers | backend/routes/reactions.js:147-168 | a user is in a group iff that reaction row exists |
| Reactions.FilterTuple | backend/routes/reactions.js:150-156 | a row of the message has that emoji and user iff the reaction exists |
| Reactions.ToggleRows | backend/routes/reactions.js:34-68 | an existing reaction loses one row; a missing one is appended |
| Reactions.ToggleKeepsNoDup | backend/routes/reactions.js:37-66 | the toggle keeps rows distinct |
| Reactions.ToggleFlips | backend/routes/reactions.js:37-66 | the reaction is present afterwards iff it was absent; other rows keep their multiplicity |
| Reactions.ToggleTwice | backend/routes/reactions.js:37-66 | toggling twice restores the rows |
| Reactions.React | backend/routes/reactions.js:7-85 | no emoji gives 400; an unknown message gives 404; otherwise it toggles, says added or removed, and returns the message's groups |
| Reactions.GetReactions | backend/routes/reactions.js:90-107 | the message's emoji groups (MessageReactions): a reordering of one group per emoji of the message's rows, sorted by count; empty iff the message has no reactions |
| Reactions.RemoveRows | backend/routes/reactions.js:120-127 | keeps rows of the table in order and leaves no row of the named reaction |
| Reactions.RemoveRowsEffect | backend/routes/reactions.js:125-126 | only that reaction row is deleted |
| Reactions.RemoveReaction | backend/routes/reactions.js:112-142 | 200, the row deleted, and the message's groups |
| Messages.RoomRows | backend/routes/messages.js:18-32 | each row is an undeleted message of the room, with its sender |
| Messages.RoomRowsComplete | backend/routes/messages.js:18-32 | every undeleted message of the room with a sender is a row |
| Messages.RoomHistory | backend/routes/messages.js:7-48 | bad paging gives 500; otherwise `min(limit, N - offset)` distinct visible messages of the room with their senders, oldest first, which reversed are the newest-first window from `offset`; `total` is their count |
| Messages.SoftDelete | backend/routes/messages.js:82 | sets `is_deleted` on that message only |
| Messages.SoftDeleteHides | backend/routes/messages.js:82 | the deleted message leaves room and conversation listings; ids stay unique |
| Messages.SoftDeleteIdempotent | backend/routes/messages.js:82 | deleting twice is deleting once |
| Messages.DeleteMessage | backend/routes/messages.js:53-94 | an unknown message gives 404; another sender's gives 403; otherwise 200 and it is soft-deleted |
| Messages.Hits | backend/routes/messages.js:108-118 | the matching messages with senders, one per match |
| Messages.HitsComplete | backend/routes/messages.js:108-118 | every match is a hit |
| Messages.SearchRows | backend/routes/messages.js:108-119 | the 50 newest hits (all when fewer): `min(50, hits)` distinct hits with their senders, newest first, row `i` at position `i` of that order, no hit left out newer than a returned row; exactly the hits when there are at most 50 |
| Messages.Search | backend/routes/messages.js:99-135 | the same over the room given (1 by default) and the keyword: the 50 newest matches, newest first, each with its sender, exactly the matches when there are at most 50 |
| Messages.MissingKeywordIsLiteral | backend/routes/messages.js:103-118 | without a keyword the pattern is `%undefined%`: a listed message is found iff its lower-cased text contains "undefined" (so it has at least nine characters), whereas the empty keyword finds every listed message |
| Realtime.Socket.constructor | backend/server.js:50-52 | a new connection has no user |
| Realtime.OrNullId | backend/server.js:201-207 | `x \|\| null` on an id: kept iff truthy |
| Realtime.StoredRow | backend/server.js:152-174 | the inserted message: next id, the sender, defaults `''` and `text`, file fields kept iff truthy, unread, undeleted |
| Realtime.AppendFreshKeepsKeys | backend/server.js:152-174 | inserting with the next id keeps ids unique |
| Realtime.Touch | backend/server.js:182 | only that conversation's `updated_at` changes |
| Realtime.TouchKeepsIn | backend/server.js:182 | rows stay in existing conversations |
| Realtime.Outgoing | backend/server.js:192-209 | the emitted object is unread and carries the row's ids, text and time and the sender's names and avatar |
| Realtime.OutgoingIsStoredRow | backend/server.js:192-209 | the emitted message shows the stored row and its sender |
| Realtime.ReceiverSocket | backend/server.js:215-216 | the receiver's socket iff the receiver is registered |
| Realtime.SenderName | backend/server.js:220 | display name, else username |
| Realtime.SendDeliveries | backend/server.js:212-224 | first to the sender; then, if the receiver is online, the message and its notification to them |
| Realtime.SendReachesOnlyPair | backend/server.js:212-224 | nothing reaches anyone but the sender and the receiver |
| Realtime.Server.constructor | backend/server.js:48 | no sockets registered, nothing emitted |
| Realtime.Server.Join | backend/server.js:54-121 | registers the socket, marks the user online and opens a session |
| Realtime.Server.SendPrivateMessage | backend/server.js:124-230 | not logged in or not a member gives an error event and no change; otherwise the row is stored, the conversation touched and the deliveries made |
| Realtime.Server.Typing | backend/server.js:233-244 | relays `user-typing` to everyone else |
| Realtime.Server.StopTyping | backend/server.js:246-254 | relays `user-stop-typing` to everyone else |
| Realtime.Server.Disconnect | backend/server.js:256-295 | a socket with no user changes nothing; otherwise the user goes offline, this socket's sessions close and the user's entry is dropped while it names this socket |
| Realtime.TypingRelay | backend/server.js:233-244 | one broadcast iff all three fields are truthy |
| Realtime.StopTypingRelay | backend/server.js:246-254 | one broadcast iff the id is truthy |
| Realtime.TypingSkipsSender | backend/server.js:238 | the broadcast excludes the sender |
| Realtime.CloseSessions | backend/server.js:268-270 | closes the socket's active sessions only |
| Realtime.CloseSessionsEffect | backend/server.js:268-270 | afterwards a session is active iff it was and belongs to another socket |
| Realtime.Unregister | backend/server.js:274 | drops the user's entry, whatever socket it holds |
| Realtime.JoinThenDisconnect | backend/server.js:59-274 | join then disconnect of the same socket drops the user's entry, as the source does, and leaves the other users' entries |
| Realtime.UnregisterDropsNewerSocket | backend/server.js:274 | an older socket's disconnect drops the newer socket's registration |
| Realtime.UnregisterOwn | backend/server.js:274 | drops the entry only if it is this socket's |
| Realtime.UnregisterOwnKeepsNewerSocket | backend/server.js:274 | an older socket's disconnect keeps the newer one registered |
| ConversationList.ElapsedMinutes | frontend/src/components/ConversationList.js:10-11 | the whole minutes between the two times |
| ConversationList.FormatTime | frontend/src/components/ConversationList.js:6-19 | no time gives nothing; under a minute "just now"; then minutes 1-59, hours 1-23, days 1-6; otherwise the date |
| ConversationList.LabelText | frontend/src/components/ConversationList.js:13-18 | the label texts in their formats |
| ConversationList.FormatTimeAges | frontend/src/components/ConversationList.js:13-18 | as time passes a label only moves to a coarser bucket |
| ConversationList.Shorten | frontend/src/components/ConversationList.js:23 | a string of at most 40 UTF-16 code units is kept; a longer one becomes its first 40 code units and `...` |
| ConversationList.Truncate | frontend/src/components/ConversationList.js:21-24 | a missing or empty text gives the placeholder; a text of at most 40 UTF-16 code units is kept; a longer one becomes its first 40 code units and `...` |
| ConversationList.TruncateBounded | frontend/src/components/ConversationList.js:21-24 | a preview is at most 43 code units |
| ConversationList.ShortenIdempotent | frontend/src/components/ConversationList.js:23 | shortening a shortened string changes nothing |
| ConversationList.TruncateShortBmp | frontend/src/components/ConversationList.js:21-24 | a text of at most 40 characters, none beyond U+FFFF, is shown whole |
| ConversationList.TruncateCountsCodeUnits | frontend/src/components/ConversationList.js:21-24 | 25 emoji beyond U+FFFF are 50 code units, so the preview is 20 of them and `...` |
| NotificationManager.Preview | frontend/src/components/NotificationManager.js:53-61 | a fixed text for an image, the file name for a file, otherwise the text or a placeholder |
| NotificationManager.PreviewNonEmpty | frontend/src/components/NotificationManager.js:53-61 | the preview is never empty |
| NotificationManager.SenderName | frontend/src/components/NotificationManager.js:32 | full name, display name, username, or `Someone`; never empty |
| NotificationManager.Added | frontend/src/components/NotificationManager.js:63-73 | the new notification first, the previous ones after it, at most five |
| NotificationManager.Removed | frontend/src/components/NotificationManager.js:123-125 | the list with every notification of that id dropped: each other notification as many times as before, in the same order |
| NotificationManager.RemoveUndoesAdd | frontend/src/components/NotificationManager.js:63-125 | closing a fresh notification below the cap restores the list |
| NotificationManager.RemoveAbsent | frontend/src/components/NotificationManager.js:123-125 | removing an unknown id changes nothing |
| NotificationManager.Manager.constructor | frontend/src/components/NotificationManager.js:5 | no notifications at first |
| NotificationManager.Manager.Add | frontend/src/components/NotificationManager.js:63-73 | the list becomes Added and stays within five |
| NotificationManager.Manager.Remove | frontend/src/components/NotificationManager.js:123-125 | the list becomes Removed of the old list (order and multiplicity kept), and stays within five |
| NotificationManager.Manager.HandleNewMessage | frontend/src/components/NotificationManager.js:20-37 | one's own messages and those of the open conversation are ignored; any other adds its notification |
| NotificationManager.Manager.HandleNewNotification | frontend/src/components/NotificationManager.js:39-51 | added iff addressed to this user |
| CreateGroupModal.FilteredUsers | frontend/src/components/CreateGroupModal.js:32-37 | exactly the users the search matches, in their order and as often as they occur |
| CreateGroupModal.EmptySearchShowsAll | frontend/src/components/CreateGroupModal.js:32-37 | an empty search shows everyone, in order |
| CreateGroupModal.SearchIgnoresCase | frontend/src/components/CreateGroupModal.js:33-36 | the search ignores ASCII case |
| CreateGroupModal.ToLowerIdempotent | frontend/src/components/CreateGroupModal.js:33-36 | lower-casing twice is lower-casing once |
| CreateGroupModal.Toggled | frontend/src/components/CreateGroupModal.js:39-45 | a selected id is removed, another appended |
| CreateGroupModal.ToggleKeepsNoDup | frontend/src/components/CreateGroupModal.js:39-45 | the selection stays free of repeats |
| CreateGroupModal.ToggleTwice | frontend/src/components/CreateGroupModal.js:39-45 | selecting and unselecting restores the selection |
| CreateGroupModal.MultiplicityNoDup | frontend/src/components/CreateGroupModal.js:39-45 | a selection where each id occurs at most once has no repeats |
| CreateGroupModal.CheckCreate | frontend/src/components/CreateGroupModal.js:47-66 | a blank name is refused; no members is refused; otherwise trimmed name, selection and description are submitted |
| CreateGroupModal.ButtonDisabled | frontend/src/components/CreateGroupModal.js:181 | disabled iff creating or the creation would be refused |
| CreateGroupModal.Modal.constructor | frontend/src/components/CreateGroupModal.js:9 | nothing selected at first |
| CreateGroupModal.Modal.ToggleMember | frontend/src/components/CreateGroupModal.js:39-45 | the selection is toggled and stays free of repeats |
| PrivateChatWindow.SendPayload | frontend/src/components/PrivateChatWindow.js:77-85 | the payload holds the conversation, the other user and the text |
| PrivateChatWindow.SendRequests | frontend/src/components/PrivateChatWindow.js:77-90 | the send, then stop-typing iff the conversation id is truthy |
| PrivateChatWindow.SentTextIsStored | frontend/src/components/PrivateChatWindow.js:75-91 | the server stores the trimmed text as a text message to the other user |
| PrivateChatWindow.ChatWindow.constructor | frontend/src/components/PrivateChatWindow.js:6-8 | no messages, no one typing, an empty input |
| PrivateChatWindow.ChatWindow.SetInput | frontend/src/components/PrivateChatWindow.js:199 | the input holds the text |
| PrivateChatWindow.ChatWindow.ReceiveMessage | frontend/src/components/PrivateChatWindow.js:52-61 | a message of this conversation is appended, and marked read if it is to the user; others change nothing |
| PrivateChatWindow.ChatWindow.UserTyping | frontend/src/components/PrivateChatWindow.js:63-67 | shows another user typing here; ignores anything else |
| PrivateChatWindow.ChatWindow.StopTyping | frontend/src/components/PrivateChatWindow.js:69-73 | clears the indicator for this conversation |
| PrivateChatWindow.ChatWindow.Send | frontend/src/components/PrivateChatWindow.js:75-91 | a blank input or no conversation does nothing; otherwise the requests are made and the input is cleared |
| PrivateChatWindow.TypingThenStop | frontend/src/components/PrivateChatWindow.js:63-73 | typing then stop-typing leaves no indicator |
| UserProfile.CalculateAge | frontend/src/components/UserProfile.js:56-66 | none without a date; otherwise the year difference, one less iff this year's birthday is ahead |
| UserProfile.AgeOnBirthday | frontend/src/components/UserProfile.js:56-66 | on the birthday the age is the full difference |
| UserProfile.AgeGrowsByOne | frontend/src/components/UserProfile.js:56-66 | within one year the age differs by at most one |
| UserProfile.AcceptedBirthDateAge | frontend/src/components/UserProfile.js:56-66 | a birth date the backend accepts shows an age between 12 and 120 |
| UserProfile.InitForm | frontend/src/components/UserProfile.js:7-12 | empty strings for missing fields, the date part before `T`, the username without a display name |
| UserProfile.FormDateOfTimestamp | frontend/src/components/UserProfile.js:9 | a `<date>T<time>` timestamp puts exactly `<date>` in the form |
| ThemeContext.BodyClass | frontend/src/services/ThemeContext.js:22 | `dark-theme` iff the theme is dark, else `light-theme` |
| ThemeContext.Toggled | frontend/src/services/ThemeContext.js:27 | dark iff the theme was light, else light |
| ThemeContext.ToggleTwice | frontend/src/services/ThemeContext.js:27 | toggling twice keeps light or dark; any other value goes to light, then dark |
| ThemeContext.ThemeState.constructor | frontend/src/services/ThemeContext.js:15-18 | the stored preference, light when there is none |
| ThemeContext.ThemeState.ToggleTheme | frontend/src/services/ThemeContext.js:26-28 | the theme is toggled |
| ThemeContext.ThemeState.SetThemeValue | frontend/src/services/ThemeContext.js:38-42 | only light and dark are taken |
| ThemeContext.KeepsTwoStates | frontend/src/services/ThemeContext.js:26-42 | once light or dark, the theme stays light or dark |

## Left out

- Socket.IO broadcasts that carry no model state are not modelled: `users-update`, `user-joined`, `user-left`, the `message-reaction` relay, and the room history sent on `join`.
- JWT issuing and checking are not modelled. The authenticated user id is a parameter of each route.
- Password hashing (bcrypt) is not modelled. The hash is a parameter of register, and the check is a `verify` function parameter of login.
- E-mail validation and normalisation are not modelled. Register takes its verdict as a boolean parameter.
- `DATEADD` time-zone shifts and the locale date formatting of the frontend are not modelled. Times are integers (milliseconds or minutes).
- SQL `LIKE` wildcards and the database collation are not modelled. A search is an ASCII case-insensitive substring test.
- CreateGroupModal.FilteredUsers: case folding is ASCII only (`Common.ToLower`); JavaScript's `toLowerCase` folds all of Unicode, so a search "Đ" finds the display name "đ" in the source but not in the model.
- `parseInt` of the paging parameters is not modelled. They arrive as optional integers, and a value the query would reject is the 500 the route returns.
- Database errors are not modelled. Every other failure path that returns 500 is left out, except the missing row of complete-profile and bad paging.
- Conversations.ListConversations: returns one entry per conversation, with the user of the first other participant row. The SQL join of `backend/routes/conversations.js:45-57` yields one row per active row of the user times each other participant row (or one row when there is none), so it can return a conversation more than once. The two agree when each (conversation, user) pair has at most one row and a private conversation has one other participant row. The participants table has no unique constraint on the pair, so the model's single entry per conversation is a simplification.
- Realtime.Server.Disconnect: deletes the user's socket entry only while it names the disconnecting socket, the corrected behaviour (see Findings); the source deletes it unconditionally. Like the source, it still marks the user offline and closes the active sessions of the disconnecting socket when another socket of the same user is connected.
- ConversationList.Truncate: a cut inside a surrogate pair keeps the lone high surrogate, as JavaScript does; how the browser renders it is not modelled.
- The validators' `isLength` is validator.js library code, which is not part of this model. `Common.ValidatorLength` follows its counting: UTF-16 code units less one per surrogate pair, and U+FE0E and U+FE0F not counted.
- Realtime.Server.Join: assumes the `userId` sent with `join` is present. Its other fields (display name, token) are not read.
- NotificationManager.Manager.HandleNewNotification: the server's `new-message-notification` payload carries no `receiverId`, so in the running system the handler ignores every such event. The model keeps the filter as the frontend writes it.
- The upload middleware's file count limit, its storage, and the file's bytes are not modelled. The stored file's metadata is a parameter.
- `window.location`, the notification id (`Date.now() + Math.random()`) and the clock are parameters of the frontend handlers. Sounds and browser notifications are not modelled.
- The typing timer of the chat window, its history fetch and the mark-read request it sends when a conversation opens (`conversationAPI.markAsRead`) are not modelled. Saving the theme (local storage and the update-theme request) and setting `document.body` are not modelled either.
- UserProfile.CalculateAge: parsing a date string is not modelled. A birth date arrives either as a calendar date or not at all.
- Groups.CreateGroup: repeated ids in `memberIds` are inserted as repeated rows, as in the source. The uniqueness of (conversation, user) pairs is proved only when the ids are distinct (see Groups.CreateGroupDuplicateIds).
- Users.UpdateProfile: the SQL handling of a date-of-birth parameter is not modelled. The value is stored as given.

## Findings

| source | as written | input that shows it | evidently intended | confidence | as-written member | corrected member |
|---|---|---|---|---|---|---|
| backend/server.js:274 | `disconnect` deletes `userSockets[userId]` whichever socket the entry holds | user 1 joins on socket "a", joins again on socket "b", then socket "a" disconnects: user 1 is no longer reachable in real time though "b" is still connected | drop the entry only when it still holds the disconnecting socket's id | medium, not executed | Realtime.Unregister, Realtime.UnregisterDropsNewerSocket | Realtime.UnregisterOwn, Realtime.UnregisterOwnKeepsNewerSocket |
