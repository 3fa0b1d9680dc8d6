/** The Socket.IO server of backend/server.js: the `userSockets` map from user id to
    socket id, the per-socket `userId`/`username` fields, and the `join`,
    `send-private-message`, `typing`, `stop-typing` and `disconnect` handlers. What a
    handler emits is appended to an outbox of deliveries, in emit order. */
module Realtime {
  import opened Common
  import opened Query
  import opened Tables

  /** Where an emit goes: one socket (`socket.emit`, `io.to(id).emit`), or every socket but
      one (`socket.broadcast.emit`). */
  datatype Target = ToSocket(socketId: string) | AllBut(socketId: string)

  /** The message object of `receive-private-message`: the stored row with its sender's names. */
  datatype OutMessage = OutMessage(
    messageId: int,
    conversationId: Option<int>,
    senderId: int,
    receiverId: Option<int>,
    text: string,
    messageType: string,
    fileUrl: Option<string>,
    fileName: Option<string>,
    fileSize: Option<int>,
    fileType: Option<string>,
    isRead: bool,
    createdAt: int,
    senderUsername: string,
    senderDisplayName: string,
    senderFullName: Option<string>,
    senderAvatarUrl: Option<string>)

  datatype Event =
    | Error(text: string)
    | ReceivePrivateMessage(message: OutMessage)
    | NewMessageNotification(conversationId: Option<int>, senderId: int, senderName: string, messageText: Option<string>)
    | UserTyping(typingConversation: int, typingUser: int, typingName: string)
    | UserStopTyping(stopConversation: int)

  datatype Delivery = Delivery(target: Target, event: Event)

  const NotLoggedIn: string := "Chưa đăng nhập"
  const NoPermission: string := "Không có quyền gửi tin nhắn"
  const SendFailed: string := "Lỗi khi gửi tin nhắn"

  /** One connected client. `userId` and `username` are set by `join`. */
  class Socket {
    const id: string
    var userId: Option<int>
    var username: Option<string>

    constructor (id: string)
      ensures this.id == id && userId == None && username == None
    {
      this.id := id;
      userId := None;
      username := None;
    }
  }

  /** The payload of `send-private-message`; every field may be missing. */
  datatype SendData = SendData(
    conversationId: Option<int>,
    receiverId: Option<int>,
    text: Option<string>,
    fileUrl: Option<string>,
    fileName: Option<string>,
    fileSize: Option<int>,
    fileType: Option<string>,
    messageType: Option<string>)

  /** `x || null` on an optional number: 0 is falsy. */
  function OrNullId(x: Option<int>): (r: Option<int>)
    ensures r.Some? <==> PresentId(x)
    ensures r.Some? ==> r == x
  {
    if PresentId(x) then x else None
  }

  /** The row the `INSERT INTO Messages` writes: the next identity value, text `''` and type
      `'text'` when missing, null for missing file fields, unread, not deleted, and the
      `room_id` column default 1. */
  function StoredRow(ms: seq<Message>, c: int, sender: int, d: SendData, now: int): (r: Message)
    ensures r.messageId == NextMessageId(ms) && forall i :: 0 <= i < |ms| ==> ms[i].messageId != r.messageId
    ensures r.conversationId == Some(c) && r.senderId == sender && r.receiverId == d.receiverId
    ensures r.text == (if Present(d.text) then d.text.value else "")
    ensures r.messageType == (if Present(d.messageType) then d.messageType.value else "text")
    ensures r.fileUrl.Some? <==> Present(d.fileUrl)
    ensures r.fileName.Some? <==> Present(d.fileName)
    ensures r.fileSize.Some? <==> PresentId(d.fileSize)
    ensures r.fileType.Some? <==> Present(d.fileType)
    ensures !r.isRead && r.readAt.None? && !r.isDeleted && r.createdAt == now
  {
    Message(NextMessageId(ms), Some(c), sender, d.receiverId, OrElse(d.text, ""), OrElse(d.messageType, "text"),
            OrNull(d.fileUrl), OrNull(d.fileName), OrNullId(d.fileSize), OrNull(d.fileType),
            false, None, false, Some(1), now)
  }

  /** Appending a row with the next identity value keeps message ids a primary key. */
  lemma AppendFreshKeepsKeys(ms: seq<Message>, m: Message)
    requires UniqueKeys(ms, MessageIdOf)
    requires m.messageId == NextMessageId(ms)
    ensures UniqueKeys(ms + [m], MessageIdOf)
  {
    var r := ms + [m];
    forall i, j | 0 <= i < j < |r| ensures MessageIdOf(r[i]) != MessageIdOf(r[j]) {
      if j == |ms| {
        assert r[i] == ms[i];
      } else {
        assert r[i] == ms[i] && r[j] == ms[j];
      }
    }
  }

  /** `UPDATE Conversations SET updated_at = GETDATE() WHERE conversation_id = c`. */
  function Touch(cs: seq<Conversation>, c: int, now: int): (r: seq<Conversation>)
    ensures |r| == |cs|
    ensures forall i :: 0 <= i < |cs| ==> r[i].conversationId == cs[i].conversationId
    ensures forall i :: 0 <= i < |cs| && cs[i].conversationId == c ==> r[i] == cs[i].(updatedAt := now)
    ensures forall i :: 0 <= i < |cs| && cs[i].conversationId != c ==> r[i] == cs[i]
  {
    UpdateConversation(cs, c, (x: Conversation) => x.(updatedAt := now))
  }

  lemma TouchKeepsIn(ps: seq<Participant>, cs: seq<Conversation>, c: int, now: int)
    requires InConversations(ps, cs)
    ensures InConversations(ps, Touch(cs, c, now))
  {
    var r := Touch(cs, c, now);
    forall i | 0 <= i < |ps| ensures NamesConversation(r, ps[i].conversationId) {
      var j := ConversationRowOf(ps, cs, i);
      assert r[j].conversationId == ps[i].conversationId;
    }
  }

  /** The emitted message object: the stored row's columns, `is_read: false`, and the sender's
      names. */
  function Outgoing(m: Message, sender: User): (r: OutMessage)
    ensures !r.isRead
    ensures r.messageId == m.messageId && r.conversationId == m.conversationId && r.senderId == m.senderId
    ensures r.receiverId == m.receiverId && r.text == m.text && r.createdAt == m.createdAt
    ensures r.senderUsername == sender.username && r.senderDisplayName == sender.displayName
    ensures r.senderFullName == sender.fullName && r.senderAvatarUrl == sender.avatarUrl
  {
    OutMessage(m.messageId, m.conversationId, m.senderId, m.receiverId, m.text, m.messageType,
               m.fileUrl, m.fileName, m.fileSize, m.fileType, false, m.createdAt,
               sender.username, sender.displayName, sender.fullName, sender.avatarUrl)
  }

  /** The emitted object carries exactly the stored row, read back. */
  lemma OutgoingIsStoredRow(ms: seq<Message>, c: int, d: SendData, now: int, sender: User)
    ensures var m := StoredRow(ms, c, sender.userId, d, now);
      var o := Outgoing(m, sender);
      Message(o.messageId, o.conversationId, o.senderId, o.receiverId, o.text, o.messageType,
              o.fileUrl, o.fileName, o.fileSize, o.fileType, o.isRead, None, false, Some(1), o.createdAt) == m
      && o.senderUsername == sender.username && !o.isRead
  {
  }

  /** `userSockets.get(receiverId)`, when truthy. */
  function ReceiverSocket(sockets: map<int, string>, receiverId: Option<int>): (r: Option<string>)
    ensures r.Some? <==> receiverId.Some? && receiverId.value in sockets && sockets[receiverId.value] != ""
    ensures r.Some? ==> r.value == sockets[receiverId.value]
  {
    if receiverId.Some? && receiverId.value in sockets && sockets[receiverId.value] != "" then
      Some(sockets[receiverId.value])
    else None
  }

  /** `sender.display_name || sender.username`. */
  function SenderName(u: User): (r: string)
    ensures u.displayName != "" ==> r == u.displayName
    ensures u.displayName == "" ==> r == u.username
  {
    if u.displayName != "" then u.displayName else u.username
  }

  /** The emits after a successful insert: the message to the sender's socket, then, when the
      receiver has a socket, the message and a notification to it. */
  function SendDeliveries(own: string, receiver: Option<string>, o: OutMessage, note: Event): (r: seq<Delivery>)
    ensures |r| == if receiver.Some? then 3 else 1
    ensures r[0] == Delivery(ToSocket(own), ReceivePrivateMessage(o))
    ensures forall i :: 1 <= i < |r| ==> r[i].target == ToSocket(receiver.value)
    ensures |r| == 3 ==> r[1].event == ReceivePrivateMessage(o) && r[2].event == note
  {
    [Delivery(ToSocket(own), ReceivePrivateMessage(o))]
    + (if receiver.Some? then [Delivery(ToSocket(receiver.value), ReceivePrivateMessage(o)),
                               Delivery(ToSocket(receiver.value), note)] else [])
  }

  /** A message is never delivered to a socket other than the sender's and the receiver's. */
  lemma SendReachesOnlyPair(own: string, receiver: Option<string>, o: OutMessage, note: Event, k: nat)
    requires k < |SendDeliveries(own, receiver, o, note)|
    ensures var t := SendDeliveries(own, receiver, o, note)[k].target;
      t == ToSocket(own) || (receiver.Some? && t == ToSocket(receiver.value))
  {
  }

  /** The server: online users' sockets and everything emitted so far. */
  class Server {
    var userSockets: map<int, string>
    var outbox: seq<Delivery>

    constructor ()
      ensures userSockets == map[] && outbox == []
    {
      userSockets := map[];
      outbox := [];
    }

    /** `join`: map the user to this socket (replacing an earlier socket of the same user),
        set the socket's fields, mark the user online and open a session row. The broadcasts
        and the legacy room history that follow are not part of this model. */
    method Join(s: Socket, db: Db, userId: int, username: Option<string>, now: int)
      modifies this`userSockets, s`userId, s`username, db`users, db`sessions
      ensures userSockets == old(userSockets)[userId := s.id]
      ensures s.userId == Some(userId) && s.username == username
      ensures db.users == UpdateUser(old(db.users), userId, (u: User) => u.(isOnline := true, lastSeen := Some(now)))
      ensures db.sessions == old(db.sessions) + [Session(userId, s.id, now, None, true)]
    {
      userSockets := userSockets[userId := s.id];
      s.userId := Some(userId);
      s.username := username;
      db.users := UpdateUser(db.users, userId, (u: User) => u.(isOnline := true, lastSeen := Some(now)));
      db.sessions := db.sessions + [Session(userId, s.id, now, None, true)];
    }

    /** `send-private-message`. Without a joined user, or when the sender has no active row
        in the conversation, only an error goes back and nothing is stored. Otherwise the row
        is inserted and the conversation's `updated_at` bumped before any emit; a missing
        sender row then fails (after the insert) with an error, and otherwise the message
        goes to the sender and, when online, to the receiver with a notification. */
    method SendPrivateMessage(s: Socket, db: Db, d: SendData, now: int)
      requires db.Valid()
      modifies this`outbox, db`messages, db`conversations
      ensures db.Valid()
      ensures !PresentId(s.userId) ==>
        outbox == old(outbox) + [Delivery(ToSocket(s.id), Error(NotLoggedIn))] && unchanged(db)
      ensures PresentId(s.userId) && !(d.conversationId.Some? && IsActiveMember(db.participants, d.conversationId.value, s.userId.value)) ==>
        outbox == old(outbox) + [Delivery(ToSocket(s.id), Error(NoPermission))] && unchanged(db)
      ensures PresentId(s.userId) && d.conversationId.Some? && IsActiveMember(db.participants, d.conversationId.value, s.userId.value) ==>
        var row := StoredRow(old(db.messages), d.conversationId.value, s.userId.value, d, now);
        db.messages == old(db.messages) + [row]
        && db.conversations == Touch(old(db.conversations), d.conversationId.value, now)
        && (FindUser(db.users, s.userId.value).None? ==>
              outbox == old(outbox) + [Delivery(ToSocket(s.id), Error(SendFailed))])
        && (FindUser(db.users, s.userId.value).Some? ==>
              var sender := FindUser(db.users, s.userId.value).value;
              outbox == old(outbox) + SendDeliveries(s.id, ReceiverSocket(userSockets, d.receiverId), Outgoing(row, sender),
                NewMessageNotification(d.conversationId, s.userId.value, SenderName(sender), d.text)))
    {
      if !PresentId(s.userId) {
        outbox := outbox + [Delivery(ToSocket(s.id), Error(NotLoggedIn))];
        return;
      }
      var sender := s.userId.value;
      if !(d.conversationId.Some? && IsActiveMember(db.participants, d.conversationId.value, sender)) {
        outbox := outbox + [Delivery(ToSocket(s.id), Error(NoPermission))];
        return;
      }
      var c := d.conversationId.value;
      var row := StoredRow(db.messages, c, sender, d, now);
      AppendFreshKeepsKeys(db.messages, row);
      TouchKeepsIn(db.participants, db.conversations, c, now);
      db.messages := db.messages + [row];
      db.conversations := Touch(db.conversations, c, now);
      var found := FindUser(db.users, sender);
      if found.None? {
        outbox := outbox + [Delivery(ToSocket(s.id), Error(SendFailed))];
        return;
      }
      var note := NewMessageNotification(d.conversationId, sender, SenderName(found.value), d.text);
      outbox := outbox + SendDeliveries(s.id, ReceiverSocket(userSockets, d.receiverId), Outgoing(row, found.value), note);
    }

    /** `typing`: relayed to every other socket only when conversation, user and name are all
        present. */
    method Typing(s: Socket, conversationId: Option<int>, userId: Option<int>, username: Option<string>)
      modifies this`outbox
      ensures outbox == old(outbox) + TypingRelay(s.id, conversationId, userId, username)
    {
      outbox := outbox + TypingRelay(s.id, conversationId, userId, username);
    }

    /** `stop-typing`: relayed to every other socket only when the conversation is present. */
    method StopTyping(s: Socket, conversationId: Option<int>)
      modifies this`outbox
      ensures outbox == old(outbox) + StopTypingRelay(s.id, conversationId)
    {
      outbox := outbox + StopTypingRelay(s.id, conversationId);
    }

    /** `disconnect`: for a socket that joined, mark its user offline, close the active
        sessions of this socket id and delete the user's map entry. The source deletes the
        entry whatever socket it names (`Unregister`); this model deletes it only while it
        names this socket (`UnregisterOwn`). A socket that never joined changes nothing. */
    method Disconnect(s: Socket, db: Db, now: int)
      modifies this`userSockets, db`users, db`sessions
      ensures !PresentId(s.userId) ==> userSockets == old(userSockets) && unchanged(db)
      ensures PresentId(s.userId) ==>
        userSockets == UnregisterOwn(old(userSockets), s.userId.value, s.id)
        && db.users == UpdateUser(old(db.users), s.userId.value, (u: User) => u.(isOnline := false, lastSeen := Some(now)))
        && db.sessions == CloseSessions(old(db.sessions), s.id, now)
    {
      if PresentId(s.userId) {
        var u := s.userId.value;
        db.users := UpdateUser(db.users, u, (x: User) => x.(isOnline := false, lastSeen := Some(now)));
        db.sessions := CloseSessions(db.sessions, s.id, now);
        userSockets := UnregisterOwn(userSockets, u, s.id);
      }
    }
  }

  /** The relay of `typing`. */
  function TypingRelay(own: string, conversationId: Option<int>, userId: Option<int>, username: Option<string>): (r: seq<Delivery>)
    ensures |r| <= 1
    ensures |r| == 1 <==> PresentId(conversationId) && PresentId(userId) && Present(username)
    ensures |r| == 1 ==> r[0] == Delivery(AllBut(own), UserTyping(conversationId.value, userId.value, username.value))
  {
    if PresentId(conversationId) && PresentId(userId) && Present(username) then
      [Delivery(AllBut(own), UserTyping(conversationId.value, userId.value, username.value))]
    else []
  }

  /** The relay of `stop-typing`. */
  function StopTypingRelay(own: string, conversationId: Option<int>): (r: seq<Delivery>)
    ensures |r| <= 1
    ensures |r| == 1 <==> PresentId(conversationId)
    ensures |r| == 1 ==> r[0] == Delivery(AllBut(own), UserStopTyping(conversationId.value))
  {
    if PresentId(conversationId) then [Delivery(AllBut(own), UserStopTyping(conversationId.value))] else []
  }

  /** The typing relay never reaches the typing socket itself. */
  lemma TypingSkipsSender(own: string, conversationId: Option<int>, userId: Option<int>, username: Option<string>, k: nat)
    requires k < |TypingRelay(own, conversationId, userId, username)|
    ensures TypingRelay(own, conversationId, userId, username)[k].target == AllBut(own)
  {
  }

  /** `UPDATE UserSessions SET logout_time = GETDATE(), is_active = 0 WHERE socket_id = sid AND is_active = 1`. */
  function CloseSessions(ss: seq<Session>, sid: string, now: int): (r: seq<Session>)
    ensures |r| == |ss|
    ensures forall i :: 0 <= i < |ss| && ss[i].socketId == sid && ss[i].isActive ==>
      r[i] == ss[i].(logoutTime := Some(now), isActive := false)
    ensures forall i :: 0 <= i < |ss| && !(ss[i].socketId == sid && ss[i].isActive) ==> r[i] == ss[i]
  {
    UpdateWhere(ss, (x: Session) => x.socketId == sid && x.isActive,
                (x: Session) => x.(logoutTime := Some(now), isActive := false))
  }

  /** After disconnect no session of that socket is active; other sockets' sessions stay open. */
  lemma CloseSessionsEffect(ss: seq<Session>, sid: string, now: int)
    ensures forall i :: 0 <= i < |ss| ==>
      (CloseSessions(ss, sid, now)[i].isActive <==> ss[i].isActive && ss[i].socketId != sid)
  {
  }

  /** `userSockets.delete(userId)`, as written. */
  function Unregister(sockets: map<int, string>, u: int): (r: map<int, string>)
    ensures u !in r
    ensures forall v :: v in r <==> v in sockets && v != u
    ensures forall v :: v in r ==> r[v] == sockets[v]
  {
    sockets - {u}
  }

  /** Joining and then disconnecting the same socket leaves no entry for the user, and every
      other user's entry as it was; there the guarded deletion agrees with the source's. */
  lemma JoinThenDisconnect(sockets: map<int, string>, u: int, sid: string)
    ensures UnregisterOwn(sockets[u := sid], u, sid) == sockets - {u}
    ensures UnregisterOwn(sockets[u := sid], u, sid) == Unregister(sockets[u := sid], u)
    ensures forall v :: v != u && v in sockets ==>
      v in UnregisterOwn(sockets[u := sid], u, sid) && UnregisterOwn(sockets[u := sid], u, sid)[v] == sockets[v]
  {
  }

  /** The entry is deleted even when it names a newer socket of the same user: after the user
      joins on socket "b", the disconnect of the older socket "a" leaves "b" unreachable. */
  lemma UnregisterDropsNewerSocket()
    ensures var sockets := map[1 := "a"][1 := "b"];
      sockets[1] == "b" && 1 !in Unregister(sockets, 1)
  {
  }

  /** The intended deletion: only when the entry still names the disconnecting socket. */
  function UnregisterOwn(sockets: map<int, string>, u: int, sid: string): (r: map<int, string>)
    ensures u in sockets && sockets[u] == sid ==> u !in r
    ensures forall v :: v in sockets && sockets[v] != sid ==> v in r && r[v] == sockets[v]
    ensures forall v :: v in r ==> v in sockets && r[v] == sockets[v]
  {
    if u in sockets && sockets[u] == sid then sockets - {u} else sockets
  }

  /** With the guarded deletion a newer socket stays registered. */
  lemma UnregisterOwnKeepsNewerSocket(sockets: map<int, string>, u: int, older: string, newer: string)
    requires older != newer
    ensures var m := sockets[u := newer];
      u in UnregisterOwn(m, u, older) && UnregisterOwn(m, u, older)[u] == newer
  {
  }
}
