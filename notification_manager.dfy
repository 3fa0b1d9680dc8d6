/** The pop-up notification list of frontend/src/components/NotificationManager.js: which
    incoming messages produce a notification, its preview text and sender name, and the list
    of at most five that is shown. The notification id (`Date.now() + Math.random()`), the
    clock and whether the browser is showing the message's conversation are parameters;
    sounds and browser notifications are not modelled. */
module NotificationManager {
  import opened Common
  import opened Query

  /** A `receive-private-message` payload, as far as the notification reads it. */
  datatype Incoming = Incoming(
    conversationId: Option<int>,
    senderId: int,
    senderFullName: Option<string>,
    senderDisplayName: Option<string>,
    senderUsername: Option<string>,
    senderAvatarUrl: Option<string>,
    messageType: string,
    fileName: Option<string>,
    text: Option<string>)

  /** A `new-message-notification` payload. */
  datatype NotificationData = NotificationData(
    receiverId: Option<int>,
    conversationId: Option<int>,
    senderId: int,
    senderName: string,
    senderAvatar: Option<string>,
    messagePreview: string)

  datatype Notification = Notification(
    id: int,
    conversationId: Option<int>,
    senderId: int,
    senderName: string,
    senderAvatar: Option<string>,
    messagePreview: string,
    timestamp: int)

  const MaxShown: nat := 5
  const ImagePreview: string := "📷 Đã gửi một ảnh"
  const FilePrefix: string := "📎 Đã gửi file: "
  const NewMessageText: string := "Tin nhắn mới"

  /** `getMessagePreview`: a fixed text for an image, the file name for a file (a missing name
      renders as `null`), otherwise the text or a placeholder. */
  function Preview(m: Incoming): (r: string)
    ensures m.messageType == "image" ==> r == ImagePreview
    ensures m.messageType == "file" ==>
      StartsWith(r, FilePrefix) && r[|FilePrefix|..] == (if m.fileName.Some? then m.fileName.value else "null")
    ensures m.messageType != "image" && m.messageType != "file" ==>
      r == (if Present(m.text) then m.text.value else NewMessageText)
  {
    if m.messageType == "image" then ImagePreview
    else if m.messageType == "file" then FilePrefix + (if m.fileName.Some? then m.fileName.value else "null")
    else OrElse(m.text, NewMessageText)
  }

  /** A text message always has a non-empty preview. */
  lemma PreviewNonEmpty(m: Incoming)
    ensures Preview(m) != ""
  {
    if m.messageType != "image" && m.messageType != "file" && !Present(m.text) {
      assert Preview(m) == NewMessageText;
    }
  }

  /** The first non-empty of full name, display name and username, else `Someone`. */
  function SenderName(m: Incoming): (r: string)
    ensures Present(m.senderFullName) ==> r == m.senderFullName.value
    ensures !Present(m.senderFullName) && Present(m.senderDisplayName) ==> r == m.senderDisplayName.value
    ensures !Present(m.senderFullName) && !Present(m.senderDisplayName) && Present(m.senderUsername) ==>
      r == m.senderUsername.value
    ensures !Present(m.senderFullName) && !Present(m.senderDisplayName) && !Present(m.senderUsername) ==>
      r == "Someone"
    ensures r != ""
  {
    if Present(m.senderFullName) then m.senderFullName.value
    else if Present(m.senderDisplayName) then m.senderDisplayName.value
    else OrElse(m.senderUsername, "Someone")
  }

  /** `[notification, ...prev].slice(0, 5)`. */
  function Added(prev: seq<Notification>, n: Notification): (r: seq<Notification>)
    ensures |r| == if |prev| < MaxShown then |prev| + 1 else MaxShown
    ensures r[0] == n
    ensures r[1..] == prev[..|r| - 1]
  {
    Take([n] + prev, MaxShown)
  }

  /** `prev.filter(n => n.id !== id)`. */
  function Removed(prev: seq<Notification>, id: int): (r: seq<Notification>)
    ensures forall i :: 0 <= i < |r| ==> r[i] in prev && r[i].id != id
    ensures forall i :: 0 <= i < |prev| && prev[i].id != id ==> prev[i] in r
    ensures forall n :: multiset(r)[n] == if n.id == id then 0 else multiset(prev)[n]
    ensures IsSubseq(r, prev)
  {
    FilterMultisets(prev, (n: Notification) => n.id != id);
    FilterSubseq(prev, (n: Notification) => n.id != id);
    Filter(prev, (n: Notification) => n.id != id)
  }

  /** Closing the notification just shown, below the cap and with a fresh id, gives back the
      list shown before. */
  lemma RemoveUndoesAdd(prev: seq<Notification>, n: Notification)
    requires |prev| < MaxShown
    requires forall i :: 0 <= i < |prev| ==> prev[i].id != n.id
    ensures Removed(Added(prev, n), n.id) == prev
  {
    var p := (x: Notification) => x.id != n.id;
    assert Added(prev, n) == [n] + prev;
    FilterAppend([n], prev, p);
    FilterIdentity(prev, p);
    assert Filter([n], p) == [];
  }

  /** Removing an id no notification has changes nothing. */
  lemma RemoveAbsent(prev: seq<Notification>, id: int)
    requires forall i :: 0 <= i < |prev| ==> prev[i].id != id
    ensures Removed(prev, id) == prev
  {
    FilterIdentity(prev, (n: Notification) => n.id != id);
  }

  /** The component's state for the signed-in user. */
  class Manager {
    const currentUserId: int
    var notifications: seq<Notification>

    constructor(currentUserId: int)
      ensures this.currentUserId == currentUserId && notifications == []
    {
      this.currentUserId := currentUserId;
      notifications := [];
    }

    /** A bound every update keeps. */
    predicate Valid()
      reads this
    {
      |notifications| <= MaxShown
    }

    /** `addNotification`. */
    method Add(n: Notification)
      requires Valid()
      modifies this`notifications
      ensures Valid()
      ensures notifications == Added(old(notifications), n)
    {
      notifications := Added(notifications, n);
    }

    /** `removeNotification`. */
    method Remove(id: int)
      requires Valid()
      modifies this`notifications
      ensures Valid()
      ensures notifications == Removed(old(notifications), id)
    {
      notifications := Removed(notifications, id);
    }

    /** `handleNewMessage`: one's own messages and messages of the conversation on screen are
        ignored; any other produces a notification. `showingConversation` is the source's
        test that the current path contains `/conversation/` followed by the message's
        conversation id, a substring test: an open `/conversation/12` also hides the
        notifications of conversation 1. */
    method HandleNewMessage(m: Incoming, showingConversation: bool, id: int, now: int)
      requires Valid()
      modifies this`notifications
      ensures Valid()
      ensures m.senderId == currentUserId || showingConversation ==> notifications == old(notifications)
      ensures m.senderId != currentUserId && !showingConversation ==>
        notifications == Added(old(notifications),
          Notification(id, m.conversationId, m.senderId, SenderName(m), m.senderAvatarUrl, Preview(m), now))
    {
      if m.senderId == currentUserId {
        return;
      }
      if showingConversation {
        return;
      }
      Add(Notification(id, m.conversationId, m.senderId, SenderName(m), m.senderAvatarUrl, Preview(m), now));
    }

    /** `handleNewNotification`: only a payload addressed to this user is shown; one without a
        `receiverId` is ignored. */
    method HandleNewNotification(d: NotificationData, id: int, now: int)
      requires Valid()
      modifies this`notifications
      ensures Valid()
      ensures d.receiverId != Some(currentUserId) ==> notifications == old(notifications)
      ensures d.receiverId == Some(currentUserId) ==>
        notifications == Added(old(notifications),
          Notification(id, d.conversationId, d.senderId, d.senderName, d.senderAvatar, d.messagePreview, now))
    {
      if d.receiverId != Some(currentUserId) {
        return;
      }
      Add(Notification(id, d.conversationId, d.senderId, d.senderName, d.senderAvatar, d.messagePreview, now));
    }
  }
}
