/** The one-to-one chat window of frontend/src/components/PrivateChatWindow.js as a state
    machine over its `messages`, `typingUser` and `inputMessage` state. The requests it makes
    (socket emits and the mark-read API call) are appended to a request log; the payloads it
    receives are the server's own (module Realtime). */
module PrivateChatWindow {
  import opened Common
  import opened Tables
  import opened Realtime

  /** The open conversation: its id and, for a private chat, the other user. */
  datatype OpenConversation = OpenConversation(conversationId: int, otherUserId: Option<int>)

  /** What the window asks of the server. */
  datatype Request =
    | EmitSend(data: SendData)
    | EmitStopTyping(conversationId: int)
    | MarkAsRead(conversationId: int)

  /** The payload of `send-private-message` for a typed text. */
  function SendPayload(c: OpenConversation, text: string): (r: SendData)
    ensures r.conversationId == Some(c.conversationId) && r.receiverId == c.otherUserId && r.text == Some(text)
    ensures r.fileUrl.None? && r.messageType.None?
  {
    SendData(Some(c.conversationId), c.otherUserId, Some(text), None, None, None, None, None)
  }

  /** The requests a send makes: the message, then `stop-typing` when the id is truthy. */
  function SendRequests(c: OpenConversation, text: string): (r: seq<Request>)
    ensures 1 <= |r| <= 2 && r[0] == EmitSend(SendPayload(c, text))
    ensures |r| == 2 <==> c.conversationId != 0
    ensures |r| == 2 ==> r[1] == EmitStopTyping(c.conversationId)
  {
    [EmitSend(SendPayload(c, text))] + (if c.conversationId != 0 then [EmitStopTyping(c.conversationId)] else [])
  }

  /** The row the server stores for a sent text holds exactly the trimmed input, as a plain
      text message addressed to the other user. */
  lemma SentTextIsStored(ms: seq<Message>, c: OpenConversation, input: string, sender: int, now: int)
    requires Trim(input) != ""
    ensures var row := StoredRow(ms, c.conversationId, sender, SendPayload(c, Trim(input)), now);
      row.text == Trim(input) && row.messageType == "text" && row.receiverId == c.otherUserId
      && row.conversationId == Some(c.conversationId)
  {
  }

  class ChatWindow {
    const currentUserId: int
    const conversation: Option<OpenConversation>
    var messages: seq<OutMessage>
    var typingUser: Option<string>
    var inputMessage: string
    var requests: seq<Request>

    /** A fresh window, before its history is loaded. */
    constructor(currentUserId: int, conversation: Option<OpenConversation>)
      ensures this.currentUserId == currentUserId && this.conversation == conversation
      ensures messages == [] && typingUser == None && inputMessage == "" && requests == []
    {
      this.currentUserId := currentUserId;
      this.conversation := conversation;
      messages := [];
      typingUser := None;
      inputMessage := "";
      requests := [];
    }

    /** The text box's `onChange`. */
    method SetInput(text: string)
      modifies this`inputMessage
      ensures inputMessage == text
    {
      inputMessage := text;
    }

    /** `handleReceiveMessage` (listening only while a conversation is open): a message of this
        conversation is appended, and marked read when it is addressed to the current user; a
        message of another conversation changes nothing. */
    method ReceiveMessage(m: OutMessage)
      requires conversation.Some?
      modifies this`messages, this`requests
      ensures m.conversationId == Some(conversation.value.conversationId) ==>
        messages == old(messages) + [m]
        && requests == old(requests) + (if m.receiverId == Some(currentUserId) then [MarkAsRead(conversation.value.conversationId)] else [])
      ensures m.conversationId != Some(conversation.value.conversationId) ==>
        messages == old(messages) && requests == old(requests)
    {
      var c := conversation.value.conversationId;
      if m.conversationId == Some(c) {
        messages := messages + [m];
        if m.receiverId == Some(currentUserId) {
          requests := requests + [MarkAsRead(c)];
        }
      }
    }

    /** `handleUserTyping`: shows the name of another user typing in this conversation. */
    method UserTyping(conversationId: int, userId: int, username: string)
      requires conversation.Some?
      modifies this`typingUser
      ensures conversationId == conversation.value.conversationId && userId != currentUserId ==>
        typingUser == Some(username)
      ensures conversationId != conversation.value.conversationId || userId == currentUserId ==>
        typingUser == old(typingUser)
    {
      if conversationId == conversation.value.conversationId && userId != currentUserId {
        typingUser := Some(username);
      }
    }

    /** `handleStopTyping`: clears the indicator for this conversation, whoever stopped. */
    method StopTyping(conversationId: int)
      requires conversation.Some?
      modifies this`typingUser
      ensures conversationId == conversation.value.conversationId ==> typingUser == None
      ensures conversationId != conversation.value.conversationId ==> typingUser == old(typingUser)
    {
      if conversationId == conversation.value.conversationId {
        typingUser := None;
      }
    }

    /** `handleSendMessage`: nothing happens for a blank input or without a conversation;
        otherwise the trimmed text is sent to the other user and the input is cleared. */
    method Send()
      modifies this`inputMessage, this`requests
      ensures Trim(old(inputMessage)) == "" || conversation.None? ==>
        inputMessage == old(inputMessage) && requests == old(requests)
      ensures Trim(old(inputMessage)) != "" && conversation.Some? ==>
        inputMessage == "" && requests == old(requests) + SendRequests(conversation.value, Trim(old(inputMessage)))
    {
      if Trim(inputMessage) == "" || conversation.None? {
        return;
      }
      var text := Trim(inputMessage);
      requests := requests + SendRequests(conversation.value, text);
      inputMessage := "";
    }
  }

  /** Typing shown for a conversation is cleared by its stop-typing, in one window. */
  method TypingThenStop(w: ChatWindow, userId: int, username: string)
    requires w.conversation.Some? && userId != w.currentUserId
    modifies w
    ensures w.typingUser == None
  {
    var c := w.conversation.value.conversationId;
    w.UserTyping(c, userId, username);
    assert w.typingUser == Some(username);
    w.StopTyping(c);
  }
}
