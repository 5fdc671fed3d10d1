/**
 * The two Telegram handlers of main.py, both wrapped by the
 * `group_only` guard: `handle_message` records every eligible message
 * and answers it with a completion over the last ten texts, and
 * `handle_reply` answers a reply to a remembered message with a
 * completion over the two-turn prompt. The completion service and the
 * bot's `send_message` are not modelled: each handler takes the
 * completion's outcome as an input and returns the prompt it would
 * have sent (if any) and the list of messages it sends.
 */
module Handlers {
  import opened Wrappers
  import opened TextLines
  import opened CompletionGateway
  import opened ConversationMemory

  /** The fields of an incoming update that the handlers read. */
  datatype Message = Message(
    messageId: int,
    chatId: int,
    chatType: string,
    userId: int,
    text: string,
    replyTo: Option<int>)   // the `message_id` of `reply_to_message`, if any

  /** One `context.bot.send_message(chat_id=..., text=...)` call. */
  datatype Send = Send(chatId: int, text: string)

  /** The `group_only` guard (main.py:27): only group and supergroup chats pass. */
  predicate IsGroupChat(chatType: string)
  {
    chatType == "group" || chatType == "supergroup"
  }

  const MessageTag: string := "Message: "
  const ReplyTag: string := "Reply: "

  /** The user-role content of a reply completion (main.py:103). */
  function ReplyPrompt(parent: string, user: string): string
  {
    MessageTag + parent + [Newline] + ReplyTag + user
  }

  /** The position of the first `c` in `s`, if any. */
  function FirstIndex(s: string, c: char): (r: Option<nat>)
    ensures r.Some? ==> r.value < |s| && s[r.value] == c && c !in s[..r.value]
    ensures r.None? ==> c !in s
  {
    if s == [] then None
    else if s[0] == c then Some(0)
    else
      match FirstIndex(s[1..], c)
      case None => None
      case Some(k) => assert s[1..][..k] == s[1..k + 1]; Some(k + 1)
  }

  /** Reads a two-turn prompt back into the parent text and the reply text. */
  function ParseReplyPrompt(p: string): Option<(string, string)>
  {
    if !(MessageTag <= p) then None
    else
      var body := p[|MessageTag|..];
      match FirstIndex(body, Newline)
      case None => None
      case Some(k) =>
        var tail := body[k + 1..];
        if ReplyTag <= tail then Some((body[..k], tail[|ReplyTag|..])) else None
  }

  lemma FirstIndexAfter(a: string, rest: string, c: char)
    requires c !in a
    ensures FirstIndex(a + [c] + rest, c) == Some(|a|)
  {
    var s := a + [c] + rest;
    assert s[|a|] == c;
  }

  /**
   * The two-turn prompt determines both texts when the parent text is
   * a single line: the template loses nothing.
   */
  lemma ReplyPromptRoundTrip(parent: string, user: string)
    requires Newline !in parent
    ensures ParseReplyPrompt(ReplyPrompt(parent, user)) == Some((parent, user))
  {
    var p := ReplyPrompt(parent, user);
    assert p == MessageTag + (parent + [Newline] + (ReplyTag + user));
    var body := p[|MessageTag|..];
    assert body == parent + [Newline] + (ReplyTag + user);
    FirstIndexAfter(parent, ReplyTag + user, Newline);
    assert body[..|parent|] == parent;
    assert body[|parent| + 1..] == ReplyTag + user;
  }

  /**
   * `handle_message` (main.py:36-77) behind `group_only`. Outside a
   * group chat nothing happens. Otherwise the message is recorded
   * under its id, the prompt is the context over the memory as it
   * stands after recording, and exactly one message goes back to the
   * originating chat: the completion verbatim, or the fallback.
   */
  method HandleMessage(memory: MessageMemory, message: Message, completion: Completion)
      returns (prompt: Option<string>, sends: seq<Send>)
    requires memory.Valid()
    modifies memory
    ensures memory.Valid()
    ensures !IsGroupChat(message.chatType) ==>
      && prompt == None && sends == []
      && memory.order == old(memory.order) && memory.entries == old(memory.entries)
    ensures IsGroupChat(message.chatType) ==>
      && memory.entries == old(memory.entries)[message.messageId := Entry(message.userId, message.text)]
      && memory.order == RecordOrder(old(memory.order), old(memory.entries), message.messageId)
      && prompt == Some(ContextString(TextsOf(memory.order, memory.entries)))
      && sends == [Send(message.chatId, ReplyText(completion))]
  {
    if !IsGroupChat(message.chatType) {
      return None, [];
    }
    memory.Record(message.messageId, Entry(message.userId, message.text));
    var context := ContextString(TextsOf(memory.order, memory.entries));
    prompt := Some(context);
    var reply := ReplyText(completion);
    sends := [Send(message.chatId, reply)];
  }

  /**
   * `handle_reply` (main.py:79-115) behind `group_only`. It only reads
   * the memory. It calls the completion service and sends exactly one
   * message exactly when the chat is a group, the message is a reply,
   * and the parent's id is remembered; the prompt pairs the remembered
   * parent text with the reply's text.
   */
  method HandleReply(memory: MessageMemory, message: Message, completion: Completion)
      returns (prompt: Option<string>, sends: seq<Send>)
    ensures prompt.Some? <==>
      IsGroupChat(message.chatType) && message.replyTo.Some? && message.replyTo.value in memory.entries
    ensures prompt.None? ==> sends == []
    ensures prompt.Some? ==>
      && prompt.value == ReplyPrompt(memory.entries[message.replyTo.value].text, message.text)
      && sends == [Send(message.chatId, ReplyText(completion))]
  {
    if !IsGroupChat(message.chatType) {
      return None, [];
    }
    if message.replyTo.None? {
      return None, [];
    }
    var parentId := message.replyTo.value;
    if parentId !in memory.entries {
      return None, [];
    }
    var parent := memory.entries[parentId].text;
    prompt := Some(ReplyPrompt(parent, message.text));
    var reply := ReplyText(completion);
    sends := [Send(message.chatId, reply)];
  }

  /**
   * After a fresh id is recorded, the context has min(10, |memory|)
   * lines and its last line is the new text, provided the texts in the
   * window of the last ten are single lines.
   */
  lemma FreshIdEndsContext(order: seq<int>, entries: map<int, Entry>, id: int, entry: Entry)
    requires WellFormed(order, entries) && id !in entries
    requires SingleLines(Last(TextsOf(RecordOrder(order, entries, id), entries[id := entry]), ContextSize))
    ensures var lines := Split(ContextString(TextsOf(RecordOrder(order, entries, id), entries[id := entry])));
      && |lines| == (if |order| + 1 <= ContextSize then |order| + 1 else ContextSize)
      && lines[|lines| - 1] == entry.text
  {
    RecordNewAppends(order, entries, id, entry);
    ContextLines(TextsOf(order, entries) + [entry.text]);
  }

  /**
   * Because a re-assigned key keeps its place, recording a message
   * whose id is already stored further back than the last ten entries
   * does not change the context at all: its new text is not shown.
   */
  lemma StaleRerecordKeepsContext(order: seq<int>, entries: map<int, Entry>, id: int, entry: Entry, k: int)
    requires WellFormed(order, entries)
    requires 0 <= k < |order| - ContextSize && order[k] == id
    ensures ContextString(TextsOf(RecordOrder(order, entries, id), entries[id := entry]))
         == ContextString(TextsOf(order, entries))
  {
    RerecordKeepsPlaces(order, entries, id, entry, k);
    var before := TextsOf(order, entries);
    var after := TextsOf(order, entries[id := entry]);
    assert Last(after, ContextSize) == Last(before, ContextSize);
  }

  /**
   * The memory is keyed by message id alone: a message recorded in one
   * group chat is found as the parent of a reply in another group chat
   * that carries the same id, and the answer goes to the replying chat.
   */
  method CrossChatReply(completion: Completion)
  {
    var memory := new MessageMemory();
    var first := Message(7, 100, "group", 1, "hello", None);
    var p, sent := HandleMessage(memory, first, completion);
    assert p == Some("hello") by {
      assert TextsOf(memory.order, memory.entries) == ["hello"];
    }
    assert sent == [Send(100, ReplyText(completion))];
    var reply := Message(8, 200, "supergroup", 2, "hi", Some(7));
    p, sent := HandleReply(memory, reply, completion);
    assert memory.entries[7].text == "hello";
    assert ReplyPrompt("hello", "hi") == "Message: hello\nReply: hi";
    assert p == Some("Message: hello\nReply: hi");
    assert sent == [Send(200, ReplyText(completion))];
    var direct := Message(9, 300, "private", 3, "hey", Some(7));
    p, sent := HandleReply(memory, direct, completion);
    assert p == None && sent == [];
  }
}
