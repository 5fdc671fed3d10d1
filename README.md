# Group-chat relay bot: conversation memory and reply dispatch

This project models the logic of a Telegram bot (`main.py`) that relays
group-chat messages to a language-model completion service and posts the
answer back to the chat. Three parts are modelled:

- the `group_only` guard, which lets only `group` and `supergroup` chats through;
- the process-wide conversation memory `message_memory`, an insertion-ordered
  dictionary from message id to `{user_id, text}`;
- the two handlers:
  - `handle_message` records the message, builds a context from the last ten
    stored texts joined by newlines, and sends one reply to the chat;
  - `handle_reply` looks up the replied-to message in memory, builds the prompt
    `"Message: <parent>\nReply: <user>"`, and sends one reply.

Both handlers follow a fail-open policy. If the completion succeeds, the bot
sends its first candidate verbatim. If the call raises, or its result cannot be
read, the bot sends a fixed fallback text.

Files:

- `wrappers.dfy`: a small `Option` datatype.
- `text_lines.dfy` (module `TextLines`):
  - the `[-10:]` slice (`Last`);
  - `"\n".join` (`Join`) and its inverse `str.split("\n")` (`Split`);
  - the context string built from them.
- `gateway.dfy` (module `CompletionGateway`): the completion outcome as an input
  value (`Raised`, or `Returned` with the candidates' contents), and the reply
  text chosen from it.
- `memory.dfy` (module `ConversationMemory`): the memory as a class `MessageMemory`.
  - It holds the keys in insertion order (`order`) and a map from id to `Entry`
    (`entries`).
  - `Record` is the dictionary assignment.
  - A re-assigned key keeps its original place, as in Python.
- `handlers.dfy` (module `Handlers`): the guard, the two handlers as methods, and
  lemmas that connect the memory to the prompts.
  - Each handler returns the prompt it would pass to the completion service
    (or none) and the list of `(chatId, text)` messages it sends.
  - So "zero or exactly one send" and "memory unchanged" are part of their
    contracts. `HandleReply` has no `modifies` clause, so it cannot change the
    memory.

The code has no capacity-bounded window, no minimum fill before answering, and
no set of already-answered ids. Every eligible fresh message gets an answer, and
the memory grows without bound.

The comment at main.py:89 says the reply handler answers replies to the bot's
own messages. Only incoming messages are ever recorded (main.py:44); the bot's
own sends never are. So a reply to the bot is answered only when the bot
message's id happens to equal the id of a stored user message, from any chat.
The model keeps this behaviour: `HandleMessage` records only the incoming
message's id.

## Model

| member | source | states |
|---|---|---|
| `Handlers.HandleMessage` | main.py:24-77 | Outside a group or supergroup chat: no prompt, no send, memory unchanged. Otherwise: the message is stored under its id and every other key keeps its entry. A new id goes last and an existing id keeps its place. The prompt is the context over the memory after recording. Exactly one message is sent, to the incoming chat id, and its text is the completion's reply or the fallback. |
| `Handlers.HandleReply` | main.py:79-115 | A prompt and a send happen exactly when all three hold: the chat is a group or supergroup, the message is a reply, and the parent id is a key of memory. The prompt is `"Message: " + parent text + "\nReply: " + reply text`. Exactly one message is sent, to the replying chat. Otherwise nothing is sent. Memory is only read. |
| `Handlers.ReplyPromptRoundTrip` | main.py:103 | The two-turn prompt can be parsed back into the parent text and the reply text whenever the parent is a single line. So the template keeps both texts. |
| `Handlers.FreshIdEndsContext` | main.py:44-54 | After a new id is recorded, the context has min(10, size of memory) lines, and its last line is the new message's text. This holds whenever the last ten texts after recording are single lines; older texts may contain newlines. |
| `Handlers.StaleRerecordKeepsContext` | main.py:44-54 | Recording an id that is already stored more than ten places from the end leaves the context string unchanged. The key keeps its old place, so the new text is not in the window. |
| `Handlers.IsGroupChat` | main.py:27 | True exactly for the chat types `group` and `supergroup`. The ensures of `HandleMessage` and `HandleReply` prove that when it is false there is no prompt, no send, and memory is unchanged. |
| `Handlers.ReplyPrompt` | main.py:103 | `"Message: " + parent + "\nReply: " + user`. `ReplyPromptRoundTrip` proves that the parent and reply texts can be recovered from it when the parent is a single line, so the prompt determines both texts. |
| `ConversationMemory.RecordOrder` | main.py:44 | The dict's key order after the assignment: unchanged when the id is already a key, the id appended otherwise. `Record` keeps its result duplicate-free and equal to the key set, and `RerecordKeepsPlaces` and `RecordNewAppends` prove what it does to the text list. |
| `TextLines.Join` | main.py:54 | `"\n".join`. `SplitJoin` proves that splitting its result at newlines gives back a non-empty list of single-line texts. |
| `TextLines.ContextString` | main.py:53-54 | `Join(Last(texts, 10))`. `ContextLines` proves that its lines are the last min(10, n) texts in insertion order. |
| `Handlers.CrossChatReply` | main.py:44-115 | An illustration, with no contract of its own, of what the ensures of `HandleMessage` and `HandleReply` already state for every input: memory is keyed by message id alone. A message recorded in one group chat is found as the parent of a reply in another group chat that uses the same id, and the answer goes to the replying chat. The same reply from a private chat gets nothing. |
| `CompletionGateway.ReplyText` | main.py:57-71 | The reply is the first candidate's content verbatim when the call returned at least one candidate. It is the fixed fallback when the call raised or returned no candidate. It is always the fallback or one of the candidates; no error escapes. |
| `ConversationMemory.MessageMemory.constructor` | main.py:33 | The memory starts empty. |
| `ConversationMemory.MessageMemory.Record` | main.py:44-47 | The map becomes the old map with `id` set to the entry. The key order is unchanged for an existing id and has `id` appended for a new one. The key set only grows, by exactly one for a new id. The keys stay distinct, and their number equals the number of entries. |
| `ConversationMemory.TextsOf` | main.py:53 | The texts in memory iteration order: one per key, and the i-th is the text stored under the i-th key. |
| `ConversationMemory.DistinctKeysSize` | main.py:33 | A duplicate-free key order that lists exactly the keys of the map has as many elements as the map. |
| `ConversationMemory.RerecordKeepsPlaces` | main.py:44-47 | Re-assigning an existing key leaves the key order as it was. Only that key's text changes in the text list, and every other position keeps its text. |
| `ConversationMemory.RecordNewAppends` | main.py:44-47 | Recording a new id appends its text after all earlier texts. |
| `TextLines.Last` | main.py:53 | `[-n:]` has min(n, length) elements and is a suffix of its input. |
| `TextLines.Split` | main.py:54 | Splitting at newlines gives at least one piece, and no piece contains a newline. |
| `TextLines.SplitJoin` | main.py:54 | Joining one or more single-line texts with newlines and splitting the result gives the texts back. |
| `TextLines.ContextLines` | main.py:53-54 | The context's lines are the last min(10, n) texts in insertion order. So there are at most 10 lines, and every text appears when there are at most 10. This holds whenever the texts inside that window of ten are single lines; texts outside the window may contain newlines. |

## Left out

- Reading the environment, the startup aborts on a missing `openai` module or
  missing credentials, and the client configuration (main.py:7-21): process
  setup, not logic.
- The completion request itself (model name, system persona strings, network
  call): the outcome of the call is an input `Completion`. A response whose
  `choices[0]` lacks the `message`/`content` keys is folded into `Raised`, since
  the source treats it like any other exception.
- The dispatcher, its filters and polling (main.py:118-131). Which handler
  python-telegram-bot runs for a reply depends on its handler precedence, which
  is not part of this model. The two handlers are separate entry points.
- The `print` debugging output.
- TextLines.ContextLines: the line count is stated only when the texts inside
  the window of the last ten are single lines. A text in the window that
  contains a newline adds lines to the context, so the context can then have
  more than 10 lines. Texts outside the window do not matter.
- Handlers.FreshIdEndsContext: stated only when the last ten texts after
  recording are single lines, for the same reason.
- Handlers.HandleMessage: a `Send` is a recorded intent to call
  `send_message`. A failing `send_message` is not modelled. In the source that
  call is outside the `try` (main.py:77), so its error escapes the handler. The
  fail-open policy covers only the completion call.
- Handlers.HandleReply: the same holds for its `send_message` (main.py:115).
  Candidate contents are strings in the model. A null `content` is not
  modelled: it would not raise inside the `try` (main.py:106), so it would
  reach the send unchanged.
- CompletionGateway.ReplyText: candidate contents are always strings. A null
  `content` (main.py:68, 106) would pass the `try` and give no text, and the
  model cannot represent that.
