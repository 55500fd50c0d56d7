# ludoviko-bot core: reply-chain memory and addressing, in Dafny

ludoviko-bot connects Telegram bots to a text-generation backend. This project
models two sequential pieces of that bot and proves properties of them.

- **Reply-chain memory** (`memory/memory.go`). Each message is rendered as one
  line, `"<LastName><FirstName>: <text>"`, or `"anonym: <text>"` when the sender
  has no name. Each chat has a map from a child line to its parent line.
  `Memorize` records the edge for a reply. `Remember` records the edge, then
  walks the map backwards from the parent for at most `lim - 2` steps. It
  reverses the collected lines in place so they read oldest first, and joins
  them with newlines.
- **Addressing classifier** (`messaging/messaging.go`). `GetOrder` finds the
  first non-empty command token that occurs in the text. `IsToReply` decides
  whether a message is meant for this bot. In a group or supergroup, a reply
  to the bot, a mention of its user name or a command token is enough. In a
  private chat, the sender must be an administrator.

Files:

- `wrappers.dfy`: `Option`, which stands in for a Go pointer that may be nil.
- `telegram.dfy`: the message, user and chat fields the core reads. User ids
  are int64 values, and the chat type is one of four kinds.
- `strings.dfy`: Go's `strings.Contains` as a substring predicate, with both
  directions of its offset characterisation. Also Go's `strings.Join`.
- `memory.dfy`: the line renderer and its inverse (`SplitLine`), `Reversed`
  and the in-place `Reverse`, the `ChatHistory` object, `Memorize`, the `Walk`
  and `Chain` specification functions, and `Remember` with its loop.
- `messaging.dfy`: `GetOrder` and `IsToReply`.

A Go map is shared by reference. So one chat's history is a `ChatHistory`
object with a `map<string, string>` field, and `Memorize` and `Remember`
modify it. `Remember`'s walk loop is proved against `Walk`, through an
accumulator invariant. The reversal works in place on an `array<string>`,
as Go's slice swap does.

Nil dereferences. The Go code reads `msg.From` without a nil check, once
the message is present and has text. `IsToReply` also reads
`msg.From.UserName`, and `ReplyToMessage.From.ID` when there is a reply.
A nil pointer there panics. The model states these as `requires` clauses
(`Renderable`, and the sender preconditions of `IsToReply`). It does not
model the panic. The code also dereferences the message itself
(`msg.ReplyToMessage` in `Memorize`, memory/memory.go:40). `IsToReply`
dereferences `msg`, `msg.Chat` and `self` (messaging/messaging.go:33-41).
The model rules these out by taking `Message`, `ChatKind` and `User` as
plain values, never absent. The write `chatHistory[lastLine] = prevLine`
(memory/memory.go:43) panics on a nil map. The model takes the per-chat map
as non-nil: a `ChatHistory` is always an allocated object.

Behaviour of the code worth knowing:

- A message that replies to nothing still collects two lines,
  `[lastLine, ""]`: the walk from `""` adds nothing, provided no line is
  stored under the key `""` (the `NoEmptyLines` requirement). The dialogue
  is then `"\n" + lastLine` (`Memory.EmptyParentWalksNothing`).
- At least two lines are collected whatever the limit. A limit below 2
  still yields the message and its parent (`Memory.Chain`).
- A mention is detected when the text contains the bot's `UserName`,
  matched with no `@` (messaging/messaging.go:41).
- A line is `LastName + FirstName`, or `"anonym"` when both are empty,
  then `": "` and the message text, unchanged (memory/memory.go:18-25).
  The per-chat map holds only line-to-line edges.

## Model

| member | source | states |
|---|---|---|
| Memory.SenderName | memory/memory.go:18-23 | The sender name is never empty. It is LastName+FirstName when that is non-empty, and "anonym" when it is empty. |
| Memory.ConvertToLine | memory/memory.go:13-26 | The line is "" exactly when the message is absent or its text is empty. Otherwise it is the sender name, then ": ", then the text. |
| Memory.LineRoundTrip | memory/memory.go:18-25 | When the sender name has no ':', splitting the line at its first ": " gives back the pair (sender name, text). The line does not keep the id, the user name or where the last name ends and the first name begins. |
| Memory.Reversed | memory/memory.go:30-32 | Reversal keeps the length, and element k comes from position n-1-k. |
| Memory.ReversedInvolutive | memory/memory.go:29-35 | Reversing twice gives the original sequence. |
| Memory.Reverse | memory/memory.go:29-35 | The array afterwards holds the reversal of its old contents. The result is the newline-join of the reversed lines. |
| Memory.Record | memory/memory.go:42-44 | The edge last→prev is written only when both lines are non-empty; otherwise the map is unchanged. No other key is added, removed or changed. The no-empty-line invariant is preserved. |
| Memory.Memorize | memory/memory.go:38-47 | Returns the rendered parent and child lines. The chat history becomes Record(old history, child, parent) and keeps the no-empty-line invariant. |
| Memory.Walk | memory/memory.go:58-67 | A walk of at most n steps yields at most max(0, n) lines. |
| Memory.Chain | memory/memory.go:51-58 | The collected lines start [lastLine, prevLine]. Their number is 2 + k with k ≤ max(0, lim-2). |
| Memory.WalkLinks | memory/memory.go:59-63 | Each walked line is the stored value of the line before it (the parent line for the first), and is non-empty. |
| Memory.WalkStops | memory/memory.go:59-66 | A walk shorter than its bound ended at a key that is absent or maps to "". |
| Memory.WalkOnCycle | memory/memory.go:58 | On a two-line cycle the walk runs exactly max(0, n) steps and ends. The bound alone makes it terminate. |
| Memory.EmptyParentWalksNothing | memory/memory.go:53-60 | If no key is "" and the parent line is "", the walk adds nothing. The dialogue is then "\n" followed by the message's line. |
| Memory.DialogueEnds | memory/memory.go:54-69 | After reversal, the dialogue is the walk oldest-first, then the parent line, then the new line. |
| Memory.ReplyChainExample | memory/memory.go:50-74 | With "B: y"→"A: x" stored, a reply "A: w" to "B: y" with limit 3 replays "A: x\nB: y\nA: w". |
| Memory.Remember | memory/memory.go:50-74 | The history changes only as Memorize changes it. The dialogue is the newline-join of the reversed Chain, computed over the updated history. |
| Strings.Contains | messaging/messaging.go:23 | The substring test: true whenever the token is a prefix of the text, for the empty token too. True only when the token is no longer than the text. |
| Strings.Join | memory/memory.go:33 | Joining no lines gives "", and a non-empty join starts with the first line. |
| Messaging.RepliesTo | messaging/messaging.go:40 | True exactly when the message replies to a message whose sender's id is the bot's id; false when it replies to nothing. |
| Strings.ContainsEmpty | messaging/messaging.go:19-21 | The empty string is a substring of every string. |
| Strings.ContainsAt | messaging/messaging.go:23 | An occurrence at some offset makes the substring test true. |
| Strings.ContainsWitness | messaging/messaging.go:23 | The substring test is true only when there is an offset where the token occurs. |
| Strings.JoinSnoc | memory/memory.go:33 | Joining a sequence with one more element appends the separator and that element. |
| Messaging.GetOrder | messaging/messaging.go:15-29 | Reports a match exactly when some non-empty token occurs in the text. The reported token is in the list, non-empty and occurs in the text, and no earlier token matches. With no match the token is "". |
| Messaging.EmptyOrderNeverReported | messaging/messaging.go:19-21 | An empty token would match any text, but a list of only empty tokens yields ("", false). |
| Messaging.IsToReply | messaging/messaging.go:32-52 | Group/supergroup: asked iff replied to the bot, mentions its UserName or has a token, and never asked privately. Private: asked iff asked privately iff the sender is an admin, so a token or mention alone is not enough. Channel: never asked. Asked privately implies asked. The third result is true iff some non-empty token occurs in the text. |

## Left out

- main.go: the goroutine per bot, the shared mutex, long-polling and config loading. They are concurrency and I/O. The helpers main.go calls (`memory.Add`, `memory.Get`, `messaging.Inspect`, `GetCID`, `GetCustomConfig`, `CleanHistory`) are not part of this model.
- api/api.go: the HTTP client, JSON, file reads, retry sleeps and prompt formatting are network and file I/O.
- history/history.go: JSON load and save of the history file is file I/O.
- `messaging.Reply` and `messaging.Typing`: Telegram send calls, a ticker and context cancellation (I/O and concurrency).
- The `log.Printf` and `fmt.Println` calls inside `Remember` are output only and change no state.
- Remember: `lim` is an unbounded integer. The 64-bit wrap-around of `lim - 2`, when `lim` is within 2 of the smallest int, is not modelled.
- Memory.ConvertToLine: a nil `From` on a present message with text panics in Go. The model requires a sender instead of modelling the panic.
- Messaging.IsToReply: a nil `From` on the message, or on the replied-to message, panics in Go. The model requires the senders instead of modelling the panic.
- Strings are sequences of characters. Go compares UTF-8 bytes, and for valid UTF-8 a substring test on characters agrees with one on bytes.
