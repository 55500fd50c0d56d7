/**
 * The parts of the Telegram Bot API's message, user and chat records that
 * the bot's core reads. A nil pointer in the Go code is `None` here.
 */
module Telegram {
  import opened Wrappers

  /** Telegram user and chat identifiers are signed 64-bit integers. */
  newtype int64 = x: int | -0x8000_0000_0000_0000 <= x < 0x8000_0000_0000_0000

  datatype User = User(id: int64, userName: string, firstName: string, lastName: string)

  /** The chat type string the API reports, as the four values the bot distinguishes. */
  datatype ChatKind = Group | SuperGroup | Private | Channel {
    predicate IsGroup() { this == Group }
    predicate IsSuperGroup() { this == SuperGroup }
    predicate IsPrivate() { this == Private }
  }

  /** `from` is absent for anonymous senders and channel posts; `replyTo` is absent when the message replies to nothing. */
  datatype Message = Message(text: string, from: Option<User>, replyTo: Option<Message>, chat: ChatKind)
}
