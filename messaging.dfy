/**
 * Addressing classifier (messaging/messaging.go): finding the command token
 * ("order") in a message and deciding whether the message is meant for this bot.
 */
module Messaging {
  import opened Wrappers
  import opened Telegram
  import opened Strings

  /** A token counts as present in `text` only when it is non-empty and occurs in it. */
  predicate Matches(text: string, order: string)
  {
    order != "" && Contains(text, order)
  }

  /** No token before position `i` matches. */
  predicate NoneMatchBefore(text: string, orders: seq<string>, i: int)
    requires 0 <= i <= |orders|
  {
    forall j :: 0 <= j < i ==> !Matches(text, orders[j])
  }

  /**
   * Scans `orders` in sequence, skipping empty tokens, and returns the first
   * one that occurs in `text`; the Go loop variable shadows the outer `order`,
   * so a failed scan returns "".
   */
  function GetOrder(text: string, orders: seq<string>): (r: (string, bool))
    ensures r.1 <==> exists i :: 0 <= i < |orders| && Matches(text, orders[i])
    ensures r.1 ==> r.0 in orders && r.0 != "" && Contains(text, r.0)
    ensures r.1 ==> exists i :: 0 <= i < |orders| && orders[i] == r.0 && NoneMatchBefore(text, orders, i)
    ensures !r.1 ==> r.0 == ""
    decreases |orders|
  {
    if |orders| == 0 then ("", false)
    else if orders[0] == "" then GetOrder(text, orders[1..])
    else if Contains(text, orders[0]) then (orders[0], true)
    else GetOrder(text, orders[1..])
  }

  /** The empty token would match every text, which is why the scan skips it. */
  lemma EmptyOrderNeverReported(text: string, orders: seq<string>)
    requires forall j :: 0 <= j < |orders| ==> orders[j] == ""
    ensures Contains(text, "")
    ensures GetOrder(text, orders) == ("", false)
  {
  }

  /** The three results of IsToReply, in the Go order. */
  datatype Addressing = Addressing(isAsked: bool, isAskedPrivately: bool, isOrdered: bool)

  /** The message replies to one of the bot's own messages. */
  function RepliesTo(msg: Message, self: User): (replied: bool)
    requires msg.replyTo.Some? ==> msg.replyTo.value.from.Some?
    ensures msg.replyTo.None? ==> !replied
    ensures replied ==> msg.replyTo.value.from.value.id == self.id
    ensures msg.replyTo.Some? && msg.replyTo.value.from.value.id == self.id ==> replied
  {
    msg.replyTo.Some? && msg.replyTo.value.from.value.id == self.id
  }

  /**
   * Whether `msg` is addressed to the bot `self`: in a group by a reply to
   * the bot, a mention of its user name or a command token; in a private
   * chat only from an administrator. The Go code reads the sender and the
   * replied-to message's sender without nil checks, hence the requires.
   */
  function IsToReply(msg: Message, self: User, admins: seq<string>, orders: seq<string>): (r: Addressing)
    requires msg.from.Some?
    requires msg.replyTo.Some? ==> msg.replyTo.value.from.Some?
    ensures msg.chat.Group? || msg.chat.SuperGroup? ==>
      !r.isAskedPrivately &&
      (r.isAsked <==> RepliesTo(msg, self) || Contains(msg.text, self.userName) || r.isOrdered)
    ensures msg.chat.Private? ==>
      (r.isAsked <==> r.isAskedPrivately) && (r.isAskedPrivately <==> msg.from.value.userName in admins)
    ensures msg.chat.Channel? ==> !r.isAsked && !r.isAskedPrivately
    ensures r.isAskedPrivately ==> r.isAsked
    ensures r.isOrdered <==> exists i :: 0 <= i < |orders| && Matches(msg.text, orders[i])
  {
    var chat := msg.chat;
    var user := msg.from.value.userName;

    var isPublic := chat.IsGroup() || chat.IsSuperGroup();
    var isPrivate := chat.IsPrivate();

    var isReplied := RepliesTo(msg, self);
    var isMentioned := Contains(msg.text, self.userName);
    var isOrdered := GetOrder(msg.text, orders).1;

    var isAdmin := user in admins;

    var isAskedPublicly := isPublic && (isReplied || isMentioned || isOrdered);
    var isAskedPrivately := isPrivate && isAdmin;

    Addressing(isAskedPublicly || isAskedPrivately, isAskedPrivately, isOrdered)
  }
}
