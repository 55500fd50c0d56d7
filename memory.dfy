/**
 * Reply-chain memory (memory/memory.go): every message is rendered as one
 * line of text, a per-chat map records `child line -> parent line` for each
 * observed reply, and a dialogue is rebuilt by walking that map backwards.
 */
module Memory {
  import opened Wrappers
  import opened Telegram
  import opened Strings

  // ---------------------------------------------------------------------
  // Rendering a message as a line (convertToLine)
  // ---------------------------------------------------------------------

  /**
   * The Go code reads `msg.From` without a nil check once the message is
   * present and has text, so a sender must be there for rendering not to panic.
   */
  predicate Renderable(msg: Option<Message>)
  {
    msg.None? || msg.value.text == "" || msg.value.from.Some?
  }

  /** Last name and first name run together, or "anonym" when both are empty. */
  function SenderName(u: User): (name: string)
    ensures name != ""
    ensures u.lastName + u.firstName != "" ==> name == u.lastName + u.firstName
    ensures u.lastName + u.firstName == "" ==> name == "anonym"
  {
    var user := u.lastName + u.firstName;
    if user == "" then "anonym" else user
  }

  /** The line a message is stored and replayed as; "" means "no line". */
  function ConvertToLine(msg: Option<Message>): (line: string)
    requires Renderable(msg)
    ensures line == "" <==> msg.None? || msg.value.text == ""
    ensures line != "" ==> line == SenderName(msg.value.from.value) + ": " + msg.value.text
  {
    if msg.None? || msg.value.text == "" then ""
    else SenderName(msg.value.from.value) + ": " + msg.value.text
  }

  /** Splits a line at its first ": " into sender and text, the inverse of the rendering. */
  function SplitLine(line: string): Option<(string, string)>
    decreases |line|
  {
    if |line| < 2 then None
    else if line[0] == ':' && line[1] == ' ' then Some(("", line[2..]))
    else match SplitLine(line[1..])
      case None => None
      case Some(p) => Some(([line[0]] + p.0, p.1))
  }

  lemma {:induction false} SplitJoined(name: string, text: string)
    requires ':' !in name
    ensures SplitLine(name + ": " + text) == Some((name, text))
    decreases |name|
  {
    var line := name + ": " + text;
    if name == "" {
      assert line[2..] == text;
    } else {
      assert line[0] == name[0] && name[0] in name;
      assert line[1..] == name[1..] + ": " + text;
      assert ':' !in name[1..] by {
        forall k | 0 <= k < |name[1..]| ensures name[1..][k] != ':' {
          assert name[1..][k] == name[k + 1];
        }
      }
      SplitJoined(name[1..], text);
      assert [name[0]] + name[1..] == name;
    }
  }

  /**
   * The sender name and the text can be read back from a line when the
   * sender name has no ':'. The user's id, user name and the split between
   * last and first name are not kept.
   */
  lemma LineRoundTrip(msg: Message)
    requires msg.text != "" && msg.from.Some?
    requires ':' !in SenderName(msg.from.value)
    ensures SplitLine(ConvertToLine(Some(msg))) == Some((SenderName(msg.from.value), msg.text))
  {
    SplitJoined(SenderName(msg.from.value), msg.text);
  }

  // ---------------------------------------------------------------------
  // Reversing the collected lines (reverse)
  // ---------------------------------------------------------------------

  /** The reference meaning of reversal: element k comes from position |s| - 1 - k. */
  function Reversed<T>(s: seq<T>): (r: seq<T>)
    ensures |r| == |s|
    ensures forall k :: 0 <= k < |s| ==> r[k] == s[|s| - 1 - k]
  {
    if s == [] then [] else Reversed(s[1..]) + [s[0]]
  }

  lemma ReversedInvolutive<T>(s: seq<T>)
    ensures Reversed(Reversed(s)) == s
  {
  }

  /** Reversing a concatenation reverses and swaps the parts. */
  lemma ReversedAppend<T>(a: seq<T>, b: seq<T>)
    ensures Reversed(a + b) == Reversed(b) + Reversed(a)
  {
  }

  /** Reverses `lines` in place with two indices meeting in the middle, then joins them with newlines. */
  method Reverse(lines: array<string>) returns (dialog: string)
    modifies lines
    ensures lines[..] == Reversed(old(lines[..]))
    ensures dialog == Join(lines[..], "\n")
  {
    var n := lines.Length;
    var i, j := 0, n - 1;
    while i < j
      invariant 0 <= i <= j + 1 <= n
      invariant j == n - 1 - i
      invariant forall k :: 0 <= k < i ==> lines[k] == old(lines[n - 1 - k]) && lines[n - 1 - k] == old(lines[k])
      invariant forall k :: i <= k <= j ==> lines[k] == old(lines[k])
    {
      lines[i], lines[j] := lines[j], lines[i];
      i, j := i + 1, j - 1;
    }
    assert forall k :: 0 <= k < n ==> lines[..][k] == Reversed(old(lines[..]))[k];
    dialog := Join(lines[..], "\n");
  }

  // ---------------------------------------------------------------------
  // The per-chat history map (Memorize)
  // ---------------------------------------------------------------------

  /** No line stored as a key or as a value is the empty "no line". */
  predicate NoEmptyLines(h: map<string, string>)
  {
    "" !in h.Keys && "" !in h.Values
  }

  /** The history after observing `lastLine` as a reply to `prevLine`. */
  function Record(h: map<string, string>, lastLine: string, prevLine: string): (r: map<string, string>)
    ensures prevLine != "" && lastLine != "" ==> lastLine in r && r[lastLine] == prevLine
    ensures prevLine == "" || lastLine == "" ==> r == h
    ensures r.Keys - {lastLine} == h.Keys - {lastLine}
    ensures forall k :: k in h && k != lastLine ==> k in r && r[k] == h[k]
    ensures NoEmptyLines(h) ==> NoEmptyLines(r)
  {
    if prevLine != "" && lastLine != "" then h[lastLine := prevLine] else h
  }

  /** One chat's history; a Go map is shared by reference, so it is an object here. */
  class ChatHistory {
    var entries: map<string, string>
  }

  /** Renders a message and the one it replies to, and records the edge between them when both have lines. */
  method Memorize(msg: Message, chatHistory: ChatHistory) returns (prevLine: string, lastLine: string)
    requires Renderable(Some(msg)) && Renderable(msg.replyTo)
    modifies chatHistory
    ensures lastLine == ConvertToLine(Some(msg)) && prevLine == ConvertToLine(msg.replyTo)
    ensures chatHistory.entries == Record(old(chatHistory.entries), lastLine, prevLine)
    ensures NoEmptyLines(old(chatHistory.entries)) ==> NoEmptyLines(chatHistory.entries)
  {
    lastLine := ConvertToLine(Some(msg));
    prevLine := ConvertToLine(msg.replyTo);
    if prevLine != "" && lastLine != "" {
      chatHistory.entries := chatHistory.entries[lastLine := prevLine];
    }
  }

  // ---------------------------------------------------------------------
  // Walking the reply chain backwards (Remember)
  // ---------------------------------------------------------------------

  /**
   * The lines found by following `h` back from `key` for at most `n` steps,
   * stopping at the first key that is absent or maps to "".
   */
  function Walk(h: map<string, string>, key: string, n: int): (lines: seq<string>)
    ensures |lines| <= if n > 0 then n else 0
    decreases if n > 0 then n else 0
  {
    if n <= 0 then []
    else if key in h && h[key] != "" then [h[key]] + Walk(h, h[key], n - 1)
    else []
  }

  /** The lines Remember collects, newest first: the message, its parent, then the walk from the parent. */
  function Chain(h: map<string, string>, lastLine: string, prevLine: string, lim: int): (lines: seq<string>)
    ensures |lines| >= 2 && lines[0] == lastLine && lines[1] == prevLine
    ensures |lines| <= 2 + (if lim - 2 > 0 then lim - 2 else 0)
  {
    [lastLine, prevLine] + Walk(h, prevLine, lim - 2)
  }

  /** Each line of the walk is the value stored for the line before it (the start key for the first). */
  lemma {:induction false} WalkLinks(h: map<string, string>, key: string, n: int, i: nat)
    requires i < |Walk(h, key, n)|
    ensures var w := Walk(h, key, n);
      var from := if i == 0 then key else w[i - 1];
      from in h && h[from] == w[i] && w[i] != ""
    decreases n
  {
    if i > 0 {
      WalkLinks(h, h[key], n - 1, i - 1);
    }
  }

  /** A walk shorter than its bound ended at a key that is absent or maps to "". */
  lemma {:induction false} WalkStops(h: map<string, string>, key: string, n: int)
    requires |Walk(h, key, n)| < n
    ensures var w := Walk(h, key, n);
      var last := if w == [] then key else w[|w| - 1];
      last !in h || h[last] == ""
    decreases n
  {
    if key in h && h[key] != "" {
      WalkStops(h, h[key], n - 1);
    }
  }

  /** The walk is bounded by its step count alone: on a two-line cycle it runs all `n` steps and stops. */
  lemma {:induction false} WalkOnCycle(h: map<string, string>, a: string, b: string, n: int)
    requires a in h && h[a] == b && b in h && h[b] == a && a != "" && b != ""
    ensures |Walk(h, a, n)| == if n > 0 then n else 0
    decreases if n > 0 then n else 0
  {
    if n > 0 {
      WalkOnCycle(h, b, a, n - 1);
    }
  }

  /**
   * When no key is "", a message that replies to nothing collects nothing
   * beyond its own two lines, and its dialogue is an empty line followed by it.
   */
  lemma EmptyParentWalksNothing(h: map<string, string>, lastLine: string, lim: int)
    requires NoEmptyLines(h)
    ensures Chain(h, lastLine, "", lim) == [lastLine, ""]
    ensures Join(Reversed(Chain(h, lastLine, "", lim)), "\n") == "\n" + lastLine
  {
  }

  /** The replayed dialogue is the walk, oldest first, followed by the parent line and the new line. */
  lemma DialogueEnds(h: map<string, string>, lastLine: string, prevLine: string, lim: int)
    ensures var w := Walk(h, prevLine, lim - 2);
      Join(Reversed(Chain(h, lastLine, prevLine, lim)), "\n") ==
        if w == [] then prevLine + "\n" + lastLine
        else Join(Reversed(w), "\n") + "\n" + prevLine + "\n" + lastLine
  {
    var w := Walk(h, prevLine, lim - 2);
    ReversedAppend([lastLine, prevLine], w);
    assert Reversed([lastLine, prevLine]) == [prevLine, lastLine];
    if w == [] {
      assert Reversed(Chain(h, lastLine, prevLine, lim)) == [prevLine, lastLine];
      assert [prevLine, lastLine][1..] == [lastLine];
    } else {
      var rw := Reversed(w);
      assert rw + [prevLine, lastLine] == (rw + [prevLine]) + [lastLine];
      JoinSnoc(rw, prevLine, "\n");
      JoinSnoc(rw + [prevLine], lastLine, "\n");
    }
  }

  /**
   * Records the message's reply edge, then follows the history back from the
   * parent line for at most `lim - 2` steps and returns the collected lines
   * oldest first, joined by newlines.
   */
  method Remember(msg: Message, chatHistory: ChatHistory, lim: int) returns (dialog: string)
    requires Renderable(Some(msg)) && Renderable(msg.replyTo)
    modifies chatHistory
    ensures chatHistory.entries == Record(old(chatHistory.entries), ConvertToLine(Some(msg)), ConvertToLine(msg.replyTo))
    ensures dialog == Join(Reversed(Chain(chatHistory.entries, ConvertToLine(Some(msg)), ConvertToLine(msg.replyTo), lim)), "\n")
  {
    var prevLine, lastLine := Memorize(msg, chatHistory);
    var lines := [lastLine, prevLine];

    var h := chatHistory.entries;
    var key := prevLine;
    var i := 0;
    while i < lim - 2
      invariant lines + Walk(h, key, lim - 2 - i) == Chain(h, lastLine, prevLine, lim)
      decreases lim - 2 - i
    {
      if key in h && h[key] != "" {
        var v := h[key];
        lines := lines + [v];
        key := v;
      } else {
        assert Walk(h, key, lim - 2 - i) == [];
        break;
      }
      i := i + 1;
    }

    assert lines == Chain(h, lastLine, prevLine, lim);
    var buf := new string[|lines|](k requires 0 <= k < |lines| => lines[k]);
    assert buf[..] == lines;
    dialog := Reverse(buf);
  }

  /**
   * A reply to "B: y" with "A: w", when "B: y" itself replied to "A: x",
   * replays the three lines oldest first.
   */
  lemma ReplyChainExample()
    ensures var h := Record(map["B: y" := "A: x", "A: z" := "B: y"], "A: w", "B: y");
      Join(Reversed(Chain(h, "A: w", "B: y", 3)), "\n") == "A: x\nB: y\nA: w"
  {
    var h := Record(map["B: y" := "A: x", "A: z" := "B: y"], "A: w", "B: y");
    assert "A: x" !in h;
    assert Walk(h, "B: y", 1) == ["A: x"];
    DialogueEnds(h, "A: w", "B: y", 3);
  }
}
