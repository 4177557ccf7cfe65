/**
 * The in-meeting chat panel: the transcript of messages and the draft being typed.
 * Received messages are appended; a sent message is emitted once and appended
 * locally at once, without waiting for the server.
 */
module Chat {
  import opened Wrappers
  import opened JsString

  datatype Message = Message(userId: string, username: string, text: string, timestamp: int)

  /** What `sendMessage` emits: `chat-message` with `{message, meetingId}`. */
  datatype Outgoing = ChatMessageOut(message: Message, meetingId: string)

  datatype User = User(id: int, username: string)

  /** The number a string of decimal digits denotes, most significant digit first. */
  function DigitsValue(s: string): int
    requires forall k :: 0 <= k < |s| ==> '0' <= s[k] <= '9'
  {
    if s == [] then 0 else 10 * DigitsValue(s[..|s| - 1]) + (s[|s| - 1] - '0') as int
  }

  /** The decimal digits of `n`: they denote `n` and, beyond a lone `0`, do not start with `0`. */
  function DigitString(n: nat): (s: string)
    ensures |s| >= 1 && forall k :: 0 <= k < |s| ==> '0' <= s[k] <= '9'
    ensures DigitsValue(s) == n
    ensures |s| > 1 ==> s[0] != '0'
  {
    var d := ['0' + (n % 10) as char];
    if n < 10 then d
    else
      var r := DigitString(n / 10) + d;
      assert r[..|r| - 1] == DigitString(n / 10);
      r
  }

  /** `n.toString()` for an integer id: a minus sign for a negative id, then the digits of its magnitude. */
  function DecimalString(n: int): (s: string)
    ensures |s| >= 1
    ensures n >= 0 ==> (forall k :: 0 <= k < |s| ==> '0' <= s[k] <= '9') && DigitsValue(s) == n
    ensures n < 0 ==>
      && s[0] == '-' && |s| >= 2
      && (forall k :: 1 <= k < |s| ==> '0' <= s[k] <= '9') && DigitsValue(s[1..]) == -n
  {
    if n < 0 then
      var r := "-" + DigitString(-n);
      assert r[1..] == DigitString(-n);
      r
    else DigitString(n)
  }

  /** Different ids give different strings, so the sender id in a message identifies the user. */
  lemma DecimalStringInjective(a: int, b: int)
    requires DecimalString(a) == DecimalString(b)
    ensures a == b
  {
    var s := DecimalString(a);
    assert a < 0 <==> s[0] == '-';
    assert b < 0 <==> s[0] == '-';
  }

  class ChatPanel {
    var messages: seq<Message>
    var newMessage: string

    constructor ()
      ensures messages == [] && newMessage == ""
    {
      messages, newMessage := [], "";
    }

    /** `handleChatMessage`: a message from the room goes at the end of the transcript. */
    method HandleChatMessage(m: Message)
      modifies this
      ensures messages == old(messages) + [m]
      ensures newMessage == old(newMessage)
    {
      messages := messages + [m];
    }

    /** The draft input's `onChange`. */
    method EditDraft(text: string)
      modifies this
      ensures newMessage == text && messages == old(messages)
    {
      newMessage := text;
    }

    /**
     * `sendMessage`: `connected` says whether the socket exists and `now` is the
     * clock reading. A blank draft or a missing socket does nothing; otherwise the
     * untrimmed draft is emitted once, appended locally and cleared.
     */
    method SendMessage(connected: bool, user: User, meetingId: string, now: int) returns (sent: seq<Outgoing>)
      modifies this
      ensures !connected || IsBlank(old(newMessage)) ==>
        sent == [] && messages == old(messages) && newMessage == old(newMessage)
      ensures connected && !IsBlank(old(newMessage)) ==>
        var m := Message(DecimalString(user.id), user.username, old(newMessage), now);
        && sent == [ChatMessageOut(m, meetingId)]
        && messages == old(messages) + [m]
        && newMessage == ""
    {
      if !connected || IsBlank(newMessage) {
        return [];
      }
      var m := Message(DecimalString(user.id), user.username, newMessage, now);
      sent := [ChatMessageOut(m, meetingId)];
      messages := messages + [m];
      newMessage := "";
    }
  }
}
