/** Role-tagged conversation messages and the two textual renderings of a
    conversation: the lines shown by `/history` and the text written by `/save`. */
module Messages {

  datatype Role = System | User | Assistant

  /** One entry of the conversation log, as the `{"role": ..., "content": ...}`
      dictionaries the client keeps. */
  datatype Message = Message(role: Role, content: string)

  /** The speaker label: "You" for the user, "AI" for every other role. */
  function Label(role: Role): string
  {
    if role == User then "You" else "AI"
  }

  /** The rendering of one message, "<label>: <content>". */
  function Line(m: Message): string
  {
    Label(m.role) + ": " + m.content
  }

  /** The messages after the preamble, as Python's `messages[1:]`. */
  function Tail(msgs: seq<Message>): seq<Message>
  {
    if |msgs| == 0 then [] else msgs[1..]
  }

  /** The lines `/history` prints: one per message after the preamble. */
  function History(msgs: seq<Message>): seq<string>
  {
    var rest := Tail(msgs);
    seq(|rest|, i requires 0 <= i < |rest| => Line(rest[i]))
  }

  /** Each line followed by a blank line, concatenated in order. */
  function Blocks(lines: seq<string>): string
  {
    if lines == [] then "" else Blocks(lines[..|lines| - 1]) + lines[|lines| - 1] + "\n\n"
  }

  /** The text `/save` writes: every history line followed by a blank line. */
  function SaveText(msgs: seq<Message>): string
  {
    Blocks(History(msgs))
  }

  /** History is chronological: a message appended to the log shows up as the
      last history line, after all earlier ones. */
  lemma HistoryAppend(msgs: seq<Message>, m: Message)
    requires |msgs| >= 1
    ensures History(msgs + [m]) == History(msgs) + [Line(m)]
    ensures |History(msgs)| == |msgs| - 1
  {
    assert Tail(msgs + [m]) == Tail(msgs) + [m];
  }

  /** The saved text grows by exactly one record, at the end, per appended message. */
  lemma {:induction false} SaveTextAppend(msgs: seq<Message>, m: Message)
    requires |msgs| >= 1
    ensures SaveText(msgs + [m]) == SaveText(msgs) + Line(m) + "\n\n"
  {
    HistoryAppend(msgs, m);
    var lines := History(msgs + [m]);
    assert lines[..|lines| - 1] == History(msgs);
  }

  /** The saved text is empty exactly when there is nothing after the preamble. */
  lemma {:induction false} SaveTextEmpty(msgs: seq<Message>)
    ensures SaveText(msgs) == "" <==> |msgs| <= 1
  {
    var lines := History(msgs);
    if |msgs| > 1 {
      assert |lines| > 0;
      var last := Blocks(lines[..|lines| - 1]) + lines[|lines| - 1] + "\n\n";
      assert |last| >= 2;
    }
  }

  /** After a single exchange the history shows the user line, then the reply. */
  lemma HistoryOfOneExchange(preamble: Message, input: string, reply: string)
    ensures History([preamble, Message(User, input), Message(Assistant, reply)])
         == ["You: " + input, "AI: " + reply]
    ensures SaveText([preamble, Message(User, input), Message(Assistant, reply)])
         == "You: " + input + "\n\n" + "AI: " + reply + "\n\n"
  {
    var you, ai := "You: " + input, "AI: " + reply;
    var msgs := [preamble, Message(User, input), Message(Assistant, reply)];
    assert Tail(msgs) == [Message(User, input), Message(Assistant, reply)];
    assert Line(Message(User, input)) == you && Line(Message(Assistant, reply)) == ai;
    var lines := History(msgs);
    assert lines == [you, ai];
    assert lines[..1] == [you] && [you][..0] == [];
    assert Blocks([you]) == you + "\n\n";
  }
}
