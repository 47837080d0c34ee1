/** The session loop's conversation log, updated in place as the client does:
    the command handler, one chat turn, the trimming loop, and the two loops
    that render the log for `/history` and `/save`. Each method is tied to the
    value-level definition in module Memory, Messages or Commands. */
module ChatLoop {
  import opened Messages
  import Commands
  import opened Gateway
  import opened Memory

  /** The persona the log is seeded with. */
  const SystemPrompt := "You are a professional AI assistant."

  class Conversation {
    var messages: seq<Message>

    /** A fresh log holding only the system preamble. */
    constructor ()
      ensures messages == [Message(System, SystemPrompt)]
      ensures Settled(messages)
    {
      messages := [Message(System, SystemPrompt)];
    }

    /** `del messages[1:]`. */
    method ClearMemory()
      modifies this
      ensures messages == Cleared(old(messages))
    {
      if |messages| > 1 {
        messages := messages[..1];
      }
    }

    /** Routes a stripped line of input: reports whether it was a command and
        whether the session should end. Only `/clear` changes the log. */
    method HandleCommand(raw: string) returns (handled: bool, shouldExit: bool)
      modifies this
      ensures (handled, shouldExit) == Commands.Classify(raw)
      ensures messages == if Commands.Parse(raw) == Commands.Clear
                          then Cleared(old(messages)) else old(messages)
    {
      var command := Commands.Parse(raw);
      if command == Commands.Clear {
        ClearMemory();
      }
      handled, shouldExit := command != Commands.Chat, command == Commands.Exit;
    }

    /** `while len(messages) > 21: del messages[1:3]`. */
    method Trim()
      modifies this
      ensures messages == Trimmed(old(messages))
    {
      while |messages| > Capacity
        invariant Trimmed(messages) == Trimmed(old(messages))
        decreases |messages|
      {
        messages := EvictOldest(messages);
      }
    }

    /** One chat turn: store the user's text, trim to capacity, then store the
        reply, or drop the user's text again when the reply carries the error
        tag. */
    method Turn(input: string, reply: string)
      modifies this
      ensures messages == TurnResult(old(messages), input, reply)
      ensures old(Settled(messages)) ==> Settled(messages)
    {
      if Settled(messages) {
        TurnKeepsSettled(messages, input, reply);
      }
      messages := messages + [Message(User, input)];
      Trim();
      if !Failed(reply) {
        messages := messages + [Message(Assistant, reply)];
      } else {
        messages := messages[..|messages| - 1];
      }
    }

    /** One iteration of the session loop on a stripped line of input. The
        completion `reply` is consulted only when the line is chat text. */
    method Step(input: string, reply: string) returns (exit: bool)
      modifies this
      ensures exit <==> input != "" && Commands.Parse(input) == Commands.Exit
      ensures messages == StepResult(old(messages), input, reply)
      ensures old(Settled(messages)) ==> Settled(messages)
    {
      ghost var before := messages;
      exit := false;
      if input == "" {
        return;
      }
      var isCommand, shouldExit := HandleCommand(input);
      if shouldExit {
        exit := true;
        return;
      }
      if isCommand {
        if Settled(before) {
          StepKeepsSettled(before, input, reply);
        }
        return;
      }
      Turn(input, reply);
    }

    /** The lines `/history` prints, built by walking `messages[1:]`. */
    method ShowHistory() returns (lines: seq<string>)
      ensures lines == History(messages)
    {
      var rest := Tail(messages);
      lines := [];
      for i := 0 to |rest|
        invariant lines == History(messages)[..i]
      {
        lines := lines + [Line(rest[i])];
      }
    }

    /** The text `/save` writes, built by walking `messages[1:]`. */
    method Save() returns (text: string)
      ensures text == SaveText(messages)
    {
      var rest := Tail(messages);
      ghost var lines := History(messages);
      text := "";
      for i := 0 to |rest|
        invariant text == Blocks(lines[..i])
      {
        text := text + Line(rest[i]) + "\n\n";
        assert lines[..i + 1][..i] == lines[..i];
      }
      assert lines[..|rest|] == lines;
    }
  }
}
