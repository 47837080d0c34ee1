/** The local slash-commands and how a line of input is routed to them. */
module Commands {
  import opened Text

  /** What a line of input is, once lower-cased: one of the four known
      commands, some other slash-command, or ordinary chat text. */
  datatype Command = Exit | Clear | History | Save | Unknown(name: string) | Chat

  /** Recognises a (stripped) line of input, ignoring letter case. */
  function Parse(raw: string): (c: Command)
    ensures c == Exit <==> Lower(raw) == "/exit"
    ensures c == Clear <==> Lower(raw) == "/clear"
    ensures c == History <==> Lower(raw) == "/history"
    ensures c == Save <==> Lower(raw) == "/save"
    ensures c == Chat <==> !(|raw| > 0 && raw[0] == '/')
    ensures c.Unknown? ==> c.name == Lower(raw)
  {
    var cmd := Lower(raw);
    if cmd == "/exit" then Exit
    else if cmd == "/clear" then Clear
    else if cmd == "/history" then History
    else if cmd == "/save" then Save
    else if |cmd| > 0 && cmd[0] == '/' then Unknown(cmd)
    else Chat
  }

  /** The pair `(is_command_handled, should_exit_program)` the router reports. */
  function Classify(raw: string): (r: (bool, bool))
    ensures r.0 <==> |raw| > 0 && raw[0] == '/'
    ensures r.1 <==> Lower(raw) == "/exit"
    ensures r.1 ==> r.0
  {
    var c := Parse(raw);
    (c != Chat, c == Exit)
  }

  /** Commands are case-insensitive: lower-casing the input first changes nothing. */
  lemma ParseIgnoresCase(raw: string)
    ensures Parse(Lower(raw)) == Parse(raw)
  {
    LowerIdempotent(raw);
  }

  /** One read from the console: a stripped line, or an interrupt / end of input. */
  datatype InputEvent = Typed(text: string) | Interrupted

  /** The text the session loop goes on with; an interrupt reads as `/exit`. */
  function InputText(ev: InputEvent): string
  {
    match ev
    case Typed(text) => text
    case Interrupted => "/exit"
  }

  /** An interrupt at the prompt ends the session exactly as typing `/exit` does. */
  lemma InterruptExits()
    ensures Parse(InputText(Interrupted)) == Exit
    ensures Classify(InputText(Interrupted)) == (true, true)
  {
    assert Lower("/exit") == "/exit";
  }
}
