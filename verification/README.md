# Conversation memory of a terminal chat client

The client keeps its conversation with a remote completion service as one
in-memory list of role-tagged messages. Element 0 is the system preamble.
After it come user and assistant messages, in alternation. The list holds at
most 21 messages: the preamble plus the ten most recent exchanges. Each
stripped input line is handled in one of three ways:

- An empty line is discarded before any routing.
- A slash-command (`/exit`, `/clear`, `/history`, `/save`, or any other
  `/…`) is handled locally.
- Any other text starts one chat turn. The turn appends the user message and
  trims the list. It then either stores the completion's reply, or, when the
  reply carries the `[API ERROR]` tag, pops the user message again.

This project models that memory logic, `handle_commands` and the body of
`main`'s loop, and proves properties about it:

- `Text`: the lower-casing used for command matching, and the substring test,
  with its characterisation by positions.
- `Messages`: the `Message`/`Role` datatype, and the two renderings of the
  log: the `You:`/`AI:` lines of `/history` and the text of `/save`.
- `Commands`: the closed decision table of the command router. It also
  records that an interrupt at the prompt reads as `/exit`.
- `Gateway`: the error reply `generate_response` builds, and the failure test
  the loop applies to every reply.
- `Memory`: the log as a value. It holds the eviction step, the trimming loop's
  result, `/clear`, one turn, and one loop iteration. It also holds the
  between-turn invariant `Settled` and the lemmas about all of these.
- `ChatLoop.Conversation`: a class whose `messages` field is updated in place,
  as the client updates its list. Each of its methods is proved equal to the
  matching `Memory`, `Messages` or `Commands` definition. `HandleCommand` models the
  routing and the `/clear` mutation; the `/history` and `/save` renderings are
  the separate methods `ShowHistory` and `Save`, which stand beside the router
  rather than being called from it.

Three behaviours of `main.py` worth noting:

- Trimming runs after the user message is appended and before the completion
  call. It does not run after the reply is stored.
- A failed turn that starts from a full log (21 messages) does not restore the
  log. The oldest exchange was already evicted before the call, so 19 messages
  remain (`Memory.FailedTurn`). Below 21 messages a failed turn does restore
  the log exactly.
- `/history` on a log holding only the preamble prints only its
  `--- History ---` header and no message lines.

## Model

| member | source | states |
|---|---|---|
| Text.Lower | main.py:38 | lower-casing keeps the length and maps every character, leaving no capital A-Z |
| Text.ContainsIff | main.py:115 | the substring test holds exactly when the pattern occurs at some position |
| Commands.Parse | main.py:38-70 | the result is Exit, Clear, History or Save exactly when the lower-cased input is `/exit`, `/clear`, `/history` or `/save`; chat text exactly when the input does not begin with `/`; an unknown command carries its lower-cased text |
| Commands.Classify | main.py:33-70 | handled exactly when the input begins with `/`; exit exactly when the lower-cased input is `/exit`; exit implies handled |
| Commands.ParseIgnoresCase | main.py:38 | lower-casing the input first does not change how it is routed |
| Commands.InterruptExits | main.py:26-31 | an interrupt or end of input is routed as `/exit`, giving (handled, exit) |
| Gateway.ErrorReplyFails | main.py:81-82 | every reply built from a raised exception is recognised as a failure |
| Gateway.FailedIffTagOccurs | main.py:115 | a reply is a failure exactly when the `[API ERROR]` tag occurs somewhere in it |
| Gateway.QuotedTagFails | main.py:115-118 | a reply that only quotes the tag inside ordinary text is also treated as a failure |
| Messages.HistoryAppend | main.py:50-54 | `/history` shows one line per message after the preamble; a newly appended message shows last |
| Messages.SaveTextAppend | main.py:56-60 | the saved text grows by exactly one `<label>: <content>` record and a blank line per appended message, at the end |
| Messages.SaveTextEmpty | main.py:59-60 | the saved text is empty exactly when the log holds nothing after the preamble |
| Messages.HistoryOfOneExchange | main.py:52-60 | after one exchange, history is `You: <input>` then `AI: <reply>`, and the save text is those two records |
| Memory.EvictOldest | main.py:108 | `del messages[1:3]` removes two messages, keeps element 0 and shifts every later message down by two |
| Memory.Trimmed | main.py:106-108 | after trimming, the log has at most 21 messages and element 0 is unchanged |
| Memory.TrimmedShape | main.py:106-108 | from more than 21 messages, trimming leaves 21 (odd length) or 20 (even), namely element 0 followed by a suffix of the rest |
| Memory.TrimmedKeepsAlternating | main.py:107-108 | trimming preserves the user/assistant alternation |
| Memory.EvictKeepsAlternating | main.py:108 | evicting positions 1 and 2 preserves the user/assistant alternation |
| Memory.Cleared | main.py:44-48 | `/clear` leaves exactly the original element 0, whatever the prior length |
| Memory.SuccessfulTurn | main.py:104-116 | from an odd length L <= 21: new length min(L+2, 21), element 0 unchanged, the last two are user input then assistant reply, and the oldest exchange is evicted exactly when L = 21 |
| Memory.FailedTurn | main.py:104-118 | a failed turn stores no reply; below 21 messages the log equals the pre-turn log; from 21 it is the pre-turn log with positions 1-2 evicted, 19 messages |
| Memory.TurnKeepsSettled | main.py:104-118 | every turn takes a settled log (system preamble, alternating roles, odd length <= 21) to a settled log |
| Memory.StepKeepsSettled | main.py:93-118 | every loop iteration keeps the log settled and element 0 unchanged; `/clear` leaves only element 0; empty input and every other command leave the log unchanged |
| Memory.ReplayKeepsRecent | main.py:104-116 | after N successful turns from a fresh log, the log is the preamble and the min(N, 10) most recent exchanges in order, of length 1 + 2 min(N, 10) |
| ChatLoop.Conversation.constructor | main.py:90 | the log starts as the single system preamble and is settled |
| ChatLoop.Conversation.ClearMemory | main.py:46 | the field becomes `Cleared` of its old value |
| ChatLoop.Conversation.HandleCommand | main.py:33-70 | returns `Classify(raw)`; the log changes only for `/clear`, and then to element 0 alone |
| ChatLoop.Conversation.Trim | main.py:107-108 | the in-place loop leaves `Trimmed` of the old log |
| ChatLoop.Conversation.Turn | main.py:104-118 | the in-place append, trim and append-or-pop leave `TurnResult` of the old log and keep it settled |
| ChatLoop.Conversation.Step | main.py:93-118 | exits exactly on non-empty input routed as `/exit`; leaves `StepResult` of the old log and keeps it settled |
| ChatLoop.Conversation.ShowHistory | main.py:50-54 | the loop over `messages[1:]` yields exactly the `History` lines |
| ChatLoop.Conversation.Save | main.py:56-60 | the loop over `messages[1:]` yields exactly the `SaveText` text |

## Left out

- `initialize_client`, `load_dotenv`, `os.getenv` and `sys.exit` (main.py:10-19): environment and process handling.
- `print_banner` and every `print` call except the `/history` message lines (main.py:53), which are modelled by `Messages.History` and `Conversation.ShowHistory`: console output only. So the `--- History ---` header, the farewell, "Memory cleared", "Unknown command" and the reply echo are not modelled.
- `get_user_input` (main.py:26-31): the console read and `strip()` are not modelled. The session methods take the already stripped line as a parameter. The interrupt-to-`/exit` mapping is kept in `Commands.InputText`.
- `generate_response`'s remote call (main.py:72-80): the model name, temperature and network are not modelled. Its reply is an arbitrary string parameter of `Turn` and `Step`.
- Opening and writing `chat_history.txt` and reporting a write error (main.py:57-63): file I/O. Only the text written is modelled, by `SaveText` and `Conversation.Save`.
- The `TypeError` raised when the service returns `None` content: library behaviour outside this file.
- Text.Lower: maps only the ASCII capitals A-Z, not the full Unicode lower-casing of Python's `str.lower`.
