/** The conversation log as a value: the capacity policy, the effect of one
    chat turn and of one loop iteration, and the invariants they keep. The
    class in module ChatLoop performs these same changes in place. */
module Memory {
  import opened Messages
  import opened Commands
  import opened Gateway

  /** The system preamble plus the ten most recent exchanges. */
  const ExchangesKept := 10
  const Capacity := 1 + 2 * ExchangesKept

  /** After the preamble, user and assistant messages alternate, starting with
      a user message. */
  predicate Alternating(m: seq<Message>)
  {
    forall i :: 1 <= i < |m| ==> m[i].role == (if i % 2 == 1 then User else Assistant)
  }

  /** The state of the log between two turns: the preamble first, complete
      exchanges after it, and no more than `Capacity` messages. */
  predicate Settled(m: seq<Message>)
  {
    |m| >= 1 && |m| % 2 == 1 && |m| <= Capacity && m[0].role == System && Alternating(m)
  }

  /** `del messages[1:3]`: drop the oldest exchange, keep the preamble. */
  function EvictOldest(m: seq<Message>): (r: seq<Message>)
    requires |m| >= 3
    ensures |r| == |m| - 2 && r[0] == m[0]
    ensures forall i :: 1 <= i < |r| ==> r[i] == m[i + 2]
  {
    m[..1] + m[3..]
  }

  /** The log after `while len(messages) > 21: del messages[1:3]`. */
  function Trimmed(m: seq<Message>): (r: seq<Message>)
    ensures |r| <= Capacity
    ensures |m| >= 1 ==> |r| >= 1 && r[0] == m[0]
    decreases |m|
  {
    if |m| <= Capacity then m else Trimmed(EvictOldest(m))
  }

  /** `del messages[1:]`: only the preamble is left. */
  function Cleared(m: seq<Message>): (r: seq<Message>)
    ensures |m| >= 1 ==> r == [m[0]]
    ensures |m| == 0 ==> r == []
  {
    if |m| == 0 then m else m[..1]
  }

  /** The log after one turn of chat text `input` whose completion was `reply`:
      append the user message, trim, then append the reply or, when the reply
      is an error, pop the last element. */
  function TurnResult(m: seq<Message>, input: string, reply: string): seq<Message>
  {
    var t := Trimmed(m + [Message(User, input)]);
    if Failed(reply) then t[..|t| - 1] else t + [Message(Assistant, reply)]
  }

  /** The log after one iteration of the session loop with stripped input
      `input` (and `reply`, used only when the input is chat text). */
  function StepResult(m: seq<Message>, input: string, reply: string): seq<Message>
  {
    if input == "" then m
    else match Parse(input)
      case Chat => TurnResult(m, input, reply)
      case Clear => Cleared(m)
      case _ => m
  }

  /** Trimming keeps the preamble and a suffix of the rest: 21 messages are
      left from an odd length over capacity, 20 from an even one. */
  lemma {:induction false} TrimmedShape(m: seq<Message>)
    requires |m| > Capacity
    ensures |Trimmed(m)| == (if |m| % 2 == 1 then Capacity else Capacity - 1)
    ensures Trimmed(m) == m[..1] + m[|m| - |Trimmed(m)| + 1..]
    decreases |m|
  {
    var e := EvictOldest(m);
    if |e| > Capacity {
      TrimmedShape(e);
      var t := |Trimmed(e)|;
      assert e[|e| - t + 1..] == m[|m| - t + 1..];
    } else {
      assert e == m[..1] + m[3..];
    }
  }

  /** Evicting a whole exchange keeps user and assistant messages alternating. */
  lemma EvictKeepsAlternating(m: seq<Message>)
    requires |m| >= 3 && Alternating(m)
    ensures Alternating(EvictOldest(m))
  {
    var e := EvictOldest(m);
    forall i | 1 <= i < |e|
      ensures e[i].role == (if i % 2 == 1 then User else Assistant)
    {
      assert e[i] == m[i + 2];
    }
  }

  /** Trimming never breaks the alternation of roles. */
  lemma {:induction false} TrimmedKeepsAlternating(m: seq<Message>)
    requires Alternating(m)
    ensures Alternating(Trimmed(m))
    decreases |m|
  {
    if |m| > Capacity {
      EvictKeepsAlternating(m);
      TrimmedKeepsAlternating(EvictOldest(m));
    }
  }

  /** A successful turn from a settled log of length L ends with the new
      exchange, keeps the preamble, has length min(L + 2, 21), and evicts the
      oldest exchange exactly when the log was full. */
  lemma {:induction false} SuccessfulTurn(m: seq<Message>, input: string, reply: string)
    requires |m| % 2 == 1 && |m| <= Capacity
    requires !Failed(reply)
    ensures var r := TurnResult(m, input, reply);
      && |r| == (if |m| + 2 <= Capacity then |m| + 2 else Capacity)
      && r[0] == m[0]
      && r[|r| - 2] == Message(User, input)
      && r[|r| - 1] == Message(Assistant, reply)
      && r == (if |m| < Capacity then m else EvictOldest(m))
              + [Message(User, input), Message(Assistant, reply)]
  {
    var u := Message(User, input);
    if |m| == Capacity {
      var e := EvictOldest(m + [u]);
      assert e == EvictOldest(m) + [u];
      assert Trimmed(m + [u]) == Trimmed(e) == e;
    } else {
      assert Trimmed(m + [u]) == m + [u];
    }
  }

  /** A failed turn stores no reply and drops the user message again. Below
      capacity the log is as before the turn; from a full log the oldest
      exchange has already been evicted and stays lost, leaving 19 messages. */
  lemma {:induction false} FailedTurn(m: seq<Message>, input: string, reply: string)
    requires |m| <= Capacity
    requires Failed(reply)
    ensures |m| < Capacity ==> TurnResult(m, input, reply) == m
    ensures |m| == Capacity ==> TurnResult(m, input, reply) == EvictOldest(m)
    ensures |m| == Capacity ==> |TurnResult(m, input, reply)| == Capacity - 2
  {
    var u := Message(User, input);
    if |m| == Capacity {
      var e := EvictOldest(m + [u]);
      assert e == EvictOldest(m) + [u];
      assert Trimmed(m + [u]) == Trimmed(e) == e;
    } else {
      assert Trimmed(m + [u]) == m + [u];
    }
  }

  /** Appending a whole exchange to an odd-length log keeps roles alternating. */
  lemma ExchangeKeepsAlternating(m: seq<Message>, input: string, reply: string)
    requires |m| % 2 == 1 && Alternating(m)
    ensures Alternating(m + [Message(User, input), Message(Assistant, reply)])
  {
    var r := m + [Message(User, input), Message(Assistant, reply)];
    forall i | 1 <= i < |r|
      ensures r[i].role == (if i % 2 == 1 then User else Assistant)
    {
      if i < |m| {
        assert r[i] == m[i];
      }
    }
  }

  /** Evicting the oldest exchange from a full settled log leaves a settled log. */
  lemma EvictKeepsSettled(m: seq<Message>)
    requires Settled(m) && |m| == Capacity
    ensures Settled(EvictOldest(m))
  {
    EvictKeepsAlternating(m);
  }

  /** Every turn, successful or failed, takes a settled log to a settled log. */
  lemma TurnKeepsSettled(m: seq<Message>, input: string, reply: string)
    requires Settled(m)
    ensures Settled(TurnResult(m, input, reply))
  {
    var base := if |m| < Capacity then m else EvictOldest(m);
    if |m| == Capacity {
      EvictKeepsSettled(m);
    }
    assert Settled(base);
    if Failed(reply) {
      FailedTurn(m, input, reply);
    } else {
      SuccessfulTurn(m, input, reply);
      ExchangeKeepsAlternating(base, input, reply);
    }
  }

  /** Every iteration of the session loop keeps the log settled and never
      changes the preamble; `/clear` leaves just the preamble, and every other
      command leaves the log unchanged. */
  lemma StepKeepsSettled(m: seq<Message>, input: string, reply: string)
    requires Settled(m)
    ensures Settled(StepResult(m, input, reply))
    ensures |StepResult(m, input, reply)| >= 1 && StepResult(m, input, reply)[0] == m[0]
    ensures input != "" && Parse(input) == Clear ==> StepResult(m, input, reply) == [m[0]]
    ensures input == "" || (Parse(input) != Chat && Parse(input) != Clear)
            ==> StepResult(m, input, reply) == m
  {
    if input != "" && Parse(input) == Chat {
      TurnKeepsSettled(m, input, reply);
      if Failed(reply) {
        FailedTurn(m, input, reply);
      } else {
        SuccessfulTurn(m, input, reply);
      }
    }
  }

  /** One completed exchange: the user's text and the reply it received. */
  datatype Exchange = Exchange(input: string, reply: string)

  /** The messages a sequence of exchanges leaves in the log, in order. */
  function Pairs(es: seq<Exchange>): (r: seq<Message>)
    ensures |r| == 2 * |es|
  {
    if es == [] then []
    else
      var e := es[|es| - 1];
      Pairs(es[..|es| - 1]) + [Message(User, e.input), Message(Assistant, e.reply)]
  }

  /** The most recent `ExchangesKept` exchanges (all of them if there are fewer). */
  function Recent(es: seq<Exchange>): (r: seq<Exchange>)
    ensures |r| == if |es| <= ExchangesKept then |es| else ExchangesKept
  {
    if |es| <= ExchangesKept then es else es[|es| - ExchangesKept..]
  }

  /** The log after running the turns `es`, in order, from `m`. */
  function Replay(m: seq<Message>, es: seq<Exchange>): seq<Message>
  {
    if es == [] then m
    else
      var e := es[|es| - 1];
      TurnResult(Replay(m, es[..|es| - 1]), e.input, e.reply)
  }

  /** Dropping the first exchange drops the first two messages. */
  lemma {:induction false} PairsDropFirst(es: seq<Exchange>)
    requires |es| >= 1
    ensures Pairs(es[1..]) == Pairs(es)[2..]
  {
    if |es| > 1 {
      var init := es[..|es| - 1];
      PairsDropFirst(init);
      assert es[1..][..|es| - 2] == init[1..];
    } else {
      assert es[1..] == [];
    }
  }

  /** Appending one exchange appends its two messages. */
  lemma PairsSnoc(es: seq<Exchange>, e: Exchange)
    ensures Pairs(es + [e]) == Pairs(es) + [Message(User, e.input), Message(Assistant, e.reply)]
  {
    assert (es + [e])[..|es|] == es;
  }

  /** The window of recent exchanges slides by one when an exchange is added
      to a full window. */
  lemma RecentSlides(es: seq<Exchange>, e: Exchange)
    ensures |es| < ExchangesKept ==> Recent(es + [e]) == es + [e]
    ensures |es| >= ExchangesKept ==> Recent(es + [e]) == Recent(es)[1..] + [e]
  {
  }

  /** A log made of the preamble and whole exchanges has odd length. */
  lemma WindowLength(preamble: Message, window: seq<Exchange>)
    ensures |[preamble] + Pairs(window)| == 1 + 2 * |window|
    ensures |[preamble] + Pairs(window)| % 2 == 1
  {
    var k := |window|;
    assert |Pairs(window)| == 2 * k;
    assert (2 * k + 1) / 2 == k;
  }

  /** A successful turn on a full log drops the oldest exchange of the window
      and adds the new one at the end. */
  lemma FullWindowTurn(preamble: Message, window: seq<Exchange>, e: Exchange)
    requires |window| == ExchangesKept && !Failed(e.reply)
    ensures TurnResult([preamble] + Pairs(window), e.input, e.reply)
         == [preamble] + Pairs(window[1..] + [e])
  {
    var before := [preamble] + Pairs(window);
    SuccessfulTurn(before, e.input, e.reply);
    PairsDropFirst(window);
    assert EvictOldest(before) == [preamble] + Pairs(window[1..]);
    PairsSnoc(window[1..], e);
  }

  /** A successful turn below capacity adds the new exchange at the end. */
  lemma PartialWindowTurn(preamble: Message, window: seq<Exchange>, e: Exchange)
    requires |window| < ExchangesKept && !Failed(e.reply)
    ensures TurnResult([preamble] + Pairs(window), e.input, e.reply)
         == [preamble] + Pairs(window + [e])
  {
    WindowLength(preamble, window);
    SuccessfulTurn([preamble] + Pairs(window), e.input, e.reply);
    WindowSnoc(preamble, window, e);
  }

  /** The log over `window + [e]` is the log over `window` followed by the
      two messages of `e`. */
  lemma WindowSnoc(preamble: Message, window: seq<Exchange>, e: Exchange)
    ensures [preamble] + Pairs(window + [e])
         == [preamble] + Pairs(window) + [Message(User, e.input), Message(Assistant, e.reply)]
  {
    PairsSnoc(window, e);
  }

  /** One successful turn moves the log from the window over `es` to the
      window over `es + [e]`. */
  lemma TurnSlidesWindow(preamble: Message, es: seq<Exchange>, e: Exchange)
    requires !Failed(e.reply)
    ensures TurnResult([preamble] + Pairs(Recent(es)), e.input, e.reply)
         == [preamble] + Pairs(Recent(es + [e]))
  {
    RecentSlides(es, e);
    if |es| < ExchangesKept {
      PartialWindowTurn(preamble, es, e);
    } else {
      FullWindowTurn(preamble, Recent(es), e);
    }
  }

  /** After any number of successful turns from a fresh log the preamble is
      followed by exactly the ten most recent exchanges (all of them while
      there are at most ten), oldest first: the log is a FIFO window. */
  lemma {:induction false} ReplayKeepsRecent(preamble: Message, es: seq<Exchange>)
    requires forall k :: 0 <= k < |es| ==> !Failed(es[k].reply)
    ensures Replay([preamble], es) == [preamble] + Pairs(Recent(es))
    ensures |Replay([preamble], es)|
         == 1 + 2 * (if |es| <= ExchangesKept then |es| else ExchangesKept)
  {
    if es != [] {
      var init, e := es[..|es| - 1], es[|es| - 1];
      assert init + [e] == es;
      assert Replay([preamble], es) == TurnResult(Replay([preamble], init), e.input, e.reply);
      ReplayKeepsRecent(preamble, init);
      TurnSlidesWindow(preamble, init, e);
    }
  }
}
