/** The conversation of an agent, crs/agents/agent.py: how tool calls and tool replies pair up
    in its history, and what dropping old messages does to the pairing. */
module AgentSpec {
  import opened Wrappers

  datatype Role = System | User | Assistant | Tool

  /** `calls` are the ids of the tool calls issued, `answers` the id of the call replied to. */
  datatype Message = Message(role: Role, content: Option<string>, calls: seq<string>, answers: Option<string>)

  function UserMessage(text: string): Message { Message(User, Some(text), [], None) }

  function ToolReply(id: string, text: string): Message { Message(Tool, Some(text), [], Some(id)) }

  /** A message that neither issues nor answers calls. */
  predicate Plain(m: Message) { m.role == User || m.role == System }

  // ---------------------------------------------------------------- pairing

  type Open = Option<multiset<string>>

  /** The calls still open after a message; None once the history is broken, by a reply to no
      open call or by an assistant message while calls are open. */
  function Step(p: Open, m: Message): Open {
    if p.None? then None
    else match m.role
      case Assistant => if p.value == multiset{} then Some(multiset(m.calls)) else None
      case Tool =>
        if m.answers.Some? && m.answers.value in p.value then Some(p.value - multiset{m.answers.value}) else None
      case _ => p
  }

  function Pending(p: Open, msgs: seq<Message>): Open
    decreases |msgs|
  {
    if msgs == [] then p else Pending(Step(p, msgs[0]), msgs[1..])
  }

  const DONE: Open := Some(multiset{})

  predicate Paired(msgs: seq<Message>) { Pending(DONE, msgs) == DONE }

  /** The ids replied to before the next assistant message. */
  ghost function RepliesHere(msgs: seq<Message>): multiset<string> {
    if msgs == [] || msgs[0].role == Assistant then multiset{}
    else
      (if msgs[0].role == Tool && msgs[0].answers.Some? then multiset{msgs[0].answers.value} else multiset{})
      + RepliesHere(msgs[1..])
  }

  /** Every assistant message is followed, before the next one, by exactly one reply to each of
      its calls and no other reply. */
  ghost predicate EachAnswered(msgs: seq<Message>) {
    msgs == [] || (
      && (msgs[0].role == Assistant ==> RepliesHere(msgs[1..]) == multiset(msgs[0].calls))
      && (msgs[0].role == Tool ==> msgs[0].answers.Some?)
      && EachAnswered(msgs[1..]))
  }

  lemma {:induction false} PendingIff(p: multiset<string>, msgs: seq<Message>)
    ensures Pending(Some(p), msgs) == DONE <==> RepliesHere(msgs) == p && EachAnswered(msgs)
    decreases |msgs|
  {
    if msgs != [] {
      var next := Step(Some(p), msgs[0]);
      if next.Some? {
        PendingIff(next.value, msgs[1..]);
      } else {
        Broken(msgs[1..]);
        if msgs[0].role == Tool && msgs[0].answers.Some? {
          assert RepliesHere(msgs) == multiset{msgs[0].answers.value} + RepliesHere(msgs[1..]);
          assert msgs[0].answers.value in RepliesHere(msgs);
        }
      }
    }
  }

  lemma {:induction false} Broken(msgs: seq<Message>)
    ensures Pending(None, msgs) == None
    decreases |msgs|
  {
    if msgs != [] {
      Broken(msgs[1..]);
    }
  }

  /** The history is paired exactly when no reply stands before the first assistant message and
      every assistant message has each of its calls answered once before the next. */
  lemma PairedIff(msgs: seq<Message>)
    ensures Paired(msgs) <==> RepliesHere(msgs) == multiset{} && EachAnswered(msgs)
  {
    PendingIff(multiset{}, msgs);
  }

  lemma {:induction false} PendingConcat(p: Open, a: seq<Message>, b: seq<Message>)
    ensures Pending(p, a + b) == Pending(Pending(p, a), b)
    decreases |a|
  {
    if a == [] {
      assert a + b == b;
    } else {
      assert (a + b)[1..] == a[1..] + b;
      PendingConcat(Step(p, a[0]), a[1..], b);
    }
  }

  lemma {:induction false} PlainKeepsOpen(p: Open, msgs: seq<Message>)
    requires forall m :: m in msgs ==> Plain(m)
    ensures Pending(p, msgs) == p
    decreases |msgs|
  {
    if msgs != [] {
      assert msgs[0] in msgs;
      PlainKeepsOpen(p, msgs[1..]);
    }
  }

  // ---------------------------------------------------------------- compression

  const NOTICE := UserMessage("[some messages were removed due to context size constraints]")

  function FromAssistant(msgs: seq<Message>): seq<Message> {
    if msgs == [] || msgs[0].role == Assistant then msgs else FromAssistant(msgs[1..])
  }

  function Head(msgs: seq<Message>): seq<Message> { if |msgs| < 2 then msgs else msgs[..2] }

  /** The first two messages, a notice, and the last third from its first assistant message on;
      an error if the last third has none. */
  function Compressed(msgs: seq<Message>): Result<seq<Message>, ()> {
    var post := FromAssistant(msgs[2 * |msgs| / 3..]);
    if post == [] then Err(()) else Ok(Head(msgs) + [NOTICE] + post)
  }

  lemma {:induction false} FromAssistantIsTail(msgs: seq<Message>) returns (i: nat)
    ensures i <= |msgs| && FromAssistant(msgs) == msgs[i..]
    ensures i < |msgs| ==> msgs[i].role == Assistant
    ensures forall k :: 0 <= k < i ==> msgs[k].role != Assistant
    decreases |msgs|
  {
    if msgs == [] || msgs[0].role == Assistant {
      i := 0;
    } else {
      i := FromAssistantIsTail(msgs[1..]);
      i := i + 1;
      assert msgs[i..] == msgs[1..][i - 1..];
    }
  }

  /** In a paired history nothing is open where an assistant message stands. */
  lemma AssistantStartsAnew(msgs: seq<Message>, i: nat)
    requires Paired(msgs) && i < |msgs| && msgs[i].role == Assistant
    ensures Pending(DONE, msgs[..i]) == DONE && Pending(DONE, msgs[i..]) == DONE
  {
    assert msgs == msgs[..i] + msgs[i..];
    PendingConcat(DONE, msgs[..i], msgs[i..]);
    Broken(msgs[i..][1..]);
    Broken(msgs[i..]);
  }

  /** Where the kept end of a compressed history starts. */
  lemma KeptFrom(msgs: seq<Message>) returns (i: nat)
    requires Compressed(msgs).Ok?
    ensures 2 * |msgs| / 3 <= i < |msgs| && msgs[i].role == Assistant
    ensures Compressed(msgs).value == Head(msgs) + [NOTICE] + msgs[i..]
  {
    var from := 2 * |msgs| / 3;
    var j := FromAssistantIsTail(msgs[from..]);
    i := from + j;
    assert msgs[from..][j..] == msgs[i..];
  }

  /** Dropping old messages keeps the pairing exactly when the two messages always kept leave
      no call open. */
  lemma CompressKeepsPairingIff(msgs: seq<Message>)
    requires Paired(msgs) && Compressed(msgs).Ok?
    ensures Paired(Compressed(msgs).value) <==> Paired(Head(msgs))
  {
    var i := KeptFrom(msgs);
    var pre := Head(msgs);
    AssistantStartsAnew(msgs, i);
    PendingConcat(DONE, pre + [NOTICE], msgs[i..]);
    PendingConcat(DONE, pre, [NOTICE]);
    PlainKeepsOpen(Pending(DONE, pre), [NOTICE]);
    if Pending(DONE, pre) != DONE {
      Broken(msgs[i..][1..]);
      Broken(msgs[i..]);
    }
  }

  /** It keeps the first two messages and the last one, and fails exactly when the last third
      holds no assistant message. */
  lemma CompressKeepsEnds(msgs: seq<Message>)
    ensures Compressed(msgs).Err? <==> forall k :: 2 * |msgs| / 3 <= k < |msgs| ==> msgs[k].role != Assistant
    ensures Compressed(msgs).Ok? ==>
      var r := Compressed(msgs).value;
      r != [] && r[|r| - 1] == msgs[|msgs| - 1] && (|msgs| >= 2 ==> |r| >= 2 && Head(r) == Head(msgs))
  {
    if Compressed(msgs).Ok? {
      var i := KeptFrom(msgs);
    } else {
      var from := 2 * |msgs| / 3;
      var j := FromAssistantIsTail(msgs[from..]);
      forall k | from <= k < |msgs| ensures msgs[k].role != Assistant {
        assert msgs[from..][k - from] == msgs[k];
      }
    }
  }

  /** What is kept: the first two messages, a notice, and everything from the first assistant
      message of the last third on. */
  lemma CompressedIs(msgs: seq<Message>, i: nat)
    requires 2 <= |msgs| && 2 * |msgs| / 3 <= i < |msgs| && msgs[i].role == Assistant
    requires forall k :: 2 * |msgs| / 3 <= k < i ==> msgs[k].role != Assistant
    ensures Compressed(msgs)
         == Ok(msgs[..2]
               + [Message(User, Some("[some messages were removed due to context size constraints]"), [], None)]
               + msgs[i..])
  {
    var from := 2 * |msgs| / 3;
    var j := FromAssistantIsTail(msgs[from..]);
    assert msgs[from..][i - from] == msgs[i] && msgs[from..][j..] == msgs[from + j..];
    assert j < |msgs| - from ==> msgs[from..][j] == msgs[from + j];
  }

  /** A history of one question, a call and its reply, an answer and a second question: the
      call is kept and its reply dropped. */
  lemma CompressMayBreakPairing() returns (msgs: seq<Message>)
    ensures Paired(msgs) && Compressed(msgs).Ok? && !Paired(Compressed(msgs).value)
  {
    var call := Message(Assistant, None, ["c"], None);
    var answer := Message(Assistant, Some("done"), [], None);
    msgs := [UserMessage("first"), call, ToolReply("c", "result"), answer, UserMessage("second")];
    assert msgs[1..] == [call, ToolReply("c", "result"), answer, UserMessage("second")];
    assert msgs[1..][1..] == [ToolReply("c", "result"), answer, UserMessage("second")];
    assert msgs[1..][1..][1..] == [answer, UserMessage("second")];
    assert msgs[1..][1..][1..][1..] == [UserMessage("second")];
    assert multiset(["c"]) - multiset{"c"} == multiset{};
    assert [answer, UserMessage("second")][1..] == [UserMessage("second")];
    assert [UserMessage("second")][1..] == [] && multiset(answer.calls) == multiset{};
    assert Pending(DONE, [UserMessage("second")]) == DONE;
    assert Pending(DONE, [answer, UserMessage("second")]) == DONE;
    assert Pending(Some(multiset(["c"])), msgs[1..][1..]) == DONE;
    assert Pending(DONE, msgs[1..]) == DONE;
    assert msgs[3..] == [answer, UserMessage("second")];
    assert FromAssistant(msgs[2 * |msgs| / 3..]) == msgs[3..];
    assert Head(msgs) == [UserMessage("first"), call] && Head(msgs)[1..] == [call] && [call][1..] == [];
    assert Pending(DONE, [call]) == Some(multiset(["c"]));
    assert "c" in multiset(["c"]);
    CompressKeepsPairingIff(msgs);
  }
}
