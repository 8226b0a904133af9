/** The agent loop of crs/agents/agent.py. What the model, the tools and the operator do in one
    iteration is a `Turn`; a run consumes a list of them. */
module Agent {
  import opened AgentSpec
  import opened Wrappers

  /** What a request to the model brings. */
  datatype Reply = Overflow | Failed | Response(msg: Message, cost: real)

  datatype Action = Action(stop: bool, append: seq<Message>, rewind: int)

  /** What the text of a call's arguments is, read as JSON. */
  datatype Json = Malformed | Null | Truth | Number | Text | Array | Object

  /** What comes of running the tool; `encodable` tells whether its result can be written as
      JSON, which the text of an exception always can. */
  datatype ToolRun =
    | Undefined
    | Raised(text: string)
    | Returned(text: string, action: Action, encodable: bool)

  /** What one tool call comes to: the agent was stopped from outside, or the call was made. */
  datatype Outcome = Stopped | Called(arguments: Json, run: ToolRun)

  /** What `get_result` makes of the assistant's message. */
  datatype Verdict = Continue | Nudge(msg: Message) | Final(text: string)

  datatype Turn = Turn(first: Reply, second: Reply, outcomes: nat -> Outcome, verdict: Verdict)

  datatype AgentError = InvalidState | NoContext | ModelError | RewindUnsupported | ToolCrashed

  /** `get_result` of the plain agent. */
  function PlainVerdict(m: Message): Verdict {
    if m.calls != [] then Continue
    else if m.content.None? then Nudge(UserMessage("If you are done, please return your results"))
    else Final(m.content.value)
  }

  const MAX_RESULT := 40 * 1024
  const TOO_LARGE := "{\"error\":\"Tool call output was too large to return. Please try another approach.\"}"

  /** The handler itself raises: a nameless argument can be dropped from an object only, and a
      result that is no JSON cannot be sent. Neither is inside the handler's recovery. */
  predicate Crashes(o: Outcome) {
    o.Called?
    && ((!o.arguments.Malformed? && !o.arguments.Object?)
        || (o.arguments.Object? && o.run.Returned? && !o.run.encodable))
  }

  ghost predicate PlainAction(o: Outcome) {
    ActionOf(o).Some? ==> forall m :: m in ActionOf(o).value.append ==> Plain(m)
  }

  /** The model speaks as the assistant, and only plain messages are added. */
  ghost predicate Proper(t: Turn) {
    && (t.first.Response? ==> t.first.msg.role == Assistant)
    && (t.second.Response? ==> t.second.msg.role == Assistant)
    && (t.verdict.Nudge? ==> Plain(t.verdict.msg))
    && forall k :: PlainAction(t.outcomes(k))
  }

  /** The message that comes of a request and its one repetition. */
  function Said(first: Reply, second: Reply): Message
    requires first.Response? || second.Response?
  {
    if first.Response? then first.msg else second.msg
  }

  /** What the response is charged. */
  function CostOf(first: Reply, second: Reply): real {
    if first.Response? then first.cost else if second.Response? then second.cost else 0.0
  }

  function CostUpTo(turns: seq<Turn>, k: nat): real
    requires k <= |turns|
  {
    if k == 0 then 0.0 else CostUpTo(turns, k - 1) + CostOf(turns[k - 1].first, turns[k - 1].second)
  }

  /** No response came: nothing is charged. */
  predicate Unanswered<T>(r: Result<T, AgentError>) {
    r.Err? && r.error in {InvalidState, NoContext, ModelError}
  }

  /** The turn answers or ends a message without calls. */
  predicate Decides(t: Turn) {
    (t.first.Response? || t.second.Response?) && Said(t.first, t.second).calls == [] ==> !t.verdict.Continue?
  }

  /** After `i` turns the next request fails its assertion: the run started so, or the last turn
      neither answered nor ended a message without calls. */
  predicate Stuck(turns: seq<Turn>, i: nat, atStart: bool)
    requires i <= |turns|
  {
    if i == 0 then atStart else !Decides(turns[i - 1])
  }

  /** None of the first `i` turns stops the agent or answers. */
  ghost predicate NoneStops(turns: seq<Turn>, i: nat)
    requires i <= |turns|
  {
    forall k :: 0 <= k < i ==> !StopIn(turns[k]) && !turns[k].verdict.Final?
  }

  /** A call of this turn's message makes its handler raise. */
  ghost predicate CrashIn(t: Turn) {
    (t.first.Response? || t.second.Response?)
    && SomeCrash(t.outcomes, |Said(t.first, t.second).calls|)
  }

  /** The turn of a plain agent. */
  predicate PlainTurn(t: Turn) {
    t.first.Response? || t.second.Response? ==> t.verdict == PlainVerdict(Said(t.first, t.second))
  }

  /** What is sent back for a call whose handler does not raise; `stopped` tells that the agent
      had been stopped by then. */
  function ReplyText(o: Outcome, stopped: bool): string {
    if stopped || o.Stopped? then "Tool call was canceled by admin request"
    else if !o.arguments.Object? then "ERROR: failed to decode tool arguments as proper JSON"
    else if o.run.Undefined? then "ERROR: NOT DEFINED"
    else if |o.run.text| > MAX_RESULT then TOO_LARGE
    else o.run.text
  }

  /** A tool that ran is answered with its result, unless that is too long, or the call was
      cancelled; no reply is longer than forty kilobytes. */
  lemma ResultIsSent(o: Outcome, stopped: bool)
    ensures |ReplyText(o, stopped)| <= 40960
    ensures o.Called? && o.arguments.Object? && !o.run.Undefined? && !stopped ==>
      if |o.run.text| <= 40960 then ReplyText(o, stopped) == o.run.text
      else ReplyText(o, stopped)
           == "{\"error\":\"Tool call output was too large to return. Please try another approach.\"}"
  {
    assert |TOO_LARGE| <= 100;
  }

  const NO_ACTION := Action(false, [], 0)

  function ActionOf(o: Outcome): Option<Action> {
    if o.Stopped? || !o.arguments.Object? || o.run.Undefined? then None
    else Some(if o.run.Returned? then o.run.action else NO_ACTION)
  }

  /** A tool that returned has its action taken, unless the call was cancelled; nothing else that
      comes of a call asks for anything. */
  lemma ActionIsTheTools(o: Outcome)
    ensures o.Called? && o.arguments.Object? && o.run.Returned? ==> ActionOf(o) == Some(o.run.action)
    ensures !(o.Called? && o.arguments.Object? && o.run.Returned?) && ActionOf(o).Some? ==>
      !ActionOf(o).value.stop && ActionOf(o).value.append == [] && ActionOf(o).value.rewind == 0
  {
  }

  /** Something in the turn stops the agent: the operator, a tool, or the final answer. */
  ghost predicate StopIn(t: Turn) {
    && (t.first.Response? || t.second.Response?)
    && var n := |Said(t.first, t.second).calls|;
       || t.verdict.Final? || SomeStop(t.outcomes, n)
       || exists k :: 0 <= k < n && ActionOf(t.outcomes(k)).Some? && ActionOf(t.outcomes(k)).value.stop
  }

  lemma StopsIff(actions: seq<Option<Action>>, calls: seq<string>, outcomes: nat -> Outcome, stopped: bool)
    requires Requests(actions, calls, outcomes, stopped)
    ensures stopped || Stops(actions) <==>
      stopped || exists k :: 0 <= k < |calls| && ActionOf(outcomes(k)).Some? && ActionOf(outcomes(k)).value.stop
  {
    if k :| 0 <= k < |calls| && ActionOf(outcomes(k)).Some? && ActionOf(outcomes(k)).value.stop {
      assert actions[k] == ActionOf(outcomes(k)) || stopped;
    }
  }

  /** The reply to a call; only a stopped agent cancels one that was not stopped itself. */
  ghost predicate IsReply(m: Message, id: string, o: Outcome, stopped: bool) {
    m == ToolReply(id, ReplyText(o, false)) || (stopped && m == ToolReply(id, ReplyText(o, true)))
  }

  /** The replies answer the calls `done`, in that order and each once. */
  ghost predicate Answered(replies: seq<Message>, calls: seq<string>, outcomes: nat -> Outcome, done: seq<nat>,
                           stopped: bool) {
    && |done| == |replies|
    && (forall k :: 0 <= k < |done| ==>
          done[k] < |calls| && IsReply(replies[k], calls[done[k]], outcomes(done[k]), stopped))
    && (forall i, j :: 0 <= i < j < |done| ==> done[i] != done[j])
  }

  ghost predicate RepliesOf(replies: seq<Message>, calls: seq<string>, outcomes: nat -> Outcome, stopped: bool) {
    exists done :: Answered(replies, calls, outcomes, done, stopped)
  }

  /** Every call has its reply, in whatever order. */
  ghost predicate Replies(replies: seq<Message>, calls: seq<string>, outcomes: nat -> Outcome, stopped: bool) {
    |replies| == |calls| && RepliesOf(replies, calls, outcomes, stopped)
  }

  /** One of the first `n` calls makes its handler raise. */
  ghost predicate SomeCrash(outcomes: nat -> Outcome, n: nat) {
    exists k :: 0 <= k < n && Crashes(outcomes(k))
  }

  ghost predicate SomeStop(outcomes: nat -> Outcome, n: nat) {
    exists k :: 0 <= k < n && outcomes(k).Stopped?
  }

  /** The tools' requests: those of calls cancelled before they ran are missing. */
  ghost predicate Requests(actions: seq<Option<Action>>, calls: seq<string>, outcomes: nat -> Outcome, stopped: bool) {
    && |actions| == |calls|
    && forall k :: 0 <= k < |actions| ==> actions[k] == ActionOf(outcomes(k)) || (stopped && actions[k] == None)
  }

  function Appended(actions: seq<Option<Action>>): seq<Message> {
    if actions == [] then []
    else
      var last := actions[|actions| - 1];
      Appended(actions[..|actions| - 1]) + if last.Some? then last.value.append else []
  }

  ghost predicate Stops(actions: seq<Option<Action>>) {
    exists k :: 0 <= k < |actions| && actions[k].Some? && actions[k].value.stop
  }

  function Nudged(v: Verdict): seq<Message> { if v.Nudge? then [v.msg] else [] }

  /** What a turn adds to the history it was asked on: the assistant's message, one reply to
      each call, what the tools asked to append, and the nudge if there is one. */
  ghost predicate Extends(before: seq<Message>, t: Turn, after: seq<Message>)
    requires t.first.Response? || t.second.Response?
  {
    var m := Said(t.first, t.second);
    exists replies, actions, stopped ::
      && Replies(replies, m.calls, t.outcomes, stopped) && Requests(actions, m.calls, t.outcomes, stopped)
      && after == before + [m] + replies + Appended(actions) + Nudged(t.verdict)
  }

  predicate EndsAssistant(msgs: seq<Message>) { msgs != [] && msgs[|msgs| - 1].role == Assistant }

  /** A history fit to be sent. */
  ghost predicate Askable(msgs: seq<Message>) {
    msgs != [] && !EndsAssistant(msgs) && Paired(msgs)
  }

  /** The ids of the calls not handled yet and of those whose handler raised; the calls replied to,
      and the replies. */
  datatype Progress = Progress(open: seq<string>, lost: seq<string>, done: seq<nat>, replies: seq<Message>)

  /** The history's open calls are among `calls`, as many as have no reply. */
  ghost predicate LeftOpen(msgs: seq<Message>, calls: seq<string>, replies: seq<Message>) {
    var open := Pending(DONE, msgs);
    open.Some? && open.value <= multiset(calls) && |open.value| + |replies| == |calls|
  }

  /** An exchange: the assistant's message and its replies are entered. The history is paired
      afterwards if and only if no handler raised, and then every call has its reply; else some
      of the message's calls are open. Only a stopped agent gets past a call that would crash. */
  ghost predicate Exchanged(before: seq<Message>, msg: Message, outcomes: nat -> Outcome, replies: seq<Message>,
                            crashed: bool, was: bool, stopped: bool, after: seq<Message>) {
    && after == before + [msg] + replies && RepliesOf(replies, msg.calls, outcomes, stopped)
    && (Paired(after) <==> !crashed) && LeftOpen(after, msg.calls, replies)
    && (crashed ==> SomeCrash(outcomes, |msg.calls|))
    && (!stopped ==> (crashed <==> SomeCrash(outcomes, |msg.calls|)))
    && (!crashed ==> |replies| == |msg.calls| && (EndsAssistant(after) <==> msg.calls == []))
    && (stopped ==> was || SomeStop(outcomes, |msg.calls|))
    && (!crashed && (was || SomeStop(outcomes, |msg.calls|)) ==> stopped)
  }

  class Agent {
    const parent: Agent?
    ghost const ancestors: set<Agent>
    const compressible: bool
    var msgs: seq<Message>
    var terminated: bool
    var cost: real
    var modelIdx: nat

    /** The histories sent to the model so far. */
    ghost var asked: seq<seq<Message>>

    ghost predicate Rooted()
      decreases ancestors
    {
      && this !in ancestors
      && if parent == null then ancestors == {} else
           parent !in parent.ancestors && ancestors == {parent} + parent.ancestors && parent.Rooted()
    }

    /** What holds on every exit: the first two messages leave no call open, and every history
        sent was fit to be. */
    ghost predicate Sound()
      reads this
    {
      Rooted() && |msgs| >= 2 && Paired(Head(msgs)) && forall h :: h in asked ==> Askable(h)
    }

    ghost predicate Valid()
      reads this
    {
      Sound() && Paired(msgs)
    }

    constructor (parent: Agent?, compressible: bool, system: string, user: string)
      requires parent != null ==> parent.Rooted()
      ensures Valid() && !EndsAssistant(msgs) && asked == []
    {
      this.parent, this.compressible := parent, compressible;
      ancestors := if parent == null then {} else {parent} + parent.ancestors;
      msgs := [Message(System, Some(system), [], None), UserMessage(user)];
      terminated, cost, modelIdx, asked := false, 0.0, 0, [];
      new;
      assert parent != null ==> this !in parent.ancestors;
      PlainKeepsOpen(DONE, msgs);
      assert Head(msgs) == msgs;
    }

    /** Charges the agent and every agent above it. */
    method AddCost(c: real)
      requires Rooted()
      modifies `cost, ancestors`cost
      ensures cost == old(cost) + c
      ensures forall a :: a in ancestors ==> a.cost == old(a.cost) + c
      decreases ancestors
    {
      cost := cost + c;
      if parent != null {
        parent.AddCost(c);
      }
    }

    method AppendUserMsg(text: string)
      requires Valid()
      modifies `msgs
      ensures Valid() && msgs == old(msgs) + [UserMessage(text)]
    {
      AppendPlain([UserMessage(text)]);
    }

    method AppendPlain(more: seq<Message>)
      requires Valid() && forall m :: m in more ==> Plain(m)
      modifies `msgs
      ensures Valid() && msgs == old(msgs) + more
      ensures EndsAssistant(msgs) <==> more == [] && old(EndsAssistant(msgs))
    {
      assert more != [] ==> more[|more| - 1] in more;
      PendingConcat(DONE, msgs, more);
      PlainKeepsOpen(DONE, more);
      assert Head(msgs + more) == Head(msgs);
      msgs := msgs + more;
    }

    method CompressContext() returns (ok: bool)
      requires Valid()
      modifies `msgs
      ensures Valid() && EndsAssistant(msgs) == old(EndsAssistant(msgs))
      ensures ok <==> old(Compressed(msgs)).Ok?
      ensures msgs == if ok then old(Compressed(msgs)).value else old(msgs)
    {
      CompressKeepsEnds(msgs);
      var r := Compressed(msgs);
      if r.Ok? {
        CompressKeepsPairingIff(msgs);
        msgs := r.value;
      }
      ok := r.Ok?;
    }

    /** One request. The assertion on the last message is the error `InvalidState`. */
    method Request(reply: Reply) returns (r: Result<Reply, AgentError>)
      requires Valid()
      modifies `asked
      ensures Valid() && (r.Err? <==> EndsAssistant(msgs))
      ensures if r.Ok? then r.value == reply && asked == old(asked) + [msgs]
              else r.error == InvalidState && asked == old(asked)
    {
      if msgs[|msgs| - 1].role == Assistant {
        return Err(InvalidState);
      }
      asked := asked + [msgs];
      r := Ok(reply);
    }

    /** A request, with one more after compressing the context or switching the model. */
    method Completion(first: Reply, second: Reply) returns (r: Result<Message, AgentError>)
      requires Valid()
      modifies `msgs, `asked, `cost, `modelIdx, ancestors`cost
      ensures Valid() && EndsAssistant(msgs) == old(EndsAssistant(msgs))
      ensures r == Err(InvalidState) <==> old(EndsAssistant(msgs))
      ensures r.Err? ==> r.error in {InvalidState, NoContext, ModelError}
      ensures r.Ok? ==> (first.Response? || second.Response?) && r.value == Said(first, second)
      ensures msgs == old(msgs) || (first.Overflow? && compressible && Ok(msgs) == old(Compressed(msgs)))
      ensures r.Ok? ==> |asked| > |old(asked)| && asked[|asked| - 1] == msgs
      ensures |asked| == |old(asked)|
              + if r == Err(InvalidState) then 0 else if first.Response? || r == Err(NoContext) then 1 else 2
      ensures asked[..|old(asked)|] == old(asked) && (r != Err(InvalidState) ==> asked[|old(asked)|] == old(msgs))
      ensures cost == old(cost) + if r.Ok? then CostOf(first, second) else 0.0
      ensures forall a :: a in ancestors ==> a.cost == old(a.cost) + if r.Ok? then CostOf(first, second) else 0.0
      ensures modelIdx == old(modelIdx)
              + if EndsAssistant(msgs) || first.Response? || (first.Overflow? && compressible) then 0 else 1
    {
      var response := Ask(first, second);
      if response.Err? {
        return Err(response.error);
      }
      AddCost(response.value.cost);
      r := Ok(response.value.msg);
    }

    /** The one or two requests. */
    method Ask(first: Reply, second: Reply) returns (r: Result<Reply, AgentError>)
      requires Valid()
      modifies `msgs, `asked, `modelIdx
      ensures Valid() && EndsAssistant(msgs) == old(EndsAssistant(msgs))
      ensures r == Err(InvalidState) <==> old(EndsAssistant(msgs))
      ensures r.Err? ==> r.error in {InvalidState, NoContext, ModelError}
      ensures r.Ok? ==> r.value.Response? && r.value == if first.Response? then first else second
      ensures msgs == old(msgs) || (first.Overflow? && compressible && Ok(msgs) == old(Compressed(msgs)))
      ensures r.Ok? ==> |asked| > |old(asked)| && asked[|asked| - 1] == msgs
      ensures |asked| == |old(asked)|
              + if r == Err(InvalidState) then 0 else if first.Response? || r == Err(NoContext) then 1 else 2
      ensures asked[..|old(asked)|] == old(asked) && (r != Err(InvalidState) ==> asked[|old(asked)|] == old(msgs))
      ensures modelIdx == old(modelIdx)
              + if EndsAssistant(msgs) || first.Response? || (first.Overflow? && compressible) then 0 else 1
    {
      r := Request(first);
      if r.Err? {
        return;
      }
      if first.Overflow? && compressible {
        var ok := CompressContext();
        if !ok {
          return Err(NoContext);
        }
        r := Request(second);
      } else if !first.Response? {
        modelIdx := modelIdx + 1;
        r := Request(second);
      }
      if !r.value.Response? {
        r := Err(ModelError);
      }
    }

    /** Answers one tool call with exactly one message, unless the handler raises. */
    method HandleToolCall(id: string, outcome: Outcome) returns (action: Option<Action>, crashed: bool)
      modifies `msgs, `terminated
      ensures terminated <==> old(terminated) || outcome.Stopped?
      ensures crashed <==> !terminated && Crashes(outcome)
      ensures msgs == old(msgs) + if crashed then [] else [ToolReply(id, ReplyText(outcome, terminated))]
      ensures action == if terminated || crashed then None else ActionOf(outcome)
    {
      terminated := terminated || outcome.Stopped?;
      action, crashed := None, false;
      if terminated {
        msgs := msgs + [ToolReply(id, "Tool call was canceled by admin request")];
        return;
      }
      if outcome.arguments.Malformed? {
        msgs := msgs + [ToolReply(id, "ERROR: failed to decode tool arguments as proper JSON")];
        return;
      }
      if !outcome.arguments.Object? {
        crashed := true;
        return;
      }
      if outcome.run.Undefined? {
        msgs := msgs + [ToolReply(id, "ERROR: NOT DEFINED")];
        return;
      }
      if outcome.run.Returned? && !outcome.run.encodable {
        crashed := true;
        return;
      }
      var text := if |outcome.run.text| > MAX_RESULT then TOO_LARGE else outcome.run.text;
      msgs := msgs + [ToolReply(id, text)];
      action := Some(if outcome.run.Returned? then outcome.run.action else NO_ACTION);
    }

    /** One handler: a reply closes its call, an exception leaves it open. */
    method AnswerOne(calls: seq<string>, outcomes: nat -> Outcome, i: nat,
                     ghost open: seq<string>, ghost lost: seq<string>, ghost j: nat)
      returns (action: Option<Action>, raised: bool, ghost more: seq<Message>)
      requires OpenIn(msgs, open, lost) && j < |open| && i < |calls| && open[j] == calls[i]
      modifies `msgs, `terminated
      ensures msgs == old(msgs) + more
      ensures more == if raised then [] else [ToolReply(calls[i], ReplyText(outcomes(i), terminated))]
      ensures OpenIn(msgs, Without(open, j), if raised then lost + [calls[i]] else lost)
      ensures terminated <==> old(terminated) || outcomes(i).Stopped?
      ensures raised <==> !terminated && Crashes(outcomes(i))
      ensures action == if terminated || raised then None else ActionOf(outcomes(i))
    {
      ghost var before := msgs;
      action, raised := HandleToolCall(calls[i], outcomes(i));
      if raised {
        more := [];
        LostMoves(before, msgs, open, lost, j);
      } else {
        more := [ToolReply(calls[i], ReplyText(outcomes(i), terminated))];
        ReplyCloses(before, msgs, open, lost, j, ReplyText(outcomes(i), terminated));
      }
    }

    /** Where the round of answers stands; the history was `before` when the round began, and
        the agent was stopped then if `was`. */
    ghost predicate Answering(calls: seq<string>, outcomes: nat -> Outcome, actions: seq<Option<Action>>,
                              rest: seq<nat>, p: Progress, before: seq<Message>, was: bool)
      reads this
    {
      && StillOpen(calls, rest, p.open) && OpenIn(msgs, p.open, p.lost)
      && msgs == before + p.replies && Apart(rest, p.done)
      && Answered(p.replies, calls, outcomes, p.done, terminated)
      && Accounted(calls, rest, p) && Decided(outcomes, actions, rest, p, |calls|, was, terminated)
    }

    /** One handler of the round finishes. */
    method AnswerNext(calls: seq<string>, outcomes: nat -> Outcome, actions: seq<Option<Action>>, rest: seq<nat>,
                      j: nat, ghost p: Progress, ghost before: seq<Message>, ghost was: bool)
      returns (more: seq<Option<Action>>, raised: bool, ghost q: Progress)
      requires Answering(calls, outcomes, actions, rest, p, before, was) && j < |rest|
      modifies `msgs, `terminated
      ensures Answering(calls, outcomes, more, Without(rest, j), q, before, was)
      ensures q.lost != [] <==> raised || p.lost != []
    {
      var i := rest[j];
      ghost var wasTerminated := terminated;
      var action; ghost var replies;
      action, raised, replies := AnswerOne(calls, outcomes, i, p.open, p.lost, j);
      more := actions[i := action];
      q := Progress(Without(p.open, j), if raised then p.lost + [calls[i]] else p.lost,
                    if raised then p.done else p.done + [i], p.replies + replies);
      AnsweredNext(calls, outcomes, rest, p, j, wasTerminated, terminated);
      StillOpenWithout(calls, rest, p.open, j);
      AccountedNext(calls, rest, p, q, j, raised, replies);
      DecidedNext(outcomes, actions, rest, p, q, |calls|, was, wasTerminated, terminated, j, raised, action);
    }

    /** Answers the calls of the message just added; the handlers finish in any order. Once one
        has raised, the others may or may not still finish before the error is seen. What is
        left open is as many of the calls as have no reply. */
    method AnswerCalls(calls: seq<string>, outcomes: nat -> Outcome)
      returns (actions: seq<Option<Action>>, crashed: bool, ghost replies: seq<Message>)
      requires Pending(DONE, msgs) == Some(multiset(calls))
      modifies `msgs, `terminated
      ensures Paired(msgs) <==> !crashed
      ensures LeftOpen(msgs, calls, replies)
      ensures msgs == old(msgs) + replies && RepliesOf(replies, calls, outcomes, terminated)
      ensures crashed ==> SomeCrash(outcomes, |calls|)
      ensures !crashed ==> |replies| == |calls| && Requests(actions, calls, outcomes, terminated)
      ensures !crashed && !terminated ==> !SomeCrash(outcomes, |calls|)
      ensures terminated ==> old(terminated) || SomeStop(outcomes, |calls|)
      ensures !crashed && (old(terminated) || SomeStop(outcomes, |calls|)) ==> terminated
    {
      actions, crashed := seq(|calls|, i => None), false;
      var rest: seq<nat> := seq(|calls|, i => i);
      ghost var p := Progress(calls, [], [], []);
      AllStillOpen(calls, rest);
      NoneHandled(actions, outcomes, rest, terminated);
      assert multiset(p.open) + multiset(p.lost) == multiset(calls);
      while rest != []
        invariant Answering(calls, outcomes, actions, rest, p, old(msgs), old(terminated))
        invariant crashed <==> p.lost != []
        decreases |rest|
      {
        if crashed {
          if * {
            break;
          }
        }
        var j :| 0 <= j < |rest|;
        var raised;
        actions, raised, p := AnswerNext(calls, outcomes, actions, rest, j, p, old(msgs), old(terminated));
        crashed := crashed || raised;
        rest := Without(rest, j);
      }
      replies := p.replies;
      LostStayOpen(msgs, p.open, p.lost);
      if !crashed {
        AllHandled(actions, calls, outcomes, terminated);
      }
    }

    method TakeAction(action: Action) returns (ok: bool)
      requires Valid() && forall m :: m in action.append ==> Plain(m)
      modifies `msgs, `terminated
      ensures Valid() && msgs == old(msgs) + action.append && (terminated <==> old(terminated) || action.stop)
      ensures EndsAssistant(msgs) ==> old(EndsAssistant(msgs))
      ensures ok <==> action.rewind == 0
    {
      terminated := terminated || action.stop;
      AppendPlain(action.append);
      ok := action.rewind == 0;
    }

    /** What the tools asked for, in the order of the calls. */
    method TakeActions(actions: seq<Option<Action>>) returns (ok: bool)
      requires Valid()
      requires forall k, m :: 0 <= k < |actions| && actions[k].Some? && m in actions[k].value.append ==> Plain(m)
      modifies `msgs, `terminated
      ensures Valid() && (ok ==> msgs == old(msgs) + Appended(actions))
      ensures EndsAssistant(msgs) ==> old(EndsAssistant(msgs))
      ensures ok <==> forall k :: 0 <= k < |actions| && actions[k].Some? ==> actions[k].value.rewind == 0
      ensures ok ==> (terminated <==> old(terminated) || Stops(actions))
    {
      for i := 0 to |actions|
        invariant Valid() && msgs == old(msgs) + Appended(actions[..i])
        invariant EndsAssistant(msgs) ==> old(EndsAssistant(msgs))
        invariant forall k :: 0 <= k < i && actions[k].Some? ==> actions[k].value.rewind == 0
        invariant terminated <==> old(terminated) || Stops(actions[..i])
      {
        StopsOneMore(old(msgs), actions, i);
        if actions[i].Some? {
          ok := TakeAction(actions[i].value);
          if !ok {
            return;
          }
        }
      }
      assert actions[..|actions|] == actions;
      ok := true;
    }

    /** Enters the assistant's message and the replies to its calls. The history is paired
        afterwards if and only if no handler raised. */
    method Exchange(msg: Message, outcomes: nat -> Outcome)
      returns (actions: seq<Option<Action>>, crashed: bool, ghost replies: seq<Message>)
      requires Valid() && msg.role == Assistant
      modifies `msgs, `terminated
      ensures Sound()
      ensures Exchanged(old(msgs), msg, outcomes, replies, crashed, old(terminated), terminated, msgs)
      ensures !crashed ==> Requests(actions, msg.calls, outcomes, terminated)
    {
      ghost var before := msgs;
      AssistantOpens(msgs, msg);
      msgs := msgs + [msg];
      actions, crashed, replies := AnswerCalls(msg.calls, outcomes);
      assert Head(msgs) == Head(before);
      assert replies != [] ==> replies[|replies| - 1].role == Tool;
    }

    /** One exchange with the model. On every exit but a raising handler the history is paired;
        there it is not. It is left ending in the assistant's message, so that the next
        iteration would fail its assertion, exactly when that message called no tool and the
        verdict added nothing. */
    method Iter(t: Turn) returns (r: Result<Option<string>, AgentError>)
      requires Valid() && Proper(t)
      modifies `msgs, `asked, `cost, `modelIdx, `terminated, ancestors`cost
      ensures Sound() && |asked| >= |old(asked)| && (Paired(msgs) <==> r != Err(ToolCrashed))
      ensures r == Err(ToolCrashed) ==> CrashIn(t)
      ensures r.Ok? && CrashIn(t) ==> terminated
      ensures r == Err(InvalidState) <==> old(EndsAssistant(msgs))
      ensures r.Ok? ==> (t.first.Response? || t.second.Response?) && |asked| > |old(asked)|
                        && Extends(asked[|asked| - 1], t, msgs)
      ensures r.Ok? ==> (EndsAssistant(msgs) <==> Said(t.first, t.second).calls == [] && !t.verdict.Nudge?)
      ensures r.Ok? ==> r.value == (if t.verdict.Final? then Some(t.verdict.text) else None)
      ensures r.Ok? ==> (terminated <==> old(terminated) || StopIn(t))
      ensures cost == old(cost) + if Unanswered(r) then 0.0 else CostOf(t.first, t.second)
      ensures forall a :: a in ancestors ==>
                a.cost == old(a.cost) + if Unanswered(r) then 0.0 else CostOf(t.first, t.second)
    {
      var reply := Completion(t.first, t.second);
      if reply.Err? {
        return Err(reply.error);
      }
      r := Respond(t, reply.value);
    }

    /** What follows on the model's message. */
    method Respond(t: Turn, msg: Message) returns (r: Result<Option<string>, AgentError>)
      requires Valid() && Proper(t) && (t.first.Response? || t.second.Response?) && msg == Said(t.first, t.second)
      modifies `msgs, `terminated
      ensures Sound() && (Paired(msgs) <==> r != Err(ToolCrashed))
      ensures r.Err? ==> r.error in {ToolCrashed, RewindUnsupported}
      ensures r == Err(ToolCrashed) ==> CrashIn(t)
      ensures r.Ok? && CrashIn(t) ==> terminated
      ensures r.Ok? ==> Extends(old(msgs), t, msgs) && (EndsAssistant(msgs) <==> msg.calls == [] && !t.verdict.Nudge?)
      ensures r.Ok? ==> r.value == (if t.verdict.Final? then Some(t.verdict.text) else None)
      ensures r.Ok? && r.value.Some? ==> terminated
      ensures r.Ok? ==> (terminated <==> old(terminated) || StopIn(t))
    {
      ghost var before := msgs;
      var actions, crashed; ghost var replies;
      actions, crashed, replies := Exchange(msg, t.outcomes);
      if crashed {
        return Err(ToolCrashed);
      }
      ghost var stopped := terminated;
      var ok := TakeActions(actions);
      if !ok {
        return Err(RewindUnsupported);
      }
      var result := Conclude(t.verdict);
      StopsIff(actions, msg.calls, t.outcomes, stopped);
      ExtendsBy(before, t, replies, actions, stopped, msgs);
      r := Ok(result);
    }

    /** Acts on the verdict. */
    method Conclude(v: Verdict) returns (result: Option<string>)
      requires Valid() && (v.Nudge? ==> Plain(v.msg))
      modifies `msgs, `terminated
      ensures Valid() && msgs == old(msgs) + Nudged(v)
      ensures EndsAssistant(msgs) <==> old(EndsAssistant(msgs)) && !v.Nudge?
      ensures result == (if v.Final? then Some(v.text) else None)
      ensures terminated <==> old(terminated) || v.Final?
    {
      result := None;
      match v {
        case Continue =>
          assert Nudged(v) == [];
        case Nudge(m) =>
          AppendPlain([m]);
        case Final(text) =>
          assert Nudged(v) == [];
          terminated := true;
          result := Some(text);
      }
    }

    /** The run goes on after `i` turns: none has stopped it or answered, and only the last could
        leave the history unfit to be sent. */
    ghost predicate Going(turns: seq<Turn>, i: nat, atStart: bool, costAtStart: real, askedAtStart: nat)
      requires i <= |turns|
      reads this
    {
      && Valid() && !terminated && NoneStops(turns, i)
      && (EndsAssistant(msgs) <==> Stuck(turns, i, atStart))
      && (i > 0 ==> !atStart && !Stuck(turns, i - 1, atStart))
      && |asked| >= askedAtStart + i && cost == costAtStart + CostUpTo(turns, i)
    }

    /** What a run of `n` turns comes to. */
    ghost predicate Ended(turns: seq<Turn>, n: nat, r: Result<Option<string>, AgentError>,
                          atStart: bool, costAtStart: real, askedAtStart: nat)
      requires n <= |turns|
      reads this
    {
      && Sound() && (Paired(msgs) <==> r != Err(ToolCrashed)) && (atStart ==> n <= 1)
      && (r == Err(ToolCrashed) ==> n > 0 && CrashIn(turns[n - 1]))
      && (r == Err(InvalidState) <==> n > 0 && Stuck(turns, n - 1, atStart))
      && (r.Ok? && r.value.Some? ==> terminated && n > 0 && turns[n - 1].verdict == Final(r.value.value))
      && (r.Ok? ==> (terminated <==> n > 0 && StopIn(turns[n - 1])))
      && (r == Ok(None) && !terminated ==> n == |turns| && |asked| >= askedAtStart + n)
      && NoneStops(turns, if n == 0 then 0 else n - 1)
      && cost == costAtStart + CostUpTo(turns, if Unanswered(r) && n > 0 then n - 1 else n)
    }

    /** One turn of a run; `go` tells whether there is another. */
    method RunTurn(turns: seq<Turn>, i: nat, ghost atStart: bool, ghost costAtStart: real, ghost askedAtStart: nat)
      returns (r: Result<Option<string>, AgentError>, go: bool)
      requires i < |turns| && Proper(turns[i]) && Going(turns, i, atStart, costAtStart, askedAtStart)
      modifies `msgs, `asked, `cost, `modelIdx, `terminated, ancestors`cost
      ensures go ==> r == Ok(None) && Going(turns, i + 1, atStart, costAtStart, askedAtStart)
      ensures !go ==> Ended(turns, i + 1, r, atStart, costAtStart, askedAtStart)
    {
      r := Iter(turns[i]);
      go := !(r.Err? || terminated || r.value.Some?);
    }

    /** At most one iteration for each turn; `n` is how many there were. */
    method Run(turns: seq<Turn>) returns (r: Result<Option<string>, AgentError>, ghost n: nat)
      requires Valid() && forall k :: 0 <= k < |turns| ==> Proper(turns[k])
      modifies `msgs, `asked, `cost, `modelIdx, `terminated, ancestors`cost
      ensures n <= |turns| && (n == 0 <==> turns == [])
      ensures Ended(turns, n, r, old(EndsAssistant(msgs)), old(cost), |old(asked)|)
    {
      terminated, n := false, 0;
      r := Ok(None);
      for i := 0 to |turns|
        invariant r == Ok(None) && n == i
        invariant Going(turns, i, old(EndsAssistant(msgs)), old(cost), |old(asked)|)
      {
        var go;
        r, go := RunTurn(turns, i, old(EndsAssistant(msgs)), old(cost), |old(asked)|);
        n := n + 1;
        if !go {
          return;
        }
      }
    }

    /** The run of a plain agent, whose own verdict decides every message without calls. */
    method RunPlain(turns: seq<Turn>) returns (r: Result<Option<string>, AgentError>)
      requires Valid() && forall k :: 0 <= k < |turns| ==> Proper(turns[k]) && PlainTurn(turns[k])
      modifies `msgs, `asked, `cost, `modelIdx, `terminated, ancestors`cost
      ensures Sound() && (Paired(msgs) <==> r != Err(ToolCrashed))
      ensures r == Err(InvalidState) <==> old(EndsAssistant(msgs)) && turns != []
    {
      assert forall k :: 0 <= k < |turns| ==> Decides(turns[k]);
      ghost var n;
      r, n := Run(turns);
    }
  }

  // ---------------------------------------------------------------- a handler that raises

  /** A single call whose arguments are JSON but no object, such as null: its handler raises,
      whatever the tool, and the history is left with exactly that call open. */
  lemma NullArgumentsCrash(before: seq<Message>, m: Message, id: string, outcomes: nat -> Outcome, run: ToolRun,
                           replies: seq<Message>, crashed: bool, after: seq<Message>)
    requires m.calls == [id] && outcomes(0) in {Called(Null, run), Called(Array, run), Called(Number, run)}
    requires Exchanged(before, m, outcomes, replies, crashed, false, false, after)
    ensures crashed && after == before + [m] && Pending(DONE, after) == Some(multiset{id})
  {
    assert Crashes(outcomes(0));
    var open := Pending(DONE, after).value;
    assert open <= multiset([id]) == multiset{id};
    assert open != multiset{} ==> open == multiset{id};
  }

  /** When the other of two calls has been answered, the open one does not even stop the next
      request: the history ends in a reply. */
  lemma OpenCallIsSent(msgs: seq<Message>, content: Option<string>, a: string, b: string, text: string)
    requires Paired(msgs)
    ensures var h := msgs + [Message(Assistant, content, [a, b], None)] + [ToolReply(b, text)];
      Pending(DONE, h) == Some(multiset{a}) && !Paired(h) && !EndsAssistant(h)
  {
    var m := Message(Assistant, content, [a, b], None);
    AssistantOpens(msgs, m);
    assert multiset([a, b]) + multiset([]) == multiset([a, b]);
    ReplyCloses(msgs + [m], msgs + [m] + [ToolReply(b, text)], [a, b], [], 1, text);
    assert Without([a, b], 1) == [a];
    assert multiset([a]) + multiset([]) == multiset{a};
    assert a in multiset{a};
  }

  /** The calls `rest` are the ones not answered yet, `open` their ids. */
  ghost predicate StillOpen(calls: seq<string>, rest: seq<nat>, open: seq<string>) {
    |open| == |rest| && forall k :: 0 <= k < |rest| ==> rest[k] < |calls| && calls[rest[k]] == open[k]
  }

  lemma AllStillOpen(calls: seq<string>, rest: seq<nat>)
    requires |rest| == |calls| && forall k :: 0 <= k < |rest| ==> rest[k] == k
    ensures StillOpen(calls, rest, calls) && Apart(rest, []) && forall k: nat :: k < |calls| ==> k in rest
  {
    forall k: nat | k < |calls| ensures k in rest {
      assert rest[k] == k;
    }
  }

  lemma StillOpenWithout(calls: seq<string>, rest: seq<nat>, open: seq<string>, j: nat)
    requires StillOpen(calls, rest, open) && j < |rest|
    ensures StillOpen(calls, Without(rest, j), Without(open, j))
  {
  }

  ghost predicate HandledAs(action: Option<Action>, o: Outcome, terminated: bool) {
    (terminated || (!Crashes(o) && action == ActionOf(o))) && (o.Stopped? ==> terminated)
  }

  /** Every call but `rest` has been handled. */
  ghost predicate HandledBut(actions: seq<Option<Action>>, outcomes: nat -> Outcome, rest: seq<nat>, terminated: bool) {
    forall k: nat :: k < |actions| ==>
      && (k in rest || HandledAs(actions[k], outcomes(k), terminated))
      && (actions[k] == ActionOf(outcomes(k)) || actions[k] == None)
  }

  lemma AllHandled(actions: seq<Option<Action>>, calls: seq<string>, outcomes: nat -> Outcome, terminated: bool)
    requires |actions| == |calls| && HandledBut(actions, outcomes, [], terminated)
    ensures Requests(actions, calls, outcomes, terminated)
    ensures !terminated ==> !SomeCrash(outcomes, |calls|)
    ensures SomeStop(outcomes, |calls|) ==> terminated
  {
  }

  lemma NoneHandled(actions: seq<Option<Action>>, outcomes: nat -> Outcome, rest: seq<nat>, terminated: bool)
    requires forall k: nat :: k < |actions| ==> actions[k] == None && k in rest
    ensures HandledBut(actions, outcomes, rest, terminated)
  {
  }

  lemma HandledOneMore(actions: seq<Option<Action>>, outcomes: nat -> Outcome, rest: seq<nat>,
                       was: bool, terminated: bool, j: nat, action: Option<Action>)
    requires HandledBut(actions, outcomes, rest, was) && j < |rest| && rest[j] < |actions|
    requires terminated <==> was || outcomes(rest[j]).Stopped?
    requires terminated || !Crashes(outcomes(rest[j]))
    requires action == if terminated then None else ActionOf(outcomes(rest[j]))
    ensures HandledBut(actions[rest[j] := action], outcomes, Without(rest, j), terminated)
  {
  }

  /** The calls still to be handled are different ones, and none of them has been replied to. */
  ghost predicate Apart(rest: seq<nat>, done: seq<nat>) {
    && (forall i, j :: 0 <= i < j < |rest| ==> rest[i] != rest[j])
    && (forall k :: 0 <= k < |done| ==> done[k] !in rest)
  }

  lemma AnsweredNext(calls: seq<string>, outcomes: nat -> Outcome, rest: seq<nat>, p: Progress, j: nat,
                     was: bool, stopped: bool)
    requires j < |rest| && rest[j] < |calls| && (was ==> stopped)
    requires Answered(p.replies, calls, outcomes, p.done, was) && Apart(rest, p.done)
    ensures Answered(p.replies, calls, outcomes, p.done, stopped) && Apart(Without(rest, j), p.done)
    ensures Answered(p.replies + [ToolReply(calls[rest[j]], ReplyText(outcomes(rest[j]), stopped))], calls, outcomes,
                     p.done + [rest[j]], stopped)
    ensures Apart(Without(rest, j), p.done + [rest[j]])
  {
    var (left, done) := (Without(rest, j), p.done + [rest[j]]);
    assert forall k :: 0 <= k < |left| ==> left[k] in rest && left[k] != rest[j];
    forall k | 0 <= k < |done| ensures done[k] !in left {
      assert done[k] == if k < |p.done| then p.done[k] else rest[j];
    }
  }

  /** Every call is open, lost or replied to. */
  ghost predicate Accounted(calls: seq<string>, rest: seq<nat>, p: Progress) {
    && |p.replies| + |rest| + |p.lost| == |calls|
    && multiset(p.open) + multiset(p.lost) <= multiset(calls)
  }

  lemma AccountedNext(calls: seq<string>, rest: seq<nat>, p: Progress, q: Progress, j: nat, raised: bool,
                      replies: seq<Message>)
    requires Accounted(calls, rest, p) && j < |rest| == |p.open|
    requires q.open == Without(p.open, j) && q.replies == p.replies + replies
    requires q.lost == if raised then p.lost + [p.open[j]] else p.lost
    requires |replies| == if raised then 0 else 1
    ensures Accounted(calls, Without(rest, j), q)
  {
    WithoutOne(p.open, j);
  }

  /** What is known of the first `n` outcomes: every call but `rest` has been handled, or a
      handler raised; and why the agent is stopped, if it is. */
  ghost predicate Decided(outcomes: nat -> Outcome, actions: seq<Option<Action>>, rest: seq<nat>, p: Progress, n: nat,
                          was: bool, stopped: bool) {
    && |actions| == n
    && (if p.lost != [] then SomeCrash(outcomes, n) else HandledBut(actions, outcomes, rest, stopped))
    && (stopped ==> was || SomeStop(outcomes, n))
    && (was ==> stopped)
  }

  lemma DecidedNext(outcomes: nat -> Outcome, actions: seq<Option<Action>>, rest: seq<nat>, p: Progress, q: Progress,
                    n: nat, was: bool, before: bool, stopped: bool, j: nat, raised: bool, action: Option<Action>)
    requires Decided(outcomes, actions, rest, p, n, was, before) && j < |rest| && rest[j] < n
    requires q.lost != [] <==> raised || p.lost != []
    requires (stopped <==> before || outcomes(rest[j]).Stopped?) && (raised <==> !stopped && Crashes(outcomes(rest[j])))
    requires action == if stopped || raised then None else ActionOf(outcomes(rest[j]))
    ensures Decided(outcomes, actions[rest[j] := action], Without(rest, j), q, n, was, stopped)
  {
    if q.lost == [] {
      HandledOneMore(actions, outcomes, rest, before, stopped, j, action);
    }
  }

  function Without<T>(s: seq<T>, j: nat): (r: seq<T>)
    requires j < |s|
    ensures |r| == |s| - 1 && forall k :: 0 <= k < |r| ==> r[k] == s[if k < j then k else k + 1]
    ensures forall x :: x in s && x != s[j] ==> x in r
  {
    var r := s[..j] + s[j + 1..];
    assert forall k :: 0 <= k < |s| && k != j ==> s[k] == r[if k < j then k else k - 1];
    r
  }

  lemma StopsOneMore(before: seq<Message>, actions: seq<Option<Action>>, i: nat)
    requires i < |actions|
    ensures Stops(actions[..i + 1]) <==> Stops(actions[..i]) || (actions[i].Some? && actions[i].value.stop)
    ensures before + Appended(actions[..i + 1])
         == before + Appended(actions[..i]) + if actions[i].Some? then actions[i].value.append else []
  {
    assert actions[..i + 1][..i] == actions[..i] && actions[..i + 1][i] == actions[i];
    assert forall k :: 0 <= k < i ==> actions[..i + 1][k] == actions[..i][k];
  }

  lemma ExtendsBy(before: seq<Message>, t: Turn, replies: seq<Message>, actions: seq<Option<Action>>, stopped: bool,
                  after: seq<Message>)
    requires t.first.Response? || t.second.Response?
    requires var m := Said(t.first, t.second);
      && Replies(replies, m.calls, t.outcomes, stopped) && Requests(actions, m.calls, t.outcomes, stopped)
      && after == before + [m] + replies + Appended(actions) + Nudged(t.verdict)
    ensures Extends(before, t, after)
  {
  }

  lemma AssistantOpens(msgs: seq<Message>, msg: Message)
    requires Paired(msgs) && msg.role == Assistant
    ensures Pending(DONE, msgs + [msg]) == Some(multiset(msg.calls))
  {
    PendingConcat(DONE, msgs, [msg]);
    assert Pending(Step(DONE, msg), []) == Step(DONE, msg);
  }

  /** The open calls of a history: those not handled yet, and those whose handler raised. */
  ghost predicate OpenIn(msgs: seq<Message>, open: seq<string>, lost: seq<string>) {
    Pending(DONE, msgs) == Some(multiset(open) + multiset(lost))
  }

  lemma LostMoves(before: seq<Message>, after: seq<Message>, open: seq<string>, lost: seq<string>, j: nat)
    requires OpenIn(before, open, lost) && j < |open| && after == before + []
    ensures OpenIn(after, Without(open, j), lost + [open[j]])
  {
    WithoutOne(open, j);
    assert after == before;
    assert multiset(open) + multiset(lost) == multiset(Without(open, j)) + multiset(lost + [open[j]]);
  }

  lemma LostStayOpen(msgs: seq<Message>, open: seq<string>, lost: seq<string>)
    requires OpenIn(msgs, open, lost)
    ensures Paired(msgs) <==> open == [] && lost == []
    ensures |multiset(open) + multiset(lost)| == |open| + |lost|
  {
    var p := multiset(open) + multiset(lost);
    assert |p| == |open| + |lost|;
  }

  lemma ReplyCloses(before: seq<Message>, after: seq<Message>, open: seq<string>, lost: seq<string>, j: nat,
                    text: string)
    requires OpenIn(before, open, lost) && j < |open|
    requires after == before + [ToolReply(open[j], text)]
    ensures OpenIn(after, Without(open, j), lost)
  {
    var reply := ToolReply(open[j], text);
    var p := multiset(open) + multiset(lost);
    PendingConcat(DONE, before, [reply]);
    WithoutOne(open, j);
    assert [reply][1..] == [];
    assert Pending(Some(p), [reply]) == Step(Some(p), reply);
    assert p - multiset{open[j]} == multiset(Without(open, j)) + multiset(lost);
  }

  lemma WithoutOne(open: seq<string>, j: nat)
    requires j < |open|
    ensures open[j] in multiset(open)
    ensures multiset(open) - multiset{open[j]} == multiset(Without(open, j))
    ensures multiset(open) == multiset(Without(open, j)) + multiset{open[j]}
  {
    assert open == open[..j] + [open[j]] + open[j + 1..];
    assert Without(open, j) == open[..j] + open[j + 1..];
  }
}
