/** The provider/tool loop of one assistant turn, and rebuilding the provider's
    conversation from the stored messages. */
module TurnLoop {
  import opened Wrappers
  import opened StreamGates

  datatype Call = Call(id: string, name: string, arguments: string)

  datatype ToolResult = ToolResult(callId: string, name: string, content: string, isError: bool)

  /** One entry of the conversation as the provider sees it. */
  datatype Turn =
    | UserTurn(text: string, attachments: seq<string>)
    | AssistantTurn(text: string, calls: seq<Call>)
    | ResultsTurn(results: seq<ToolResult>)

  /** A tool call as stored, with the preview shown to the user once there is one. */
  datatype StoredCall = StoredCall(call: Call, preview: Option<string>)

  /** A stored message; a conversation keeps them in position order. */
  datatype Message =
    | UserMessage(content: string, attachments: seq<string>)
    | AssistantMessage(content: string, calls: seq<StoredCall>)
    | ToolMessage(result: ToolResult)

  datatype Status = Idle | Awaiting

  class Conversation {
    var status: Status
    var pendingCallId: Option<string>
    var messages: seq<Message>

    /** ck_agent_conversations_pending_shape */
    ghost predicate PendingShape()
      reads this
    {
      status == Awaiting <==> pendingCallId.Some?
    }

    constructor ()
      ensures status == Idle && pendingCallId == None && messages == []
    {
      status, pendingCallId, messages := Idle, None, [];
    }
  }

  // --- rebuilding the turns --------------------------------------------------------------

  function CallsOf(stored: seq<StoredCall>): seq<Call> {
    seq(|stored|, i requires 0 <= i < |stored| => stored[i].call)
  }

  /** A refusal is stored but not shown to the provider again. */
  function AssistantTurns(content: string, calls: seq<StoredCall>): seq<Turn> {
    if content == OFF_TOPIC_MARKER && calls == [] then [] else [AssistantTurn(content, CallsOf(calls))]
  }

  /** How many tool messages the list begins with. */
  function ToolRun(messages: seq<Message>): (n: nat)
    ensures n <= |messages|
    ensures forall i | 0 <= i < n :: messages[i].ToolMessage?
    ensures n < |messages| ==> !messages[n].ToolMessage?
  {
    if messages != [] && messages[0].ToolMessage? then 1 + ToolRun(messages[1..]) else 0
  }

  function Results(messages: seq<Message>): seq<ToolResult>
    requires forall m | m in messages :: m.ToolMessage?
  {
    seq(|messages|, i requires 0 <= i < |messages| => messages[i].result)
  }

  /** The provider's conversation: each run of tool messages is one turn. */
  function Rehydrated(messages: seq<Message>): seq<Turn>
    decreases |messages|
  {
    if messages == [] then [] else
    match messages[0]
    case UserMessage(content, attachments) => [UserTurn(content, attachments)] + Rehydrated(messages[1..])
    case AssistantMessage(content, calls) => AssistantTurns(content, calls) + Rehydrated(messages[1..])
    case ToolMessage(_) =>
      var n := ToolRun(messages);
      [ResultsTurn(Results(messages[..n]))] + Rehydrated(messages[n..])
  }

  /** The turns of the first message or run of tool messages, and how many messages that is. */
  function Head(messages: seq<Message>): (head: (seq<Turn>, nat))
    requires messages != []
    ensures 1 <= head.1 <= |messages|
  {
    match messages[0]
    case UserMessage(content, attachments) => ([UserTurn(content, attachments)], 1)
    case AssistantMessage(content, calls) => (AssistantTurns(content, calls), 1)
    case ToolMessage(_) => ([ResultsTurn(Results(messages[..ToolRun(messages)]))], ToolRun(messages))
  }

  lemma RehydrateHead(messages: seq<Message>)
    requires messages != []
    ensures Rehydrated(messages) == Head(messages).0 + Rehydrated(messages[Head(messages).1..])
  {
  }

  method RehydrateTurns(messages: seq<Message>) returns (turns: seq<Turn>)
    ensures turns == Rehydrated(messages)
  {
    hide Rehydrated, Results, CallsOf, ToolRun;
    turns := [];
    var index := 0;
    assert messages[0..] == messages;
    while index < |messages|
      invariant 0 <= index <= |messages|
      invariant turns + Rehydrated(messages[index..]) == Rehydrated(messages)
    {
      var message := messages[index];
      ghost var rest := messages[index..];
      ghost var before := turns;
      ghost var start := index;
      RehydrateHead(rest);
      if message.UserMessage? {
        turns := turns + [UserTurn(message.content, message.attachments)];
        index := index + 1;
      } else if message.ToolMessage? {
        var results;
        results, index := ReadResults(messages, index);
        turns := turns + [ResultsTurn(results)];
      } else {
        if !(message.content == OFF_TOPIC_MARKER && message.calls == []) {
          turns := turns + [AssistantTurn(message.content, CallsOf(message.calls))];
        }
        index := index + 1;
      }
      assert turns == before + Head(rest).0 && index == start + Head(rest).1;
      assert rest[Head(rest).1..] == messages[index..];
    }
    assert messages[index..] == [];
    RehydratedNothing();
    assert turns + [] == turns;
  }

  lemma RehydratedNothing()
    ensures Rehydrated([]) == []
  {
  }

  /** Reads one run of tool messages. */
  method ReadResults(messages: seq<Message>, start: nat) returns (results: seq<ToolResult>, index: nat)
    requires start < |messages| && messages[start].ToolMessage?
    ensures index == start + ToolRun(messages[start..]) && index <= |messages|
    ensures results == Results(messages[start..][..index - start])
  {
    results, index := [], start;
    while index < |messages| && messages[index].ToolMessage?
      invariant start <= index <= |messages|
      invariant forall i | start <= i < index :: messages[i].ToolMessage?
      invariant |results| == index - start
      invariant forall i | 0 <= i < |results| :: results[i] == messages[start + i].result
    {
      results := results + [messages[index].result];
      index := index + 1;
    }
    RunIs(messages[start..], index - start);
  }

  lemma {:induction false} RunIs(messages: seq<Message>, n: nat)
    requires n <= |messages| && forall i | 0 <= i < n :: messages[i].ToolMessage?
    requires n < |messages| ==> !messages[n].ToolMessage?
    ensures ToolRun(messages) == n
  {
    if n > 0 {
      RunIs(messages[1..], n - 1);
    }
  }

  /** Rebuilding works piece by piece, as long as no run of tool messages is cut. */
  lemma {:induction false} RehydrateAppend(a: seq<Message>, b: seq<Message>)
    requires b != [] ==> !b[0].ToolMessage?
    ensures Rehydrated(a + b) == Rehydrated(a) + Rehydrated(b)
    decreases |a|
  {
    hide Rehydrated, Results, CallsOf;
    if a == [] {
      assert a + b == b;
      RehydratedNothing();
    } else {
      RehydrateHead(a);
      RehydrateHead(a + b);
      assert (a + b)[0] == a[0];
      if a[0].ToolMessage? {
        RunIs(a + b, ToolRun(a));
        assert (a + b)[..ToolRun(a)] == a[..ToolRun(a)];
      }
      var n := Head(a).1;
      assert Head(a + b) == Head(a);
      assert (a + b)[n..] == a[n..] + b;
      RehydrateAppend(a[n..], b);
    }
  }

  function Stored(calls: seq<Call>): seq<StoredCall> {
    seq(|calls|, i requires 0 <= i < |calls| => StoredCall(calls[i], None))
  }

  /** An assistant message with calls and the result of one of them add the
      same two turns to the rebuilt conversation as the loop adds in memory. */
  lemma ExchangeAppends(messages: seq<Message>, text: string, calls: seq<Call>, result: ToolResult)
    requires calls != []
    ensures Rehydrated(messages + [AssistantMessage(text, Stored(calls)), ToolMessage(result)])
         == Rehydrated(messages) + [AssistantTurn(text, calls), ResultsTurn([result])]
  {
    var exchange := [AssistantMessage(text, Stored(calls)), ToolMessage(result)];
    RehydrateAppend(messages, exchange);
    assert exchange[1..] == [ToolMessage(result)];
    RunIs(exchange[1..], 1);
    assert exchange[1..][..1] == [ToolMessage(result)] && exchange[1..][1..] == [];
    assert Results([ToolMessage(result)]) == [result];
    assert CallsOf(Stored(calls)) == calls;
    assert Rehydrated(exchange[1..]) == [ResultsTurn([result])];
  }

  /** What a message without calls adds: a refusal is not shown to the provider again. */
  lemma MessageAppends(messages: seq<Message>, content: string, attachments: seq<string>)
    ensures Rehydrated(messages + [UserMessage(content, attachments)]) == Rehydrated(messages) + [UserTurn(content, attachments)]
    ensures Rehydrated(messages + [AssistantMessage(content, [])])
         == Rehydrated(messages) + if content == OFF_TOPIC_MARKER then [] else [AssistantTurn(content, [])]
  {
    var user, assistant := [UserMessage(content, attachments)], [AssistantMessage(content, [])];
    RehydrateAppend(messages, user);
    RehydrateAppend(messages, assistant);
    assert user[1..] == [] && assistant[1..] == [];
    assert CallsOf([]) == [];
    assert Rehydrated(user) == [UserTurn(content, attachments)];
  }

  /** A second result right after the first joins it in one turn. */
  lemma ResultsJoin(messages: seq<Message>, text: string, calls: seq<StoredCall>, first: ToolResult, second: ToolResult)
    requires calls != []
    ensures Rehydrated(messages + [AssistantMessage(text, calls), ToolMessage(first), ToolMessage(second)])
         == Rehydrated(messages) + [AssistantTurn(text, CallsOf(calls)), ResultsTurn([first, second])]
  {
    var results := [ToolMessage(first), ToolMessage(second)];
    var exchange := [AssistantMessage(text, calls), ToolMessage(first), ToolMessage(second)];
    RehydrateAppend(messages, exchange);
    assert exchange[1..] == results;
    RunIs(results, 2);
    assert results[..2] == results && results[2..] == [];
    assert Results(results) == [first, second];
    assert Rehydrated(results) == [ResultsTurn([first, second])];
  }

  // --- the loop ------------------------------------------------------------------------------

  const MAX_ITERATIONS := 8

  /** What the provider streams in one iteration. It may break off on the way. */
  datatype Response =
    | Unavailable(chunks: seq<string>, code: string)
    | Streamed(chunks: seq<string>, calls: seq<Call>)

  datatype Outcome = Outcome(content: string, isError: bool)

  datatype Preview = NoPreview | Previewed(preview: string) | PreviewFailed(content: string)

  datatype Tool = Tool(writes: bool, preview: (nat, string) -> Preview, run: (nat, string) -> Outcome)

  type Tools = map<string, Tool>

  datatype Event =
    | Delta(text: string)
    | Refused
    | ToolStarted(call: Call)
    | ToolFinished(id: string, name: string, ok: bool)
    | AwaitingConfirmation(call: Call, shown: Option<string>)
    | StreamError(code: string)
    | Done(status: Status)

  function Deltas(texts: seq<string>): seq<Event> {
    seq(|texts|, i requires 0 <= i < |texts| => Delta(texts[i]))
  }

  /** A call waiting for the user: the first call of the last message, a write
      tool's, of which nothing has been run. */
  ghost predicate Parked(conversation: Conversation, tools: Tools)
    reads conversation
  {
    && conversation.messages != []
    && var last := conversation.messages[|conversation.messages| - 1];
       && last.AssistantMessage? && last.calls != []
       && conversation.pendingCallId == Some(last.calls[0].call.id)
       && last.calls[0].call.name in tools && tools[last.calls[0].call.name].writes
  }

  /** The text the user has been shown. */
  function ShownText(events: seq<Event>): string {
    if events == [] then "" else
    ShownText(events[..|events| - 1]) + if events[|events| - 1].Delta? then events[|events| - 1].text else ""
  }

  lemma ShownOne(events: seq<Event>, event: Event)
    ensures ShownText(events + [event]) == ShownText(events) + if event.Delta? then event.text else ""
  {
    assert (events + [event])[..|events|] == events;
  }

  lemma {:induction false} ShownBoth(a: seq<Event>, b: seq<Event>)
    ensures ShownText(a + b) == ShownText(a) + ShownText(b)
  {
    if b == [] {
      assert a + b == a;
    } else {
      assert (a + b)[..|a + b| - 1] == a + b[..|b| - 1];
      ShownBoth(a, b[..|b| - 1]);
    }
  }

  lemma {:induction false} ShownDeltas(texts: seq<string>)
    ensures ShownText(Deltas(texts)) == Concat(texts)
  {
    if texts != [] {
      var n := |texts| - 1;
      ShownDeltas(texts[..n]);
      assert Deltas(texts) == Deltas(texts[..n]) + [Delta(texts[n])];
      ShownOne(Deltas(texts[..n]), Delta(texts[n]));
    }
  }

  predicate IsRefused(response: Response, fullText: string) {
    response.Streamed? && (fullText == OFF_TOPIC_MARKER || HasFence(Concat(response.chunks)))
  }

  /** What is stored for a response: nothing when the provider is unavailable,
      only the marker for a refusal without calls. */
  function StoredFor(response: Response, fullText: string): seq<Message> {
    if response.Unavailable? then []
    else if response.calls == [] && IsRefused(response, fullText) then [AssistantMessage(OFF_TOPIC_MARKER, [])]
    else [AssistantMessage(fullText, Stored(response.calls))]
  }

  /** The result given to the provider for a call; None for one that waits for the user. */
  function ResultOf(tools: Tools, iteration: nat, call: Call): Option<ToolResult> {
    if call.name !in tools then
      Some(ToolResult(call.id, call.name, "agents.tool_unknown: " + call.name, true))
    else if tools[call.name].writes then
      var preview := tools[call.name].preview(iteration, call.arguments);
      if preview.PreviewFailed? then Some(ToolResult(call.id, call.name, preview.content, true)) else None
    else
      var outcome := tools[call.name].run(iteration, call.arguments);
      Some(ToolResult(call.id, call.name, outcome.content, outcome.isError))
  }

  predicate IsRead(tools: Tools, call: Call) {
    call.name in tools && !tools[call.name].writes
  }

  /** The text part of an iteration's events: its deltas, with the refusal among
      them if there is one. */
  ghost predicate Narrates(events: seq<Event>, response: Response, text: string) {
    && (forall e | e in events :: e.Delta? || e == Refused)
    && (Refused in events <==> IsRefused(response, text))
    && (response.Unavailable? ==> exists part :: BrokenOff(text, ShownText(events), part))
    && (response.Streamed? ==>
          ShownText(events) == (if response.calls == [] && IsRefused(response, text) then LetThrough(text)
                                else if text == OFF_TOPIC_MARKER then "" else text))
  }

  /** What ends an iteration: the provider's failure, the end of the turn, or
      what became of the first call. */
  ghost predicate Ends(events: seq<Event>, iteration: nat, response: Response, tools: Tools) {
    if response.Unavailable? then events == [StreamError(response.code)]
    else if response.calls == [] then events == [Done(Idle)]
    else
      var call := response.calls[0];
      var result := ResultOf(tools, iteration, call);
      if result.None? then
        |events| == 2 && events[0].AwaitingConfirmation? && events[0].call == call && events[1] == Done(Awaiting)
      else
        events == (if IsRead(tools, call) then [ToolStarted(call)] else []) + [ToolFinished(call.id, call.name, !result.value.isError)]
  }

  ghost predicate Tells(events: seq<Event>, iteration: nat, response: Response, text: string, tools: Tools) {
    exists n | 0 <= n <= |events| :: Narrates(events[..n], response, text) && Ends(events[n..], iteration, response, tools)
  }

  lemma TellsBoth(shown: seq<Event>, ending: seq<Event>, iteration: nat, response: Response, text: string, tools: Tools)
    requires Narrates(shown, response, text) && Ends(ending, iteration, response, tools)
    ensures Tells(shown + ending, iteration, response, text, tools)
  {
    hide Narrates, Ends;
    var events := shown + ending;
    assert events[..|shown|] == shown && events[|shown|..] == ending;
  }

  /** The deltas of one whole response through both filters. */
  method StreamText(response: Response) returns (events: seq<Event>, fullText: string, refused: bool)
    requires response.Streamed?
    ensures IsKept(Concat(response.chunks), fullText)
    ensures refused <==> IsRefused(response, fullText)
    ensures Narrates(events, response, fullText)
  {
    hide HasFence, IsKept, ShownText, Deltas, Concat, LetThrough;
    var deltas, leftover, isRefusal, blocked;
    fullText, deltas, leftover, isRefusal, blocked := FilterStream(response.chunks);
    AreDeltas(deltas);
    refused := isRefusal || blocked;
    events := Deltas(deltas);
    if refused {
      ShownOne(events, Refused);
      events := events + [Refused];
    }
    if refused && response.calls == [] {
      return;
    }
    if leftover != "" {
      ShownOne(events, Delta(leftover));
      events := events + [Delta(leftover)];
    }
  }

  lemma AreDeltas(texts: seq<string>)
    ensures forall e | e in Deltas(texts) :: e.Delta?
    ensures ShownText(Deltas(texts)) == Concat(texts)
  {
    ShownDeltas(texts);
  }

  /** Streams one response and stores the assistant message. `text` is the
      text before the first code fence, however the response is cut into chunks. */
  method StreamResponse(conversation: Conversation, response: Response)
    returns (events: seq<Event>, fullText: string, goesOn: bool, ghost shown: seq<Event>, ghost text: string)
    requires conversation.status == Idle && conversation.pendingCallId == None
    modifies conversation
    ensures conversation.status == Idle && conversation.pendingCallId == None
    ensures IsKept(Concat(response.chunks), text) && (response.Streamed? ==> fullText == text)
    ensures conversation.messages == old(conversation.messages) + StoredFor(response, text)
    ensures goesOn <==> response.Streamed? && response.calls != []
    ensures Narrates(shown, response, text)
    ensures events == shown + if response.Unavailable? then [StreamError(response.code)]
                              else if response.calls == [] then [Done(Idle)] else []
  {
    hide HasFence, IsKept, ShownText, Concat, Stored, Narrates, BrokenOff, Deltas;
    if response.Unavailable? {
      var deltas;
      ghost var part;
      deltas, text, part := BreakOff(response.chunks);
      shown := Deltas(deltas);
      BrokenNarrates(deltas, response, text, part);
      conversation.status, conversation.pendingCallId := Idle, None;
      return Deltas(deltas) + [StreamError(response.code)], "", false, shown, text;
    }
    var refused;
    events, fullText, refused := StreamText(response);
    shown, text := events, fullText;
    if refused && response.calls == [] {
      conversation.messages := conversation.messages + [AssistantMessage(OFF_TOPIC_MARKER, [])];
      return events + [Done(Idle)], fullText, false, shown, text;
    }
    conversation.messages := conversation.messages + [AssistantMessage(fullText, Stored(response.calls))];
    if response.calls == [] {
      conversation.status, conversation.pendingCallId := Idle, None;
      return events + [Done(Idle)], fullText, false, shown, text;
    }
    goesOn := true;
    assert events + [] == events;
  }

  lemma BrokenNarrates(deltas: seq<string>, response: Response, text: string, part: string)
    requires response.Unavailable? && BrokenOff(text, Concat(deltas), part)
    ensures Narrates(Deltas(deltas), response, text)
  {
    hide Concat, ShownText, BrokenOff, Deltas;
    AreDeltas(deltas);
  }

  /** Handles the first call: an unknown tool, a write tool whose preview fails
      and a read tool give a result; any other write tool waits for the user. */
  method HandleCall(conversation: Conversation, iteration: nat, fullText: string, response: Response, tools: Tools)
    returns (events: seq<Event>, result: Option<ToolResult>, executed: seq<Call>)
    requires response.Streamed? && response.calls != [] && conversation.messages != []
    requires conversation.messages[|conversation.messages| - 1] == AssistantMessage(fullText, Stored(response.calls))
    requires conversation.status == Idle && conversation.pendingCallId == None
    modifies conversation
    ensures executed == if IsRead(tools, response.calls[0]) then [response.calls[0]] else []
    ensures result == ResultOf(tools, iteration, response.calls[0])
    ensures Ends(events, iteration, response, tools)
    ensures result.Some? ==>
      && conversation.messages == old(conversation.messages)
      && conversation.status == Idle && conversation.pendingCallId == None
    ensures result.None? ==>
      && conversation.status == Awaiting && conversation.PendingShape() && Parked(conversation, tools)
      && StoredAs(conversation.messages, old(conversation.messages))
  {
    var calls := response.calls;
    var call := calls[0];
    executed := [];
    if call.name !in tools {
      return [ToolFinished(call.id, call.name, false)],
             Some(ToolResult(call.id, call.name, "agents.tool_unknown: " + call.name, true)), [];
    }
    if tools[call.name].writes {
      var preview := tools[call.name].preview(iteration, call.arguments);
      if preview.PreviewFailed? {
        return [ToolFinished(call.id, call.name, false)], Some(ToolResult(call.id, call.name, preview.content, true)), [];
      }
      var shown := if preview.Previewed? then Some(preview.preview) else None;
      if shown.Some? {
        SetPreview(conversation, call.id, shown);
        assert CallsOf(conversation.messages[|conversation.messages| - 1].calls)[0] == CallsOf(Stored(calls))[0];
      }
      conversation.status, conversation.pendingCallId := Awaiting, Some(call.id);
      return [AwaitingConfirmation(call, shown), Done(Awaiting)], None, [];
    }
    var outcome := tools[call.name].run(iteration, call.arguments);
    executed := [call];
    result := Some(ToolResult(call.id, call.name, outcome.content, outcome.isError));
    events := [ToolStarted(call), ToolFinished(call.id, call.name, !outcome.isError)];
  }

  /** The same messages, save for previews on the last one's calls. */
  ghost predicate StoredAs(messages: seq<Message>, before: seq<Message>) {
    && before != [] && |messages| == |before|
    && messages[..|before| - 1] == before[..|before| - 1]
    && Rehydrated(messages) == Rehydrated(before)
  }

  // --- a whole turn ------------------------------------------------------------------------------

  /** One iteration: the turns handed to the provider and the messages in the
      database at that moment, the response and its kept text, and the events sent. */
  datatype Iteration = Iteration(turns: seq<Turn>, stored: seq<Message>, response: Response, text: string, events: seq<Event>)

  /** The iteration asked with what a reload of the stored messages gives, after
      the context turn, and sent the events that its response calls for. */
  ghost predicate Iterates(it: Iteration, n: nat, context: Turn, provider: (nat, seq<Turn>) -> Response, tools: Tools) {
    && it.turns == [context] + Rehydrated(it.stored)
    && it.response == provider(n, it.turns)
    && IsKept(Concat(it.response.chunks), it.text)
    && Tells(it.events, n, it.response, it.text, tools)
  }

  /** The response asked for a tool and the tool gave a result. */
  predicate GoesOn(it: Iteration, n: nat, tools: Tools) {
    it.response.Streamed? && it.response.calls != [] && ResultOf(tools, n, it.response.calls[0]).Some?
  }

  /** The messages after an iteration that goes on: the assistant's message with
      all its calls, and the result of the first one. */
  function Exchanged(it: Iteration, n: nat, tools: Tools): seq<Message>
    requires GoesOn(it, n, tools)
  {
    it.stored + [AssistantMessage(it.text, Stored(it.response.calls)), ToolMessage(ResultOf(tools, n, it.response.calls[0]).value)]
  }

  predicate LeadsTo(it: Iteration, n: nat, messages: seq<Message>, tools: Tools) {
    GoesOn(it, n, tools) && messages == Exchanged(it, n, tools)
  }

  /** How the conversation is left by an iteration that ends the turn: idle, or
      with a write tool's call waiting for the user. */
  ghost predicate StopsAt(it: Iteration, n: nat, conversation: Conversation, tools: Tools)
    reads conversation
  {
    && !GoesOn(it, n, tools)
    && if it.response.Streamed? && it.response.calls != [] then
         && conversation.status == Awaiting && Parked(conversation, tools)
         && StoredAs(conversation.messages, it.stored + StoredFor(it.response, it.text))
       else
         conversation.status == Idle && conversation.messages == it.stored + StoredFor(it.response, it.text)
  }

  /** The messages are those that a turn begun at `start` goes on from. */
  ghost predicate Resumes(log: seq<Iteration>, start: seq<Message>, messages: seq<Message>, tools: Tools) {
    if log == [] then messages == start
    else log[0].stored == start && LeadsTo(log[|log| - 1], |log| - 1, messages, tools)
  }

  /** A turn so far: each iteration goes on where the one before it stopped. */
  ghost predicate Iterated(log: seq<Iteration>, context: Turn, provider: (nat, seq<Turn>) -> Response, tools: Tools) {
    && (forall n | 0 <= n < |log| :: Iterates(log[n], n, context, provider, tools))
    && (forall n | 0 <= n < |log| - 1 :: LeadsTo(log[n], n, log[n + 1].stored, tools))
  }

  function EventsOf(log: seq<Iteration>): seq<Event> {
    if log == [] then [] else EventsOf(log[..|log| - 1]) + log[|log| - 1].events
  }

  /** The call that is run for a response: the first one, if it is a read tool's. */
  function RunFor(response: Response, tools: Tools): seq<Call> {
    if response.Streamed? && response.calls != [] && IsRead(tools, response.calls[0]) then [response.calls[0]] else []
  }

  function RunsOf(log: seq<Iteration>, tools: Tools): seq<Call> {
    if log == [] then [] else RunsOf(log[..|log| - 1], tools) + RunFor(log[|log| - 1].response, tools)
  }

  function TextsOf(log: seq<Iteration>): seq<string> {
    seq(|log|, n requires 0 <= n < |log| => log[n].text)
  }

  /** No response was refused, none broke off. */
  ghost predicate NoneRefused(log: seq<Iteration>) {
    forall n | 0 <= n < |log| :: log[n].response.Streamed? && !IsRefused(log[n].response, log[n].text)
  }

  ghost predicate SomeRefused(log: seq<Iteration>) {
    exists n | 0 <= n < |log| :: IsRefused(log[n].response, log[n].text)
  }

  lemma Snoc(log: seq<Iteration>, it: Iteration, tools: Tools)
    ensures EventsOf(log + [it]) == EventsOf(log) + it.events
    ensures RunsOf(log + [it], tools) == RunsOf(log, tools) + RunFor(it.response, tools)
  {
    assert (log + [it])[..|log|] == log;
  }

  lemma NextIteration(log: seq<Iteration>, it: Iteration, start: seq<Message>, context: Turn,
                      provider: (nat, seq<Turn>) -> Response, tools: Tools)
    requires Iterated(log, context, provider, tools) && Iterates(it, |log|, context, provider, tools)
    requires Resumes(log, start, it.stored, tools)
    ensures Iterated(log + [it], context, provider, tools) && (log + [it])[0].stored == start
  {
    hide Iterates, LeadsTo;
  }

  /** One iteration: a response, and what becomes of its first call. */
  method Iterate(conversation: Conversation, context: Turn, turns: seq<Turn>, iteration: nat,
                 provider: (nat, seq<Turn>) -> Response, tools: Tools)
    returns (events: seq<Event>, executed: seq<Call>, more: seq<Turn>, ghost it: Iteration)
    requires turns == [context] + Rehydrated(conversation.messages)
    requires conversation.status == Idle && conversation.pendingCallId == None
    modifies conversation
    ensures Iterates(it, iteration, context, provider, tools)
    ensures it.stored == old(conversation.messages) && it.events == events && executed == RunFor(it.response, tools)
    ensures conversation.PendingShape()
    ensures more == [] ==> StopsAt(it, iteration, conversation, tools)
    ensures more != [] ==>
      && conversation.status == Idle && LeadsTo(it, iteration, conversation.messages, tools)
      && turns + more == [context] + Rehydrated(conversation.messages)
  {
    hide Rehydrated, Parked, IsKept, Stored, Narrates, Tells, StoredFor, ResultOf, IsRead, Iterates, GoesOn, Exchanged, StoredAs,
      Concat, Ends;
    ghost var before := conversation.messages;
    var response := provider(iteration, turns);
    var fullText, goesOn;
    ghost var shown, text;
    events, fullText, goesOn, shown, text := StreamResponse(conversation, response);
    if !goesOn {
      it := Iteration(turns, before, response, text, events);
      EndsHere(shown, it, iteration, context, provider, tools);
      return events, [], [], it;
    }
    StoredWithCalls(response, fullText);
    var handled, result;
    handled, result, executed := HandleCall(conversation, iteration, fullText, response, tools);
    events := events + handled;
    it := Iteration(turns, before, response, text, events);
    CallHandled(shown, handled, it, iteration, context, provider, tools);
    if result.None? {
      return events, executed, [], it;
    }
    conversation.messages := conversation.messages + [ToolMessage(result.value)];
    ExchangeAppends(before, fullText, response.calls, result.value);
    assert conversation.messages == before + [AssistantMessage(fullText, Stored(response.calls)), ToolMessage(result.value)];
    more := [AssistantTurn(fullText, response.calls), ResultsTurn([result.value])];
  }

  /** Runs the loop; `log` lists its iterations, `executed` the tool calls it ran. */
  method RunTurn(conversation: Conversation, context: Turn, turns0: seq<Turn>, provider: (nat, seq<Turn>) -> Response,
                 tools: Tools)
    returns (events: seq<Event>, executed: seq<Call>, ghost log: seq<Iteration>)
    requires turns0 == [context] + Rehydrated(conversation.messages)
    requires conversation.status == Idle && conversation.PendingShape()
    modifies conversation
    ensures 1 <= |log| <= MAX_ITERATIONS && log[0].stored == old(conversation.messages)
    ensures Iterated(log, context, provider, tools)
    ensures executed == RunsOf(log, tools)
    ensures conversation.PendingShape()
    // It stops early only at a response that gives no tool result.
    ensures TurnEnds(log, events, conversation, tools)
    ensures UserSees(log, events, conversation.status)
  {
    hide Rehydrated, EventsOf, RunsOf, RunFor, Iterated, Iterates, LeadsTo, StopsAt, UserSees, TurnEnds;
    var turns := turns0;
    events, executed, log := [], [], [];
    NothingYet(context, provider, tools);
    for iteration := 0 to MAX_ITERATIONS
      invariant |log| == iteration
      invariant turns == [context] + Rehydrated(conversation.messages)
      invariant Iterated(log, context, provider, tools)
      invariant Resumes(log, old(conversation.messages), conversation.messages, tools)
      invariant events == EventsOf(log) && executed == RunsOf(log, tools)
      invariant conversation.status == Idle && conversation.pendingCallId == None
    {
      var sent, run, more;
      ghost var it;
      sent, run, more, it := Iterate(conversation, context, turns, iteration, provider, tools);
      NextIteration(log, it, old(conversation.messages), context, provider, tools);
      Snoc(log, it, tools);
      events, executed, log := events + sent, executed + run, log + [it];
      if more == [] {
        EarlyEnd(log, conversation, context, provider, tools);
        return;
      }
      turns := turns + more;
    }
    conversation.status, conversation.pendingCallId := Idle, None;
    events := events + [StreamError("agents.tool_loop_exhausted")];
    LateEnd(log, conversation, context, provider, tools);
  }

  /** How a turn ends: at a response without calls, at one that broke off, with
      a write tool's call waiting for the user, or with the loop exhausted. */
  ghost predicate TurnEnds(log: seq<Iteration>, events: seq<Event>, conversation: Conversation, tools: Tools)
    reads conversation
  {
    log != [] &&
    var last, n := log[|log| - 1], |log| - 1;
    if GoesOn(last, n, tools) then
      && |log| == MAX_ITERATIONS && conversation.status == Idle
      && events == EventsOf(log) + [StreamError("agents.tool_loop_exhausted")]
      && conversation.messages == Exchanged(last, n, tools)
    else
      events == EventsOf(log) && StopsAt(last, n, conversation, tools)
  }

  /** What the user sees of a turn: the kept texts in order, a refusal exactly
      when a response is refused, and how it ended. */
  ghost predicate UserSees(log: seq<Iteration>, events: seq<Event>, status: Status) {
    && (NoneRefused(log) ==> ShownText(events) == Concat(TextsOf(log)))
    && (Refused in events <==> SomeRefused(log))
    && events != [] && (events[|events| - 1].StreamError? || events[|events| - 1] == Done(status))
  }

  lemma EarlyEnd(log: seq<Iteration>, conversation: Conversation, context: Turn, provider: (nat, seq<Turn>) -> Response, tools: Tools)
    requires log != [] && Iterated(log, context, provider, tools)
    requires StopsAt(log[|log| - 1], |log| - 1, conversation, tools)
    ensures TurnEnds(log, EventsOf(log), conversation, tools)
    ensures UserSees(log, EventsOf(log), conversation.status)
  {
    hide GoesOn, Iterated, StoredFor, StoredAs, Parked, EventsOf, ShownText, NoneRefused, SomeRefused, Concat;
    TurnShows(log, [], context, provider, tools);
    assert EventsOf(log) + [] == EventsOf(log);
  }

  lemma LateEnd(log: seq<Iteration>, conversation: Conversation, context: Turn, provider: (nat, seq<Turn>) -> Response, tools: Tools)
    requires |log| == MAX_ITERATIONS && Iterated(log, context, provider, tools)
    requires LeadsTo(log[|log| - 1], |log| - 1, conversation.messages, tools) && conversation.status == Idle
    ensures TurnEnds(log, EventsOf(log) + [StreamError("agents.tool_loop_exhausted")], conversation, tools)
    ensures UserSees(log, EventsOf(log) + [StreamError("agents.tool_loop_exhausted")], conversation.status)
  {
    hide GoesOn, Iterated, Exchanged, EventsOf, ShownText, NoneRefused, SomeRefused, Concat;
    TurnShows(log, [StreamError("agents.tool_loop_exhausted")], context, provider, tools);
  }

  lemma NothingYet(context: Turn, provider: (nat, seq<Turn>) -> Response, tools: Tools)
    ensures Iterated([], context, provider, tools) && EventsOf([]) == [] && RunsOf([], tools) == []
  {
  }

  lemma StoredWithCalls(response: Response, text: string)
    requires response.Streamed? && response.calls != []
    ensures StoredFor(response, text) == [AssistantMessage(text, Stored(response.calls))]
  {
  }

  lemma EndsHere(shown: seq<Event>, it: Iteration, n: nat, context: Turn, provider: (nat, seq<Turn>) -> Response, tools: Tools)
    requires Narrates(shown, it.response, it.text) && !(it.response.Streamed? && it.response.calls != [])
    requires it.turns == [context] + Rehydrated(it.stored) && it.response == provider(n, it.turns)
    requires IsKept(Concat(it.response.chunks), it.text)
    requires it.events == shown + if it.response.Unavailable? then [StreamError(it.response.code)] else [Done(Idle)]
    ensures Iterates(it, n, context, provider, tools) && !GoesOn(it, n, tools)
  {
    hide Narrates, Rehydrated, IsKept, Concat, ResultOf;
    TellsBoth(shown, if it.response.Unavailable? then [StreamError(it.response.code)] else [Done(Idle)], n, it.response, it.text, tools);
  }

  lemma CallHandled(shown: seq<Event>, handled: seq<Event>, it: Iteration, n: nat, context: Turn,
                    provider: (nat, seq<Turn>) -> Response, tools: Tools)
    requires Narrates(shown, it.response, it.text) && it.response.Streamed? && it.response.calls != []
    requires it.turns == [context] + Rehydrated(it.stored) && it.response == provider(n, it.turns)
    requires IsKept(Concat(it.response.chunks), it.text)
    requires Ends(handled, n, it.response, tools) && it.events == shown + handled
    ensures Iterates(it, n, context, provider, tools)
    ensures var result := ResultOf(tools, n, it.response.calls[0]);
      && (GoesOn(it, n, tools) <==> result.Some?)
      && (result.Some? ==>
            Exchanged(it, n, tools)
              == it.stored + [AssistantMessage(it.text, Stored(it.response.calls)), ToolMessage(result.value)])
  {
    hide Narrates, Rehydrated, IsKept, Concat, ResultOf, Ends, Stored;
    TellsBoth(shown, handled, n, it.response, it.text, tools);
  }

  // --- what the events amount to -----------------------------------------------------------------

  lemma IterationShows(it: Iteration, n: nat, context: Turn, provider: (nat, seq<Turn>) -> Response, tools: Tools)
    requires Iterates(it, n, context, provider, tools)
    ensures Refused in it.events <==> IsRefused(it.response, it.text)
    ensures it.response.Streamed? && !IsRefused(it.response, it.text) ==> ShownText(it.events) == it.text
    ensures it.events != []
    ensures !GoesOn(it, n, tools) ==>
      it.events[|it.events| - 1] ==
        if it.response.Unavailable? then StreamError(it.response.code)
        else Done(if it.response.calls == [] then Idle else Awaiting)
  {
    hide IsKept, Rehydrated, ShownText, ResultOf, Narrates, Ends, IsRefused, Concat, GoesOn;
    var k :| 0 <= k <= |it.events| && Narrates(it.events[..k], it.response, it.text) && Ends(it.events[k..], n, it.response, tools);
    assert it.events == it.events[..k] + it.events[k..];
    ShownBoth(it.events[..k], it.events[k..]);
    EndingIsSilent(it.events[k..], n, it.response, tools);
    NarrationShows(it.events[..k], it.response, it.text);
    if !GoesOn(it, n, tools) {
      LastEvent(it.events[k..], it, n, tools);
    }
  }

  lemma NarrationShows(events: seq<Event>, response: Response, text: string)
    requires Narrates(events, response, text)
    ensures Refused in events <==> IsRefused(response, text)
    ensures response.Streamed? && !IsRefused(response, text) ==> ShownText(events) == text
  {
    hide ShownText, BrokenOff, HasFence, Concat;
  }

  lemma LastEvent(events: seq<Event>, it: Iteration, n: nat, tools: Tools)
    requires events != [] && Ends(events, n, it.response, tools) && !GoesOn(it, n, tools)
    ensures events[|events| - 1] ==
      if it.response.Unavailable? then StreamError(it.response.code)
      else Done(if it.response.calls == [] then Idle else Awaiting)
  {
    hide ResultOf;
  }

  lemma EndingIsSilent(events: seq<Event>, n: nat, response: Response, tools: Tools)
    requires Ends(events, n, response, tools)
    ensures events != [] && Refused !in events && ShownText(events) == ""
  {
    hide ResultOf;
    NothingShown(events);
  }

  lemma {:induction false} NothingShown(events: seq<Event>)
    ensures (forall e | e in events :: !e.Delta?) ==> ShownText(events) == ""
  {
    if events != [] {
      NothingShown(events[..|events| - 1]);
    }
  }

  lemma {:induction false} LogShows(log: seq<Iteration>, context: Turn, provider: (nat, seq<Turn>) -> Response, tools: Tools)
    requires Iterated(log, context, provider, tools)
    ensures Refused in EventsOf(log) <==> SomeRefused(log)
    ensures NoneRefused(log) ==> ShownText(EventsOf(log)) == Concat(TextsOf(log))
  {
    hide Iterates, GoesOn, LeadsTo, IsRefused, ShownText, Concat;
    if log == [] {
      assert ShownText([]) == "" by { NothingShown([]); }
      assert Concat(TextsOf([])) == "" by { ConcatNothing(); }
    } else {
      var init, it := log[..|log| - 1], log[|log| - 1];
      LogShows(init, context, provider, tools);
      assert Iterates(log[|log| - 1], |log| - 1, context, provider, tools);
      IterationShows(it, |log| - 1, context, provider, tools);
      ShownBoth(EventsOf(init), it.events);
      assert TextsOf(log) == TextsOf(init) + [it.text];
      ConcatOne(TextsOf(init), it.text);
      assert forall n | 0 <= n < |init| :: init[n] == log[n];
    }
  }

  lemma ConcatNothing()
    ensures Concat([]) == ""
  {
  }

  lemma TurnShows(log: seq<Iteration>, ending: seq<Event>, context: Turn, provider: (nat, seq<Turn>) -> Response, tools: Tools)
    requires log != [] && Iterated(log, context, provider, tools)
    requires ending == if GoesOn(log[|log| - 1], |log| - 1, tools) then [StreamError("agents.tool_loop_exhausted")] else []
    ensures var events := EventsOf(log) + ending;
      && events != []
      && (NoneRefused(log) ==> ShownText(events) == Concat(TextsOf(log)))
      && (Refused in events <==> SomeRefused(log))
      && var last := log[|log| - 1].response;
         events[|events| - 1] ==
           if ending != [] then ending[0]
           else if last.Unavailable? then StreamError(last.code)
           else Done(if last.calls == [] then Idle else Awaiting)
  {
    hide Iterates, GoesOn, LeadsTo, IsRefused, ShownText, Concat, NoneRefused, SomeRefused;
    LogShows(log, context, provider, tools);
    assert Iterates(log[|log| - 1], |log| - 1, context, provider, tools);
    IterationShows(log[|log| - 1], |log| - 1, context, provider, tools);
    ShownBoth(EventsOf(log), ending);
    NothingShown(ending);
    assert EventsOf(log) == EventsOf(log[..|log| - 1]) + log[|log| - 1].events;
  }

  /** The provider never meets a conversation that a reload would not give: every
      iteration continues the one before it by the two turns of its exchange. */
  lemma TurnsGrow(log: seq<Iteration>, context: Turn, provider: (nat, seq<Turn>) -> Response, tools: Tools, n: nat)
    requires Iterated(log, context, provider, tools) && n + 1 < |log|
    ensures var it := log[n];
      && it.response.Streamed? && it.response.calls != []
      && ResultOf(tools, n, it.response.calls[0]).Some?
      && log[n + 1].turns == it.turns
           + [AssistantTurn(it.text, it.response.calls), ResultsTurn([ResultOf(tools, n, it.response.calls[0]).value])]
      && it.stored <= log[n + 1].stored
  {
    hide Rehydrated, Tells, IsKept, Concat, ResultOf, Stored;
    assert LeadsTo(log[n], n, log[n + 1].stored, tools);
    assert Iterates(log[n], n, context, provider, tools) && Iterates(log[n + 1], n + 1, context, provider, tools);
    ExchangeAppends(log[n].stored, log[n].text, log[n].response.calls, ResultOf(tools, n, log[n].response.calls[0]).value);
  }

  /** What the provider is told of a response on the next reload: its kept text
      and calls, and nothing of a refusal without calls or of a failure. */
  lemma StoredIsRebuilt(messages: seq<Message>, response: Response, text: string)
    ensures Rehydrated(messages + StoredFor(response, text)) ==
      Rehydrated(messages)
      + if response.Unavailable? || (response.calls == [] && IsRefused(response, text)) then []
        else [AssistantTurn(text, response.calls)]
    ensures |StoredFor(response, text)| == if response.Streamed? then 1 else 0
  {
    hide HasFence, Concat;
    if response.Unavailable? {
      assert messages + [] == messages;
    } else {
      var stored := StoredFor(response, text);
      RehydrateAppend(messages, stored);
      assert stored[1..] == [];
      assert CallsOf(Stored(response.calls)) == response.calls;
      RehydratedNothing();
    }
  }

  /** A result answers its own call. It is an error for an unknown tool, a
      preview that fails and a read that fails; only a write tool's call gets none. */
  lemma ResultAnswers(tools: Tools, n: nat, call: Call)
    ensures var result := ResultOf(tools, n, call);
      && (result.Some? ==> result.value.callId == call.id && result.value.name == call.name)
      && (result.None? ==> call.name in tools && tools[call.name].writes)
      && (call.name !in tools ==> result.Some? && result.value.isError)
      && (call.name in tools && tools[call.name].writes ==>
            (result.Some? <==> tools[call.name].preview(n, call.arguments).PreviewFailed?)
            && (result.Some? ==> result.value.isError))
      && (call.name in tools && !tools[call.name].writes ==>
            result.Some? && Outcome(result.value.content, result.value.isError) == tools[call.name].run(n, call.arguments))
  {
  }

  /** No write tool is run by the loop. */
  lemma {:induction false} OnlyReadsRun(log: seq<Iteration>, tools: Tools)
    ensures forall call | call in RunsOf(log, tools) :: call.name in tools && !tools[call.name].writes
  {
    if log != [] {
      OnlyReadsRun(log[..|log| - 1], tools);
    }
  }

  /** Stores the preview with the calls of the last message that carry the id. */
  method SetPreview(conversation: Conversation, id: string, shown: Option<string>)
    requires conversation.messages != []
    requires conversation.messages[|conversation.messages| - 1].AssistantMessage?
    modifies conversation`messages
    ensures var n := |old(conversation.messages)| - 1;
      var last := old(conversation.messages)[n];
      && |conversation.messages| == n + 1 && conversation.messages[..n] == old(conversation.messages)[..n]
      && conversation.messages[n].AssistantMessage?
      && conversation.messages[n].content == last.content
      && CallsOf(conversation.messages[n].calls) == CallsOf(last.calls)
      && Rehydrated(conversation.messages) == Rehydrated(old(conversation.messages))
  {
    var n := |conversation.messages| - 1;
    var last := conversation.messages[n];
    var calls := seq(|last.calls|, i requires 0 <= i < |last.calls| =>
      if last.calls[i].call.id == id then StoredCall(last.calls[i].call, shown) else last.calls[i]);
    ghost var was := conversation.messages;
    conversation.messages := conversation.messages[n := AssistantMessage(last.content, calls)];
    assert CallsOf(calls) == CallsOf(last.calls);
    assert was == was[..n] + [last] && conversation.messages == was[..n] + [AssistantMessage(last.content, calls)];
    RehydrateAppend(was[..n], [last]);
    RehydrateAppend(was[..n], [AssistantMessage(last.content, calls)]);
    assert [last][1..] == [] && [AssistantMessage(last.content, calls)][1..] == [];
  }
}
