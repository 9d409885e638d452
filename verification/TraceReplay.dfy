/**
 If the server's reply depends only on the body of the request, every interleaving on every pool gives
 the results of the conversations run one after the other.
 */
module TraceReplay {
  import opened Results
  import opened TraceRunner
  import opened TraceLaws

  // ---------------------------------------------------------------------------------------
  // One conversation on its own
  // ---------------------------------------------------------------------------------------

  /** The results of turn `turn` and the turns after it, for a conversation nothing else runs beside. */
  function Alone(trace: Trace, c: nat, server: Body -> Reply, turn: nat, messages: seq<Message>): seq<RequestResult>
    requires trace.Valid() && c < trace.Conversations() && turn <= trace.Turns()
    decreases trace.Turns() - turn, 1
  {
    if turn == trace.Turns() then []
    else
      var asked := messages + [UserMessage(trace, c, turn)];
      Onwards(trace, c, server, turn, asked, server(BodyOf(trace, c, turn, asked)))
  }

  /** The results from turn `turn` on, once its reply is known. */
  function Onwards(trace: Trace, c: nat, server: Body -> Reply, turn: nat, messages: seq<Message>,
                   reply: Reply): seq<RequestResult>
    requires trace.Valid() && c < trace.Conversations() && turn < trace.Turns()
    decreases trace.Turns() - turn, 0
  {
    [ResultOf(c, turn, reply)]
    + if reply.succeeded then Alone(trace, c, server, turn + 1, messages + [Message(Assistant, reply.text)])
      else SkippedFrom(c, turn + 1, trace.Turns())
  }

  /** What the coroutine of conversation `c` has still to append. */
  function Remaining(trace: Trace, c: nat, server: Body -> Reply, v: Conversation): seq<RequestResult>
    requires trace.Valid() && c < trace.Conversations() && (v.phase.Finished? || v.phase.turn < trace.Turns())
  {
    match v.phase
    case Waiting(t) => Alone(trace, c, server, t, v.messages)
    case Requested(t) => Onwards(trace, c, server, t, v.messages, server(BodyOf(trace, c, t, v.messages)))
    case Answered(t, reply) => Onwards(trace, c, server, t, v.messages, reply)
    case Finished => []
  }

  function Whole(trace: Trace, c: nat, server: Body -> Reply): seq<RequestResult>
    requires trace.Valid() && c < trace.Conversations()
  {
    Alone(trace, c, server, 0, Opening(trace))
  }

  ghost predicate OnTrack(trace: Trace, server: Body -> Reply, s: State)
    requires Bounded(trace, s)
  {
    forall c :: 0 <= c < |s.conversations| ==>
      s.conversations[c].results + Remaining(trace, c, server, s.conversations[c]) == Whole(trace, c, server)
  }

  // ---------------------------------------------------------------------------------------
  // Every step keeps every conversation on track
  // ---------------------------------------------------------------------------------------

  lemma AfterReplyOnTrack(trace: Trace, c: nat, server: Body -> Reply, v: Conversation)
    requires trace.Valid() && c < trace.Conversations() && v.phase.Answered? && v.phase.turn < trace.Turns()
    ensures var w := AfterReply(trace, c, v.phase.turn, v, v.phase.reply);
            && (w.phase.Finished? || w.phase.turn < trace.Turns())
            && w.results + Remaining(trace, c, server, w) == v.results + Remaining(trace, c, server, v)
  {
    var t, reply := v.phase.turn, v.phase.reply;
    var head := [ResultOf(c, t, reply)];
    var rest := if reply.succeeded then Alone(trace, c, server, t + 1, v.messages + [Message(Assistant, reply.text)])
                else SkippedFrom(c, t + 1, trace.Turns());
    assert v.results + (head + rest) == (v.results + head) + rest;
    assert (v.results + head) + rest + [] == (v.results + head) + rest;
  }

  /** A reply that comes from the server for the body the worker sent. */
  ghost predicate Honest(server: Body -> Reply, e: Event) {
    e.Complete? ==> e.reply == server(e.request.body)
  }

  lemma StepOnTrack(trace: Trace, workers: nat, server: Body -> Reply, s: State, e: Event)
    requires Invariant(trace, workers, s) && Enabled(trace, workers, s, e) && Honest(server, e)
    requires OnTrack(trace, server, s)
    ensures Bounded(trace, Step(trace, workers, s, e)) && OnTrack(trace, server, Step(trace, workers, s, e))
  {
    StepKeeps(trace, workers, s, e);
    var s' := Step(trace, workers, s, e);
    assert Bounded(trace, s');
    hide Invariant, Bounded, Exclusive, Covered, ConversationInvariant;
    match e {
      case Submit(c) => SubmitOnTrack(trace, workers, server, s, c);
      case Start => assert s'.conversations == s.conversations;
      case Complete(r, reply) => CompleteOnTrack(trace, workers, server, s, r, reply);
      case Resume(c) => ResumeOnTrack(trace, workers, server, s, c);
    }
  }

  lemma SubmitOnTrack(trace: Trace, workers: nat, server: Body -> Reply, s: State, c: nat)
    requires Bounded(trace, s) && Enabled(trace, workers, s, Submit(c)) && OnTrack(trace, server, s)
    requires Bounded(trace, Step(trace, workers, s, Submit(c)))
    ensures OnTrack(trace, server, Step(trace, workers, s, Submit(c)))
  {
    var s' := Step(trace, workers, s, Submit(c));
    hide UserMessage, BodyOf, Onwards;
    assert Remaining(trace, c, server, s'.conversations[c]) == Remaining(trace, c, server, s.conversations[c]);
    assert forall d :: 0 <= d < |s'.conversations| && d != c ==> s'.conversations[d] == s.conversations[d];
  }

  lemma CompleteOnTrack(trace: Trace, workers: nat, server: Body -> Reply, s: State, r: Running, reply: Reply)
    requires Invariant(trace, workers, s) && Enabled(trace, workers, s, Complete(r, reply)) && OnTrack(trace, server, s)
    requires reply == server(r.body) && Bounded(trace, Step(trace, workers, s, Complete(r, reply)))
    ensures OnTrack(trace, server, Step(trace, workers, s, Complete(r, reply)))
  {
    var s' := Step(trace, workers, s, Complete(r, reply));
    var c := r.ticket.conversation;
    assert s.conversations[c].phase == Requested(r.ticket.turn)
        && r.body == BodyOf(trace, c, r.ticket.turn, s.conversations[c].messages);
    hide BodyOf, Alone, Onwards, Exclusive, Covered, ConversationInvariant;
    assert Remaining(trace, c, server, s'.conversations[c]) == Remaining(trace, c, server, s.conversations[c]);
    assert forall d :: 0 <= d < |s'.conversations| && d != c ==> s'.conversations[d] == s.conversations[d];
  }

  lemma ResumeOnTrack(trace: Trace, workers: nat, server: Body -> Reply, s: State, c: nat)
    requires Bounded(trace, s) && Enabled(trace, workers, s, Resume(c)) && OnTrack(trace, server, s)
    requires Bounded(trace, Step(trace, workers, s, Resume(c)))
    ensures OnTrack(trace, server, Step(trace, workers, s, Resume(c)))
  {
    var s' := Step(trace, workers, s, Resume(c));
    AfterReplyOnTrack(trace, c, server, s.conversations[c]);
    hide AfterReply, Remaining, Whole;
    assert forall d :: 0 <= d < |s'.conversations| && d != c ==> s'.conversations[d] == s.conversations[d];
  }

  lemma {:induction false} RunOnTrack(trace: Trace, workers: nat, server: Body -> Reply, states: seq<State>,
                                      events: seq<Event>, i: nat)
    requires trace.Valid() && IsRun(trace, workers, states, events) && i < |states|
    requires forall j :: 0 <= j < |events| ==> Honest(server, events[j])
    ensures Bounded(trace, states[i]) && OnTrack(trace, server, states[i])
  {
    hide *;
    if i == 0 {
      RunInvariant(trace, workers, states, events, 0);
      StartsOnTrack(trace, workers, server, states, events);
    } else {
      RunLength(trace, workers, states, events);
      RunStep(trace, workers, states, events, i - 1);
      RunOnTrack(trace, workers, server, states, events, i - 1);
      RunInvariant(trace, workers, states, events, i - 1);
      StepOnTrack(trace, workers, server, states[i - 1], events[i - 1]);
    }
  }

  lemma StartsOnTrack(trace: Trace, workers: nat, server: Body -> Reply, states: seq<State>, events: seq<Event>)
    requires trace.Valid() && IsRun(trace, workers, states, events) && Invariant(trace, workers, states[0])
    ensures Bounded(trace, states[0]) && OnTrack(trace, server, states[0])
  {
    hide Step, Enabled;
  }

  lemma RunLength(trace: Trace, workers: nat, states: seq<State>, events: seq<Event>)
    requires trace.Valid() && IsRun(trace, workers, states, events)
    ensures |states| == |events| + 1
  {
    hide Bounded, Enabled, Step;
  }

  lemma RunStep(trace: Trace, workers: nat, states: seq<State>, events: seq<Event>, i: nat)
    requires trace.Valid() && IsRun(trace, workers, states, events) && i < |events|
    ensures |states| == |events| + 1 && Bounded(trace, states[i]) && Enabled(trace, workers, states[i], events[i])
    ensures states[i + 1] == Step(trace, workers, states[i], events[i])
  {
    hide Bounded, Enabled, Step;
  }

  /** The first `n` conversations run one after the other. */
  function OneByOne(trace: Trace, server: Body -> Reply, n: nat): seq<RequestResult>
    requires trace.Valid() && n <= trace.Conversations()
  {
    if n == 0 then [] else OneByOne(trace, server, n - 1) + Whole(trace, n - 1, server)
  }

  lemma {:induction false} CollectedOneByOne(trace: Trace, server: Body -> Reply, s: State, n: nat)
    requires Bounded(trace, s) && OnTrack(trace, server, s) && Done(s) && n <= |s.conversations|
    ensures Collected(s.conversations[..n]) == OneByOne(trace, server, n)
  {
    if n > 0 {
      CollectedOneByOne(trace, server, s, n - 1);
      WholeWhenFinished(trace, server, s, n - 1);
      hide Whole, OnTrack, Bounded, Done;
      assert s.conversations[..n][..n - 1] == s.conversations[..n - 1];
    }
  }

  lemma WholeWhenFinished(trace: Trace, server: Body -> Reply, s: State, c: nat)
    requires Bounded(trace, s) && OnTrack(trace, server, s) && Done(s) && c < |s.conversations|
    ensures c < trace.Conversations() && s.conversations[c].results == Whole(trace, c, server)
  {
    hide Whole;
    assert s.conversations[c].results + [] == Whole(trace, c, server);
  }

  /** The results of a finished run do not depend on the interleaving or on the size of the pool. */
  lemma FinishedRunIsOneByOne(trace: Trace, workers: nat, server: Body -> Reply, states: seq<State>, events: seq<Event>)
    requires trace.Valid() && IsRun(trace, workers, states, events) && Done(states[|events|])
    requires forall j :: 0 <= j < |events| ==> Honest(server, events[j])
    ensures Collected(states[|events|].conversations) == OneByOne(trace, server, trace.Conversations())
  {
    RunOnTrack(trace, workers, server, states, events, |events|);
    var s := states[|events|];
    assert s.conversations[..trace.Conversations()] == s.conversations;
    CollectedOneByOne(trace, server, s, trace.Conversations());
  }

  // ---------------------------------------------------------------------------------------
  // The coroutine as a loop
  // ---------------------------------------------------------------------------------------

  /** Where the loop stands before turn `turn`. */
  ghost predicate SoFar(trace: Trace, c: nat, server: Body -> Reply, turn: nat, messages: seq<Message>,
                        results: seq<RequestResult>)
    requires trace.Valid() && c < trace.Conversations()
  {
    && turn <= trace.Turns() && |results| == turn && Successes(results, c, turn)
    && results + Alone(trace, c, server, turn, messages) == Whole(trace, c, server)
  }

  lemma SoFarStart(trace: Trace, c: nat, server: Body -> Reply)
    requires trace.Valid() && c < trace.Conversations()
    ensures SoFar(trace, c, server, 0, Opening(trace), [])
  {
    hide Alone;
    assert [] + Whole(trace, c, server) == Whole(trace, c, server);
  }

  lemma SoFarFails(trace: Trace, c: nat, server: Body -> Reply, turn: nat, messages: seq<Message>,
                   results: seq<RequestResult>)
    requires trace.Valid() && c < trace.Conversations() && turn < trace.Turns()
    requires SoFar(trace, c, server, turn, messages, results)
    requires !server(BodyOf(trace, c, turn, messages + [UserMessage(trace, c, turn)])).succeeded
    ensures var reply := server(BodyOf(trace, c, turn, messages + [UserMessage(trace, c, turn)]));
            var all := results + [ResultOf(c, turn, reply)] + SkippedFrom(c, turn + 1, trace.Turns());
            all == Whole(trace, c, server) && FinalShape(all, c, trace.Turns())
  {
    hide UserMessage, BodyOf, Whole;
    var reply := server(BodyOf(trace, c, turn, messages + [UserMessage(trace, c, turn)]));
    var skipped := SkippedFrom(c, turn + 1, trace.Turns());
    var asked := messages + [UserMessage(trace, c, turn)];
    assert Alone(trace, c, server, turn, messages) == Onwards(trace, c, server, turn, asked, reply);
    assert Onwards(trace, c, server, turn, asked, reply) == [ResultOf(c, turn, reply)] + skipped;
    Regroup(results, [ResultOf(c, turn, reply)], skipped);
    assert FailsAt(results + [ResultOf(c, turn, reply)] + skipped, c, trace.Turns(), turn);
  }

  lemma SoFarGoesOn(trace: Trace, c: nat, server: Body -> Reply, turn: nat, messages: seq<Message>,
                    results: seq<RequestResult>)
    requires trace.Valid() && c < trace.Conversations() && turn < trace.Turns()
    requires SoFar(trace, c, server, turn, messages, results)
    requires server(BodyOf(trace, c, turn, messages + [UserMessage(trace, c, turn)])).succeeded
    ensures var asked := messages + [UserMessage(trace, c, turn)];
            var reply := server(BodyOf(trace, c, turn, asked));
            SoFar(trace, c, server, turn + 1, asked + [Message(Assistant, reply.text)], results + [ResultOf(c, turn, reply)])
  {
    hide UserMessage, BodyOf, Whole;
    var asked := messages + [UserMessage(trace, c, turn)];
    var reply := server(BodyOf(trace, c, turn, asked));
    var rest := Alone(trace, c, server, turn + 1, asked + [Message(Assistant, reply.text)]);
    assert Alone(trace, c, server, turn, messages) == Onwards(trace, c, server, turn, asked, reply);
    assert Onwards(trace, c, server, turn, asked, reply) == [ResultOf(c, turn, reply)] + rest;
    Regroup(results, [ResultOf(c, turn, reply)], rest);
  }

  lemma SoFarDone(trace: Trace, c: nat, server: Body -> Reply, messages: seq<Message>, results: seq<RequestResult>)
    requires trace.Valid() && c < trace.Conversations()
    requires SoFar(trace, c, server, trace.Turns(), messages, results)
    ensures results == Whole(trace, c, server) && FinalShape(results, c, trace.Turns())
  {
    hide Whole;
    assert results + [] == results;
    assert FailsAt(results, c, trace.Turns(), trace.Turns());
  }

  /** `run_conversation` against a server that answers by itself. */
  method RunConversation(trace: Trace, c: nat, server: Body -> Reply) returns (results: seq<RequestResult>)
    requires trace.Valid() && c < trace.Conversations()
    ensures results == Whole(trace, c, server)
    ensures FinalShape(results, c, trace.Turns())
  {
    hide Alone, Whole, FinalShape, UserMessage, BodyOf, ResultOf, SoFar;
    var messages: seq<Message> := [];
    if trace.system != "" {
      messages := messages + [Message(System, trace.system)];
    }
    results := [];
    var turn := 0;
    SoFarStart(trace, c, server);
    assert messages == Opening(trace);
    while turn < trace.Turns()
      invariant turn <= trace.Turns() && SoFar(trace, c, server, turn, messages, results)
    {
      ghost var before, heard := results, messages;
      messages := messages + [UserMessage(trace, c, turn)];
      var reply := server(BodyOf(trace, c, turn, messages));
      results := results + [ResultOf(c, turn, reply)];
      if !reply.succeeded {
        SoFarFails(trace, c, server, turn, heard, before);
        results := results + SkippedFrom(c, turn + 1, trace.Turns());
        return;
      }
      SoFarGoesOn(trace, c, server, turn, heard, before);
      messages := messages + [Message(Assistant, reply.text)];
      turn := turn + 1;
    }
    SoFarDone(trace, c, server, messages, results);
  }

  lemma Regroup<T>(a: seq<T>, b: seq<T>, c: seq<T>)
    ensures a + (b + c) == (a + b) + c
  {
  }

  // ---------------------------------------------------------------------------------------
  // The runner with its mutable state
  // ---------------------------------------------------------------------------------------

  /** The event loop's conversations and the thread pool, changed in place by every step. */
  class Runner {
    const trace: Trace
    const workers: nat
    var conversations: seq<Conversation>
    var queue: seq<Ticket>
    var running: set<Running>

    ghost function Value(): State
      reads this
    {
      State(conversations, queue, running)
    }

    ghost predicate Valid()
      reads this
    {
      Invariant(trace, workers, Value())
    }

    constructor (trace: Trace, workers: nat)
      requires trace.Valid()
      ensures this.trace == trace && this.workers == workers
      ensures Value() == Initial(trace) && Valid()
    {
      this.trace := trace;
      this.workers := workers;
      conversations := seq(trace.Conversations(), _ => Conversation(Opening(trace), [], Waiting(0)));
      queue := [];
      running := {};
      new;
      InitialInvariant(trace, workers);
    }

    /** The coroutine of `c` builds its next message and hands the request to the pool. */
    method Submit(c: nat)
      requires Valid() && c < |conversations| && conversations[c].phase.Waiting?
      modifies this
      ensures Value() == Step(trace, workers, old(Value()), Event.Submit(c)) && Valid()
    {
      StepKeeps(trace, workers, Value(), Event.Submit(c));
      hide Invariant, UserMessage;
      var turn := conversations[c].phase.turn;
      var v := conversations[c];
      v := v.(messages := v.messages + [UserMessage(trace, c, turn)]);
      conversations := conversations[c := v.(phase := Requested(turn))];
      queue := queue + [Ticket(c, turn)];
    }

    /** An idle worker takes the oldest request. */
    method Start()
      requires Valid() && queue != [] && |running| < workers
      modifies this
      ensures Value() == Step(trace, workers, old(Value()), Event.Start) && Valid()
    {
      StepKeeps(trace, workers, Value(), Event.Start);
      hide Invariant, BodyOf;
      var ticket := queue[0];
      var body := BodyOf(trace, ticket.conversation, ticket.turn, conversations[ticket.conversation].messages);
      queue := queue[1..];
      running := running + {Running(ticket, body)};
    }

    method Complete(request: Running, reply: Reply)
      requires Valid() && request in running
      modifies this
      ensures Value() == Step(trace, workers, old(Value()), Event.Complete(request, reply)) && Valid()
    {
      StepKeeps(trace, workers, Value(), Event.Complete(request, reply));
      hide Invariant;
      var c := request.ticket.conversation;
      running := running - {request};
      conversations := conversations[c := conversations[c].(phase := Answered(request.ticket.turn, reply))];
    }

    /** The coroutine of `c` takes its reply. */
    method Resume(c: nat)
      requires Valid() && c < |conversations| && conversations[c].phase.Answered?
      modifies this
      ensures Value() == Step(trace, workers, old(Value()), Event.Resume(c)) && Valid()
    {
      StepKeeps(trace, workers, Value(), Event.Resume(c));
      hide Invariant;
      var v := conversations[c];
      var turn, reply := v.phase.turn, v.phase.reply;
      v := v.(results := v.results + [ResultOf(c, turn, reply)]);
      if !reply.succeeded {
        v := v.(results := v.results + SkippedFrom(c, turn + 1, trace.Turns()), phase := Finished);
      } else {
        v := v.(messages := v.messages + [Message(Assistant, reply.text)]);
        v := v.(phase := if turn + 1 < trace.Turns() then Waiting(turn + 1) else Finished);
      }
      conversations := conversations[c := v];
    }
  }
}
