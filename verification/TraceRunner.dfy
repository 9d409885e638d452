/**
 The closed-loop trace runner of bench/racebench/http.py as a state machine: one coroutine per
 conversation, a first-in first-out pool of worker threads, and replies that may be anything.
 Times are left out of the results.
 */
module TraceRunner {
  import opened Results

  datatype Trace = Trace(system: string, prefixes: seq<string>, turns: seq<seq<string>>, tokens: seq<seq<nat>>) {
    /** What `WorkloadTrace.from_dict` checks. */
    ghost predicate Valid() {
      && |turns| > 0 && |turns[0]| > 0
      && (forall c :: 0 <= c < |turns| ==> |turns[c]| == |turns[0]|)
      && |prefixes| == |tokens| == |turns|
      && (forall c :: 0 <= c < |tokens| ==> |tokens[c]| == |turns[0]|)
    }

    function Conversations(): nat {
      |turns|
    }

    function Turns(): nat {
      if turns == [] then 0 else |turns[0]|
    }
  }

  datatype Role = System | User | Assistant

  datatype Message = Message(role: Role, content: string)

  datatype Body = Body(messages: seq<Message>, maxTokens: nat)

  /** What a streamed request comes back with. */
  datatype Reply = Reply(succeeded: bool, text: string, score: real)

  datatype RequestResult = RequestResult(
    conversation: nat, turn: nat, sent: bool, succeeded: bool, text: string, score: real)

  datatype Phase =
    | Waiting(turn: nat)                 // about to submit this turn
    | Requested(turn: nat)               // the request is queued or running
    | Answered(turn: nat, reply: Reply)  // the future is done, the coroutine has not resumed
    | Finished

  datatype Conversation = Conversation(messages: seq<Message>, results: seq<RequestResult>, phase: Phase)

  datatype Ticket = Ticket(conversation: nat, turn: nat)

  /** A request a worker is on, with the body it read from the message list when it started. */
  datatype Running = Running(ticket: Ticket, body: Body)

  datatype State = State(conversations: seq<Conversation>, queue: seq<Ticket>, running: set<Running>)

  datatype Event =
    | Submit(conversation: nat)
    | Start
    | Complete(request: Running, reply: Reply)
    | Resume(conversation: nat)

  // ---------------------------------------------------------------------------------------
  // The pieces of one turn
  // ---------------------------------------------------------------------------------------

  function Opening(trace: Trace): seq<Message> {
    if trace.system != "" then [Message(System, trace.system)] else []
  }

  function UserMessage(trace: Trace, c: nat, turn: nat): Message
    requires trace.Valid() && c < trace.Conversations() && turn < trace.Turns()
  {
    Message(User, (if turn == 0 then trace.prefixes[c] else "") + trace.turns[c][turn])
  }

  function BodyOf(trace: Trace, c: nat, turn: nat, messages: seq<Message>): Body
    requires trace.Valid() && c < trace.Conversations() && turn < trace.Turns()
  {
    Body(messages, trace.tokens[c][turn])
  }

  function ResultOf(c: nat, turn: nat, reply: Reply): RequestResult {
    RequestResult(c, turn, true, reply.succeeded, reply.text, reply.score)
  }

  function Skipped(c: nat, turn: nat): RequestResult {
    RequestResult(c, turn, false, false, "", 0.0)
  }

  /** The skipped results of turns `from` .. `to` - 1. */
  function SkippedFrom(c: nat, from: nat, to: nat): (r: seq<RequestResult>)
    requires from <= to
    ensures |r| == to - from && forall i :: 0 <= i < |r| ==> r[i] == Skipped(c, from + i)
  {
    seq(to - from, i requires 0 <= i < to - from => Skipped(c, from + i))
  }

  /** The coroutine after `await` returned `reply`. */
  function AfterReply(trace: Trace, c: nat, turn: nat, conversation: Conversation, reply: Reply): Conversation
    requires turn < trace.Turns()
  {
    var results := conversation.results + [ResultOf(c, turn, reply)];
    if !reply.succeeded then
      Conversation(conversation.messages, results + SkippedFrom(c, turn + 1, trace.Turns()), Finished)
    else
      Conversation(conversation.messages + [Message(Assistant, reply.text)], results,
                   if turn + 1 < trace.Turns() then Waiting(turn + 1) else Finished)
  }

  // ---------------------------------------------------------------------------------------
  // Steps
  // ---------------------------------------------------------------------------------------

  /** `max_workers or num_conversations`, after the check that rejects fewer than one. */
  function WorkerCount(maxWorkers: Option<int>, trace: Trace): Option<nat> {
    match maxWorkers
    case None => Some(trace.Conversations())
    case Some(n) => if n < 1 then None else Some(n)
  }

  function Initial(trace: Trace): State {
    State(seq(trace.Conversations(), _ => Conversation(Opening(trace), [], Waiting(0))), [], {})
  }

  predicate Enabled(trace: Trace, workers: nat, s: State, e: Event) {
    match e
    case Submit(c) => c < |s.conversations| && s.conversations[c].phase.Waiting?
    case Start => s.queue != [] && |s.running| < workers
    case Complete(r, _) => r in s.running
    case Resume(c) => c < |s.conversations| && s.conversations[c].phase.Answered?
  }

  /** Every turn and conversation the state mentions exists. */
  ghost predicate Bounded(trace: Trace, s: State) {
    && trace.Valid() && |s.conversations| == trace.Conversations()
    && (forall c :: 0 <= c < |s.conversations| ==>
          s.conversations[c].phase.Finished? || s.conversations[c].phase.turn < trace.Turns())
    && (forall i :: 0 <= i < |s.queue| ==>
          s.queue[i].conversation < trace.Conversations() && s.queue[i].turn < trace.Turns())
    && (forall r :: r in s.running ==>
          r.ticket.conversation < trace.Conversations() && r.ticket.turn < trace.Turns())
  }

  function Step(trace: Trace, workers: nat, s: State, e: Event): State
    requires Bounded(trace, s) && Enabled(trace, workers, s, e)
  {
    match e
    case Submit(c) =>
      var v := s.conversations[c];
      var turn := v.phase.turn;
      var next := Conversation(v.messages + [UserMessage(trace, c, turn)], v.results, Requested(turn));
      State(s.conversations[c := next], s.queue + [Ticket(c, turn)], s.running)
    case Start =>
      var t := s.queue[0];
      var body := BodyOf(trace, t.conversation, t.turn, s.conversations[t.conversation].messages);
      State(s.conversations, s.queue[1..], s.running + {Running(t, body)})
    case Complete(r, reply) =>
      var c := r.ticket.conversation;
      State(s.conversations[c := s.conversations[c].(phase := Answered(r.ticket.turn, reply))],
            s.queue, s.running - {r})
    case Resume(c) =>
      var v := s.conversations[c];
      State(s.conversations[c := AfterReply(trace, c, v.phase.turn, v, v.phase.reply)], s.queue, s.running)
  }

  // ---------------------------------------------------------------------------------------
  // The invariant
  // ---------------------------------------------------------------------------------------

  /** The first `n` results are the successes of turns 0 .. n - 1. */
  ghost predicate Successes(results: seq<RequestResult>, c: nat, n: nat) {
    && n <= |results|
    && forall i :: 0 <= i < n ==>
         results[i].conversation == c && results[i].turn == i && results[i].sent && results[i].succeeded
  }

  /** Successes, then nothing or one failure followed by skipped turns only. */
  ghost predicate FinalShape(results: seq<RequestResult>, c: nat, turns: nat) {
    |results| == turns
    && exists n :: 0 <= n <= turns && FailsAt(results, c, turns, n)
  }

  ghost predicate FailsAt(results: seq<RequestResult>, c: nat, turns: nat, n: nat) {
    && Successes(results, c, n)
    && |results| == turns
    && (n < turns ==> results[n].conversation == c && results[n].turn == n && results[n].sent && !results[n].succeeded)
    && (forall i :: n < i < turns ==> results[i] == Skipped(c, i))
  }

  ghost predicate ConversationInvariant(trace: Trace, c: nat, v: Conversation) {
    match v.phase
    case Waiting(turn) => |v.results| == turn && Successes(v.results, c, turn)
    case Requested(turn) => |v.results| == turn && Successes(v.results, c, turn)
    case Answered(turn, _) => |v.results| == turn && Successes(v.results, c, turn)
    case Finished => FinalShape(v.results, c, trace.Turns())
  }

  /** The request of a conversation is in the queue. */
  ghost predicate Queued(s: State, c: nat) {
    exists i :: 0 <= i < |s.queue| && s.queue[i].conversation == c
  }

  ghost predicate InFlight(s: State, c: nat) {
    exists r :: r in s.running && r.ticket.conversation == c
  }

  /** At most one request per conversation is queued or running. */
  ghost predicate Exclusive(s: State) {
    && (forall i, j :: 0 <= i < j < |s.queue| ==> s.queue[i].conversation != s.queue[j].conversation)
    && (forall r, q :: r in s.running && q in s.running && r.ticket.conversation == q.ticket.conversation ==> r == q)
    && (forall i, r :: 0 <= i < |s.queue| && r in s.running ==> s.queue[i].conversation != r.ticket.conversation)
  }

  /**
   Whatever is in the pool is being waited for, and a worker's body is still what the conversation's
   message list says: nobody appends to it while the request is out.
   */
  ghost predicate Outstanding(trace: Trace, s: State)
    requires Bounded(trace, s)
  {
    && (forall i :: 0 <= i < |s.queue| ==>
          s.conversations[s.queue[i].conversation].phase == Requested(s.queue[i].turn))
    && (forall r :: r in s.running ==>
          s.conversations[r.ticket.conversation].phase == Requested(r.ticket.turn)
          && r.body == BodyOf(trace, r.ticket.conversation, r.ticket.turn, s.conversations[r.ticket.conversation].messages))
  }

  ghost predicate PoolInvariant(trace: Trace, workers: nat, s: State)
    requires Bounded(trace, s)
  {
    |s.running| <= workers && Exclusive(s) && Outstanding(trace, s)
  }

  /** No outstanding request has been lost. */
  ghost predicate Covered(s: State) {
    forall c :: 0 <= c < |s.conversations| && s.conversations[c].phase.Requested? ==> Queued(s, c) || InFlight(s, c)
  }

  ghost predicate Invariant(trace: Trace, workers: nat, s: State) {
    && Bounded(trace, s)
    && PoolInvariant(trace, workers, s)
    && Covered(s)
    && forall c :: 0 <= c < |s.conversations| ==> ConversationInvariant(trace, c, s.conversations[c])
  }
}
