/**
 What the requests of a trace say and what its results report, in terms of the trace and the server's
 replies alone: for every interleaving, every pool size and every reachable state.
 */
module TraceRequests {
  import opened Results
  import opened TraceRunner
  import opened TraceLaws
  import opened TraceReplay

  // ---------------------------------------------------------------------------------------
  // The request of one turn
  // ---------------------------------------------------------------------------------------

  /**
   The messages of turn `turn` of conversation `c`: the system message if the trace has one, then the
   user's and the assistant's alternately, the user's last. The conversation's prefix comes before the
   first user text, and the assistant's texts are those of the results of the turns before.
   */
  function Asked(trace: Trace, c: nat, turn: nat, results: seq<RequestResult>): (messages: seq<Message>)
    requires trace.Valid() && c < |trace.turns| && turn < |trace.turns[c]| && turn <= |results|
  {
    (if trace.system == "" then [] else [Message(System, trace.system)])
    + seq(2 * turn + 1, k requires 0 <= k < 2 * turn + 1 =>
        if k % 2 == 1 then Message(Assistant, results[k / 2].text)
        else if k == 0 then Message(User, trace.prefixes[c] + trace.turns[c][0])
        else Message(User, trace.turns[c][k / 2]))
  }

  /** The whole request: those messages, and as many tokens as the trace asks for in this turn. */
  function Request(trace: Trace, c: nat, turn: nat, results: seq<RequestResult>): Body
    requires trace.Valid() && c < |trace.turns| && turn < |trace.turns[c]| && turn <= |results|
  {
    Body(Asked(trace, c, turn, results), trace.tokens[c][turn])
  }

  /** Result `u` is what the server replied to the request of turn `u`, or a skipped turn with no text and score zero. */
  ghost predicate Reports(trace: Trace, c: nat, server: Body -> Reply, results: seq<RequestResult>, u: nat)
    requires trace.Valid() && c < |trace.turns| && u < |results| <= |trace.turns[c]|
  {
    if results[u].sent then
      var reply := server(Request(trace, c, u, results));
      results[u] == RequestResult(c, u, true, reply.succeeded, reply.text, reply.score)
    else
      results[u] == RequestResult(c, u, false, false, "", 0.0)
  }

  ghost predicate AllReport(trace: Trace, c: nat, server: Body -> Reply, results: seq<RequestResult>)
    requires trace.Valid() && c < |trace.turns| && |results| <= |trace.turns[c]|
  {
    forall u: nat :: u < |results| ==> Reports(trace, c, server, results, u)
  }

  lemma TurnCount(trace: Trace, c: nat)
    requires trace.Valid() && c < |trace.turns|
    ensures trace.Turns() == |trace.turns[c]| && trace.Conversations() == |trace.turns|
  {
  }

  lemma FirstRequest(trace: Trace, c: nat)
    requires trace.Valid() && c < |trace.turns|
    ensures Opening(trace) + [UserMessage(trace, c, 0)] == Asked(trace, c, 0, [])
  {
  }

  /** The results of the turns before decide what is asked. */
  lemma AskedAgain(trace: Trace, c: nat, turn: nat, a: seq<RequestResult>, b: seq<RequestResult>)
    requires trace.Valid() && c < |trace.turns| && turn < |trace.turns[c]| && turn <= |a| && turn <= |b|
    requires forall u :: 0 <= u < turn ==> a[u].text == b[u].text
    ensures Asked(trace, c, turn, a) == Asked(trace, c, turn, b)
  {
  }

  /** After a reply the next turn adds the assistant's text and the user's. */
  lemma NextRequest(trace: Trace, c: nat, turn: nat, results: seq<RequestResult>, result: RequestResult)
    requires trace.Valid() && c < |trace.turns| && turn + 1 < |trace.turns[c]| && turn == |results|
    ensures Asked(trace, c, turn + 1, results + [result])
         == Asked(trace, c, turn, results) + [Message(Assistant, result.text)] + [UserMessage(trace, c, turn + 1)]
  {
    var a, b := Asked(trace, c, turn, results), Asked(trace, c, turn + 1, results + [result]);
    var base := if trace.system == "" then 0 else 1;
    assert |a| == base + 2 * turn + 1 && |b| == |a| + 2;
    assert (results + [result])[turn] == result;
    assert b[|a|] == Message(Assistant, result.text) by {
      assert (2 * turn + 1) % 2 == 1 && (2 * turn + 1) / 2 == turn;
    }
    assert b[|a| + 1] == UserMessage(trace, c, turn + 1) by {
      assert (2 * turn + 2) % 2 == 0 && (2 * turn + 2) / 2 == turn + 1;
      assert "" + trace.turns[c][turn + 1] == trace.turns[c][turn + 1];
    }
    assert forall k :: 0 <= k < |a| ==> a[k] == b[k];
    hide Asked, UserMessage;
    assert b == a + [b[|a|]] + [b[|a| + 1]];
  }

  lemma ReportsAgain(trace: Trace, c: nat, server: Body -> Reply, a: seq<RequestResult>, b: seq<RequestResult>, u: nat)
    requires trace.Valid() && c < |trace.turns| && u < |a| <= |trace.turns[c]| && u < |b| <= |trace.turns[c]|
    requires forall t :: 0 <= t <= u ==> a[t] == b[t]
    ensures Reports(trace, c, server, a, u) <==> Reports(trace, c, server, b, u)
  {
    AskedAgain(trace, c, u, a, b);
    hide Asked;
  }

  lemma AppendReport(trace: Trace, c: nat, server: Body -> Reply, results: seq<RequestResult>, result: RequestResult)
    requires trace.Valid() && c < |trace.turns| && |results| < |trace.turns[c]| && AllReport(trace, c, server, results)
    requires Reports(trace, c, server, results + [result], |results|)
    ensures AllReport(trace, c, server, results + [result])
  {
    hide Reports;
    forall u: nat | u < |results|
      ensures Reports(trace, c, server, results + [result], u)
    {
      ReportsAgain(trace, c, server, results, results + [result], u);
    }
  }

  lemma {:induction false} AppendSkipped(trace: Trace, c: nat, server: Body -> Reply, results: seq<RequestResult>,
                                         n: nat)
    requires trace.Valid() && c < |trace.turns| && |results| + n <= |trace.turns[c]| && AllReport(trace, c, server, results)
    ensures AllReport(trace, c, server, results + SkippedFrom(c, |results|, |results| + n))
  {
    if n == 0 {
      assert results + SkippedFrom(c, |results|, |results|) == results;
    } else {
      var m := |results| + n - 1;
      AppendSkipped(trace, c, server, results, n - 1);
      var before := results + SkippedFrom(c, |results|, m);
      assert before + [Skipped(c, m)] == results + SkippedFrom(c, |results|, m + 1);
      hide AllReport;
      AppendReport(trace, c, server, before, Skipped(c, m));
    }
  }

  // ---------------------------------------------------------------------------------------
  // Every reachable state
  // ---------------------------------------------------------------------------------------

  /** The message list of a conversation is the request of its turn, up to the user's message still to come. */
  ghost predicate Conversing(trace: Trace, c: nat, server: Body -> Reply, v: Conversation)
    requires trace.Valid() && c < |trace.turns|
  {
    && |v.results| <= |trace.turns[c]| && AllReport(trace, c, server, v.results)
    && match v.phase
       case Waiting(t) =>
         t == |v.results| < |trace.turns[c]| && v.messages + [UserMessage(trace, c, t)] == Asked(trace, c, t, v.results)
       case Requested(t) => t == |v.results| < |trace.turns[c]| && v.messages == Asked(trace, c, t, v.results)
       case Answered(t, reply) =>
         && t == |v.results| < |trace.turns[c]| && v.messages == Asked(trace, c, t, v.results)
         && reply == server(Request(trace, c, t, v.results))
       case Finished => true
  }

  ghost predicate AllConverse(trace: Trace, server: Body -> Reply, s: State)
    requires trace.Valid()
  {
    |s.conversations| == |trace.turns|
    && forall c :: 0 <= c < |s.conversations| ==> Conversing(trace, c, server, s.conversations[c])
  }

  lemma InitialConverses(trace: Trace, server: Body -> Reply)
    requires trace.Valid()
    ensures AllConverse(trace, server, Initial(trace))
  {
    hide Opening, UserMessage, Asked;
    forall c: nat | c < |trace.turns|
      ensures Conversing(trace, c, server, Conversation(Opening(trace), [], Waiting(0)))
    {
      FirstRequest(trace, c);
    }
  }

  lemma ResumeConverses(trace: Trace, c: nat, server: Body -> Reply, v: Conversation)
    requires trace.Valid() && c < |trace.turns| && v.phase.Answered? && Conversing(trace, c, server, v)
    ensures v.phase.turn < trace.Turns()
    ensures Conversing(trace, c, server, AfterReply(trace, c, v.phase.turn, v, v.phase.reply))
  {
    TurnCount(trace, c);
    var t, reply := v.phase.turn, v.phase.reply;
    var result := ResultOf(c, t, reply);
    var results := v.results + [result];
    AskedAgain(trace, c, t, v.results, results);
    assert Reports(trace, c, server, results, t);
    AppendReport(trace, c, server, v.results, result);
    hide Asked, Reports, UserMessage, AllReport, Trace.Valid;
    if !reply.succeeded {
      AppendSkipped(trace, c, server, results, trace.Turns() - t - 1);
    } else if t + 1 < trace.Turns() {
      NextRequest(trace, c, t, v.results, result);
    }
  }

  lemma StepConverses(trace: Trace, workers: nat, server: Body -> Reply, s: State, e: Event)
    requires Invariant(trace, workers, s) && Enabled(trace, workers, s, e) && Honest(server, e)
    requires AllConverse(trace, server, s)
    ensures AllConverse(trace, server, Step(trace, workers, s, e))
  {
    hide UserMessage, Asked, AllReport, AfterReply, Exclusive, Covered, ConversationInvariant;
    match e {
      case Submit(c) =>
        assert Conversing(trace, c, server, s.conversations[c]);
      case Start =>
      case Complete(r, reply) =>
        var c := r.ticket.conversation;
        assert Conversing(trace, c, server, s.conversations[c]);
        assert s.conversations[c].phase == Requested(r.ticket.turn);
      case Resume(c) =>
        assert Conversing(trace, c, server, s.conversations[c]);
        ResumeConverses(trace, c, server, s.conversations[c]);
    }
  }

  lemma {:induction false} RunConverses(trace: Trace, workers: nat, server: Body -> Reply, states: seq<State>,
                                        events: seq<Event>, i: nat)
    requires trace.Valid() && IsRun(trace, workers, states, events) && i < |states|
    requires forall j :: 0 <= j < |events| ==> Honest(server, events[j])
    ensures AllConverse(trace, server, states[i])
  {
    hide *;
    RunLength(trace, workers, states, events);
    if i == 0 {
      InitialConverses(trace, server);
      RunStart(trace, workers, states, events);
    } else {
      RunStep(trace, workers, states, events, i - 1);
      RunConverses(trace, workers, server, states, events, i - 1);
      RunInvariant(trace, workers, states, events, i - 1);
      StepConverses(trace, workers, server, states[i - 1], events[i - 1]);
    }
  }

  lemma RunStart(trace: Trace, workers: nat, states: seq<State>, events: seq<Event>)
    requires IsRun(trace, workers, states, events)
    ensures |states| > 0 && states[0] == Initial(trace)
  {
    hide Initial, Step, Bounded, Enabled;
  }

  /**
   In every reachable state of every run against a server that answers by the body alone: a running
   request of turn `t` says what the trace and the replies so far say, in order and to the letter, and
   every result reports the reply to its own request.
   */
  lemma RequestsSayTheTrace(trace: Trace, workers: nat, server: Body -> Reply, states: seq<State>, events: seq<Event>,
                            i: nat, r: Running)
    requires trace.Valid() && IsRun(trace, workers, states, events) && i < |states| && r in states[i].running
    requires forall j :: 0 <= j < |events| ==> Honest(server, events[j])
    ensures var c, t := r.ticket.conversation, r.ticket.turn;
            && c < |trace.turns| == |states[i].conversations| && t == |states[i].conversations[c].results| < |trace.turns[c]|
            && r.body == Request(trace, c, t, states[i].conversations[c].results)
  {
    RunConverses(trace, workers, server, states, events, i);
    RunInvariant(trace, workers, states, events, i);
    var s, c := states[i], r.ticket.conversation;
    hide IsRun, UserMessage, Asked, AllReport, Exclusive, Covered, ConversationInvariant, Honest;
    assert s.conversations[c].phase == Requested(r.ticket.turn);
    assert Conversing(trace, c, server, s.conversations[c]);
  }

  lemma ResultsReportReplies(trace: Trace, workers: nat, server: Body -> Reply, states: seq<State>,
                             events: seq<Event>, i: nat, c: nat, u: nat)
    requires trace.Valid() && IsRun(trace, workers, states, events) && i < |states|
    requires forall j :: 0 <= j < |events| ==> Honest(server, events[j])
    requires c < |trace.turns|
    ensures |states[i].conversations| == |trace.turns| && |states[i].conversations[c].results| <= |trace.turns[c]|
    ensures u < |states[i].conversations[c].results| ==> Reports(trace, c, server, states[i].conversations[c].results, u)
  {
    RunConverses(trace, workers, server, states, events, i);
    hide IsRun, Reports, Honest, UserMessage, Asked;
    assert Conversing(trace, c, server, states[i].conversations[c]);
  }

  // ---------------------------------------------------------------------------------------
  // One conversation on its own
  // ---------------------------------------------------------------------------------------

  lemma {:induction false} AloneReports(trace: Trace, c: nat, server: Body -> Reply, turn: nat, messages: seq<Message>,
                                        results: seq<RequestResult>)
    requires trace.Valid() && c < |trace.turns| && turn == |results| <= |trace.turns[c]|
    requires AllReport(trace, c, server, results)
    requires turn < |trace.turns[c]| ==> messages + [UserMessage(trace, c, turn)] == Asked(trace, c, turn, results)
    ensures turn <= trace.Turns() && |results + Alone(trace, c, server, turn, messages)| == |trace.turns[c]|
    ensures AllReport(trace, c, server, results + Alone(trace, c, server, turn, messages))
    decreases trace.Turns() - turn
  {
    TurnCount(trace, c);
    if turn < trace.Turns() {
      var asked := Asked(trace, c, turn, results);
      var reply := server(Request(trace, c, turn, results));
      var result := ResultOf(c, turn, reply);
      AskedAgain(trace, c, turn, results, results + [result]);
      assert Reports(trace, c, server, results + [result], turn);
      AppendReport(trace, c, server, results, result);
      AloneIs(trace, c, server, turn, messages, asked, reply);
      hide Asked, Reports, AllReport, UserMessage, Alone, Onwards;
      if reply.succeeded {
        if turn + 1 < trace.Turns() {
          NextRequest(trace, c, turn, results, result);
        }
        var rest := asked + [Message(Assistant, reply.text)];
        AloneReports(trace, c, server, turn + 1, rest, results + [result]);
        Regroup(results, [result], Alone(trace, c, server, turn + 1, rest));
      } else {
        AppendSkipped(trace, c, server, results + [result], trace.Turns() - turn - 1);
        Regroup(results, [result], SkippedFrom(c, turn + 1, trace.Turns()));
      }
    } else {
      assert results + [] == results;
    }
  }

  lemma AloneIs(trace: Trace, c: nat, server: Body -> Reply, turn: nat, messages: seq<Message>, asked: seq<Message>,
                reply: Reply)
    requires trace.Valid() && c < |trace.turns| && turn < trace.Turns()
    requires asked == messages + [UserMessage(trace, c, turn)] && reply == server(Body(asked, trace.tokens[c][turn]))
    ensures Alone(trace, c, server, turn, messages)
         == [ResultOf(c, turn, reply)]
            + if reply.succeeded then Alone(trace, c, server, turn + 1, asked + [Message(Assistant, reply.text)])
              else SkippedFrom(c, turn + 1, trace.Turns())
  {
    hide UserMessage;
  }

  /** A conversation on its own gives one result a turn, each the reply to its own request or skipped. */
  lemma WholeReports(trace: Trace, c: nat, server: Body -> Reply)
    requires trace.Valid() && c < |trace.turns|
    ensures |Whole(trace, c, server)| == |trace.turns[c]| && AllReport(trace, c, server, Whole(trace, c, server))
  {
    FirstRequest(trace, c);
    hide Asked, UserMessage, Opening, Alone;
    AloneReports(trace, c, server, 0, Opening(trace), []);
    assert [] + Whole(trace, c, server) == Whole(trace, c, server);
  }
}
