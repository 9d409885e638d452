/** What holds in every run of the trace runner, for every interleaving, pool size and reply. */
module TraceLaws {
  import opened Results
  import opened TraceRunner

  // ---------------------------------------------------------------------------------------
  // Every step keeps the invariant
  // ---------------------------------------------------------------------------------------

  lemma InitialInvariant(trace: Trace, workers: nat)
    requires trace.Valid()
    ensures Invariant(trace, workers, Initial(trace))
  {
  }

  lemma StillCovered(s: State, s': State, d: nat)
    requires Queued(s, d) || InFlight(s, d)
    requires forall i :: 0 <= i < |s.queue| && s.queue[i].conversation == d ==> s.queue[i] in s'.queue
    requires forall r :: r in s.running && r.ticket.conversation == d ==> r in s'.running
    ensures Queued(s', d) || InFlight(s', d)
  {
    if Queued(s, d) {
      var i :| 0 <= i < |s.queue| && s.queue[i].conversation == d;
      var j :| 0 <= j < |s'.queue| && s'.queue[j] == s.queue[i];
      assert s'.queue[j].conversation == d;
    } else {
      var r :| r in s.running && r.ticket.conversation == d;
      assert r in s'.running;
    }
  }

  lemma SubmitCovers(trace: Trace, workers: nat, s: State, c: nat)
    requires Bounded(trace, s) && Covered(s) && Enabled(trace, workers, s, Submit(c))
    ensures Covered(Step(trace, workers, s, Submit(c)))
  {
    var s' := Step(trace, workers, s, Submit(c));
    hide UserMessage;
    forall d | 0 <= d < |s'.conversations| && s'.conversations[d].phase.Requested?
      ensures Queued(s', d) || InFlight(s', d)
    {
      if d == c {
        assert s'.queue[|s.queue|].conversation == c;
      } else {
        StillCovered(s, s', d);
      }
    }
  }

  lemma StartCovers(trace: Trace, workers: nat, s: State)
    requires Bounded(trace, s) && PoolInvariant(trace, workers, s) && Covered(s) && Enabled(trace, workers, s, Start)
    ensures Covered(Step(trace, workers, s, Start))
  {
    var s' := Step(trace, workers, s, Start);
    hide BodyOf, PoolInvariant;
    var t := s.queue[0];
    var r :| r in s'.running && r.ticket == t;
    forall d | 0 <= d < |s'.conversations| && s'.conversations[d].phase.Requested?
      ensures Queued(s', d) || InFlight(s', d)
    {
      if d == t.conversation {
        assert r in s'.running && r.ticket.conversation == d;
      } else {
        forall i | 0 <= i < |s.queue| && s.queue[i].conversation == d
          ensures s.queue[i] in s'.queue
        {
          assert s.queue[i] == s'.queue[i - 1];
        }
        StillCovered(s, s', d);
      }
    }
  }

  lemma CompleteCovers(trace: Trace, workers: nat, s: State, r: Running, reply: Reply)
    requires Bounded(trace, s) && PoolInvariant(trace, workers, s) && Covered(s)
    requires Enabled(trace, workers, s, Complete(r, reply))
    ensures Covered(Step(trace, workers, s, Complete(r, reply)))
  {
    var s' := Step(trace, workers, s, Complete(r, reply));
    hide BodyOf, PoolInvariant;
    forall d | 0 <= d < |s'.conversations| && s'.conversations[d].phase.Requested?
      ensures Queued(s', d) || InFlight(s', d)
    {
      assert d != r.ticket.conversation;
      StillCovered(s, s', d);
    }
  }

  lemma SubmitKeeps(trace: Trace, workers: nat, s: State, c: nat)
    requires Invariant(trace, workers, s) && Enabled(trace, workers, s, Submit(c))
    ensures Invariant(trace, workers, Step(trace, workers, s, Submit(c)))
  {
    SubmitCovers(trace, workers, s, c);
    hide Successes, FinalShape, UserMessage, BodyOf, Covered;
  }

  lemma StartExclusive(trace: Trace, workers: nat, s: State)
    requires Bounded(trace, s) && Exclusive(s) && Enabled(trace, workers, s, Start)
    ensures Exclusive(Step(trace, workers, s, Start))
  {
    hide BodyOf, Bounded;
    var s' := Step(trace, workers, s, Start);
    assert forall i :: 0 <= i < |s'.queue| ==> s'.queue[i] == s.queue[i + 1];
    assert forall r :: r in s'.running ==> r in s.running || r.ticket == s.queue[0];
  }

  lemma StartOutstanding(trace: Trace, workers: nat, s: State)
    requires Bounded(trace, s) && Outstanding(trace, s) && Enabled(trace, workers, s, Start)
    ensures Bounded(trace, Step(trace, workers, s, Start)) && Outstanding(trace, Step(trace, workers, s, Start))
  {
    hide BodyOf;
    var s' := Step(trace, workers, s, Start);
    assert s'.conversations == s.conversations;
    assert forall i :: 0 <= i < |s'.queue| ==> s'.queue[i] == s.queue[i + 1];
  }

  lemma StartSize(trace: Trace, workers: nat, s: State)
    requires Bounded(trace, s) && Enabled(trace, workers, s, Start)
    ensures |Step(trace, workers, s, Start).running| <= workers
    ensures Step(trace, workers, s, Start).conversations == s.conversations
  {
    hide BodyOf, Bounded;
  }

  lemma StartKeeps(trace: Trace, workers: nat, s: State)
    requires Invariant(trace, workers, s) && Enabled(trace, workers, s, Start)
    ensures Invariant(trace, workers, Step(trace, workers, s, Start))
  {
    StartCovers(trace, workers, s);
    StartExclusive(trace, workers, s);
    StartOutstanding(trace, workers, s);
    StartSize(trace, workers, s);
    hide Step, Bounded, Exclusive, Outstanding, Covered, ConversationInvariant;
  }

  lemma CompleteExclusive(trace: Trace, workers: nat, s: State, r: Running, reply: Reply)
    requires Bounded(trace, s) && Exclusive(s) && Enabled(trace, workers, s, Complete(r, reply))
    ensures Exclusive(Step(trace, workers, s, Complete(r, reply)))
    ensures |Step(trace, workers, s, Complete(r, reply)).running| <= |s.running|
  {
    hide BodyOf, Bounded;
  }

  lemma CompleteOutstanding(trace: Trace, workers: nat, s: State, r: Running, reply: Reply)
    requires Bounded(trace, s) && PoolInvariant(trace, workers, s) && Enabled(trace, workers, s, Complete(r, reply))
    ensures Bounded(trace, Step(trace, workers, s, Complete(r, reply)))
    ensures Outstanding(trace, Step(trace, workers, s, Complete(r, reply)))
  {
    assert forall q :: q in s.running && q != r ==> q.ticket.conversation != r.ticket.conversation;
    assert forall i :: 0 <= i < |s.queue| ==> s.queue[i].conversation != r.ticket.conversation;
    hide BodyOf, Exclusive;
  }

  lemma CompleteConversations(trace: Trace, workers: nat, s: State, r: Running, reply: Reply)
    requires Bounded(trace, s) && PoolInvariant(trace, workers, s) && Enabled(trace, workers, s, Complete(r, reply))
    requires forall c :: 0 <= c < |s.conversations| ==> ConversationInvariant(trace, c, s.conversations[c])
    ensures var conversations := Step(trace, workers, s, Complete(r, reply)).conversations;
            forall c :: 0 <= c < |conversations| ==> ConversationInvariant(trace, c, conversations[c])
  {
    var c := r.ticket.conversation;
    assert ConversationInvariant(trace, c, s.conversations[c]);
    assert s.conversations[c].phase == Requested(r.ticket.turn);
    hide Successes, FinalShape, BodyOf, Exclusive, PoolInvariant;
  }

  lemma CompleteKeeps(trace: Trace, workers: nat, s: State, r: Running, reply: Reply)
    requires Invariant(trace, workers, s) && Enabled(trace, workers, s, Complete(r, reply))
    ensures Invariant(trace, workers, Step(trace, workers, s, Complete(r, reply)))
  {
    CompleteCovers(trace, workers, s, r, reply);
    CompleteExclusive(trace, workers, s, r, reply);
    CompleteOutstanding(trace, workers, s, r, reply);
    CompleteConversations(trace, workers, s, r, reply);
    hide Step, Bounded, Exclusive, Outstanding, Covered, ConversationInvariant;
  }

  lemma AfterReplyShape(trace: Trace, c: nat, turn: nat, v: Conversation, reply: Reply)
    requires turn < trace.Turns() && |v.results| == turn && Successes(v.results, c, turn)
    ensures ConversationInvariant(trace, c, AfterReply(trace, c, turn, v, reply))
  {
    var w := AfterReply(trace, c, turn, v, reply);
    if !reply.succeeded {
      assert FailsAt(w.results, c, trace.Turns(), turn);
    } else if turn + 1 == trace.Turns() {
      assert FailsAt(w.results, c, trace.Turns(), turn + 1);
    }
  }

  lemma ResumeKeeps(trace: Trace, workers: nat, s: State, c: nat)
    requires Invariant(trace, workers, s) && Enabled(trace, workers, s, Resume(c))
    ensures Invariant(trace, workers, Step(trace, workers, s, Resume(c)))
  {
    var v := s.conversations[c];
    assert ConversationInvariant(trace, c, v);
    AfterReplyShape(trace, c, v.phase.turn, v, v.phase.reply);
    hide ConversationInvariant, BodyOf, AfterReply;
    var s' := Step(trace, workers, s, Resume(c));
    assert s'.queue == s.queue && s'.running == s.running;
    forall d | 0 <= d < |s'.conversations| && s'.conversations[d].phase.Requested?
      ensures Queued(s', d) || InFlight(s', d)
    {
      assert d != c by {
        NotRequested(trace, c, v.phase.turn, v, v.phase.reply);
      }
      StillCovered(s, s', d);
    }
    TurnBound(trace, c, v.phase.turn, v, v.phase.reply);
  }

  lemma NotRequested(trace: Trace, c: nat, turn: nat, v: Conversation, reply: Reply)
    requires turn < trace.Turns()
    ensures !AfterReply(trace, c, turn, v, reply).phase.Requested?
  {
  }

  lemma TurnBound(trace: Trace, c: nat, turn: nat, v: Conversation, reply: Reply)
    requires turn < trace.Turns()
    ensures var p := AfterReply(trace, c, turn, v, reply).phase; p.Finished? || p.turn < trace.Turns()
  {
  }

  /** Every step of the machine keeps the invariant. */
  lemma StepKeeps(trace: Trace, workers: nat, s: State, e: Event)
    requires Invariant(trace, workers, s) && Enabled(trace, workers, s, e)
    ensures Invariant(trace, workers, Step(trace, workers, s, e))
  {
    hide Invariant, Step, Enabled;
    match e {
      case Submit(c) => SubmitKeeps(trace, workers, s, c);
      case Start => StartKeeps(trace, workers, s);
      case Complete(r, reply) => CompleteKeeps(trace, workers, s, r, reply);
      case Resume(c) => ResumeKeeps(trace, workers, s, c);
    }
  }

  // ---------------------------------------------------------------------------------------
  // Runs
  // ---------------------------------------------------------------------------------------

  /** Any interleaving of steps from the start, with any replies. */
  ghost predicate IsRun(trace: Trace, workers: nat, states: seq<State>, events: seq<Event>) {
    && |states| == |events| + 1 && states[0] == Initial(trace)
    && forall i :: 0 <= i < |events| ==>
         Bounded(trace, states[i]) && Enabled(trace, workers, states[i], events[i])
         && states[i + 1] == Step(trace, workers, states[i], events[i])
  }

  lemma {:induction false} RunInvariant(trace: Trace, workers: nat, states: seq<State>, events: seq<Event>, i: nat)
    requires trace.Valid() && IsRun(trace, workers, states, events) && i < |states|
    ensures Invariant(trace, workers, states[i])
  {
    hide Invariant, Step, Enabled, Bounded;
    if i == 0 {
      InitialInvariant(trace, workers);
    } else {
      RunInvariant(trace, workers, states, events, i - 1);
      StepKeeps(trace, workers, states[i - 1], events[i - 1]);
    }
  }

  /** How many requests of conversation `c` are queued or running. */
  function Queue(queue: seq<Ticket>, c: nat): nat {
    if queue == [] then 0 else (if queue[0].conversation == c then 1 else 0) + Queue(queue[1..], c)
  }

  function Load(s: State, c: nat): nat {
    Queue(s.queue, c) + |set r | r in s.running && r.ticket.conversation == c|
  }

  lemma {:induction false} QueueCount(queue: seq<Ticket>, c: nat)
    requires forall i, j :: 0 <= i < j < |queue| ==> queue[i].conversation != queue[j].conversation
    ensures Queue(queue, c) <= 1
    ensures Queue(queue, c) == 0 <==> forall i :: 0 <= i < |queue| ==> queue[i].conversation != c
  {
    if queue != [] {
      assert forall i :: 0 <= i < |queue| - 1 ==> queue[1..][i] == queue[i + 1];
      QueueCount(queue[1..], c);
      if queue[0].conversation != c && Queue(queue[1..], c) != 0 {
        var i :| 0 <= i < |queue[1..]| && queue[1..][i].conversation == c;
        assert queue[i + 1].conversation == c;
      }
    }
  }

  lemma SingletonSet(a: set<Running>)
    requires forall r, q :: r in a && q in a ==> r == q
    ensures |a| <= 1
  {
    if a != {} {
      var r :| r in a;
      assert a == {r};
    }
  }

  /**
   In every reachable state each conversation has at most one request in the pool, at most `workers`
   requests run at once, and a running request carries the body its conversation built.
   */
  lemma RequestsAreBounded(trace: Trace, workers: nat, states: seq<State>, events: seq<Event>, i: nat, c: nat)
    requires trace.Valid() && IsRun(trace, workers, states, events) && i < |states| && c < trace.Conversations()
    ensures var s := states[i];
            && c < |s.conversations| && Load(s, c) <= 1 && |s.running| <= workers
            && (Load(s, c) == 1 <==> s.conversations[c].phase.Requested?)
  {
    RunInvariant(trace, workers, states, events, i);
    var s := states[i];
    LoadOfInvariant(trace, workers, s, c);
  }

  lemma LoadOfInvariant(trace: Trace, workers: nat, s: State, c: nat)
    requires Invariant(trace, workers, s) && c < trace.Conversations()
    ensures Load(s, c) <= 1 && |s.running| <= workers
    ensures Load(s, c) == 1 <==> s.conversations[c].phase.Requested?
    ensures |s.conversations| == trace.Conversations()
  {
    hide ConversationInvariant, BodyOf;
    QueueCount(s.queue, c);
    var mine := set r | r in s.running && r.ticket.conversation == c;
    SingletonSet(mine);
    if InFlight(s, c) {
      var r :| r in s.running && r.ticket.conversation == c;
      assert r in mine;
    } else {
      assert mine == {};
    }
  }

  /** The conversations that have a request running. */
  function Busy(running: set<Running>): set<int> {
    set r | r in running :: r.ticket.conversation
  }

  lemma {:induction false} DifferentConversations(running: set<Running>)
    requires forall r, q :: r in running && q in running && r.ticket.conversation == q.ticket.conversation ==> r == q
    ensures |Busy(running)| == |running|
    decreases |running|
  {
    if running != {} {
      var r :| r in running;
      DifferentConversations(running - {r});
      assert Busy(running) == Busy(running - {r}) + {r.ticket.conversation};
    }
  }

  function Numbers(n: nat): (s: set<int>)
    ensures |s| == n && forall c :: c in s <==> 0 <= c < n
  {
    if n == 0 then {} else Numbers(n - 1) + {n - 1}
  }

  lemma Subset(a: set<int>, b: set<int>, c: int)
    requires a <= b && c in b && c !in a
    ensures |a| < |b|
  {
    assert b == a + (b - a);
    assert c in b - a;
  }

  /**
   A pool needs at least one worker. Without a limit it has enough of them for a queued request to start
   at any time; with one, exactly while fewer requests than that are running.
   */
  lemma PoolSize(trace: Trace, limit: int, workers: nat, s: State)
    requires Invariant(trace, workers, s) && s.queue != []
    ensures WorkerCount(None, trace) == Some(workers) ==> Enabled(trace, workers, s, Start)
    ensures WorkerCount(Some(limit), trace).Some? <==> limit >= 1
    ensures WorkerCount(Some(limit), trace) == Some(workers) ==> (Enabled(trace, workers, s, Start) <==> |s.running| < limit)
  {
    hide ConversationInvariant, BodyOf, Outstanding, Covered;
    DifferentConversations(s.running);
    Subset(Busy(s.running), Numbers(trace.Conversations()), s.queue[0].conversation);
  }

  // ---------------------------------------------------------------------------------------
  // The end of a run
  // ---------------------------------------------------------------------------------------

  ghost predicate Done(s: State) {
    forall c :: 0 <= c < |s.conversations| ==> s.conversations[c].phase.Finished?
  }

  /** The groups that `asyncio.gather` returns, one after the other. */
  function Collected(conversations: seq<Conversation>): seq<RequestResult> {
    if conversations == [] then []
    else Collected(conversations[..|conversations| - 1]) + conversations[|conversations| - 1].results
  }

  predicate KeyLess(a: RequestResult, b: RequestResult) {
    a.conversation < b.conversation || (a.conversation == b.conversation && a.turn < b.turn)
  }

  /** Where the result of conversation `c`, turn `t` belongs. */
  function Slot(c: nat, t: nat, turns: nat): nat {
    c * turns + t
  }

  lemma SlotInside(c: nat, t: nat, turns: nat, conversations: nat)
    requires c < conversations && t < turns
    ensures Slot(c, t, turns) < conversations * turns
    ensures (c + 1) * turns == c * turns + turns
  {
    assert (c + 1) * turns <= conversations * turns;
  }

  lemma {:induction false} CollectedAt(conversations: seq<Conversation>, turns: nat, c: nat, t: nat)
    requires forall d :: 0 <= d < |conversations| ==> |conversations[d].results| == turns
    requires c < |conversations| && t < turns
    ensures Slot(c, t, turns) < |Collected(conversations)|
    ensures Collected(conversations)[Slot(c, t, turns)] == conversations[c].results[t]
  {
    var n := |conversations| - 1;
    CollectedLength(conversations, turns);
    CollectedLength(conversations[..n], turns);
    SlotInside(c, t, turns, n + 1);
    if c < n {
      SlotInside(c, t, turns, n);
      CollectedAt(conversations[..n], turns, c, t);
    }
  }

  lemma {:induction false} CollectedLength(conversations: seq<Conversation>, turns: nat)
    requires forall d :: 0 <= d < |conversations| ==> |conversations[d].results| == turns
    ensures |Collected(conversations)| == |conversations| * turns
  {
    if conversations != [] {
      var n := |conversations| - 1;
      CollectedLength(conversations[..n], turns);
      assert (n + 1) * turns == n * turns + turns;
    }
  }

  lemma ShapeKeys(results: seq<RequestResult>, c: nat, turns: nat, t: nat)
    requires FinalShape(results, c, turns) && t < turns
    ensures results[t].conversation == c && results[t].turn == t
    ensures !results[t].succeeded && !results[t].sent ==> results[t].score == 0.0
  {
    var n :| 0 <= n <= turns && FailsAt(results, c, turns, n);
    if t > n {
      assert results[t] == Skipped(c, t);
    }
  }

  /** One result for every conversation and turn, each in its own slot, and nothing else. */
  ghost predicate EverySlot(all: seq<RequestResult>, conversations: nat, turns: nat) {
    && |all| == conversations * turns
    && forall c: nat, t: nat :: c < conversations && t < turns ==>
         Slot(c, t, turns) < |all| && all[Slot(c, t, turns)].conversation == c && all[Slot(c, t, turns)].turn == t
  }

  ghost predicate InKeyOrder(all: seq<RequestResult>) {
    forall i, j :: 0 <= i < j < |all| ==> KeyLess(all[i], all[j])
  }

  /**
   A finished run has exactly one result for every conversation and turn. The groups come back already
   in key order, so the final sort changes nothing, and each conversation is a stretch of successes,
   at most one failure, and then only skipped turns with score zero.
   */
  lemma FinishedRun(trace: Trace, workers: nat, states: seq<State>, events: seq<Event>)
    requires trace.Valid() && IsRun(trace, workers, states, events) && Done(states[|events|])
    ensures var s := states[|events|];
            && s.queue == [] && s.running == {} && |s.conversations| == trace.Conversations()
            && EverySlot(Collected(s.conversations), trace.Conversations(), trace.Turns())
            && InKeyOrder(Collected(s.conversations))
            && (forall c :: 0 <= c < |s.conversations| ==> FinalShape(s.conversations[c].results, c, trace.Turns()))
  {
    var s := states[|events|];
    RunInvariant(trace, workers, states, events, |events|);
    DoneIsQuiet(trace, workers, s);
    CompleteCollection(s.conversations, trace.Turns());
    KeysIncrease(Collected(s.conversations), trace.Conversations(), trace.Turns());
  }

  lemma CompleteCollection(conversations: seq<Conversation>, turns: nat)
    requires forall c :: 0 <= c < |conversations| ==>
               FinalShape(conversations[c].results, c, turns) && |conversations[c].results| == turns
    ensures EverySlot(Collected(conversations), |conversations|, turns)
  {
    hide FinalShape, Collected, Slot;
    CollectedLength(conversations, turns);
    forall c: nat, t: nat | c < |conversations| && t < turns
      ensures var k := Slot(c, t, turns);
              k < |Collected(conversations)| && Collected(conversations)[k].conversation == c && Collected(conversations)[k].turn == t
    {
      CollectedAt(conversations, turns, c, t);
      ShapeKeys(conversations[c].results, c, turns, t);
    }
  }

  lemma HeadIsRequested(trace: Trace, workers: nat, s: State)
    requires Invariant(trace, workers, s)
    ensures s.queue != [] ==> s.conversations[s.queue[0].conversation].phase.Requested?
    ensures forall r :: r in s.running ==> s.conversations[r.ticket.conversation].phase.Requested?
  {
    hide BodyOf, Exclusive, Covered, ConversationInvariant;
  }

  lemma DoneIsQuiet(trace: Trace, workers: nat, s: State)
    requires Invariant(trace, workers, s) && Done(s)
    ensures s.queue == [] && s.running == {}
    ensures |s.conversations| == trace.Conversations()
    ensures forall c :: 0 <= c < |s.conversations| ==>
              FinalShape(s.conversations[c].results, c, trace.Turns()) && |s.conversations[c].results| == trace.Turns()
  {
    HeadIsRequested(trace, workers, s);
    hide PoolInvariant, Covered, FailsAt;
    forall c | 0 <= c < |s.conversations|
      ensures FinalShape(s.conversations[c].results, c, trace.Turns())
    {
      assert ConversationInvariant(trace, c, s.conversations[c]);
    }
    assert s.queue == [];
    assert forall r :: r !in s.running;
  }

  lemma KeysIncrease(all: seq<RequestResult>, conversations: nat, turns: nat)
    requires EverySlot(all, conversations, turns)
    ensures InKeyOrder(all)
  {
    forall i, j | 0 <= i < j < |all|
      ensures KeyLess(all[i], all[j])
    {
      var c, t := SlotOf(i, turns, conversations);
      var d, u := SlotOf(j, turns, conversations);
      SlotOrder(c, t, d, u, turns);
    }
  }

  lemma SlotOf(i: nat, turns: nat, conversations: nat) returns (c: nat, t: nat)
    requires i < conversations * turns
    ensures c < conversations && t < turns && i == Slot(c, t, turns)
  {
    assert turns > 0;
    c, t := i / turns, i % turns;
    assert i == c * turns + t;
    assert c >= conversations ==> c * turns >= conversations * turns;
  }

  lemma SlotOrder(c: nat, t: nat, d: nat, u: nat, turns: nat)
    requires t < turns && u < turns && Slot(c, t, turns) < Slot(d, u, turns)
    ensures c < d || (c == d && t < u)
  {
    assert d < c ==> (d + 1) * turns <= c * turns;
    assert (d + 1) * turns == d * turns + turns;
  }

  // ---------------------------------------------------------------------------------------
  // A run can always go on, and must come to an end
  // ---------------------------------------------------------------------------------------

  /** Unless everything is finished some step is enabled, whatever reply a worker is about to give. */
  lemma Progress(trace: Trace, maxWorkers: Option<int>, workers: nat, s: State, reply: Reply)
    requires Invariant(trace, workers, s) && WorkerCount(maxWorkers, trace) == Some(workers) && !Done(s)
    ensures exists e :: Enabled(trace, workers, s, e) && (e.Complete? ==> e.reply == reply)
  {
    hide ConversationInvariant, BodyOf, Exclusive, Outstanding;
    var c :| 0 <= c < |s.conversations| && !s.conversations[c].phase.Finished?;
    match s.conversations[c].phase {
      case Waiting(_) => assert Enabled(trace, workers, s, Submit(c));
      case Answered(_, _) => assert Enabled(trace, workers, s, Resume(c));
      case Requested(_) =>
        assert Queued(s, c) || InFlight(s, c);
        if s.running == {} {
          assert Enabled(trace, workers, s, Start);
        } else {
          var r :| r in s.running;
          assert Enabled(trace, workers, s, Complete(r, reply));
        }
    }
  }

  /** How many steps a conversation can still take part in. */
  function Left(turns: nat, p: Phase): int {
    match p
    case Waiting(t) => 4 * (turns - t)
    case Requested(t) => 4 * (turns - t) - 2
    case Answered(t, _) => 4 * (turns - t) - 3
    case Finished => 0
  }

  function TotalLeft(turns: nat, conversations: seq<Conversation>): int {
    if conversations == [] then 0
    else TotalLeft(turns, conversations[..|conversations| - 1])
         + Left(turns, conversations[|conversations| - 1].phase)
  }

  function Measure(trace: Trace, s: State): int {
    TotalLeft(trace.Turns(), s.conversations) + |s.queue|
  }

  lemma {:induction false} TotalAfterUpdate(turns: nat, conversations: seq<Conversation>, c: nat, v: Conversation)
    requires c < |conversations|
    ensures TotalLeft(turns, conversations[c := v])
         == TotalLeft(turns, conversations) - Left(turns, conversations[c].phase) + Left(turns, v.phase)
  {
    var n := |conversations| - 1;
    if c < n {
      TotalAfterUpdate(turns, conversations[..n], c, v);
      assert conversations[c := v][..n] == conversations[..n][c := v];
    } else {
      assert conversations[c := v][..n] == conversations[..n];
    }
  }

  lemma {:induction false} TotalIsNatural(turns: nat, conversations: seq<Conversation>)
    requires forall c :: 0 <= c < |conversations| ==>
               conversations[c].phase.Finished? || conversations[c].phase.turn < turns
    ensures 0 <= TotalLeft(turns, conversations) <= 4 * turns * |conversations|
  {
    if conversations != [] {
      var n := |conversations| - 1;
      TotalIsNatural(turns, conversations[..n]);
      assert 4 * turns * (n + 1) == 4 * turns * n + 4 * turns;
    }
  }

  lemma StepDecreases(trace: Trace, workers: nat, s: State, e: Event)
    requires Invariant(trace, workers, s) && Enabled(trace, workers, s, e)
    ensures Measure(trace, Step(trace, workers, s, e)) < Measure(trace, s)
  {
    hide ConversationInvariant, BodyOf, Exclusive, Covered, TotalLeft, UserMessage;
    var turns := trace.Turns();
    match e {
      case Submit(c) =>
        TotalAfterUpdate(turns, s.conversations, c, Step(trace, workers, s, e).conversations[c]);
      case Start =>
      case Complete(r, reply) =>
        var c := r.ticket.conversation;
        TotalAfterUpdate(turns, s.conversations, c, s.conversations[c].(phase := Answered(r.ticket.turn, reply)));
      case Resume(c) =>
        var v := s.conversations[c];
        TotalAfterUpdate(turns, s.conversations, c, AfterReply(trace, c, v.phase.turn, v, v.phase.reply));
    }
  }

  /** No run takes more than four steps per request: submit, start, complete, resume. */
  lemma {:induction false} RunsAreShort(trace: Trace, workers: nat, states: seq<State>, events: seq<Event>, i: nat)
    requires trace.Valid() && IsRun(trace, workers, states, events) && i < |states|
    ensures i + Measure(trace, states[i]) <= 4 * trace.Turns() * trace.Conversations()
    ensures i <= 4 * trace.Turns() * trace.Conversations()
  {
    hide Invariant, Step, Enabled;
    RunInvariant(trace, workers, states, events, i);
    MeasureIsNatural(trace, workers, states[i]);
    if i == 0 {
      TotalIsNatural(trace.Turns(), states[0].conversations);
    } else {
      RunsAreShort(trace, workers, states, events, i - 1);
      RunInvariant(trace, workers, states, events, i - 1);
      StepDecreases(trace, workers, states[i - 1], events[i - 1]);
    }
  }

  lemma MeasureIsNatural(trace: Trace, workers: nat, s: State)
    requires Invariant(trace, workers, s)
    ensures Measure(trace, s) >= 0
  {
    TotalIsNatural(trace.Turns(), s.conversations);
  }
}
