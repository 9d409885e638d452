/**
 Speculative decoding: the target model verifies a draft in one pass and the longest agreeing prefix is
 emitted with one token of its own (lib/serving_speculative.ml:3-29).
 */
module Speculative {
  import opened Results

  datatype Acceptance = Acceptance(emitted: seq<int>, accepted: nat)

  datatype SpeculationError = WrongPredictionCount(expected: nat)

  function FirstMismatch(draft: seq<int>, predictions: seq<int>, index: nat): (r: nat)
    requires index <= |draft| < |predictions|
    ensures index <= r <= |draft| && draft[index..r] == predictions[index..r]
    ensures r < |draft| ==> draft[r] != predictions[r]
    decreases |draft| - index
  {
    if index == |draft| then index
    else if draft[index] == predictions[index] then
      var r := FirstMismatch(draft, predictions, index + 1);
      assert draft[index..r] == [draft[index]] + draft[index + 1..r];
      assert predictions[index..r] == [predictions[index]] + predictions[index + 1..r];
      r
    else index
  }

  /** `Speculative_acceptance.greedy`. */
  function Greedy(draft: seq<int>, predictions: seq<int>): Result<Acceptance, SpeculationError> {
    if |predictions| != |draft| + 1 then Err(WrongPredictionCount(|draft| + 1))
    else
      var accepted := FirstMismatch(draft, predictions, 0);
      Ok(Acceptance(draft[..accepted] + [predictions[accepted]], accepted))
  }

  /** The array form: filled with the target's token, then overwritten with the accepted drafts. */
  method GreedyArray(draft: array<int>, predictions: array<int>)
    returns (r: Result<nat, SpeculationError>, emitted: array<int>)
    ensures fresh(emitted)
    ensures match r
            case Err(e) => Greedy(draft[..], predictions[..]) == Err(e)
            case Ok(accepted) => Greedy(draft[..], predictions[..]) == Ok(Acceptance(emitted[..], accepted))
  {
    if predictions.Length != draft.Length + 1 {
      return Err(WrongPredictionCount(draft.Length + 1)), new int[0];
    }
    var accepted := 0;
    while accepted < draft.Length && draft[accepted] == predictions[accepted]
      invariant accepted <= draft.Length
      invariant FirstMismatch(draft[..], predictions[..], 0) == FirstMismatch(draft[..], predictions[..], accepted)
    {
      accepted := accepted + 1;
    }
    var token := predictions[accepted];
    emitted := new int[accepted + 1](_ => token);
    var i := 0;
    while i < accepted
      modifies emitted
      invariant i <= accepted && emitted[accepted] == token
      invariant emitted[..i] == draft[..i]
    {
      emitted[i] := draft[i];
      i := i + 1;
    }
    assert emitted[..] == emitted[..accepted] + [emitted[accepted]];
    assert draft[..][..accepted] == draft[..accepted];
    r := Ok(accepted);
  }

  // ---------------------------------------------------------------------------------------
  // The output is the target model's own
  // ---------------------------------------------------------------------------------------

  /** The first `n` tokens of decoding greedily with the target model alone. */
  function Continuation(next: seq<int> -> int, context: seq<int>, n: nat): (r: seq<int>)
    ensures |r| == n
  {
    if n == 0 then []
    else
      var head := Continuation(next, context, n - 1);
      head + [next(context + head)]
  }

  /** What the target predicts after the context and after every prefix of the draft. */
  ghost predicate Verified(next: seq<int> -> int, context: seq<int>, draft: seq<int>, predictions: seq<int>) {
    && |predictions| == |draft| + 1
    && forall i :: 0 <= i <= |draft| ==> predictions[i] == next(context + draft[..i])
  }

  lemma {:induction false} AcceptedIsContinuation(next: seq<int> -> int, context: seq<int>, draft: seq<int>,
                                                  predictions: seq<int>, n: nat)
    requires Verified(next, context, draft, predictions) && n <= FirstMismatch(draft, predictions, 0)
    ensures draft[..n] == Continuation(next, context, n)
  {
    if n > 0 {
      AcceptedIsContinuation(next, context, draft, predictions, n - 1);
      var r := FirstMismatch(draft, predictions, 0);
      assert draft[n - 1] == draft[0..r][n - 1] == predictions[0..r][n - 1] == predictions[n - 1];
      assert draft[..n] == draft[..n - 1] + [draft[n - 1]];
    }
  }

  /** What one verification emits is what the target model would have produced, whatever was drafted. */
  lemma EmittedIsGreedy(next: seq<int> -> int, context: seq<int>, draft: seq<int>, predictions: seq<int>)
    requires Verified(next, context, draft, predictions)
    ensures Greedy(draft, predictions).Ok?
    ensures var a := Greedy(draft, predictions).value;
            && |a.emitted| == a.accepted + 1 && a.emitted == Continuation(next, context, |a.emitted|)
            && (a.accepted < |draft| ==> draft[..a.accepted + 1] != Continuation(next, context, a.accepted + 1))
  {
    var r := FirstMismatch(draft, predictions, 0);
    AcceptedIsContinuation(next, context, draft, predictions, r);
    if r < |draft| {
      assert draft[..r + 1][r] == draft[r] != predictions[r] == Continuation(next, context, r + 1)[r];
    }
  }

  /** Any number of rounds, each with any draft. */
  function Rounds(next: seq<int> -> int, context: seq<int>, drafts: seq<seq<int>>): seq<int>
    decreases |drafts|
  {
    if drafts == [] then []
    else
      var draft := drafts[0];
      var predictions := seq(|draft| + 1, i requires 0 <= i <= |draft| => next(context + draft[..i]));
      var emitted := Greedy(draft, predictions).value.emitted;
      emitted + Rounds(next, context + emitted, drafts[1..])
  }

  lemma {:induction false} ContinuationConcat(next: seq<int> -> int, context: seq<int>, m: nat, n: nat)
    ensures var head := Continuation(next, context, m);
            head + Continuation(next, context + head, n) == Continuation(next, context, m + n)
  {
    var head := Continuation(next, context, m);
    if n == 0 {
      assert head + [] == head;
    } else {
      ContinuationConcat(next, context, m, n - 1);
      var tail := Continuation(next, context + head, n - 1);
      assert context + (head + tail) == (context + head) + tail;
      assert head + (tail + [next((context + head) + tail)]) == (head + tail) + [next(context + (head + tail))];
    }
  }

  /**
   Speculative decoding over any drafts emits exactly the greedy decoding of the target model, and at
   least one token a round.
   */
  lemma {:induction false} SpeculationIsGreedy(next: seq<int> -> int, context: seq<int>, drafts: seq<seq<int>>)
    ensures |Rounds(next, context, drafts)| >= |drafts|
    ensures Rounds(next, context, drafts) == Continuation(next, context, |Rounds(next, context, drafts)|)
    decreases |drafts|
  {
    if drafts != [] {
      var draft := drafts[0];
      var predictions := seq(|draft| + 1, i requires 0 <= i <= |draft| => next(context + draft[..i]));
      EmittedIsGreedy(next, context, draft, predictions);
      var emitted := Greedy(draft, predictions).value.emitted;
      SpeculationIsGreedy(next, context + emitted, drafts[1..]);
      hide Greedy;
      ContinuationConcat(next, context, |emitted|, |Rounds(next, context + emitted, drafts[1..])|);
    }
  }
}
