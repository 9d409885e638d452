/**
 Prompt-lookup drafting: the longest suffix of the tokens that occurs earlier, at its latest earlier
 position, and the tokens that follow it there. The Python search is
 bench/bench_prompt_lookup_speculative.py:38-51, the OCaml one lib/serving_speculative.ml:164-197.
 */
module PromptLookup {
  import opened Results

  /** Where a slice bound falls: a negative one counts from the end, and none leaves the sequence. */
  function Bound(length: nat, i: int): (b: nat)
    ensures b <= length
  {
    if i < 0 then (if i + length < 0 then 0 else i + length)
    else if i < length then i
    else length
  }

  /** A slice `s[lo:hi]` of a Python sequence. */
  function Slice(s: seq<int>, lo: int, hi: int): (r: seq<int>)
    ensures 0 <= lo <= hi <= |s| ==> r == s[lo..hi]
    ensures 0 <= lo && (lo >= |s| || 0 <= hi <= lo) ==> r == []
    ensures 0 <= lo <= |s| <= hi ==> r == s[lo..]
    ensures -|s| <= lo < 0 && hi >= |s| ==> r == s[|s| + lo..]
    ensures lo < -|s| && 0 <= hi <= |s| ==> r == s[..hi]
    ensures hi < 0 && 0 <= lo <= |s| + hi ==> r == s[lo..|s| + hi]
  {
    var a, b := Bound(|s|, lo), Bound(|s|, hi);
    if a < b then s[a..b] else []
  }

  /** The last `n` tokens also stand at `pos`, somewhere before the end; for a negative `n` as the slices have it. */
  predicate Recurs(tokens: seq<int>, n: int, pos: int) {
    0 <= pos < |tokens| - n && Slice(tokens, pos, pos + n) == Slice(tokens, |tokens| - n, |tokens|)
  }

  function Min(a: int, b: int): int {
    if a < b then a else b
  }

  /** The latest position up to `pos` where the last `n` tokens recur. */
  function Latest(tokens: seq<int>, n: int, pos: int): (r: Option<nat>)
    ensures r.Some? ==> r.value <= pos && Recurs(tokens, n, r.value)
    ensures forall p :: (if r.Some? then r.value + 1 else 0) <= p <= pos ==> !Recurs(tokens, n, p)
    decreases pos
  {
    if pos < 0 then None
    else if Recurs(tokens, n, pos) then Some(pos)
    else Latest(tokens, n, pos - 1)
  }

  datatype Match = Match(length: int, pos: nat)

  /** The longest suffix of at most `n` and at least `low` tokens that recurs, at its latest position. */
  function Longest(tokens: seq<int>, low: int, n: int): (r: Option<Match>)
    ensures r.Some? ==> low <= r.value.length <= n && Recurs(tokens, r.value.length, r.value.pos)
    ensures r.Some? ==> forall p :: p > r.value.pos ==> !Recurs(tokens, r.value.length, p)
    ensures forall m, p :: (if r.Some? then r.value.length + 1 else low) <= m <= n ==> !Recurs(tokens, m, p)
    decreases n - low
  {
    if n < low then None
    else
      match Latest(tokens, n, |tokens| - n - 1)
      case Some(pos) => Some(Match(n, pos))
      case None => Longest(tokens, low, n - 1)
  }

  /** What follows the match, at most `limit` tokens. */
  function Draft(tokens: seq<int>, m: Match, limit: nat): seq<int> {
    Slice(tokens, m.pos + m.length, m.pos + m.length + limit)
  }

  function Candidate(tokens: seq<int>, minNgram: int, maxNgram: int, limit: int): seq<int> {
    if |tokens| <= minNgram || limit <= 0 then []
    else
      match Longest(tokens, minNgram, Min(maxNgram, |tokens| - 1))
      case None => []
      case Some(m) => Draft(tokens, m, limit)
  }

  lemma FoundAt(tokens: seq<int>, low: int, n: int, pos: nat)
    requires low <= n && Recurs(tokens, n, pos)
    requires Latest(tokens, n, pos) == Latest(tokens, n, |tokens| - n - 1)
    ensures Longest(tokens, low, n) == Some(Match(n, pos))
  {
  }

  lemma NotFound(tokens: seq<int>, low: int, n: int)
    requires low <= n && Latest(tokens, n, -1) == Latest(tokens, n, |tokens| - n - 1)
    ensures Longest(tokens, low, n) == Longest(tokens, low, n - 1)
  {
  }

  lemma Passed(tokens: seq<int>, n: int, pos: nat)
    requires !Recurs(tokens, n, pos)
    ensures Latest(tokens, n, pos) == Latest(tokens, n, pos - 1)
  {
  }

  lemma NoneLeft(tokens: seq<int>, low: int, n: int)
    requires n < low
    ensures Longest(tokens, low, n) == None
  {
  }

  /** `find_candidate_ngram`: two descending loops that return at the first match. */
  method FindCandidateNgram(tokens: seq<int>, minNgram: int, maxNgram: int, limit: int) returns (draft: seq<int>)
    ensures draft == Candidate(tokens, minNgram, maxNgram, limit)
  {
    hide Longest, Latest, Slice;
    var total := |tokens|;
    if total <= minNgram || limit <= 0 {
      return [];
    }
    var n := Min(maxNgram, total - 1);
    while n >= minNgram
      invariant n <= Min(maxNgram, total - 1)
      invariant Longest(tokens, minNgram, n) == Longest(tokens, minNgram, Min(maxNgram, total - 1))
      decreases n - minNgram
    {
      var suffix := Slice(tokens, total - n, total);
      var pos := total - n - 1;
      while pos >= 0
        invariant -1 <= pos <= total - n - 1
        invariant Latest(tokens, n, pos) == Latest(tokens, n, total - n - 1)
        decreases pos
      {
        if Slice(tokens, pos, pos + n) == suffix {
          FoundAt(tokens, minNgram, n, pos);
          var start := pos + n;
          return Slice(tokens, start, start + limit);
        }
        Passed(tokens, n, pos);
        pos := pos - 1;
      }
      NotFound(tokens, minNgram, n);
      n := n - 1;
    }
    NoneLeft(tokens, minNgram, n);
    draft := [];
  }

  // ---------------------------------------------------------------------------------------
  // What a draft is
  // ---------------------------------------------------------------------------------------

  /** An empty suffix, or one of negative length, recurs at the last position that is tried, one token before the end. */
  lemma EmptySuffix(tokens: seq<int>, n: int)
    requires n <= 0 && n < |tokens|
    ensures Recurs(tokens, n, |tokens| - n - 1)
  {
  }

  /** What the search finds is followed by at least one token, unless there are none at all. */
  lemma FollowedBy(tokens: seq<int>, m: Match, limit: nat)
    requires tokens != [] && limit > 0 && Recurs(tokens, m.length, m.pos) && m.length < |tokens|
    requires forall p :: p > m.pos ==> !Recurs(tokens, m.length, p)
    ensures 0 <= m.pos + m.length < |tokens|
    ensures |Draft(tokens, m, limit)| == Min(limit, |tokens| - m.pos - m.length) > 0
    ensures m.length <= 0 ==> m.pos + m.length == |tokens| - 1
  {
    if m.length <= 0 {
      EmptySuffix(tokens, m.length);
    }
  }

  /** There is no draft exactly when none is asked for, nothing is there, or no suffix of an allowed length recurs. */
  lemma EmptyExactly(tokens: seq<int>, minNgram: int, maxNgram: int, limit: int)
    ensures Candidate(tokens, minNgram, maxNgram, limit) == []
        <==> limit <= 0 || tokens == [] || forall n, pos :: minNgram <= n <= maxNgram ==> !Recurs(tokens, n, pos)
  {
    if |tokens| > minNgram && limit > 0 && tokens != [] {
      var r := Longest(tokens, minNgram, Min(maxNgram, |tokens| - 1));
      hide Longest, Recurs, Slice, Draft;
      if r.Some? {
        FollowedBy(tokens, r.value, limit);
        assert minNgram <= r.value.length <= maxNgram && Recurs(tokens, r.value.length, r.value.pos);
      } else {
        NothingLonger(tokens, minNgram, maxNgram);
      }
    }
  }

  lemma NothingLonger(tokens: seq<int>, minNgram: int, maxNgram: int)
    requires forall m, p :: minNgram <= m <= Min(maxNgram, |tokens| - 1) ==> !Recurs(tokens, m, p)
    ensures forall m, p :: minNgram <= m <= maxNgram ==> !Recurs(tokens, m, p)
  {
    hide Slice;
  }

  /**
   A draft continues the longest suffix of an allowed length that recurs, from its latest earlier
   position, has at least one and at most `limit` tokens, and stops early only at the end of the tokens.
   If nothing but the empty suffix recurs it is the last token.
   */
  lemma DraftIsLongestAndLatest(tokens: seq<int>, minNgram: int, maxNgram: int, limit: int) returns (m: Match)
    requires Candidate(tokens, minNgram, maxNgram, limit) != []
    ensures minNgram <= m.length <= maxNgram && Recurs(tokens, m.length, m.pos)
    ensures forall n, p :: m.length < n <= maxNgram ==> !Recurs(tokens, n, p)
    ensures forall p :: m.pos < p ==> !Recurs(tokens, m.length, p)
    ensures limit > 0 && Candidate(tokens, minNgram, maxNgram, limit) == Draft(tokens, m, limit)
    ensures |Draft(tokens, m, limit)| == Min(limit, |tokens| - m.pos - m.length) > 0
    ensures m.length <= 0 ==> Draft(tokens, m, limit) == tokens[|tokens| - 1..]
  {
    EmptyExactly(tokens, minNgram, maxNgram, limit);
    m := Longest(tokens, minNgram, Min(maxNgram, |tokens| - 1)).value;
    hide Longest;
    NothingLonger(tokens, m.length + 1, maxNgram);
    FollowedBy(tokens, m, limit);
  }

  /** With the draft appended the tokens repeat, from the suffix on, with the distance to its earlier copy. */
  lemma DraftIsPeriodic(tokens: seq<int>, m: Match, limit: nat, i: nat)
    requires Recurs(tokens, m.length, m.pos) && m.length >= 0
    requires |tokens| - m.length <= i < |tokens + Draft(tokens, m, limit)|
    ensures var d := |tokens| - m.length - m.pos;
            d > 0 && i >= d && (tokens + Draft(tokens, m, limit))[i] == (tokens + Draft(tokens, m, limit))[i - d]
  {
    var d := |tokens| - m.length - m.pos;
    DraftAt(tokens, m, limit);
    if i < |tokens| {
      var k := i - (|tokens| - m.length);
      assert tokens[m.pos..m.pos + m.length][k] == tokens[|tokens| - m.length..][k];
    }
  }

  lemma DraftAt(tokens: seq<int>, m: Match, limit: nat)
    requires Recurs(tokens, m.length, m.pos) && m.length >= 0
    ensures 0 <= m.pos && m.pos + m.length < |tokens|
    ensures tokens[m.pos..m.pos + m.length] == tokens[|tokens| - m.length..]
    ensures Draft(tokens, m, limit) == tokens[m.pos + m.length..Min(|tokens|, m.pos + m.length + limit)]
  {
    assert tokens[|tokens| - m.length..] == tokens[|tokens| - m.length..|tokens|];
  }

  // ---------------------------------------------------------------------------------------
  // The serving engine's search
  // ---------------------------------------------------------------------------------------

  /** The serving search reads past the tokens when it tries a suffix of negative length. */
  datatype SearchError = IndexOutOfBounds

  /** Over the positions from `pos` down, the first draft that is longer than all before it. */
  function Scan(tokens: seq<int>, n: nat, limit: nat, pos: int, best: seq<int>): (r: seq<int>)
    ensures |r| >= |best|
    decreases pos
  {
    if pos < 0 then best
    else if Recurs(tokens, n, pos) then
      var draft := Draft(tokens, Match(n, pos), limit);
      Scan(tokens, n, limit, pos - 1, if |draft| > |best| then draft else best)
    else Scan(tokens, n, limit, pos - 1, best)
  }

  function TryLength(tokens: seq<int>, minNgram: int, n: int, limit: nat): Result<seq<int>, SearchError>
    decreases n - minNgram
  {
    if n < minNgram then Ok([])
    else if n < 0 then Err(IndexOutOfBounds)
    else
      var best := Scan(tokens, n, limit, |tokens| - n - 1, []);
      if best == [] then TryLength(tokens, minNgram, n - 1, limit) else Ok(best)
  }

  function ServingCandidate(tokens: seq<int>, minNgram: int, maxNgram: int, limit: int): Result<seq<int>, SearchError> {
    if |tokens| <= minNgram || limit <= 0 then Ok([])
    else TryLength(tokens, minNgram, Min(maxNgram, |tokens| - 1), limit)
  }

  lemma {:induction false} ScanSkips(tokens: seq<int>, n: nat, limit: nat, pos: int, best: seq<int>, to: int)
    requires -1 <= to <= pos && forall p :: to < p <= pos ==> !Recurs(tokens, n, p)
    ensures Scan(tokens, n, limit, pos, best) == Scan(tokens, n, limit, to, best)
    decreases pos
  {
    if to < pos {
      ScanSkips(tokens, n, limit, pos - 1, best, to);
    }
  }

  /** A best draft of full length is kept. */
  lemma {:induction false} ScanKeepsFull(tokens: seq<int>, n: nat, limit: nat, pos: int, best: seq<int>)
    requires |best| >= limit
    ensures Scan(tokens, n, limit, pos, best) == best
    decreases pos
  {
    if pos >= 0 {
      DraftFits(tokens, n, limit, pos);
      hide Recurs, Draft;
      ScanKeepsFull(tokens, n, limit, pos - 1, best);
    }
  }

  lemma DraftFits(tokens: seq<int>, n: nat, limit: nat, pos: nat)
    ensures |Draft(tokens, Match(n, pos), limit)| <= limit
  {
  }

  /** Whatever the scan returns is the best it started with or the draft of a match. */
  lemma {:induction false} ScanIsDraft(tokens: seq<int>, n: nat, limit: nat, pos: int, best: seq<int>)
    requires pos < |tokens| - n
    ensures var r := Scan(tokens, n, limit, pos, best);
            r == best || exists p: nat :: Recurs(tokens, n, p) && r == Draft(tokens, Match(n, p), limit)
    decreases pos
  {
    hide Recurs, Draft;
    if pos >= 0 {
      var draft := if Recurs(tokens, n, pos) then Draft(tokens, Match(n, pos), limit) else best;
      ScanIsDraft(tokens, n, limit, pos - 1, if |draft| > |best| then draft else best);
    }
  }

  /** `b` drafts as the match `r` does: not at all without one, and otherwise from the same suffix and no shorter. */
  ghost predicate Agrees(tokens: seq<int>, r: Option<Match>, b: seq<int>, limit: nat) {
    match r
    case None => b == []
    case Some(m) =>
      && 0 < |Draft(tokens, m, limit)| <= |b|
      && (|Draft(tokens, m, limit)| == limit ==> b == Draft(tokens, m, limit))
      && exists p: nat :: Recurs(tokens, m.length, p) && b == Draft(tokens, Match(m.length, p), limit)
  }

  /**
   The serving search fails exactly when the first length it tries is negative; otherwise both searches
   draft for the same inputs, the serving engine's draft continues the same suffix, is at least as long,
   and is the same whenever the latest position already fills the limit.
   */
  lemma SearchesAgree(tokens: seq<int>, minNgram: int, maxNgram: int, limit: int)
    ensures ServingCandidate(tokens, minNgram, maxNgram, limit).Err?
        <==> |tokens| > minNgram && limit > 0 && minNgram <= Min(maxNgram, |tokens| - 1) < 0
    ensures var a, b := Candidate(tokens, minNgram, maxNgram, limit), ServingCandidate(tokens, minNgram, maxNgram, limit);
            b.Ok? ==> (a == [] <==> b.value == []) && |a| <= |b.value| && (|a| == limit ==> a == b.value)
  {
    if |tokens| > minNgram && limit > 0 {
      var n := Min(maxNgram, |tokens| - 1);
      if minNgram <= n < 0 {
        NegativeLength(tokens, minNgram, n, limit);
      } else {
        LengthsAgree(tokens, minNgram, n, limit);
      }
      hide Longest, TryLength, Draft, Recurs, Min;
    }
  }

  lemma NegativeLength(tokens: seq<int>, minNgram: int, n: int, limit: nat)
    requires minNgram <= n < 0
    ensures TryLength(tokens, minNgram, n, limit) == Err(IndexOutOfBounds)
  {
  }

  lemma {:induction false} LengthsAgree(tokens: seq<int>, minNgram: int, n: int, limit: nat)
    requires n < |tokens| && limit > 0 && (n < minNgram || n >= 0)
    ensures TryLength(tokens, minNgram, n, limit).Ok?
    ensures Agrees(tokens, Longest(tokens, minNgram, n), TryLength(tokens, minNgram, n, limit).value, limit)
    decreases n - minNgram
  {
    hide *;
    if n < minNgram {
      NothingTried(tokens, minNgram, n, limit);
    } else {
      OneLength(tokens, minNgram, n, limit);
      var last := |tokens| - n - 1;
      match Latest(tokens, n, last) {
        case None =>
          if n == 0 {
            EmptySuffix(tokens, 0);
          }
          ScanNothing(tokens, n, limit, last);
          LengthsAgree(tokens, minNgram, n - 1, limit);
        case Some(pos) =>
          FoundAgrees(tokens, n, limit, pos);
      }
    }
  }

  lemma NothingTried(tokens: seq<int>, minNgram: int, n: int, limit: nat)
    requires n < minNgram
    ensures TryLength(tokens, minNgram, n, limit) == Ok([]) && Agrees(tokens, Longest(tokens, minNgram, n), [], limit)
  {
  }

  lemma OneLength(tokens: seq<int>, minNgram: int, n: int, limit: nat)
    requires minNgram <= n && n >= 0
    ensures Longest(tokens, minNgram, n)
         == match Latest(tokens, n, |tokens| - n - 1)
            case Some(pos) => Some(Match(n, pos))
            case None => Longest(tokens, minNgram, n - 1)
    ensures var best := Scan(tokens, n, limit, |tokens| - n - 1, []);
            TryLength(tokens, minNgram, n, limit)
            == if best == [] then TryLength(tokens, minNgram, n - 1, limit) else Ok(best)
  {
    hide Latest, Scan;
  }

  lemma ScanNothing(tokens: seq<int>, n: nat, limit: nat, last: int)
    requires last >= -1 && forall p :: 0 <= p <= last ==> !Recurs(tokens, n, p)
    ensures Scan(tokens, n, limit, last, []) == []
  {
    hide Recurs;
    ScanSkips(tokens, n, limit, last, [], -1);
  }

  lemma FoundAgrees(tokens: seq<int>, n: nat, limit: nat, pos: nat)
    requires n < |tokens| && limit > 0 && Recurs(tokens, n, pos)
    requires forall p :: pos < p <= |tokens| - n - 1 ==> !Recurs(tokens, n, p)
    ensures Scan(tokens, n, limit, |tokens| - n - 1, []) != []
    ensures Agrees(tokens, Some(Match(n, pos)), Scan(tokens, n, limit, |tokens| - n - 1, []), limit)
  {
    hide *;
    var a := Draft(tokens, Match(n, pos), limit);
    NoneLater(tokens, n, pos);
    FollowedBy(tokens, Match(n, pos), limit);
    ScanFound(tokens, n, limit, pos);
    var b := Scan(tokens, n, limit, pos - 1, a);
    ScanIsDraft(tokens, n, limit, pos - 1, a);
    if |a| == limit {
      ScanKeepsFull(tokens, n, limit, pos - 1, a);
    }
    assert exists p: nat :: Recurs(tokens, n, p) && b == Draft(tokens, Match(n, p), limit);
    AgreesWith(tokens, n, limit, pos, b);
  }

  lemma AgreesWith(tokens: seq<int>, n: nat, limit: nat, pos: nat, b: seq<int>)
    requires 0 < |Draft(tokens, Match(n, pos), limit)| <= |b|
    requires |Draft(tokens, Match(n, pos), limit)| == limit ==> b == Draft(tokens, Match(n, pos), limit)
    requires exists p: nat :: Recurs(tokens, n, p) && b == Draft(tokens, Match(n, p), limit)
    ensures Agrees(tokens, Some(Match(n, pos)), b, limit)
  {
    hide Recurs, Draft;
  }

  lemma NoneLater(tokens: seq<int>, n: nat, pos: nat)
    requires Recurs(tokens, n, pos) && forall p :: pos < p <= |tokens| - n - 1 ==> !Recurs(tokens, n, p)
    ensures pos <= |tokens| - n - 1 && forall p :: p > pos ==> !Recurs(tokens, n, p)
  {
    hide Slice;
  }

  /** Down to the latest match the scan has nothing, and then its draft. */
  lemma ScanFound(tokens: seq<int>, n: nat, limit: nat, pos: nat)
    requires Recurs(tokens, n, pos) && pos <= |tokens| - n - 1 && forall p :: p > pos ==> !Recurs(tokens, n, p)
    requires Draft(tokens, Match(n, pos), limit) != []
    ensures Scan(tokens, n, limit, |tokens| - n - 1, [])
         == Scan(tokens, n, limit, pos - 1, Draft(tokens, Match(n, pos), limit))
  {
    hide Recurs, Draft;
    ScanSkips(tokens, n, limit, |tokens| - n - 1, [], pos);
  }
}
