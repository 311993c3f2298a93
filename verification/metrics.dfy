/** `MetricsTracker`: three append-only logs and the summary computed from them. */
module Metrics {
  import opened Wrappers
  import Dedup

  /** One logged conversation (the wall-clock timestamp is not modelled). */
  datatype Conversation = Conversation(intent: string, confidence: real)

  datatype Tracker = Tracker(
    conversations: seq<Conversation>,
    responseTimes: seq<real>,
    satisfactionScores: seq<int>)

  function NewTracker(): Tracker
  {
    Tracker([], [], [])
  }

  /** `log_conversation`: one conversation entry and one response time, nothing else. */
  function LogConversation(t: Tracker, intent: string, confidence: real, responseTime: real): (r: Tracker)
    ensures |r.conversations| == |t.conversations| + 1 && |r.responseTimes| == |t.responseTimes| + 1
    ensures r.conversations[..|t.conversations|] == t.conversations
    ensures r.conversations[|t.conversations|] == Conversation(intent, confidence)
    ensures r.responseTimes[..|t.responseTimes|] == t.responseTimes
    ensures r.responseTimes[|t.responseTimes|] == responseTime
    ensures r.satisfactionScores == t.satisfactionScores
  {
    t.(conversations := t.conversations + [Conversation(intent, confidence)],
       responseTimes := t.responseTimes + [responseTime])
  }

  /** `log_satisfaction`: a score from 1 to 5 is appended; any other score changes nothing. */
  function LogSatisfaction(t: Tracker, score: int): (r: Tracker)
    ensures r.conversations == t.conversations && r.responseTimes == t.responseTimes
    ensures 1 <= score <= 5 ==> r.satisfactionScores == t.satisfactionScores + [score]
    ensures !(1 <= score <= 5) ==> r == t
  {
    if 1 <= score <= 5 then t.(satisfactionScores := t.satisfactionScores + [score]) else t
  }

  /** What every reachable tracker satisfies: one response time per conversation, and every
      satisfaction score between 1 and 5. */
  predicate Consistent(t: Tracker)
  {
    && |t.conversations| == |t.responseTimes|
    && forall k :: 0 <= k < |t.satisfactionScores| ==> 1 <= t.satisfactionScores[k] <= 5
  }

  /** A call on the tracker, as the application makes it. */
  datatype Event =
    | Logged(intent: string, confidence: real, responseTime: real)
    | Rated(score: int)

  function Apply(t: Tracker, e: Event): Tracker
  {
    match e
    case Logged(i, c, rt) => LogConversation(t, i, c, rt)
    case Rated(s) => LogSatisfaction(t, s)
  }

  /** The tracker after a run of calls on a fresh one. */
  function Replay(events: seq<Event>): Tracker
  {
    if |events| == 0 then NewTracker() else Apply(Replay(events[..|events| - 1]), events[|events| - 1])
  }

  function LoggedCount(events: seq<Event>): nat
  {
    if |events| == 0 then 0
    else LoggedCount(events[..|events| - 1]) + (if events[|events| - 1].Logged? then 1 else 0)
  }

  function AcceptedScores(events: seq<Event>): seq<int>
  {
    if |events| == 0 then []
    else
      var e := events[|events| - 1];
      AcceptedScores(events[..|events| - 1]) + (if e.Rated? && 1 <= e.score <= 5 then [e.score] else [])
  }

  /** Any run of calls leaves the tracker consistent, with one conversation per `log_conversation`
      call and exactly the in-range scores, in call order. */
  lemma {:induction false} ReplayConsistent(events: seq<Event>)
    ensures Consistent(Replay(events))
    ensures |Replay(events).conversations| == LoggedCount(events)
    ensures Replay(events).satisfactionScores == AcceptedScores(events)
  {
    if |events| > 0 {
      ReplayConsistent(events[..|events| - 1]);
    }
  }

  // ---------------------------------------------------------------------------------------------
  // Summary

  datatype Summary = Summary(
    totalConversations: nat,
    avgResponseTime: real,
    avgConfidence: Option<real>,                    // absent from the empty summary
    avgSatisfaction: real,
    intentDistribution: Option<seq<(string, nat)>>) // absent from the empty summary

  function SumReals(xs: seq<real>): real
  {
    if |xs| == 0 then 0.0 else xs[0] + SumReals(xs[1..])
  }

  function SumInts(xs: seq<int>): int
  {
    if |xs| == 0 then 0 else xs[0] + SumInts(xs[1..])
  }

  function Intents(cs: seq<Conversation>): (r: seq<string>)
    ensures |r| == |cs| && forall k :: 0 <= k < |cs| ==> r[k] == cs[k].intent
  {
    seq(|cs|, k requires 0 <= k < |cs| => cs[k].intent)
  }

  function Confidences(cs: seq<Conversation>): (r: seq<real>)
    ensures |r| == |cs| && forall k :: 0 <= k < |cs| ==> r[k] == cs[k].confidence
  {
    seq(|cs|, k requires 0 <= k < |cs| => cs[k].confidence)
  }

  /** `sum(xs) / len(xs) if xs else 0`. */
  function AverageOrZero(xs: seq<real>): real
  {
    if |xs| == 0 then 0.0 else SumReals(xs) / (|xs| as real)
  }

  /** `get_summary`. */
  function GetSummary(t: Tracker): Summary
  {
    if |t.conversations| == 0 then Summary(0, 0.0, None, 0.0, None)
    else Summary(
      |t.conversations|,
      AverageOrZero(t.responseTimes),
      Some(SumReals(Confidences(t.conversations)) / (|t.conversations| as real)),
      if |t.satisfactionScores| == 0 then 0.0
      else (SumInts(t.satisfactionScores) as real) / (|t.satisfactionScores| as real),
      Some(IntentDistribution(Intents(t.conversations))))
  }

  /** Without conversations the summary is all zeros, whatever satisfaction scores were logged. */
  lemma EmptySummary(t: Tracker, score: int)
    requires |t.conversations| == 0
    ensures GetSummary(LogSatisfaction(t, score)) == Summary(0, 0.0, None, 0.0, None)
  {
  }

  lemma {:induction false} SumIntsBounds(xs: seq<int>)
    requires forall k :: 0 <= k < |xs| ==> 1 <= xs[k] <= 5
    ensures |xs| <= SumInts(xs) <= 5 * |xs|
  {
    if |xs| > 0 {
      SumIntsBounds(xs[1..]);
    }
  }

  lemma QuotientBounds(s: real, n: real, lo: real, hi: real)
    requires n > 0.0 && lo * n <= s <= hi * n
    ensures lo <= s / n <= hi
  {
    var q := s / n;
    assert q * n == s;
    assert (q - lo) * n >= 0.0;
    assert (hi - q) * n >= 0.0;
  }

  /** The total counts the logged conversations; the average satisfaction of a consistent tracker
      is 0 with no scores and otherwise lies between 1 and 5. */
  lemma SummaryBounds(t: Tracker)
    requires Consistent(t) && |t.conversations| > 0
    ensures GetSummary(t).totalConversations == |t.conversations|
    ensures |t.satisfactionScores| == 0 ==> GetSummary(t).avgSatisfaction == 0.0
    ensures |t.satisfactionScores| > 0 ==> 1.0 <= GetSummary(t).avgSatisfaction <= 5.0
  {
    var xs := t.satisfactionScores;
    if |xs| > 0 {
      SumIntsBounds(xs);
      var n, s := |xs| as real, SumInts(xs) as real;
      assert n <= s <= 5.0 * n;
      QuotientBounds(s, n, 1.0, 5.0);
    }
  }

  // ---------------------------------------------------------------------------------------------
  // Intent distribution

  /** `distribution[k] = distribution.get(k, 0) + 1` on an insertion-ordered dictionary. */
  function Bump(d: seq<(string, nat)>, k: string): seq<(string, nat)>
  {
    if |d| == 0 then [(k, 1)]
    else if d[0].0 == k then [(k, d[0].1 + 1)] + d[1..]
    else [d[0]] + Bump(d[1..], k)
  }

  /** `_get_intent_distribution`: the loop over the intents, in logging order. */
  function IntentDistribution(intents: seq<string>): seq<(string, nat)>
  {
    if |intents| == 0 then []
    else Bump(IntentDistribution(intents[..|intents| - 1]), intents[|intents| - 1])
  }

  function Keys(d: seq<(string, nat)>): (r: seq<string>)
    ensures |r| == |d| && forall j :: 0 <= j < |d| ==> r[j] == d[j].0
  {
    seq(|d|, j requires 0 <= j < |d| => d[j].0)
  }

  function SumCounts(d: seq<(string, nat)>): nat
  {
    if |d| == 0 then 0 else d[0].1 + SumCounts(d[1..])
  }

  /** No intent is listed twice. */
  predicate DistinctIntents(d: seq<(string, nat)>)
  {
    forall i, j :: 0 <= i < j < |d| ==> d[i].0 != d[j].0
  }

  lemma BumpSpec(d: seq<(string, nat)>, k: string)
    requires DistinctIntents(d)
    ensures var b := Bump(d, k);
      && Keys(b) == Keys(d) + (if k in Keys(d) then [] else [k])
      && (forall j :: 0 <= j < |d| ==> b[j] == (d[j].0, d[j].1 + (if d[j].0 == k then 1 else 0)))
      && (k !in Keys(d) ==> b[|d|] == (k, 1))
      && SumCounts(b) == SumCounts(d) + 1
      && DistinctIntents(b)
  {
    BumpShape(d, k);
    BumpSum(d, k);
    var b := Bump(d, k);
    assert Keys(b) == Keys(d) + (if k in Keys(d) then [] else [k]);
  }

  /** Bumping an intent raises its count by one, or appends it with count 1 when it is new. */
  lemma {:induction false} BumpShape(d: seq<(string, nat)>, k: string)
    requires DistinctIntents(d)
    ensures Bumped(d, k, Bump(d, k)) && DistinctIntents(Bump(d, k))
  {
    BumpEntries(d, k);
    var b := Bump(d, k);
    forall i, j | 0 <= i < j < |b|
      ensures b[i].0 != b[j].0
    {
      if j == |d| {
        assert Keys(d)[i] == d[i].0;
      }
    }
  }

  /** `b` is `d` with the count of `k` raised by one, or with `(k, 1)` appended when `k` is new. */
  predicate Bumped(d: seq<(string, nat)>, k: string, b: seq<(string, nat)>)
  {
    && |b| == |d| + (if k in Keys(d) then 0 else 1)
    && (forall j :: 0 <= j < |d| ==> b[j] == (d[j].0, d[j].1 + (if d[j].0 == k then 1 else 0)))
    && (k !in Keys(d) ==> b[|d|] == (k, 1))
  }

  lemma {:induction false} BumpEntries(d: seq<(string, nat)>, k: string)
    requires DistinctIntents(d)
    ensures Bumped(d, k, Bump(d, k))
    decreases |d|
  {
    if |d| > 0 {
      if d[0].0 == k {
        BumpHead(d, k);
      } else {
        BumpEntries(d[1..], k);
        BumpCons(d, k);
      }
    }
  }

  lemma BumpHead(d: seq<(string, nat)>, k: string)
    requires DistinctIntents(d) && |d| > 0 && d[0].0 == k
    ensures Bumped(d, k, Bump(d, k))
  {
    assert Keys(d)[0] == k;
    forall j | 1 <= j < |d|
      ensures d[j].0 != k
    {
    }
  }

  lemma BumpCons(d: seq<(string, nat)>, k: string)
    requires |d| > 0 && d[0].0 != k && Bumped(d[1..], k, Bump(d[1..], k))
    ensures Bumped(d, k, Bump(d, k))
  {
    BumpConsKeys(d, k);
    BumpConsEntries(d, k);
  }

  lemma BumpConsKeys(d: seq<(string, nat)>, k: string)
    requires |d| > 0 && d[0].0 != k && Bumped(d[1..], k, Bump(d[1..], k))
    ensures var b := Bump(d, k);
      && |b| == |d| + (if k in Keys(d) then 0 else 1)
      && (k !in Keys(d) ==> b[|d|] == (k, 1))
  {
    var b, t := Bump(d, k), Bump(d[1..], k);
    assert b == [d[0]] + t;
    assert (k in Keys(d)) == (k in Keys(d[1..])) by {
      assert Keys(d) == [d[0].0] + Keys(d[1..]);
    }
  }

  lemma BumpConsEntries(d: seq<(string, nat)>, k: string)
    requires |d| > 0 && d[0].0 != k && Bumped(d[1..], k, Bump(d[1..], k))
    ensures var b := Bump(d, k);
      forall j :: 0 <= j < |d| ==> b[j] == (d[j].0, d[j].1 + (if d[j].0 == k then 1 else 0))
  {
    var b, t := Bump(d, k), Bump(d[1..], k);
    assert b == [d[0]] + t;
    forall j | 1 <= j < |d|
      ensures b[j] == (d[j].0, d[j].1 + (if d[j].0 == k then 1 else 0))
    {
      assert d[1..][j - 1] == d[j];
    }
  }

  lemma {:induction false} BumpSum(d: seq<(string, nat)>, k: string)
    ensures SumCounts(Bump(d, k)) == SumCounts(d) + 1
    decreases |d|
  {
    if |d| > 0 {
      if d[0].0 == k {
        assert Bump(d, k)[1..] == d[1..];
      } else {
        BumpSum(d[1..], k);
        assert Bump(d, k)[1..] == Bump(d[1..], k);
      }
    }
  }

  /** `d` is the distribution of `xs`: each distinct intent once, in order of first appearance,
      with the number of its occurrences; the counts add up to the number of intents. */
  ghost predicate DistributionOf(d: seq<(string, nat)>, xs: seq<string>)
  {
    && Keys(d) == Dedup.DedupBy(xs, Dedup.Itself)
    && (forall j :: 0 <= j < |d| ==> d[j].1 == multiset(xs)[d[j].0])
    && (forall k :: k in Keys(d) <==> k in xs)
    && SumCounts(d) == |xs|
    && DistinctIntents(d)
  }

  lemma HasKeyIsMember(xs: seq<string>, x: string)
    ensures Dedup.HasKey(xs, Dedup.Itself, x) <==> x in xs
  {
    if x in xs {
      var i :| 0 <= i < |xs| && xs[i] == x;
      assert Dedup.Itself(xs[i]) == x;
    }
  }

  /** One more intent bumps the distribution of the earlier ones into the distribution of all. */
  lemma BumpStep(d: seq<(string, nat)>, xs: seq<string>, x: string)
    requires DistributionOf(d, xs)
    ensures DistributionOf(Bump(d, x), xs + [x])
  {
    BumpSpec(d, x);
    var b := Bump(d, x);
    Dedup.DedupAppend(xs, x, Dedup.Itself, {});
    HasKeyIsMember(xs, x);
    assert Keys(b) == Dedup.DedupBy(xs + [x], Dedup.Itself);
    var m := multiset(xs + [x]);
    assert m == multiset(xs) + multiset{x};
    forall j | 0 <= j < |b|
      ensures b[j].1 == m[b[j].0]
    {
      if j < |d| {
        assert b[j] == (d[j].0, d[j].1 + (if d[j].0 == x then 1 else 0));
      } else {
        assert x !in Keys(d) && b[|d|] == (x, 1);
        assert x !in xs;
      }
    }
    assert forall k :: k in Keys(b) <==> k in xs + [x] by {
      forall k
        ensures k in Keys(b) <==> k in xs + [x]
      {
        assert k in Keys(b) <==> k in Keys(d) || k == x;
      }
    }
  }

  /** `_get_intent_distribution` computes the distribution of the logged intents. */
  lemma {:induction false} IntentDistributionSpec(intents: seq<string>)
    ensures DistributionOf(IntentDistribution(intents), intents)
    decreases |intents|
  {
    if |intents| > 0 {
      var n := |intents| - 1;
      assert intents == intents[..n] + [intents[n]];
      IntentDistributionSpec(intents[..n]);
      BumpStep(IntentDistribution(intents[..n]), intents[..n], intents[n]);
    } else {
      assert Keys([]) == [];
    }
  }

  /** The distribution in the summary adds up to the summary's total. */
  lemma DistributionMatchesTotal(t: Tracker)
    requires |t.conversations| > 0
    ensures GetSummary(t).intentDistribution.Some?
    ensures SumCounts(GetSummary(t).intentDistribution.value) == GetSummary(t).totalConversations
  {
    IntentDistributionSpec(Intents(t.conversations));
  }
}
