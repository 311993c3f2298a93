/** `ChatEngine.search_faqs`: keyword scoring of the FAQ list, a stable descending sort on the
    score and a top-k cut. Scores are doubled (keyword 4, question 2, answer 1) so they stay
    whole numbers; doubling changes neither the order nor the positivity test. */
module ChatEngine {
  import opened Wrappers
  import opened Strings
  import opened FaqRecord
  import Dedup
  import StableSort

  /** The engine's FAQ lists, as loaded from the two JSON files. */
  datatype Engine = Engine(faqs: seq<Faq>, scrapedFaqs: seq<Faq>)

  /** `all_faqs`: the curated FAQs followed by the scraped ones. */
  function AllFaqs(e: Engine): (r: seq<Faq>)
    ensures |r| == |e.faqs| + |e.scrapedFaqs|
    ensures forall k :: 0 <= k < |e.faqs| ==> r[k] == e.faqs[k]
    ensures forall k :: 0 <= k < |e.scrapedFaqs| ==> r[|e.faqs| + k] == e.scrapedFaqs[k]
  {
    e.faqs + e.scrapedFaqs
  }

  /** `set(query.lower().split())`, listed once each in order of first appearance (the order does
      not affect any score). */
  function QueryWords(query: string): (r: seq<string>)
    ensures Dedup.DistinctKeys(r, Dedup.Itself)
  {
    Dedup.DedupBy(Split(Lower(query)), Dedup.Itself)
  }

  /** The three places a query word can match. */
  datatype Part = Keywords | Question | Answer

  predicate Hit(faq: Faq, word: string, part: Part)
  {
    match part
    case Keywords =>
      faq.keywords.Some? &&
      exists k :: 0 <= k < |faq.keywords.value| && Contains(Lower(faq.keywords.value[k]), word)
    case Question => Contains(Lower(faq.question), word)
    case Answer => Contains(Lower(faq.answer), word)
  }

  /** How many of `words` hit `part` of `faq`. */
  function CountHits(faq: Faq, words: seq<string>, part: Part): nat
  {
    if |words| == 0 then 0
    else (if Hit(faq, words[0], part) then 1 else 0) + CountHits(faq, words[1..], part)
  }

  /** Twice the source's score. */
  function Score(faq: Faq, words: seq<string>): nat
  {
    4 * CountHits(faq, words, Keywords) + 2 * CountHits(faq, words, Question) + CountHits(faq, words, Answer)
  }

  /** The words among `words` that hit `part` of `faq`. */
  function HitSet(faq: Faq, words: seq<string>, part: Part): set<string>
  {
    set w | w in words && Hit(faq, w, part)
  }

  lemma HitSetCons(faq: Faq, words: seq<string>, part: Part)
    requires |words| > 0
    ensures HitSet(faq, words, part)
         == HitSet(faq, words[1..], part) + (if Hit(faq, words[0], part) then {words[0]} else {})
  {
    assert forall w :: w in words <==> w == words[0] || w in words[1..];
  }

  /** Over distinct words, the hit count is the number of words that hit. */
  lemma {:induction false} CountHitsIsCardinality(faq: Faq, words: seq<string>, part: Part)
    requires Dedup.DistinctKeys(words, Dedup.Itself)
    ensures CountHits(faq, words, part) == |HitSet(faq, words, part)|
    decreases |words|
  {
    if |words| > 0 {
      var rest := words[1..];
      assert Dedup.DistinctKeys(rest, Dedup.Itself) by {
        forall i, j | 0 <= i < j < |rest|
          ensures Dedup.Itself(rest[i]) != Dedup.Itself(rest[j])
        {
          assert rest[i] == words[i + 1] && rest[j] == words[j + 1];
        }
      }
      CountHitsIsCardinality(faq, rest, part);
      assert words[0] !in HitSet(faq, rest, part) by {
        forall k | 0 <= k < |rest|
          ensures rest[k] != words[0]
        {
          assert Dedup.Itself(words[0]) != Dedup.Itself(words[k + 1]);
        }
      }
      HitSetCons(faq, words, part);
    }
  }

  /** De-duplicating the tokens keeps exactly the same set of words. */
  lemma QueryWordSet(query: string)
    ensures forall w :: w in QueryWords(query) <==> w in Split(Lower(query))
  {
    var tokens := Split(Lower(query));
    Dedup.DedupIsSubsequence(tokens, Dedup.Itself, {});
    forall w | w in tokens
      ensures w in QueryWords(query)
    {
      var i :| 0 <= i < |tokens| && tokens[i] == w;
      Dedup.DedupKeepsEveryKey(tokens, Dedup.Itself, {}, i);
    }
  }

  /** The score counts each distinct query word once per place: twice 2 for a word inside some
      keyword, twice 1 for a word inside the question, twice 0.5 for a word inside the answer. */
  lemma ScoreBySets(faq: Faq, query: string)
    ensures var tokens := Split(Lower(query));
      Score(faq, QueryWords(query))
        == 4 * |set w | w in tokens && Hit(faq, w, Keywords)|
         + 2 * |set w | w in tokens && Hit(faq, w, Question)|
         + |set w | w in tokens && Hit(faq, w, Answer)|
  {
    var words, tokens := QueryWords(query), Split(Lower(query));
    QueryWordSet(query);
    forall part: Part
      ensures CountHits(faq, words, part) == |set w | w in tokens && Hit(faq, w, part)|
    {
      CountHitsIsCardinality(faq, words, part);
      assert HitSet(faq, words, part) == (set w | w in tokens && Hit(faq, w, part));
    }
  }

  /** The score depends only on which words the query contains, not on how often or in which
      order: two queries with the same word set score every FAQ alike. */
  lemma ScoreDependsOnWordSet(faq: Faq, query1: string, query2: string)
    requires forall w :: w in Split(Lower(query1)) <==> w in Split(Lower(query2))
    ensures Score(faq, QueryWords(query1)) == Score(faq, QueryWords(query2))
  {
    ScoreBySets(faq, query1);
    ScoreBySets(faq, query2);
    var a, b := Split(Lower(query1)), Split(Lower(query2));
    assert (set w | w in a && Hit(faq, w, Keywords)) == (set w | w in b && Hit(faq, w, Keywords));
    assert (set w | w in a && Hit(faq, w, Question)) == (set w | w in b && Hit(faq, w, Question));
    assert (set w | w in a && Hit(faq, w, Answer)) == (set w | w in b && Hit(faq, w, Answer));
  }

  // ---------------------------------------------------------------------------------------------
  // Ranking

  /** A scored FAQ. `position` is the FAQ's index in `all_faqs`; the source's pairs carry no
      index, and it is used only to state the order of equal scores. */
  datatype Ranked = Ranked(score: nat, position: nat, faq: Faq)

  function RankKey(r: Ranked): real
  {
    r.score as real
  }

  predicate IncreasingPositions(xs: seq<Ranked>)
  {
    forall i, j :: 0 <= i < j < |xs| ==> xs[i].position < xs[j].position
  }

  /** The scoring loop: the FAQs with a positive score, in list order (`base` is the index of
      `faqs[0]` in the whole list). */
  function ScoreFrom(faqs: seq<Faq>, words: seq<string>, base: nat): (r: seq<Ranked>)
    ensures forall i :: 0 <= i < |r| ==>
      && base <= r[i].position < base + |faqs|
      && r[i].faq == faqs[r[i].position - base]
      && r[i].score == Score(r[i].faq, words) > 0
    ensures IncreasingPositions(r)
    decreases |faqs|
  {
    if |faqs| == 0 then []
    else
      var s := Score(faqs[0], words);
      var rest := ScoreFrom(faqs[1..], words, base + 1);
      (if s > 0 then [Ranked(s, base, faqs[0])] else []) + rest
  }

  /** No positively scored FAQ is dropped by the scoring loop. */
  lemma {:induction false} ScoreFromComplete(faqs: seq<Faq>, words: seq<string>, base: nat, p: nat)
    requires p < |faqs| && Score(faqs[p], words) > 0
    ensures Ranked(Score(faqs[p], words), base + p, faqs[p]) in ScoreFrom(faqs, words, base)
    decreases |faqs|
  {
    if p > 0 {
      ScoreFromComplete(faqs[1..], words, base + 1, p - 1);
    }
  }

  /** Python's `xs[:k]`, including a negative `k`, which counts from the end. */
  function Take<T>(xs: seq<T>, k: int): (r: seq<T>)
    ensures k >= 0 ==> |r| == if k <= |xs| then k else |xs|
    ensures k < 0 ==> |r| == if |xs| + k >= 0 then |xs| + k else 0
    ensures r == xs[..|r|]
  {
    if k >= 0 then (if k <= |xs| then xs[..k] else xs)
    else if |xs| + k >= 0 then xs[..|xs| + k]
    else []
  }

  /** The scored FAQs after the sort, best first. */
  function Ranking(e: Engine, query: string): seq<Ranked>
  {
    StableSort.SortDescending(ScoreFrom(AllFaqs(e), QueryWords(query), 0), RankKey)
  }

  /** `scored_faqs[:top_k]`. */
  function SearchRanked(e: Engine, query: string, topK: int): seq<Ranked>
  {
    Take(Ranking(e, query), topK)
  }

  /** `search_faqs`. */
  function SearchFaqs(e: Engine, query: string, topK: int): (r: seq<Faq>)
    ensures |r| == |SearchRanked(e, query, topK)|
    ensures forall i :: 0 <= i < |r| ==> r[i] == SearchRanked(e, query, topK)[i].faq
  {
    var ranked := SearchRanked(e, query, topK);
    seq(|ranked|, i requires 0 <= i < |ranked| => ranked[i].faq)
  }

  /** Every entry of the cut comes from the scored list. */
  lemma SearchRankedMembers(e: Engine, query: string, topK: int)
    ensures forall x :: x in SearchRanked(e, query, topK) ==> x in ScoreFrom(AllFaqs(e), QueryWords(query), 0)
  {
    var scored := ScoreFrom(AllFaqs(e), QueryWords(query), 0);
    StableSort.SortedMembers(scored, RankKey);
    var ranking := Ranking(e, query);
    var taken := SearchRanked(e, query, topK);
    forall x | x in taken
      ensures x in scored
    {
      assert x in ranking;
    }
  }

  /** The result holds only FAQs of the engine with a positive score, at most `top_k` of them
      (for `top_k >= 0`) and never more than there are FAQs. */
  lemma SearchFaqsBounds(e: Engine, query: string, topK: int)
    ensures var r := SearchFaqs(e, query, topK);
      && |r| <= |AllFaqs(e)|
      && (topK >= 0 ==> |r| <= topK)
      && forall i :: 0 <= i < |r| ==>
           (r[i] in e.faqs || r[i] in e.scrapedFaqs) && Score(r[i], QueryWords(query)) > 0
  {
    var all, words := AllFaqs(e), QueryWords(query);
    var scored := ScoreFrom(all, words, 0);
    var ranked := SearchRanked(e, query, topK);
    assert |ranked| <= |scored| by {
      assert Ranking(e, query) == StableSort.SortDescending(scored, RankKey);
    }
    ScoreFromShorter(all, words, 0);
    SearchRankedMembers(e, query, topK);
    var r := SearchFaqs(e, query, topK);
    forall i | 0 <= i < |r|
      ensures (r[i] in e.faqs || r[i] in e.scrapedFaqs) && Score(r[i], words) > 0
    {
      var x := ranked[i];
      assert x in scored;
      var m :| 0 <= m < |scored| && scored[m] == x;
      AllFaqsMember(e, x.position);
    }
  }

  /** Every entry of the combined list comes from one of the two lists. */
  lemma AllFaqsMember(e: Engine, p: int)
    requires 0 <= p < |AllFaqs(e)|
    ensures AllFaqs(e)[p] in e.faqs || AllFaqs(e)[p] in e.scrapedFaqs
  {
    if p >= |e.faqs| {
      assert AllFaqs(e)[p] == e.scrapedFaqs[p - |e.faqs|];
    }
  }

  lemma {:induction false} ScoreFromShorter(faqs: seq<Faq>, words: seq<string>, base: nat)
    ensures |ScoreFrom(faqs, words, base)| <= |faqs|
    decreases |faqs|
  {
    if |faqs| > 0 {
      ScoreFromShorter(faqs[1..], words, base + 1);
    }
  }

  /** The result is in non-increasing score order. */
  lemma SearchFaqsOrder(e: Engine, query: string, topK: int)
    ensures var r := SearchFaqs(e, query, topK);
      forall i, j :: 0 <= i < j < |r| ==> Score(r[i], QueryWords(query)) >= Score(r[j], QueryWords(query))
  {
    var scored := ScoreFrom(AllFaqs(e), QueryWords(query), 0);
    StableSort.SortedOrder(scored, RankKey);
    SearchRankedMembers(e, query, topK);
    var ranking, ranked := Ranking(e, query), SearchRanked(e, query, topK);
    forall i, j | 0 <= i < j < |ranked|
      ensures ranked[i].score >= ranked[j].score
    {
      assert ranked[i] == ranking[i] && ranked[j] == ranking[j];
      assert RankKey(ranking[i]) >= RankKey(ranking[j]);
    }
    forall i | 0 <= i < |ranked|
      ensures ranked[i].score == Score(ranked[i].faq, QueryWords(query))
    {
      assert ranked[i] in scored;
    }
  }

  /** `x` occurs in `w` before some occurrence of `y`. */
  predicate InOrder(w: seq<Ranked>, x: Ranked, y: Ranked)
  {
    exists a, b :: 0 <= a < b < |w| && w[a] == x && w[b] == y
  }

  /** Two elements with key `v`, in this order, appear in this order among the elements with key `v`. */
  lemma {:induction false} WithKeyKeepsPair(xs: seq<Ranked>, v: real, i: int, j: int)
    requires 0 <= i < j < |xs| && RankKey(xs[i]) == v && RankKey(xs[j]) == v
    ensures InOrder(StableSort.WithKey(xs, RankKey, v), xs[i], xs[j])
    decreases |xs|
  {
    var w := StableSort.WithKey(xs, RankKey, v);
    var tail := StableSort.WithKey(xs[1..], RankKey, v);
    var d := if RankKey(xs[0]) == v then 1 else 0;
    assert w == (if RankKey(xs[0]) == v then [xs[0]] else []) + tail;
    assert |w| == d + |tail|;
    assert xs[1..][j - 1] == xs[j];
    if i == 0 {
      WithKeyHas(xs[1..], v, j - 1);
      var b :| 0 <= b < |tail| && tail[b] == xs[1..][j - 1];
      assert w[0] == xs[i] && w[b + 1] == xs[j];
      assert InOrder(w, xs[i], xs[j]) by {
        assert 0 <= 0 < b + 1 < |w|;
      }
    } else {
      WithKeyKeepsPair(xs[1..], v, i - 1, j - 1);
      var a, b :| 0 <= a < b < |tail| && tail[a] == xs[1..][i - 1] && tail[b] == xs[1..][j - 1];
      assert xs[1..][i - 1] == xs[i];
      assert w[a + d] == xs[i] && w[b + d] == xs[j];
      assert InOrder(w, xs[i], xs[j]) by {
        assert 0 <= a + d < b + d < |w|;
      }
    }
  }

  lemma {:induction false} WithKeyHas(xs: seq<Ranked>, v: real, j: int)
    requires 0 <= j < |xs| && RankKey(xs[j]) == v
    ensures exists b :: 0 <= b < |StableSort.WithKey(xs, RankKey, v)| && StableSort.WithKey(xs, RankKey, v)[b] == xs[j]
    decreases |xs|
  {
    var w := StableSort.WithKey(xs, RankKey, v);
    var tail := StableSort.WithKey(xs[1..], RankKey, v);
    if j == 0 {
      assert w[0] == xs[0];
    } else {
      WithKeyHas(xs[1..], v, j - 1);
      var b :| 0 <= b < |tail| && tail[b] == xs[1..][j - 1];
      var d := if RankKey(xs[0]) == v then 1 else 0;
      assert w[b + d] == xs[j];
    }
  }

  lemma {:induction false} WithKeyIncreasing(xs: seq<Ranked>, v: real)
    requires IncreasingPositions(xs)
    ensures IncreasingPositions(StableSort.WithKey(xs, RankKey, v))
    ensures forall y :: y in StableSort.WithKey(xs, RankKey, v) ==> y in xs
    decreases |xs|
  {
    if |xs| > 0 {
      var tail := StableSort.WithKey(xs[1..], RankKey, v);
      WithKeyIncreasing(xs[1..], v);
      forall y | y in tail
        ensures xs[0].position < y.position
      {
        var k :| 0 <= k < |xs[1..]| && xs[1..][k] == y;
        assert y == xs[k + 1];
      }
    }
  }

  /** Stability: FAQs with equal scores are returned in their `all_faqs` order. */
  lemma SearchStable(e: Engine, query: string, topK: int)
    ensures var r := SearchRanked(e, query, topK);
      forall i, j :: 0 <= i < j < |r| && r[i].score == r[j].score ==> r[i].position < r[j].position
  {
    var scored := ScoreFrom(AllFaqs(e), QueryWords(query), 0);
    var ranking, r := Ranking(e, query), SearchRanked(e, query, topK);
    forall i, j | 0 <= i < j < |r| && r[i].score == r[j].score
      ensures r[i].position < r[j].position
    {
      var v := RankKey(r[i]);
      assert r[i] == ranking[i] && r[j] == ranking[j];
      WithKeyKeepsPair(ranking, v, i, j);
      StableSort.SortedStable(scored, RankKey, v);
      WithKeyIncreasing(scored, v);
    }
  }

  /** The cut keeps the best: a positively scored FAQ left out scores no higher than any returned
      one, and when fewer than `top_k` come back, none was left out. */
  lemma SearchTopK(e: Engine, query: string, topK: int)
    ensures var scored, r := ScoreFrom(AllFaqs(e), QueryWords(query), 0), SearchRanked(e, query, topK);
      && (forall x, y :: x in scored && x !in r && y in r ==> x.score <= y.score)
      && (0 <= topK && |r| < topK ==> forall x :: x in scored ==> x in r)
  {
    var scored := ScoreFrom(AllFaqs(e), QueryWords(query), 0);
    var ranking := StableSort.SortDescending(scored, RankKey);
    assert Ranking(e, query) == ranking;
    StableSort.SortedMembers(scored, RankKey);
    StableSort.SortedOrder(scored, RankKey);
    TakeKeepsBest(ranking, topK);
  }

  /** A prefix of a list sorted best first holds its best elements. */
  lemma TakeKeepsBest(ranking: seq<Ranked>, k: int)
    requires StableSort.NonIncreasing(ranking, RankKey)
    ensures var r := Take(ranking, k);
      && (forall x, y :: x in ranking && x !in r && y in r ==> x.score <= y.score)
      && (0 <= k && |r| < k ==> r == ranking)
  {
    var r := Take(ranking, k);
    forall x, y | x in ranking && x !in r && y in r
      ensures x.score <= y.score
    {
      var m :| 0 <= m < |ranking| && ranking[m] == x;
      var i :| 0 <= i < |r| && r[i] == y;
      assert forall j :: 0 <= j < |r| ==> ranking[j] == r[j];
      assert m >= |r|;
      assert ranking[i] == y;
      assert RankKey(ranking[i]) >= RankKey(ranking[m]);
    }
  }

  /** Every positively scored FAQ is ranked. */
  lemma RankingComplete(e: Engine, query: string, p: nat)
    requires p < |AllFaqs(e)| && Score(AllFaqs(e)[p], QueryWords(query)) > 0
    ensures Ranked(Score(AllFaqs(e)[p], QueryWords(query)), p, AllFaqs(e)[p]) in Ranking(e, query)
  {
    var faqs, words := AllFaqs(e), QueryWords(query);
    var scored := ScoreFrom(faqs, words, 0);
    ScoreFromComplete(faqs, words, 0, p);
    StableSort.SortedMembers(scored, RankKey);
    assert Ranking(e, query) == StableSort.SortDescending(scored, RankKey);
  }

  /** An empty or all-whitespace query has no words, so it finds nothing. */
  lemma BlankQueryFindsNothing(e: Engine, query: string, topK: int)
    requires forall i :: 0 <= i < |query| ==> IsSpace(query[i])
    ensures SearchFaqs(e, query, topK) == []
  {
    var lower := Lower(query);
    assert forall i :: 0 <= i < |lower| ==> IsSpace(lower[i]) by {
      forall i | 0 <= i < |lower|
        ensures IsSpace(lower[i])
      {
        assert !IsUpper(query[i]);
      }
    }
    SplitEmptyIffBlank(lower);
    ScoreFromNoWords(AllFaqs(e), 0);
  }

  lemma {:induction false} ScoreFromNoWords(faqs: seq<Faq>, base: nat)
    ensures ScoreFrom(faqs, [], base) == []
    decreases |faqs|
  {
    if |faqs| > 0 {
      ScoreFromNoWords(faqs[1..], base + 1);
    }
  }
}
