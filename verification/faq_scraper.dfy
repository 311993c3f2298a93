/** `FAQScraper`: which headings and paragraphs of the social-bundles page become FAQs, the
    de-duplication by 50-character question prefix, and the fallback list. The page is given
    already parsed: the texts of the question headings (with the text of the element after each)
    in the FAQ sections, and the paragraph texts of the content blocks. */
module FaqScraper {
  import opened Wrappers
  import opened Strings
  import opened FaqRecord
  import opened FaqFallback
  import Dedup

  /** A question heading and the stripped text of the element after it ("" when there is none). */
  datatype Heading = Heading(questionText: string, answerText: string)

  datatype Page = Page(faqSections: seq<seq<Heading>>, contentDivs: seq<seq<string>>)

  /** The download: a parsed page, or any failure (network error, error status, parse error). */
  datatype Fetch = Fetched(page: Page) | FetchFailed

  const SiteSource: string := "mtn.ng"

  // ---------------------------------------------------------------------------------------------
  // Which headings and paragraphs are kept

  /** A heading with more than 10 characters, followed by a non-empty answer of more than 20. */
  predicate AcceptsHeading(h: Heading)
  {
    |h.questionText| > 10 && h.answerText != "" && |h.answerText| > 20
  }

  function HeadingFaq(h: Heading): Faq
  {
    Faq(h.questionText, h.answerText, None, SocialBundlesCategory, SiteSource)
  }

  /** A paragraph that mentions both "social" and "bundle" in any case and is longer than 50. */
  predicate AcceptsParagraph(text: string)
  {
    Contains(Lower(text), "social") && Contains(Lower(text), "bundle") && |text| > 50
  }

  const TitlePrefix: string := "Information about MTN Social Bundles "

  /** The question given to the paragraph at index `i` of its block (counted from 1 in the title). */
  function ParagraphTitle(i: nat): string
  {
    TitlePrefix + NatToString(i + 1)
  }

  function ParagraphFaq(i: nat, text: string): Faq
  {
    Faq(ParagraphTitle(i), text, None, SocialBundlesCategory, SiteSource)
  }

  /** The accepted headings of one section, in order. */
  function SectionFaqs(hs: seq<Heading>): seq<Faq>
  {
    if |hs| == 0 then []
    else (if AcceptsHeading(hs[0]) then [HeadingFaq(hs[0])] else []) + SectionFaqs(hs[1..])
  }

  function HeadingFaqs(sections: seq<seq<Heading>>): seq<Faq>
  {
    if |sections| == 0 then [] else SectionFaqs(sections[0]) + HeadingFaqs(sections[1..])
  }

  /** The accepted paragraphs of one block; `first` is the index of `ps[0]` within the block. */
  function BlockFaqs(ps: seq<string>, first: nat): seq<Faq>
  {
    if |ps| == 0 then []
    else (if AcceptsParagraph(ps[0]) then [ParagraphFaq(first, ps[0])] else []) + BlockFaqs(ps[1..], first + 1)
  }

  function ContentFaqs(blocks: seq<seq<string>>): seq<Faq>
  {
    if |blocks| == 0 then [] else BlockFaqs(blocks[0], 0) + ContentFaqs(blocks[1..])
  }

  /** `faqs` before de-duplication: heading FAQs first, then paragraph FAQs. */
  function Candidates(p: Page): seq<Faq>
  {
    HeadingFaqs(p.faqSections) + ContentFaqs(p.contentDivs)
  }

  lemma {:induction false} SectionFaqsSpec(hs: seq<Heading>)
    ensures forall f :: f in SectionFaqs(hs) <==> exists k :: 0 <= k < |hs| && AcceptsHeading(hs[k]) && f == HeadingFaq(hs[k])
    decreases |hs|
  {
    if |hs| > 0 {
      SectionFaqsSpec(hs[1..]);
      var head := if AcceptsHeading(hs[0]) then [HeadingFaq(hs[0])] else [];
      assert SectionFaqs(hs) == head + SectionFaqs(hs[1..]);
      forall f | f in SectionFaqs(hs)
        ensures exists k :: 0 <= k < |hs| && AcceptsHeading(hs[k]) && f == HeadingFaq(hs[k])
      {
        if f !in SectionFaqs(hs[1..]) {
          assert f in head;
          assert AcceptsHeading(hs[0]) && f == HeadingFaq(hs[0]);
        } else {
          var k :| 0 <= k < |hs[1..]| && AcceptsHeading(hs[1..][k]) && f == HeadingFaq(hs[1..][k]);
          assert hs[k + 1] == hs[1..][k];
        }
      }
      forall f | exists k :: 0 <= k < |hs| && AcceptsHeading(hs[k]) && f == HeadingFaq(hs[k])
        ensures f in SectionFaqs(hs)
      {
        var k :| 0 <= k < |hs| && AcceptsHeading(hs[k]) && f == HeadingFaq(hs[k]);
        if k > 0 {
          assert hs[1..][k - 1] == hs[k];
          assert f in SectionFaqs(hs[1..]);
        }
      }
    }
  }

  /** The heading FAQs are exactly the FAQs of the accepted headings of all sections. */
  lemma {:induction false} HeadingFaqsSpec(sections: seq<seq<Heading>>)
    ensures forall f :: f in HeadingFaqs(sections) <==>
      exists s, k :: 0 <= s < |sections| && 0 <= k < |sections[s]| && AcceptsHeading(sections[s][k]) && f == HeadingFaq(sections[s][k])
    decreases |sections|
  {
    if |sections| > 0 {
      HeadingFaqsSpec(sections[1..]);
      SectionFaqsSpec(sections[0]);
      forall f | f in HeadingFaqs(sections)
        ensures exists s, k :: 0 <= s < |sections| && 0 <= k < |sections[s]| && AcceptsHeading(sections[s][k]) && f == HeadingFaq(sections[s][k])
      {
        if f in SectionFaqs(sections[0]) {
          var k :| 0 <= k < |sections[0]| && AcceptsHeading(sections[0][k]) && f == HeadingFaq(sections[0][k]);
          assert 0 <= 0 < |sections|;
        } else {
          assert f in HeadingFaqs(sections[1..]);
          var s, k :| 0 <= s < |sections[1..]| && 0 <= k < |sections[1..][s]| && AcceptsHeading(sections[1..][s][k]) && f == HeadingFaq(sections[1..][s][k]);
          assert sections[1..][s] == sections[s + 1];
        }
      }
      forall f | exists s, k :: 0 <= s < |sections| && 0 <= k < |sections[s]| && AcceptsHeading(sections[s][k]) && f == HeadingFaq(sections[s][k])
        ensures f in HeadingFaqs(sections)
      {
        var s, k :| 0 <= s < |sections| && 0 <= k < |sections[s]| && AcceptsHeading(sections[s][k]) && f == HeadingFaq(sections[s][k]);
        if s > 0 {
          assert sections[1..][s - 1] == sections[s];
          assert f in HeadingFaqs(sections[1..]);
        } else {
          assert f in SectionFaqs(sections[0]);
        }
      }
    }
  }

  /** The paragraph at index `first + k` of a block, accepted and turned into an FAQ. */
  predicate FromParagraph(f: Faq, ps: seq<string>, first: nat, k: int)
  {
    0 <= k < |ps| && AcceptsParagraph(ps[k]) && f == ParagraphFaq(first + k, ps[k])
  }

  lemma {:induction false} BlockFaqsSound(ps: seq<string>, first: nat, f: Faq)
    requires f in BlockFaqs(ps, first)
    ensures exists k :: FromParagraph(f, ps, first, k)
    decreases |ps|
  {
    var head := if AcceptsParagraph(ps[0]) then [ParagraphFaq(first, ps[0])] else [];
    assert BlockFaqs(ps, first) == head + BlockFaqs(ps[1..], first + 1);
    if f in head {
      assert FromParagraph(f, ps, first, 0);
    } else {
      BlockFaqsSound(ps[1..], first + 1, f);
      var k :| FromParagraph(f, ps[1..], first + 1, k);
      assert ps[k + 1] == ps[1..][k];
      assert FromParagraph(f, ps, first, k + 1);
    }
  }

  lemma {:induction false} BlockFaqsComplete(ps: seq<string>, first: nat, f: Faq, k: int)
    requires FromParagraph(f, ps, first, k)
    ensures f in BlockFaqs(ps, first)
    decreases |ps|
  {
    var head := if AcceptsParagraph(ps[0]) then [ParagraphFaq(first, ps[0])] else [];
    assert BlockFaqs(ps, first) == head + BlockFaqs(ps[1..], first + 1);
    if k > 0 {
      assert ps[1..][k - 1] == ps[k];
      assert FromParagraph(f, ps[1..], first + 1, k - 1);
      BlockFaqsComplete(ps[1..], first + 1, f, k - 1);
    }
  }

  /** The accepted paragraph at index `k` of block `d`, turned into an FAQ. */
  predicate FromBlock(f: Faq, blocks: seq<seq<string>>, d: int, k: int)
  {
    0 <= d < |blocks| && FromParagraph(f, blocks[d], 0, k)
  }

  lemma {:induction false} ContentFaqsSound(blocks: seq<seq<string>>, f: Faq)
    requires f in ContentFaqs(blocks)
    ensures exists d, k :: FromBlock(f, blocks, d, k)
    decreases |blocks|
  {
    if f in BlockFaqs(blocks[0], 0) {
      BlockFaqsSound(blocks[0], 0, f);
      var k :| FromParagraph(f, blocks[0], 0, k);
      assert FromBlock(f, blocks, 0, k);
    } else {
      ContentFaqsSound(blocks[1..], f);
      var d, k :| FromBlock(f, blocks[1..], d, k);
      assert blocks[1..][d] == blocks[d + 1];
      assert FromBlock(f, blocks, d + 1, k);
    }
  }

  lemma {:induction false} ContentFaqsComplete(blocks: seq<seq<string>>, f: Faq, d: int, k: int)
    requires FromBlock(f, blocks, d, k)
    ensures f in ContentFaqs(blocks)
    decreases |blocks|
  {
    if d > 0 {
      assert blocks[1..][d - 1] == blocks[d];
      assert FromBlock(f, blocks[1..], d - 1, k);
      ContentFaqsComplete(blocks[1..], f, d - 1, k);
    } else {
      BlockFaqsComplete(blocks[0], 0, f, k);
    }
  }

  /** The paragraph FAQs are exactly the accepted paragraphs of all blocks, each titled by its
      index within its own block. */
  lemma ContentFaqsSpec(blocks: seq<seq<string>>)
    ensures forall f :: f in ContentFaqs(blocks) <==> exists d, k :: FromBlock(f, blocks, d, k)
  {
    forall f | f in ContentFaqs(blocks)
      ensures exists d, k :: FromBlock(f, blocks, d, k)
    {
      ContentFaqsSound(blocks, f);
    }
    forall f | exists d, k :: FromBlock(f, blocks, d, k)
      ensures f in ContentFaqs(blocks)
    {
      var d, k :| FromBlock(f, blocks, d, k);
      ContentFaqsComplete(blocks, f, d, k);
    }
  }

  // ---------------------------------------------------------------------------------------------
  // De-duplication and the scrape

  /** `faq['question'][:50]`. */
  function DedupKey(f: Faq): string
  {
    Prefix(f.question, 50)
  }

  /** The de-duplication loop over the candidates of a fetched page. */
  function ScrapePage(p: Page): seq<Faq>
  {
    Dedup.DedupBy(Candidates(p), DedupKey)
  }

  /** `scrape_social_bundles_faq`: the de-duplicated candidates of a fetched page, or the fallback
      list when the fetch fails. */
  function Scrape(fetch: Fetch): (r: seq<Faq>)
    ensures fetch.Fetched? ==>
      Dedup.DistinctKeys(r, DedupKey) && Dedup.IsSubsequence(r, Candidates(fetch.page))
    ensures fetch.FetchFailed? ==>
      |r| == 5 && forall k :: 0 <= k < |r| ==> r[k].source == FallbackSource
  {
    match fetch
    case Fetched(p) => ScrapeFetched(p); ScrapePage(p)
    case FetchFailed => FallbackFaqs()
  }

  /** On a fetched page the result has no two FAQs sharing a 50-character prefix, is a
      subsequence of the candidates (so no longer), keeps the first candidate of every prefix,
      and de-duplicating it again changes nothing. */
  lemma ScrapeFetched(p: Page)
    ensures var r, c := ScrapePage(p), Candidates(p);
      && Dedup.DistinctKeys(r, DedupKey)
      && Dedup.IsSubsequence(r, c) && |r| <= |c|
      && (forall i :: 0 <= i < |c| && Dedup.FirstWithKey(c, DedupKey, i) ==> c[i] in r)
      && Dedup.DedupBy(r, DedupKey) == r
  {
    var c := Candidates(p);
    Dedup.DedupIsSubsequence(c, DedupKey, {});
    Dedup.DedupIdempotent(c, DedupKey);
    forall i | 0 <= i < |c| && Dedup.FirstWithKey(c, DedupKey, i)
      ensures c[i] in ScrapePage(p)
    {
      Dedup.DedupKeepsFirst(c, DedupKey, {}, i);
    }
  }

  /** Every scraped FAQ comes from an accepted heading or an accepted paragraph of the page. */
  lemma ScrapedFaqsAccepted(p: Page)
    ensures forall f :: f in ScrapePage(p) ==>
      && f.category == SocialBundlesCategory && f.source == SiteSource && f.keywords == None
      && ((|f.question| > 10 && |f.answer| > 20)
          || exists i: nat :: f.question == ParagraphTitle(i) && AcceptsParagraph(f.answer))
  {
    var c := Candidates(p);
    Dedup.DedupIsSubsequence(c, DedupKey, {});
    HeadingFaqsSpec(p.faqSections);
    ContentFaqsSpec(p.contentDivs);
    forall f | f in ScrapePage(p)
      ensures && f.category == SocialBundlesCategory && f.source == SiteSource && f.keywords == None
              && ((|f.question| > 10 && |f.answer| > 20)
                  || exists i: nat :: f.question == ParagraphTitle(i) && AcceptsParagraph(f.answer))
    {
      assert f in c;
      if f in HeadingFaqs(p.faqSections) {
        var s, k :| 0 <= s < |p.faqSections| && 0 <= k < |p.faqSections[s]|
          && AcceptsHeading(p.faqSections[s][k]) && f == HeadingFaq(p.faqSections[s][k]);
      } else {
        assert f in ContentFaqs(p.contentDivs);
        var d, k :| FromBlock(f, p.contentDivs, d, k);
        assert f.question == ParagraphTitle(k) && AcceptsParagraph(f.answer);
      }
    }
  }

  /** Paragraphs at the same index of different blocks get the same title, hence the same key:
      at most one FAQ per paragraph title survives. */
  lemma OnePerParagraphTitle(p: Page, i: nat)
    ensures var r := ScrapePage(p);
      forall a, b :: 0 <= a < b < |r| ==> !(r[a].question == ParagraphTitle(i) && r[b].question == ParagraphTitle(i))
  {
    ScrapeFetched(p);
  }

  lemma {:induction false} NatToStringLength(n: nat, k: nat)
    requires n < Power10(k)
    ensures |NatToString(n)| <= k || (k == 0 && |NatToString(n)| == 1)
  {
    if n >= 10 {
      assert k >= 2;
      NatToStringLength(n / 10, k - 1);
    }
  }

  function Power10(k: nat): nat
  {
    if k == 0 then 1 else 10 * Power10(k - 1)
  }

  /** Different paragraph indices give different titles. */
  lemma ParagraphTitleInjective(i: nat, j: nat)
    requires ParagraphTitle(i) == ParagraphTitle(j)
    ensures i == j
  {
    var ti, tj := ParagraphTitle(i), ParagraphTitle(j);
    assert ti[|TitlePrefix|..] == NatToString(i + 1);
    assert tj[|TitlePrefix|..] == NatToString(j + 1);
    NatToStringInjective(i + 1, j + 1);
  }

  /** A title of an index below 10^12 fits in the 50-character key. */
  lemma ParagraphTitleFits(i: nat)
    requires i < Power10(12)
    ensures DedupKey(ParagraphFaq(i, "")) == ParagraphTitle(i)
  {
    assert |TitlePrefix| == 37;
    NatToStringLength(i + 1, 13);
  }

  /** Paragraph titles of different indices below 10^12 fit in the 50-character key, so they
      are never merged with each other. */
  lemma ParagraphTitlesDistinct(i: nat, j: nat)
    requires i != j && i < Power10(12) && j < Power10(12)
    ensures DedupKey(ParagraphFaq(i, "")) != DedupKey(ParagraphFaq(j, ""))
  {
    ParagraphTitleFits(i);
    ParagraphTitleFits(j);
    if ParagraphTitle(i) == ParagraphTitle(j) {
      ParagraphTitleInjective(i, j);
    }
  }

  /** A fetched page with nothing on it yields no FAQs: the fallback is only for failures. */
  lemma EmptyPageYieldsNothing()
    ensures ScrapePage(Page([], [])) == []
    ensures Scrape(FetchFailed) == FallbackFaqs()
  {
  }

  /** The fallback questions have distinct keys, so de-duplicating the fallback list keeps all five. */
  lemma FallbackDistinct()
    ensures Dedup.DistinctKeys(FallbackFaqs(), DedupKey)
    ensures Dedup.DedupBy(FallbackFaqs(), DedupKey) == FallbackFaqs()
  {
    var r := FallbackFaqs();
    FallbackKeys();
    FallbackQuestionsDistinct();
    Dedup.DedupOfDistinct(r, DedupKey, {});
  }

  /** Every fallback question fits in the 50-character key. */
  lemma FallbackKeys()
    ensures var r := FallbackFaqs();
      && DedupKey(r[0]) == Question1 && DedupKey(r[1]) == Question2 && DedupKey(r[2]) == Question3
      && DedupKey(r[3]) == Question4 && DedupKey(r[4]) == Question5
  {
    assert |Question1| == 28 && |Question2| == 37 && |Question3| == 40;
    assert |Question4| == 32 && |Question5| == 40;
  }

  lemma FallbackQuestionsDistinct()
    ensures Question1 != Question2 && Question1 != Question3 && Question1 != Question4 && Question1 != Question5
    ensures Question2 != Question3 && Question2 != Question4 && Question2 != Question5
    ensures Question3 != Question4 && Question3 != Question5
    ensures Question4 != Question5
  {
    assert |Question1| == 28 && |Question2| == 37 && |Question3| == 40;
    assert |Question4| == 32 && |Question5| == 40;
    assert Question3[0] == 'W' && Question5[0] == 'C';
  }
}
