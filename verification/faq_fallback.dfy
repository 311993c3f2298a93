
/** `_get_fallback_social_bundles_faqs`: the fixed list the scraper returns when the download fails. */
module FaqFallback {
  import opened Wrappers
  import opened FaqRecord

  const FallbackSource: string := "fallback"

  function FallbackFaq(question: string, answer: string): Faq
  {
    Faq(question, answer, None, SocialBundlesCategory, FallbackSource)
  }

  const Question1: string := "What are MTN Social Bundles?"
  const Question2: string := "How do I subscribe to Social Bundles?"
  const Question3: string := "What social media platforms are covered?"
  const Question4: string := "How long do Social Bundles last?"
  const Question5: string := "Can I use Social Bundles for other apps?"
  const Answer1: string :=
    "MTN Social Bundles are special data packages designed specifically for social media platforms like WhatsApp, Facebook, Instagram, Twitter, and TikTok. These bundles offer affordable data rates for your favorite social apps."
  const Answer2: string :=
    "To subscribe to MTN Social Bundles, dial *312# and select your preferred social media bundle. You can also subscribe via the MyMTN app or by visiting mtn.ng."
  const Answer3: string :=
    "MTN Social Bundles cover popular platforms including WhatsApp, Facebook, Instagram, Twitter, TikTok, and Snapchat. Different bundle tiers may include different combinations of these platforms."
  const Answer4: string :=
    "MTN Social Bundles typically have validity periods ranging from daily (24 hours), weekly (7 days), to monthly (30 days) depending on the bundle you purchase."
  const Answer5: string :=
    "No, Social Bundles are exclusively for the specified social media platforms. For general internet browsing, you'll need to purchase regular data bundles."

  /** `_get_fallback_social_bundles_faqs`: the five fixed question/answer pairs, in order. */
  function FallbackFaqs(): (r: seq<Faq>)
    ensures |r| == 5
    ensures forall k :: 0 <= k < |r| ==>
      r[k].category == SocialBundlesCategory && r[k].source == FallbackSource && r[k].keywords == None
  {
    [ FallbackFaq(Question1, Answer1),
      FallbackFaq(Question2, Answer2),
      FallbackFaq(Question3, Answer3),
      FallbackFaq(Question4, Answer4),
      FallbackFaq(Question5, Answer5) ]
  }
}
