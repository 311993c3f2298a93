/** The FAQ record shared by the scraper and the chat engine (a JSON object in the source). */
module FaqRecord {
  import opened Wrappers

  /** `keywords` is `None` when the object has no "keywords" entry; scraped FAQs never have one. */
  datatype Faq = Faq(
    question: string,
    answer: string,
    keywords: Option<seq<string>>,
    category: string,
    source: string)

  /** The category of every FAQ the scraper produces. */
  const SocialBundlesCategory: string := "social_bundles"
}
