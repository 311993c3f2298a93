# MTN SmartAssist core, modelled in Dafny

MTN SmartAssist is a customer-service assistant for a mobile operator. Around a Streamlit
front end, scikit-learn and two LLM provider SDKs sit a handful of small, exact rules, and
this project models those rules and proves what they promise:

- **Churn model** (`ChurnModel`, over the tiny data-frame model `Frames`):
  - the four derived ratio features and the fixed ten-feature order;
  - the train/serve parity of the feature matrix;
  - the right-closed risk bins of `pd.cut`;
  - the shape of `predict`'s result and when `load_model` takes the artifacts;
  - the ordering of `get_feature_importance`.
- **FAQ search** (`ChatEngine`, using `StableSort` and `Strings`):
  - keyword scoring over the set of query words;
  - the stable descending sort and the Python slice `[:top_k]`.
- **Customer data** (`DataProcessor`):
  - validation of an uploaded table;
  - the spend and tenure segments;
  - the count and presence logic of the aggregate metrics.
- **Metrics tracker** (`Metrics`):
  - the three append-only logs and the guarded satisfaction log;
  - the summary and the intent histogram.
- **AI service** (`AiService`):
  - provider selection from key prefixes and client start-up;
  - `is_available` and the fixed not-configured message;
  - the classification of provider errors;
  - the keyword fallback of `classify_intent`;
  - the conversation text of `summarize_conversation`.
- **FAQ scraper** (`FaqScraper`, `FaqFallback`, `Dedup`):
  - which headings and paragraphs become FAQs;
  - the order-preserving de-duplication by 50-character question prefix;
  - the fallback list.

## How the model represents the system

- A pandas frame is a `Frame`: a set of column names plus rows, with each row a map from column
  to `Cell`. A cell is `Num(real)`, `Text`, `Null` (NaN) or `Inf(positive)`.
  - Division by zero follows numpy: `x / 0` is a signed infinity and `0 / 0` is NaN. Otherwise a
    number cell holds an exact real, not a float64, so there is no overflow or rounding.
  - Arithmetic on a text column is a `TypeError`; selecting an absent column is a `KeyError`.
- FAQ scores are kept at twice the source's value (keyword 4, question 2, answer 1), so they stay
  integers.
- `set(query.lower().split())` is the de-duplicated token list. `ScoreBySets` shows that the
  score only counts set members.
- Every scored FAQ carries its index in `all_faqs`. This is what lets stability be stated.
- The fitted scaler and classifier together are a function parameter, `Classifier`. For one
  feature row it returns a `Verdict`: the probability of churn and, separately, the class `predict`
  gives. Before scaling, scikit-learn casts the features to float64, calling Python's `float()`
  on any text. `float()` is a parameter too, a `FloatParser`: it gives the number, infinity or NaN
  a string spells, or nothing when it raises. The provider SDK call is a function parameter from `Request` to `CallOutcome`, and
  `json.loads` is a `decode` parameter.
- The download of the FAQ page is a `Fetch`:
  - either the page already cut into FAQ sections (headings with the text that follows them) and
    content blocks (paragraph texts);
  - or a failure.
- The metrics tracker is a value. A run of calls on it is a sequence of `Event`s that `Replay`
  applies.
- `predict` calls `pd.cut` with bins `[0, 0.3, 0.6, 1.0]` and the default `include_lowest=False`.
  So the bins are right-closed, and a probability of exactly 0 falls in no bin and gets a missing
  tier (`ZeroHasNoTier`).

## Model

| member | source | states |
|---|---|---|
| ChurnModel.FeatureLayout | models/churn_model.py:16-19 | The model sees ten distinct feature names: the six base features first, in their fixed order, then the four derived ones, and no derived name repeats a base name. |
| ChurnModel.DeriveRatio | models/churn_model.py:27-30 | One derivation step goes through exactly when its numerator and denominator columns exist and hold no text, and it keeps every row. |
| ChurnModel.DeriveRatioSpec | models/churn_model.py:26-30 | One derivation adds the target column to the frame and to every row and sets it to `num / (den + 1)` from the same row. Every other cell is left as it was. |
| ChurnModel.PrepareFeaturesOk | models/churn_model.py:23-32 | `prepare_features` succeeds exactly when the five source columns exist and none holds text. |
| ChurnModel.PrepareFeaturesShape | models/churn_model.py:26-32 | Working on a copy, `prepare_features` keeps every row and every cell outside the four derived columns, and adds exactly those four columns to the frame and to every row. |
| ChurnModel.PrepareFeaturesValues | models/churn_model.py:27-30 | `spend_per_month`, `data_per_month` and `complaint_rate` divide by tenure + 1, and `recharge_frequency` divides tenure by last-recharge days + 1, all read from the caller's row. |
| ChurnModel.DerivedValuesFinite | models/churn_model.py:27-30 | With numeric, non-negative tenure and recharge days, derivation succeeds and every derived feature is an ordinary finite quotient: no division by zero. |
| ChurnModel.RatioByZero | models/churn_model.py:27-30 | Only a denominator of -1 divides by zero. That yields a signed infinity for a non-zero numerator and NaN for zero. Every other denominator gives the exact quotient `num / (den + 1)`. |
| ChurnModel.FeatureParity | models/churn_model.py:43-48 | Training and scoring build the same feature matrix from any two tables that agree on the six base features. It depends on nothing else. |
| ChurnModel.SelectParity | models/churn_model.py:48 | `df[all_features]` depends only on the presence and the values of the ten feature columns. |
| ChurnModel.PrepareParity | models/churn_model.py:23-32 | Derivation reads only the base features: tables agreeing on them derive alike, feature by feature. |
| ChurnModel.CutFindsBin | models/churn_model.py:113-117 | `pd.cut` with increasing edges gives the label of the right-closed bin that holds the value. |
| ChurnModel.CutOutside | models/churn_model.py:113-117 | A value at or below the first edge, or above the last, gets no label. |
| ChurnModel.RiskTierBins | models/churn_model.py:113-117 | Low is exactly (0, 0.3], Medium exactly (0.3, 0.6], High exactly (0.6, 1.0]. Anything else gets no tier. |
| ChurnModel.ZeroHasNoTier | models/churn_model.py:113-117 | A probability of exactly 0 gets no tier, not `Low`. |
| ChurnModel.RiskTierMonotone | models/churn_model.py:113-117 | A higher probability never gets a lower tier (Low < Medium < High). |
| ChurnModel.LoadModel | models/churn_model.py:127-133 | `load_model` returns true exactly when both artifacts exist, and then takes both. Otherwise it changes nothing. |
| ChurnModel.AttachScores | models/churn_model.py:110-117 | The result keeps the caller's rows and cells and adds `churn_probability` and `risk_level` from the row's probability and `churn_prediction` from the row's predicted class. |
| ChurnModel.Predict | models/churn_model.py:88-91 | `predict` loads the artifacts first when no model is resident, before anything can fail. So the predictor afterwards holds the disk's model and scaler when none was resident and both files exist, even if the call then fails. Otherwise it is unchanged. |
| ChurnModel.PredictResult | models/churn_model.py:88-119 | A successful `predict` uses a resident model and fitted scaler. It returns the caller's rows with every original cell kept and exactly the three new columns. The derived features are not among them. Each row gets the classifier's probability on its derived feature vector as cast to float, the class `predict` gives the same vector, and the tier of the probability. |
| ChurnModel.FittedPredictOutcome | models/churn_model.py:102-107 | With a fitted model and at least one usable row, `predict` succeeds exactly when every feature is a finite number or text that `float()` turns into one. Text such as `"120"` is scored as 120. Otherwise it reports invalid features. |
| ChurnModel.PredictionFollowsProbability | models/churn_model.py:106-112 | When the classifier's `predict` agrees with its probability, a row's `churn_prediction` is 1 above 0.5 and 0 below. A tie at 0.5 is left open. |
| ChurnModel.PredictNeedsModel | models/churn_model.py:90-91 | With no model in memory and no complete pair of artifacts, `predict` never returns rows and leaves the predictor as it was. |
| ChurnModel.FreshPredictorNotTrained | models/churn_model.py:88-103 | A fresh predictor has an unfitted scaler, so with nothing on disk scoring usable data reports that no model is trained and leaves the predictor fresh. |
| ChurnModel.TierCellBins | models/churn_model.py:113-117 | The `risk_level` cell is the tier label of the bin holding the probability, and NaN outside the bins. |
| ChurnModel.FeatureImportanceSpec | models/churn_model.py:135-146 | The result is empty without a model. Otherwise it reorders `zip(all_features, importances)` into non-increasing importance, keeps ties in feature order, and has ten entries when the model reports ten importances. |
| DataProcessor.RequiredColumnsFacts | utils/data_processor.py:21-24 | There are seven required columns, and `churn` is not among them. |
| DataProcessor.ValidIff | utils/data_processor.py:19-42 | A table is valid exactly when all seven required columns are present and none holds a null. |
| DataProcessor.MissingReportedInOrder | utils/data_processor.py:26-32 | Any missing required column makes the result a missing-columns error, whatever the nulls. It lists exactly the missing ones, in required-column order. |
| DataProcessor.NullsReported | utils/data_processor.py:34-40 | With all columns present, a null in a required column gives a null-values error that lists exactly the required columns holding nulls, in required-column order, each with its positive count. |
| DataProcessor.ValidationMessageKinds | utils/data_processor.py:28-42 | The returned text tells the outcomes apart: it is `Data validation passed` exactly when valid, opens with `Missing columns: ` exactly for missing columns, and opens with `Null values found in columns: ` exactly for nulls. |
| DataProcessor.MissingMessageNamesColumns | utils/data_processor.py:28-32 | A missing-columns error text names every missing required column. |
| DataProcessor.NullMessageNamesCounts | utils/data_processor.py:35-40 | A null-values error text shows `'c': n` for every required column `c` holding `n` nulls. |
| DataProcessor.NullCounts | utils/data_processor.py:35-39 | Only the columns with nulls are reported, each with its null count. |
| DataProcessor.NullCountsComplete | utils/data_processor.py:35-39 | Every column with a null is reported. |
| DataProcessor.OnlyRequiredColumnsMatter | utils/data_processor.py:19-42 | Columns outside the seven required ones, and nulls in them, never change the verdict. |
| DataProcessor.SegmentsPartition | utils/data_processor.py:45-60 | Given `q25 <= q75`, every row with a comparable spend falls in exactly one of low, medium and high. Every row with a comparable tenure falls in exactly one of new (<= 6), established (6 < t <= 24) and loyal (> 24). A NaN row falls in none. |
| DataProcessor.SegmentsBounds | utils/data_processor.py:50-58 | Each segment keeps the table's columns and holds only rows that meet its bounds. |
| DataProcessor.CustomerMetricsSpec | utils/data_processor.py:63-82 | `total_customers` is the row count. The churn entries exist exactly with a `churn` column. `high_risk_customers` exists exactly with a `churn_probability` column and counts the rows whose probability is above 0.6, so it never exceeds the total. |
| DataProcessor.HighRiskThreshold | utils/data_processor.py:80 | The high-risk test is strict: 0.6 itself is not high risk, and a NaN probability never is. |
| DataProcessor.CustomerMetricsErrors | utils/data_processor.py:65-80 | The metrics fail exactly when an averaged column is missing or holds text, or when a present `churn` or `churn_probability` column holds text. |
| Metrics.LogConversation | utils/metrics.py:12-19 | `log_conversation` appends exactly one conversation entry and one response time and leaves the satisfaction scores alone. |
| Metrics.LogSatisfaction | utils/metrics.py:21-24 | A score from 1 to 5 is appended. Any other score changes nothing, and the conversation lists never change. |
| Metrics.ReplayConsistent | utils/metrics.py:7-24 | After any run of calls the two lists have equal length and every stored score lies in 1..5. There is one conversation per `log_conversation` call, and the scores are exactly the accepted ones, in order. |
| Metrics.EmptySummary | utils/metrics.py:26-33 | Without conversations the summary is total 0, average response time 0 and average satisfaction 0, even after satisfaction scores were logged. |
| Metrics.SummaryBounds | utils/metrics.py:35-41 | `total_conversations` is the number of conversations. `avg_satisfaction` is 0 with no scores and otherwise lies in [1, 5]. |
| Metrics.BumpShape | utils/metrics.py:48 | Counting one intent raises its count by one, or appends it with count 1 when it is new. No intent is ever listed twice. |
| Metrics.IntentDistributionSpec | utils/metrics.py:43-49 | The distribution lists each logged intent once, in order of first appearance, with its number of occurrences. The counts add up to the number of intents. |
| Metrics.DistributionMatchesTotal | utils/metrics.py:35-49 | The summary's distribution adds up to `total_conversations`. |
| AiService.SelectProvider | services/ai_service.py:23-47 | OpenAI is chosen exactly when its key starts with `sk-` and its client starts. Anthropic is chosen exactly when OpenAI was not, its key starts with `sk-ant-`, and its client starts. |
| AiService.Initialize | services/ai_service.py:20-45 | The constructor's two guarded steps, with a failed start clearing the provider, select the same provider. |
| AiService.OpenAiTakesPrecedence | services/ai_service.py:24-36 | With both keys valid and both clients starting, OpenAI wins. |
| AiService.RequestCarriesPrompts | services/ai_service.py:59-82 | The request ends with the prompt as the user's message and carries the token and temperature settings. OpenAI gets the system prompt as a leading message exactly when it is non-empty. Anthropic always gets a non-empty system prompt, the default in place of an empty one. |
| AiService.GenerateResponse | services/ai_service.py:50-57 | Without a provider the answer is the fixed not-configured message. |
| AiService.GenerateResponseOutcomes | services/ai_service.py:59-91 | An available service passes the reply through unchanged. A failed call becomes the message of its error class, which quotes the exception text. |
| AiService.ErrorPriority | services/ai_service.py:85-91 | Errors are classified in order. An authentication word in any case, or 401, gives the authentication class. A rate-limit word in any case, or 429, gives the rate-limit class only without those. Anything else is generic. |
| AiService.AuthenticationWins | services/ai_service.py:86-89 | An error text naming both 401 and a rate limit is an authentication error. |
| AiService.ErrorMessage | services/ai_service.py:86-91 | Each class has its fixed message. The authentication and rate-limit messages end with the exception text, and the generic one quotes it right after its heading. |
| AiService.ClassifyErrorCaseInsensitive | services/ai_service.py:86-88 | Classifying the lower-cased error text gives the same class. |
| AiService.FallbackIntent | services/ai_service.py:108-118 | The fallback never reports entities. |
| AiService.FallbackPriority | services/ai_service.py:110-118 | Data words win, then recharge words, then network words, each as a substring of the lower-cased message. Otherwise the intent is general. The confidence is 0.6 exactly for the general intent and 0.8 otherwise. |
| AiService.FallbackMatchesInsideWords | services/ai_service.py:111 | Words match inside other words: "My number is blocked" is a data inquiry, because "number" contains "mb". |
| AiService.IntentPromptMentions | services/ai_service.py:95-100 | The classification prompt opens with the instruction, names every intent on offer, and quotes the customer's message between double quotes. |
| AiService.UnavailableClassifiesByKeywords | services/ai_service.py:104-118 | Without a provider the reply is no JSON text, so `classify_intent` answers with the keyword fallback. |
| AiService.FailedCallClassifiesByKeywords | services/ai_service.py:84-118 | A failed provider call yields an error message, which is no JSON text either, so the keyword fallback answers. |
| AiService.ConversationTextLines | services/ai_service.py:122 | The conversation text splits back on newlines into one `role: content` line per message, in order, when no message contains a newline. |
| AiService.SummarizeConversation | services/ai_service.py:120-132 | Without a provider the summary is the not-configured message. |
| AiService.SummaryRequestCarriesConversation | services/ai_service.py:122-132 | The summary request sends a user message that contains the conversation text. |
| ChatEngine.AllFaqs | services/chat_engine.py:12 | `all_faqs` is the curated FAQs followed by the scraped ones. |
| ChatEngine.QueryWords | services/chat_engine.py:39-40 | No query word is listed twice. |
| ChatEngine.QueryWordSet | services/chat_engine.py:39-40 | The query words are exactly the whitespace-separated tokens of the lower-cased query. |
| ChatEngine.ScoreBySets | services/chat_engine.py:44-56 | The doubled score is 4 per distinct query word inside some keyword, 2 per word inside the question and 1 per word inside the answer. |
| ChatEngine.ScoreDependsOnWordSet | services/chat_engine.py:39-56 | Queries with the same set of words score every FAQ alike, so a repeated word counts once. |
| ChatEngine.ScoreFrom | services/chat_engine.py:42-59 | The scoring loop keeps only FAQs with a positive score, each with its true score, in list order. |
| ChatEngine.ScoreFromComplete | services/chat_engine.py:58-59 | No FAQ with a positive score is dropped. |
| ChatEngine.Take | services/chat_engine.py:63 | `xs[:k]` is a prefix of `k` elements, or fewer when the list is shorter. A negative `k` drops that many from the end. |
| ChatEngine.SearchFaqsBounds | services/chat_engine.py:37-63 | Every result is an FAQ of the engine with a positive score. There are at most `top_k` results (for `top_k >= 0`) and never more than there are FAQs. |
| ChatEngine.SearchFaqsOrder | services/chat_engine.py:62-63 | Results come in non-increasing score order. |
| ChatEngine.SearchStable | services/chat_engine.py:62-63 | Results with equal scores keep their order from `all_faqs`. |
| ChatEngine.SearchTopK | services/chat_engine.py:62-63 | No scored FAQ left out outranks a returned one, and a short result leaves nothing out. |
| ChatEngine.RankingComplete | services/chat_engine.py:58-62 | Every FAQ with a positive score is in the sorted list. |
| ChatEngine.BlankQueryFindsNothing | services/chat_engine.py:39-63 | An empty or all-whitespace query returns nothing. |
| StableSort.SortedOrder | services/chat_engine.py:62 | The sort puts its elements in non-increasing key order. |
| StableSort.SortedPermutes | services/chat_engine.py:62 | The sort is a permutation of its input. |
| StableSort.SortedStable | services/chat_engine.py:62 | Elements with equal keys keep their input order. |
| Strings.SplitEmptyIffBlank | services/chat_engine.py:40 | `str.split()` gives no tokens exactly when the text is all whitespace. |
| Strings.SplitLosesOnlySpaces | services/chat_engine.py:40 | The tokens of `str.split()`, put back together, are the text without its whitespace. |
| Strings.ContainsIff | services/chat_engine.py:49-56 | Python's substring test holds exactly when the word occurs at some position. |
| Strings.SplitOnJoin | services/ai_service.py:122 | Joining newline-free lines with newlines and splitting on newlines gives the lines back. |
| FaqScraper.SectionFaqsSpec | services/faq_scraper.py:28-43 | A section yields exactly the FAQs of its accepted headings: question over 10 characters, non-empty answer over 20. |
| FaqScraper.HeadingFaqsSpec | services/faq_scraper.py:28-43 | The heading FAQs are exactly those of the accepted headings of all sections. |
| FaqScraper.ContentFaqsSpec | services/faq_scraper.py:45-57 | The paragraph FAQs are exactly the accepted paragraphs of all blocks. A paragraph is accepted when it mentions "social" and "bundle" in any case and is over 50 characters, and is titled by its index in its block, counted from 1. |
| FaqScraper.Scrape | services/faq_scraper.py:15-73 | A fetched page yields an order-preserving selection of its candidates with no two sharing a 50-character question prefix. A failed download yields the five fallback FAQs, all with source `fallback`. |
| FaqScraper.ScrapeFetched | services/faq_scraper.py:59-68 | After de-duplication no two FAQs share a 50-character question prefix. The result is an order-preserving subsequence of the candidates and no longer. It keeps the first candidate of every prefix, and de-duplicating it again changes nothing. |
| FaqScraper.ScrapedFaqsAccepted | services/faq_scraper.py:28-57 | Every scraped FAQ has category `social_bundles` and source `mtn.ng`, and comes from an accepted heading or an accepted paragraph. |
| FaqScraper.OnePerParagraphTitle | services/faq_scraper.py:49-66 | Paragraphs at the same index of different blocks share a title, so at most one FAQ per title survives. |
| FaqScraper.ParagraphTitleInjective | services/faq_scraper.py:53 | Different paragraph indices give different titles. |
| FaqScraper.ParagraphTitlesDistinct | services/faq_scraper.py:53-63 | Titles of different indices also differ in their 50-character keys. |
| FaqScraper.EmptyPageYieldsNothing | services/faq_scraper.py:22-68 | A fetched page with nothing on it yields no FAQs; the fallback list is only for failures. |
| FaqScraper.FallbackDistinct | services/faq_scraper.py:75-108 | The five fallback questions have distinct keys, so de-duplication would keep all of them. |
| FaqFallback.FallbackFaqs | services/faq_scraper.py:75-108 | The fallback list has exactly five FAQs, all with category `social_bundles` and source `fallback`. |
| Dedup.DedupLoop | services/faq_scraper.py:59-66 | The loop with a `seen` set computes the order-preserving de-duplication, whose keys are distinct, and is no longer than its input. |
| Dedup.DedupKeepsFirst | services/faq_scraper.py:62-66 | The first element with each key is kept. |
| Dedup.DedupIdempotent | services/faq_scraper.py:59-66 | De-duplicating twice equals de-duplicating once. |
| Dedup.DedupIsSubsequence | services/faq_scraper.py:59-66 | The result is a subsequence of the input. |

## Left out

- ChurnModel.RatioByZero: number cells are exact reals, so float64 overflow to ±inf, underflow and
  rounding in the four derived ratios are not modelled. Rounding never changes whether `predict`
  succeeds. Overflow can, but only when a denominator column holds a value in (-2, 0). For example, `monthly_spend = 1e308` with `tenure_months = -0.5` gives
  `inf` in float64, and the scaler then rejects it. The model gives the finite quotient `2e308`,
  and `Predict` returns rows. With non-negative denominators (`RatioIsFinite`,
  `DerivedValuesFinite`) the quotient cannot overflow.
- Training (`train`, models/churn_model.py:34-86): the split, scaler and classifier fitting and
  the evaluation metrics are scikit-learn numerics. Only the data `train` hands over is modelled
  (`TrainingData`), which is enough to state train/serve parity.
- `save_model` and the artifact files: joblib and the file system are I/O. `load_model` sees the
  disk as an `Artifacts` value saying which of the two files exist and what they hold.
- The scaler and classifier: one opaque `Classifier` function gives the probability and the
  predicted class. How `predict` breaks a tie at 0.5 is not modelled: it differs between
  scikit-learn versions. Input can be rejected in two places, and the model keeps both:
  - the scaler rejects an unfitted scaler, text `float()` cannot parse, and infinities,
    including those that `float()` reads from text such as `"inf"`;
  - the classifier rejects NaN.
- `load_customer_data`, `_load_faqs` and `save_to_file`: CSV and JSON file I/O.
- The averages and sums of `calculate_customer_metrics` and `get_summary`'s response-time and
  confidence means: floating-point aggregation. `get_summary` is modelled with exact real
  arithmetic, and only the counts and presence of `calculate_customer_metrics` are modelled.
- The spend quantiles of `get_customer_segments`: pandas interpolation, passed in as `q25` and
  `q75`.
- HTTP download, HTML parsing, `find_all`/`find_next` and `get_text`: the page arrives already
  cut into sections of headings and blocks of paragraph texts. Any failure is `FetchFailed`.
- Streamlit secrets and dotenv loading, printing, and the provider SDK clients: the keys are
  parameters, whether each client starts is a boolean, and the call itself is a function.
- `json.loads`: a `decode` parameter returning the intent record. Replies that decode to a JSON
  value other than an object are not modelled.
- The rest of `ChatEngine.generate_response` (prompt assembly, history, the reply dictionary):
  glue around the search and the intent classification.
- `time.time()` timestamps of the metrics log: the clock is not modelled.
- Strings.Lower: lower-casing covers ASCII letters only, not full Unicode case folding.
- FaqScraper.ParagraphTitlesDistinct: proved only for indices below 10^12. A longer index would
  push the title past the 50-character key, so the property is not stated there.
- The user interface and the environment checks: app.py, test_setup.py, test_api_keys.py.
