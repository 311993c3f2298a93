/** `AIService`: provider selection, the fixed messages around a provider call, the classification
    of provider errors, the keyword fallback of intent classification and the summary prompt.
    The provider clients themselves are a function parameter. */
module AiService {
  import opened Wrappers
  import opened Strings

  datatype Provider = OpenAI | Anthropic

  // ---------------------------------------------------------------------------------------------
  // Provider selection

  /** A configured OpenAI key: present, and starting with `sk-` (which also makes it non-empty). */
  predicate OpenAiKeyShaped(key: Option<string>)
  {
    key.Some? && StartsWith(key.value, "sk-")
  }

  predicate AnthropicKeyShaped(key: Option<string>)
  {
    key.Some? && StartsWith(key.value, "sk-ant-")
  }

  /** The constructor's choice. `openAiInitOk` and `anthropicInitOk` say whether building the
      respective client would succeed; that happens in foreign code. */
  function SelectProvider(openAiKey: Option<string>, anthropicKey: Option<string>,
                          openAiInitOk: bool, anthropicInitOk: bool): (r: Option<Provider>)
    ensures r == Some(OpenAI) <==> OpenAiKeyShaped(openAiKey) && openAiInitOk
    ensures r == Some(Anthropic) <==>
      !(OpenAiKeyShaped(openAiKey) && openAiInitOk) && AnthropicKeyShaped(anthropicKey) && anthropicInitOk
  {
    if OpenAiKeyShaped(openAiKey) && openAiInitOk then Some(OpenAI)
    else if AnthropicKeyShaped(anthropicKey) && anthropicInitOk then Some(Anthropic)
    else None
  }

  /** The constructor step by step: try OpenAI, then Anthropic only while no provider is set; a
      failed initialisation leaves the provider unset. */
  method Initialize(openAiKey: Option<string>, anthropicKey: Option<string>,
                    openAiInitOk: bool, anthropicInitOk: bool) returns (provider: Option<Provider>)
    ensures provider == SelectProvider(openAiKey, anthropicKey, openAiInitOk, anthropicInitOk)
  {
    provider := None;
    if openAiKey.Some? && |openAiKey.value| > 0 && StartsWith(openAiKey.value, "sk-") {
      if openAiInitOk {
        provider := Some(OpenAI);
      } else {
        provider := None;
      }
    }
    if provider.None? && anthropicKey.Some? && |anthropicKey.value| > 0 && StartsWith(anthropicKey.value, "sk-ant-") {
      if anthropicInitOk {
        provider := Some(Anthropic);
      } else {
        provider := None;
      }
    }
  }

  /** With both keys valid and both clients constructible, OpenAI wins. */
  lemma OpenAiTakesPrecedence(openAiKey: string, anthropicKey: string)
    requires StartsWith(openAiKey, "sk-") && StartsWith(anthropicKey, "sk-ant-")
    ensures SelectProvider(Some(openAiKey), Some(anthropicKey), true, true) == Some(OpenAI)
  {
  }

  /** `is_available`. */
  predicate IsAvailable(provider: Option<Provider>)
  {
    provider.Some?
  }

  // ---------------------------------------------------------------------------------------------
  // Requests and responses

  datatype Message = Message(role: string, content: string)

  /** What is handed to a provider client (model names as in the source). */
  datatype Request =
    | ChatCompletion(model: string, messages: seq<Message>, maxTokens: int, temperature: real)
    | AnthropicMessages(model: string, system: string, messages: seq<Message>, maxTokens: int, temperature: real)

  /** What the client call gives back: a reply text, or an exception carrying its `str(e)`. */
  datatype CallOutcome = Reply(text: string) | Failure(error: string)

  const DefaultSystemPrompt: string := "You are a helpful assistant."

  function BuildRequest(provider: Provider, prompt: string, systemPrompt: string,
                        maxTokens: int, temperature: real): Request
  {
    match provider
    case OpenAI =>
      ChatCompletion("gpt-3.5-turbo",
        (if systemPrompt != "" then [Message("system", systemPrompt)] else []) + [Message("user", prompt)],
        maxTokens, temperature)
    case Anthropic =>
      AnthropicMessages("claude-3-haiku-20240307",
        if systemPrompt != "" then systemPrompt else DefaultSystemPrompt,
        [Message("user", prompt)], maxTokens, temperature)
  }

  /** Every request ends with the prompt as the user's message. OpenAI gets the system prompt as a
      leading message exactly when it is non-empty; Anthropic always gets a non-empty system
      prompt, the default one in place of an empty prompt. */
  lemma RequestCarriesPrompts(provider: Provider, prompt: string, systemPrompt: string,
                              maxTokens: int, temperature: real)
    ensures var q := BuildRequest(provider, prompt, systemPrompt, maxTokens, temperature);
      && |q.messages| >= 1 && q.messages[|q.messages| - 1] == Message("user", prompt)
      && q.maxTokens == maxTokens && q.temperature == temperature
      && (q.ChatCompletion? <==> provider == OpenAI)
      && (q.ChatCompletion? ==>
            (|q.messages| == 2 <==> systemPrompt != "")
            && (systemPrompt != "" ==> q.messages[0] == Message("system", systemPrompt)))
      && (q.AnthropicMessages? ==> q.system != "" && (systemPrompt != "" ==> q.system == systemPrompt))
  {
  }

  /** The two emoji that open the fixed messages. */
  const WarningSign: string := "\U{26A0}\U{FE0F}"
  const CrossMark: string := "\U{274C}"

  const NotConfiguredMessage: string :=
    WarningSign + " AI service not configured. Please add a valid API key to .env file.\n\nGet API keys:\n- OpenAI: https://platform.openai.com/api-keys\n- Anthropic: https://console.anthropic.com/"

  datatype ErrorKind = AuthenticationError | RateLimitError | OtherError

  /** The error branches of `generate_response`, tried in order on the exception text. */
  function ClassifyError(error: string): ErrorKind
  {
    if Contains(Lower(error), "authentication") || Contains(error, "401") then AuthenticationError
    else if Contains(Lower(error), "rate_limit") || Contains(error, "429") then RateLimitError
    else OtherError
  }

  const AuthenticationText: string :=
    CrossMark + " Authentication Error: Your API key is invalid or expired.\n\nPlease:\n1. Check your API key in .env file\n2. Ensure it's active in your provider dashboard\n3. Get a new key if needed:\n   - OpenAI: https://platform.openai.com/api-keys\n   - Anthropic: https://console.anthropic.com/\n\nError details: "

  const RateLimitText: string :=
    WarningSign + " Rate Limit: You've exceeded your API usage limit.\n\nPlease:\n1. Wait a few minutes and try again\n2. Check your usage at your provider dashboard\n3. Consider upgrading your API tier\n\nError details: "

  const OtherErrorHead: string := CrossMark + " Error: "

  const OtherErrorTail: string :=
    "\n\nPlease check:\n1. Your internet connection\n2. API key is valid\n3. Service is not down"

  /** The message shown for a failed call: the fixed text of the error's class, quoting the
      exception text at the end (authentication, rate limit) or right after the heading (other). */
  function ErrorMessage(error: string): (r: string)
    ensures ClassifyError(error) == AuthenticationError ==> StartsWith(r, AuthenticationText)
    ensures ClassifyError(error) == RateLimitError ==> StartsWith(r, RateLimitText)
    ensures ClassifyError(error) != OtherError ==> |error| <= |r| && r[|r| - |error|..] == error
    ensures ClassifyError(error) == OtherError ==> StartsWith(r, OtherErrorHead + error)
  {
    match ClassifyError(error)
    case AuthenticationError => AuthenticationText + error
    case RateLimitError => RateLimitText + error
    case OtherError => OtherErrorHead + error + OtherErrorTail
  }

  /** The classes in the order they are tried, in both directions: an authentication word or a
      401 wins over everything; a rate-limit word or a 429 counts only without those; anything
      else is a generic error. */
  lemma ErrorPriority(error: string)
    ensures ClassifyError(error) == AuthenticationError <==>
      Contains(Lower(error), "authentication") || Contains(error, "401")
    ensures ClassifyError(error) == RateLimitError <==>
      !(Contains(Lower(error), "authentication") || Contains(error, "401"))
      && (Contains(Lower(error), "rate_limit") || Contains(error, "429"))
    ensures ClassifyError(error) == OtherError <==>
      !Contains(Lower(error), "authentication") && !Contains(error, "401")
      && !Contains(Lower(error), "rate_limit") && !Contains(error, "429")
  {
  }

  /** The status 401 gives the authentication message even when a rate-limit word is present too. */
  lemma AuthenticationWins()
    ensures ClassifyError("401 rate_limit") == AuthenticationError
  {
    assert OccursAt("401 rate_limit", "401", 0);
    ContainsIff("401 rate_limit", "401");
  }

  /** Lower-casing the error text first changes nothing: the word tests are on the lower-cased
      text already, and the status codes have no letters. */
  lemma ClassifyErrorCaseInsensitive(error: string)
    ensures ClassifyError(Lower(error)) == ClassifyError(error)
  {
    LowerIdempotent(error);
    LowerKeepsCaselessWord(error, "401");
    LowerKeepsCaselessWord(error, "429");
  }

  predicate Caseless(w: string)
  {
    forall k :: 0 <= k < |w| ==> !IsUpper(w[k]) && !IsUpper(LowerChar(w[k])) && !('a' <= w[k] <= 'z')
  }

  /** A word without letters occurs in the lower-cased text exactly where it occurs in the text. */
  lemma LowerKeepsCaselessWord(s: string, w: string)
    requires Caseless(w)
    ensures Contains(Lower(s), w) <==> Contains(s, w)
  {
    ContainsIff(Lower(s), w);
    ContainsIff(s, w);
    forall i | OccursAt(Lower(s), w, i)
      ensures OccursAt(s, w, i)
    {
      CaselessOccurrence(s, w, i);
    }
    forall i | OccursAt(s, w, i)
      ensures OccursAt(Lower(s), w, i)
    {
      CaselessOccurrence(s, w, i);
    }
  }

  lemma CaselessOccurrence(s: string, w: string, i: int)
    requires Caseless(w) && 0 <= i && i + |w| <= |s|
    ensures OccursAt(Lower(s), w, i) <==> OccursAt(s, w, i)
  {
    var l := Lower(s);
    if OccursAt(l, w, i) {
      forall k | 0 <= k < |w|
        ensures s[i + k] == w[k]
      {
        assert l[i..i + |w|][k] == w[k];
      }
      assert s[i..i + |w|] == w;
    }
    if OccursAt(s, w, i) {
      forall k | 0 <= k < |w|
        ensures l[i + k] == w[k]
      {
        assert s[i..i + |w|][k] == w[k];
      }
      assert l[i..i + |w|] == w;
    }
  }

  /** `generate_response`, with the client call as the parameter `call`. */
  function GenerateResponse(provider: Option<Provider>, call: Request -> CallOutcome, prompt: string,
                            systemPrompt: string, maxTokens: int, temperature: real): (r: string)
    ensures !IsAvailable(provider) ==> r == NotConfiguredMessage
  {
    if !IsAvailable(provider) then NotConfiguredMessage
    else match call(BuildRequest(provider.value, prompt, systemPrompt, maxTokens, temperature))
      case Reply(text) => text
      case Failure(error) => ErrorMessage(error)
  }

  /** An available service hands the call's reply through unchanged, and turns a failure into the
      message for its class, which ends with (or, for other errors, starts with) the error text. */
  lemma GenerateResponseOutcomes(provider: Option<Provider>, call: Request -> CallOutcome, prompt: string,
                                 systemPrompt: string, maxTokens: int, temperature: real)
    requires IsAvailable(provider)
    ensures var out := call(BuildRequest(provider.value, prompt, systemPrompt, maxTokens, temperature));
      var r := GenerateResponse(provider, call, prompt, systemPrompt, maxTokens, temperature);
      && (out.Reply? ==> r == out.text)
      && (out.Failure? && ClassifyError(out.error) != OtherError ==>
            |out.error| <= |r| && r[|r| - |out.error|..] == out.error)
      && (out.Failure? && ClassifyError(out.error) == OtherError ==> StartsWith(r, OtherErrorHead + out.error))
  {
  }

  // ---------------------------------------------------------------------------------------------
  // Intent classification

  /** The dictionary `classify_intent` returns; `entities` is always empty in the fallback. */
  datatype Intent = Intent(intent: string, confidence: real, entities: map<string, string>)

  const DataWords: seq<string> := ["data", "bundle", "plan", "gb", "mb"]
  const RechargeWords: seq<string> := ["recharge", "airtime", "top up"]
  const NetworkWords: seq<string> := ["network", "signal", "connection"]

  /** `any(word in text for word in words)`. */
  predicate AnyIn(words: seq<string>, text: string)
  {
    exists k :: 0 <= k < |words| && Contains(text, words[k])
  }

  /** The keyword fallback of `classify_intent`. */
  function FallbackIntent(userMessage: string): (r: Intent)
    ensures r.entities == map[]
  {
    var text := Lower(userMessage);
    if AnyIn(DataWords, text) then Intent("data_inquiry", 0.8, map[])
    else if AnyIn(RechargeWords, text) then Intent("recharge_issue", 0.8, map[])
    else if AnyIn(NetworkWords, text) then Intent("network_complaint", 0.8, map[])
    else Intent("general_inquiry", 0.6, map[])
  }

  /** The fallback's priority order, in both directions: each intent is chosen exactly when its
      words occur in the lower-cased message and no earlier group's words do; the confidence is
      0.6 exactly for the general intent and 0.8 otherwise. */
  lemma FallbackPriority(userMessage: string)
    ensures var r, text := FallbackIntent(userMessage), Lower(userMessage);
      && (r.intent == "data_inquiry" <==> AnyIn(DataWords, text))
      && (r.intent == "recharge_issue" <==> !AnyIn(DataWords, text) && AnyIn(RechargeWords, text))
      && (r.intent == "network_complaint" <==>
            !AnyIn(DataWords, text) && !AnyIn(RechargeWords, text) && AnyIn(NetworkWords, text))
      && (r.intent == "general_inquiry" <==>
            !AnyIn(DataWords, text) && !AnyIn(RechargeWords, text) && !AnyIn(NetworkWords, text))
      && (r.confidence == 0.6 <==> r.intent == "general_inquiry")
      && (r.confidence != 0.6 ==> r.confidence == 0.8)
  {
  }

  /** The words are matched as substrings: "number" contains "mb", so a message about a number is
      taken for a data inquiry. */
  lemma FallbackMatchesInsideWords()
    ensures FallbackIntent("My number is blocked").intent == "data_inquiry"
  {
    var text := Lower("My number is blocked");
    assert text == "my number is blocked";
    assert OccursAt(text, "mb", 5);
    ContainsIff(text, "mb");
    assert DataWords[4] == "mb";
  }

  const IntentSystemPrompt: string :=
    "You are an intent classification system. Always respond with valid JSON only."

  /** The classification prompt, character for character; the sample reply it shows carries a
      stray quote after `{}`, as in the source. */
  function IntentPrompt(userMessage: string, intents: seq<string>): string
  {
    IntentPromptHead + Join(intents, ", ") + IntentPromptMiddle + userMessage + IntentPromptTail
  }

  const IntentPromptHead: string := "Classify the following customer message into one of these intents: "
  const IntentPromptMiddle: string := "\n\nCustomer message: \""
  const IntentPromptTail: string := "\"" + IntentReplyFormat
  const IntentReplyFormat: string :=
    "\n\nRespond with JSON format:\n{\"intent\": \"intent_name\", \"confidence\": 0.95, \"entities\": {}\"}"

  /** The classification prompt opens with the instruction, names every intent on offer and
      quotes the customer's message between double quotes. */
  lemma IntentPromptMentions(userMessage: string, intents: seq<string>)
    ensures StartsWith(IntentPrompt(userMessage, intents), IntentPromptHead)
    ensures forall k :: 0 <= k < |intents| ==> Contains(IntentPrompt(userMessage, intents), intents[k])
    ensures Contains(IntentPrompt(userMessage, intents), "\"" + userMessage + "\"")
  {
    var joined := Join(intents, ", ");
    var rest := IntentPromptMiddle + userMessage + IntentPromptTail;
    var prompt := IntentPrompt(userMessage, intents);
    assert prompt == IntentPromptHead + joined + rest;
    assert prompt[..|IntentPromptHead|] == IntentPromptHead;
    forall k | 0 <= k < |intents|
      ensures Contains(prompt, intents[k])
    {
      JoinContains(intents, ", ", k);
      ContainsWithin(IntentPromptHead, joined, rest, intents[k]);
    }
    var middle := IntentPromptMiddle;
    var quoted := "\"" + userMessage + "\"";
    assert middle[|middle| - 1] == '"';
    assert prompt == (IntentPromptHead + joined + middle[..|middle| - 1]) + quoted + IntentReplyFormat;
    ContainsSelfAndEmpty(quoted);
    ContainsWithin(IntentPromptHead + joined + middle[..|middle| - 1], quoted, IntentReplyFormat, quoted);
  }

  /** JSON whitespace. */
  predicate JsonSpace(c: char)
  {
    c == ' ' || c == '\t' || c == '\n' || c == '\r'
  }

  /** A JSON text can only begin, after whitespace, with one of these characters. */
  predicate CouldBeJson(s: string)
    decreases |s|
  {
    |s| > 0 &&
    if JsonSpace(s[0]) then CouldBeJson(s[1..])
    else s[0] in "{[\"-0123456789tfn"
  }

  /** `classify_intent`: the reply decoded by `decode` (which stands for `json.loads` returning
      a dictionary), or the keyword fallback when the reply does not decode. */
  function ClassifyIntent(provider: Option<Provider>, call: Request -> CallOutcome,
                          decode: string -> Option<Intent>, userMessage: string, intents: seq<string>): Intent
  {
    var reply := GenerateResponse(provider, call, IntentPrompt(userMessage, intents), IntentSystemPrompt, 150, 0.3);
    match decode(reply)
    case Some(d) => d
    case None => FallbackIntent(userMessage)
  }

  /** Without a provider the reply is the not-configured message, which is no JSON text, so
      any JSON decoder rejects it and the keyword fallback answers. */
  lemma UnavailableClassifiesByKeywords(call: Request -> CallOutcome, decode: string -> Option<Intent>,
                                        userMessage: string, intents: seq<string>)
    requires forall s :: decode(s).Some? ==> CouldBeJson(s)
    ensures ClassifyIntent(None, call, decode, userMessage, intents) == FallbackIntent(userMessage)
  {
    var m := NotConfiguredMessage;
    assert m[0] == WarningSign[0] == '\U{26A0}';
    EmojiOpensNoJson(m);
  }

  /** A failed provider call is answered by an error message, which opens with an emoji and so is
      no JSON text either: the keyword fallback answers then too. */
  lemma FailedCallClassifiesByKeywords(provider: Option<Provider>, call: Request -> CallOutcome,
                                       decode: string -> Option<Intent>, userMessage: string, intents: seq<string>)
    requires IsAvailable(provider)
    requires call(BuildRequest(provider.value, IntentPrompt(userMessage, intents), IntentSystemPrompt, 150, 0.3)).Failure?
    requires forall s :: decode(s).Some? ==> CouldBeJson(s)
    ensures ClassifyIntent(provider, call, decode, userMessage, intents) == FallbackIntent(userMessage)
  {
    var error := call(BuildRequest(provider.value, IntentPrompt(userMessage, intents), IntentSystemPrompt, 150, 0.3)).error;
    ErrorMessageIsNoJson(error);
  }

  /** Every error message opens with one of the two emoji, which no JSON text starts with. */
  lemma ErrorMessageIsNoJson(error: string)
    ensures !CouldBeJson(ErrorMessage(error))
  {
    var m := ErrorMessage(error);
    assert m[0] == CrossMark[0] || m[0] == WarningSign[0] by {
      match ClassifyError(error)
      case AuthenticationError =>
        assert m[0] == AuthenticationText[0] == CrossMark[0];
      case RateLimitError =>
        assert m[0] == RateLimitText[0] == WarningSign[0];
      case OtherError =>
        assert m[0] == (OtherErrorHead + error)[0] == CrossMark[0];
    }
    EmojiOpensNoJson(m);
  }

  /** Neither emoji is JSON whitespace or a character a JSON value can start with. */
  lemma EmojiOpensNoJson(s: string)
    requires |s| > 0 && (s[0] == CrossMark[0] || s[0] == WarningSign[0])
    ensures !CouldBeJson(s)
  {
    assert !JsonSpace(s[0]);
  }

  // ---------------------------------------------------------------------------------------------
  // Conversation summary

  /** `f"{msg['role']}: {msg['content']}"`. */
  function MessageLine(m: Message): string
  {
    m.role + ": " + m.content
  }

  /** `conv_text`: one line per message, joined with newlines, in conversation order. */
  function ConversationText(conversation: seq<Message>): string
  {
    Join(seq(|conversation|, k requires 0 <= k < |conversation| => MessageLine(conversation[k])), "\n")
  }

  /** When no role or content contains a newline, splitting the text on newlines gives back one
      "role: content" line per message, in order. */
  lemma ConversationTextLines(conversation: seq<Message>)
    requires |conversation| >= 1
    requires forall k :: 0 <= k < |conversation| ==>
      '\n' !in conversation[k].role && '\n' !in conversation[k].content
    ensures var lines := SplitOn(ConversationText(conversation), '\n');
      && |lines| == |conversation|
      && forall k :: 0 <= k < |conversation| ==>
           lines[k] == conversation[k].role + ": " + conversation[k].content
  {
    var parts := seq(|conversation|, k requires 0 <= k < |conversation| => MessageLine(conversation[k]));
    forall k | 0 <= k < |parts|
      ensures '\n' !in parts[k]
    {
      assert parts[k] == conversation[k].role + ": " + conversation[k].content;
    }
    SplitOnJoin(parts, '\n');
  }

  const SummarySystemPrompt: string :=
    "You are a customer service analyst. Create brief, professional summaries."

  function SummaryPrompt(conversation: seq<Message>): string
  {
    SummaryPromptHead + ConversationText(conversation) + "\n\nSummary:"
  }

  const SummaryPromptHead: string :=
    "Summarize this customer service conversation in 2-3 concise sentences for CRM notes:\n\n"

  /** `summarize_conversation`. */
  function SummarizeConversation(provider: Option<Provider>, call: Request -> CallOutcome,
                                 conversation: seq<Message>): (r: string)
    ensures !IsAvailable(provider) ==> r == NotConfiguredMessage
  {
    GenerateResponse(provider, call, SummaryPrompt(conversation), SummarySystemPrompt, 150, 0.5)
  }

  /** The summary request sends the conversation text, framed by the fixed instructions, as the
      user's message. */
  lemma SummaryRequestCarriesConversation(provider: Provider, conversation: seq<Message>)
    ensures var q := BuildRequest(provider, SummaryPrompt(conversation), SummarySystemPrompt, 150, 0.5);
      var text := q.messages[|q.messages| - 1].content;
      && q.messages[|q.messages| - 1].role == "user"
      && Contains(text, ConversationText(conversation))
  {
    var text := SummaryPrompt(conversation);
    var head := SummaryPromptHead;
    var c := ConversationText(conversation);
    assert OccursAt(text, c, |head|) by {
      assert text[|head|..|head| + |c|] == c;
    }
    ContainsIff(text, c);
  }
}
