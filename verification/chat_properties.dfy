/**
 * What the chat endpoint promises: when it refuses a request, when it
 * answers on the system's behalf, and which keyword reply the fallback
 * responder picks.
 */
module ChatProperties {
  import opened Wrappers
  import opened Text
  import opened Chat

  /** The first match is the only position that is a first match. */
  lemma FirstMatchUnique(pairs: seq<(string, string)>, text: string, i: nat)
    requires IsFirstMatch(pairs, text, i)
    ensures FirstMatch(pairs, text) == Some(i)
  {
  }

  /** The responder answers with the reply of keyword `i` exactly when `i` is
      the first keyword, in listed order, contained in the lowered message. */
  lemma KeywordReplyIsFirstKeyword(message: string, i: nat)
    requires i < |Responses|
    ensures SimpleChatResponse(message) == KeywordReply(Responses[i].1) <== IsFirstMatch(Responses, Lower(message), i)
    ensures FirstMatch(Responses, Lower(message)) == Some(i) <==> IsFirstMatch(Responses, Lower(message), i)
  {
    if IsFirstMatch(Responses, Lower(message), i) {
      FirstMatchUnique(Responses, Lower(message), i);
    }
  }

  /** The responder falls back to a stock apology exactly when no keyword is
      contained in the lowered message. */
  lemma DefaultReplyIff(message: string)
    ensures SimpleChatResponse(message) == DefaultReply <==>
      forall i :: 0 <= i < |Responses| ==> !Contains(Lower(message), Responses[i].0)
  {
  }

  /** Every keyword reply is the reply listed for some keyword. */
  lemma KeywordReplyIsListed(message: string)
    ensures SimpleChatResponse(message).KeywordReply? ==>
      exists i :: 0 <= i < |Responses| && Responses[i].1 == SimpleChatResponse(message).text
  {
  }

  /** The keywords are written without capitals. */
  lemma KeywordsLowercase()
    ensures forall i :: 0 <= i < |Responses| ==> NoUpper(Responses[i].0)
  {
  }

  /** The responder ignores ASCII case: a message and its lowered form get
      the same answer. */
  lemma IgnoresCase(message: string)
    ensures SimpleChatResponse(Lower(message)) == SimpleChatResponse(message)
  {
    LowerIdempotent(message);
  }

  /** A message that contains a keyword as written gets a keyword reply,
      whatever the case of the rest of the message. */
  lemma KeywordInMessageAnswered(message: string, i: nat)
    requires i < |Responses| && Contains(message, Responses[i].0)
    ensures SimpleChatResponse(message).KeywordReply?
  {
    KeywordsLowercase();
    ContainsSurvivesLower(message, Responses[i].0);
  }

  /** The endpoint refuses with 400 exactly when the stripped message is
      empty and the action is not "clear". */
  lemma MessageRequiredIff(message: string, action: string, assistant: Option<string>)
    ensures ChatReply(message, action, assistant) == MessageRequired <==>
      Strip(message) == [] && action != "clear"
    ensures ChatStatus(ChatReply(message, action, assistant)) == 400 <==>
      Strip(message) == [] && action != "clear"
  {
  }

  /** The "clear" action always gets the system's greeting, with or without
      a message. */
  lemma ClearAlwaysGreets(message: string, assistant: Option<string>)
    ensures ChatReply(message, "clear", assistant)
      == SystemReply("How can I help you with your house planning needs today?")
  {
  }

  /** A message with any other action reaches the language model when it
      answers, and the keyword responder, on the stripped message, when it does not. */
  lemma AnsweredMessage(message: string, action: string, assistant: Option<string>)
    requires Strip(message) != [] && action != "clear"
    ensures assistant.Some? ==> ChatReply(message, action, assistant) == AssistantReply(assistant.value)
    ensures assistant.None? ==> ChatReply(message, action, assistant) == Fallback(SimpleChatResponse(Strip(message)))
  {
  }

  /** Whitespace around a message changes nothing: the endpoint answers as it
      answers the stripped message. */
  lemma SurroundingWhitespaceIgnored(message: string, action: string, assistant: Option<string>)
    ensures ChatReply(Strip(message), action, assistant) == ChatReply(message, action, assistant)
  {
    StripIdempotent(message);
  }

  lemma LowerWhichPlan()
    ensures Lower("Which plan?") == "which plan?"
  {
  }

  /** A message that lowers to "which plan?" gets the reply of "hi", the
      second keyword, which occurs inside "which". */
  lemma WhichPlanMatchesHi(message: string)
    requires Lower(message) == "which plan?"
    ensures SimpleChatResponse(message) == KeywordReply(Responses[1].1)
  {
    HiBeforeHello();
    KeywordReplyIsFirstKeyword(message, 1);
  }

  /** "which plan?" holds "hi" but not "hello". */
  lemma HiBeforeHello()
    ensures !Contains("which plan?", "hello") && Contains("which plan?", "hi")
  {
    MissingCharNotContained("which plan?", "hello", 'e');
    assert OccursAt("which plan?", "hi", 1);
    ContainsIffOccurs("which plan?", "hi");
  }

  /** "Which plan?" gets the greeting of "hi", not the plans reply: "hi" is
      tried before "plan" and occurs inside "which". */
  lemma WhichPlanExample()
    ensures SimpleChatResponse("Which plan?")
      == KeywordReply("Hi there! Welcome to NIVASA AI. How can I assist you?")
  {
    LowerWhichPlan();
    WhichPlanMatchesHi("Which plan?");
  }

  /** Text without 'h', 'p', 'b' or 't' holds none of the keywords listed
      before "clear". */
  lemma NoKeywordBeforeClear(text: string)
    requires 'h' !in text && 'p' !in text && 'b' !in text && 't' !in text
    ensures forall j :: 0 <= j < 7 ==> !Contains(text, Responses[j].0)
  {
    MissingCharNotContained(text, "hello", 'h');
    MissingCharNotContained(text, "hi", 'h');
    MissingCharNotContained(text, "help", 'h');
    MissingCharNotContained(text, "plan", 'p');
    MissingCharNotContained(text, "bhk", 'b');
    MissingCharNotContained(text, "thank", 't');
    MissingCharNotContained(text, "bye", 'b');
  }

  lemma LowerClear()
    ensures Lower("clear") == "clear"
  {
  }

  /** A message that lowers to "clear" gets the reply of "clear", the last
      keyword, since it holds none of the keywords before it. */
  lemma ClearMatchesClear(message: string)
    requires Lower(message) == "clear"
    ensures SimpleChatResponse(message) == KeywordReply(Responses[7].1)
  {
    NoKeywordBeforeClear("clear");
    assert OccursAt("clear", "clear", 0);
    ContainsIffOccurs("clear", "clear");
    KeywordReplyIsFirstKeyword(message, 7);
  }

  /** A plain "clear" message, sent without the clear action, is answered by
      the keyword responder's own "clear" reply. */
  lemma ClearMessageExample(message: string, action: string)
    requires Strip(message) == "clear" && action != "clear"
    ensures ChatReply(message, action, None)
      == Fallback(KeywordReply("Conversation cleared. How can I help you with your house planning needs today?"))
  {
    AnsweredMessage(message, action, None);
    LowerClear();
    ClearMatchesClear(Strip(message));
  }

  lemma LowerGoodMorning()
    ensures Lower("Good morning") == "good morning"
  {
  }

  /** "Good morning" contains no keyword and gets a stock apology. */
  lemma NoKeywordExample()
    ensures SimpleChatResponse("Good morning") == DefaultReply
  {
    LowerGoodMorning();
    NoKeywordBeforeClear("good morning");
    MissingCharNotContained("good morning", "clear", 'c');
    DefaultReplyIff("Good morning");
  }
}
