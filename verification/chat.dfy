/**
 * The chat endpoint: its input gate, and the keyword responder it falls back
 * on when no language model answers.
 */
module Chat {
  import opened Wrappers
  import opened Text

  /** The fallback replies as (keyword, reply) pairs, in the order the
      responder tries them. */
  const Responses: seq<(string, string)> := [
    ("hello", "Hello! How can I help you with your house planning needs today?"),
    ("hi", "Hi there! Welcome to NIVASA AI. How can I assist you?"),
    ("help", "I can help you with questions about our house plans for 1, 2, and 3 BHKs."),
    ("plan", "We offer house plans for 1, 2, and 3 BHK configurations. What are you looking for?"),
    ("bhk", "We have plans for 1 BHK (400-1748 sq ft), 2 BHK (500-1500 sq ft), and 3 BHK (900-1800 sq ft)."),
    ("thank", "You're welcome! Is there anything else I can help you with?"),
    ("bye", "Goodbye! Feel free to come back if you have more questions."),
    ("clear", "Conversation cleared. How can I help you with your house planning needs today?")
  ]

  /** The system's reply to a request that clears the conversation. */
  const ClearGreeting: string := "How can I help you with your house planning needs today?"

  /** The action that clears the conversation. */
  const ClearAction: string := "clear"

  /** What the keyword responder answers: the reply of a keyword, or one of
      its stock apologies (which one is chosen at random and is not modelled). */
  datatype SimpleReply = KeywordReply(text: string) | DefaultReply

  /** What the chat endpoint answers. */
  datatype ChatOutcome =
    | MessageRequired             // 400: empty message and no clear action
    | SystemReply(text: string)   // the conversation was cleared
    | AssistantReply(text: string) // the language model's answer
    | Fallback(reply: SimpleReply) // the keyword responder's answer

  function ChatStatus(o: ChatOutcome): int
  {
    if o.MessageRequired? then 400 else 200
  }

  /** True when the keyword of `pairs[i]` occurs in `text` and no keyword
      before it does. */
  predicate IsFirstMatch(pairs: seq<(string, string)>, text: string, i: nat)
  {
    && i < |pairs|
    && Contains(text, pairs[i].0)
    && forall j :: 0 <= j < i ==> !Contains(text, pairs[j].0)
  }

  /** The position of the first pair whose keyword occurs in `text`, if any. */
  function FirstMatch(pairs: seq<(string, string)>, text: string): (r: Option<nat>)
    ensures r.Some? ==> IsFirstMatch(pairs, text, r.value)
    ensures r.None? ==> forall j :: 0 <= j < |pairs| ==> !Contains(text, pairs[j].0)
    decreases |pairs|
  {
    if |pairs| == 0 then None
    else if Contains(text, pairs[0].0) then Some(0)
    else
      match FirstMatch(pairs[1..], text)
      case None => None
      case Some(i) => Some(i + 1)
  }

  /** The keyword responder: the reply of the first keyword contained in the
      lowered message, otherwise a stock apology. */
  function SimpleChatResponse(message: string): (r: SimpleReply)
    ensures r.KeywordReply? <==>
      exists i :: 0 <= i < |Responses| && Contains(Lower(message), Responses[i].0)
  {
    match FirstMatch(Responses, Lower(message))
    case Some(i) => KeywordReply(Responses[i].1)
    case None => DefaultReply
  }

  /** The chat endpoint. `message` is the request's message ("" when absent)
      and `action` its action; `assistant` is the language model's answer,
      `None` when no model is configured or its call failed. */
  function ChatReply(message: string, action: string, assistant: Option<string>): (o: ChatOutcome)
  {
    var m := Strip(message);
    if m == [] && action != ClearAction then MessageRequired
    else if action == ClearAction then SystemReply(ClearGreeting)
    else
      match assistant
      case Some(text) => AssistantReply(text)
      case None => Fallback(SimpleChatResponse(m))
  }
}
