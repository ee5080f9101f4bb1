/** The reply selection of `NeuraBrain.think` (src/src/bot_engine.py): a fixed
    precedence of ten rules over the cleaned text, its sentiment score, the
    recalled topic and the random draws, and the reply each rule produces.

    The random choices are inputs here (Draws), and so is the UTC clock reading
    `datetime.utcnow().strftime('%H:%M:%S')`. */
module BrainReply {
  import opened Text
  import opened Wrappers
  import opened BrainAnalysis

  /** The four personalities, with their `tone` and `prefix` entries. */
  datatype Persona = Mentor | Playful | Analyst | Empath {
    function Tone(): string {
      match this
      case Mentor => "calm and wise 🧘‍♂️"
      case Playful => "lighthearted and witty 😄"
      case Analyst => "sharp and logical 🔬"
      case Empath => "warm and caring 💖"
    }

    function Prefix(): string {
      match this
      case Mentor => "🌟 Here's a perspective — "
      case Playful => "😋 Haha, "
      case Analyst => "🧠 Logically speaking, "
      case Empath => "💬 I can feel that — "
    }
  }

  const Moods: seq<string> := ["💡 curious", "🔥 inspired", "😎 chill", "🤖 focused", "🌸 empathetic"]

  const Jokes: seq<string> := [
    "I told my neural net to relax... now it dreams in Python 😴🐍",
    "Parallel universes exist — in one, I’m probably a toaster 😂",
    "I tried debugging emotions... turns out they’re not defined 😅"
  ]

  /** A reply in the persona's voice: `f"{prefix}{body}"`. */
  function Voiced(p: Persona, body: string): (r: string)
    ensures p.Prefix() <= r
  {
    p.Prefix() + body
  }

  /** The four fallback replies of a persona. */
  function FallbackReplies(p: Persona): (rs: seq<string>)
    ensures |rs| == 4
    ensures forall r :: r in rs ==> p.Prefix() <= r
  {
    [ Voiced(p, "that’s intriguing... elaborate a bit more? 🤔"),
      Voiced(p, "you’ve got me thinking about that now 🧩"),
      Voiced(p, "hmm... let’s analyze that together 🔍"),
      Voiced(p, "energy received ⚡ tell me more details.") ]
  }

  /** `random.choice(fallback)` when the draw is `i`. */
  function FallbackAt(p: Persona, i: nat): (r: string)
    requires i < 4
    ensures r in FallbackReplies(p) && p.Prefix() <= r
  {
    FallbackReplies(p)[i]
  }

  /** The outcomes of the random calls of one turn: the `random.choice` indices
      for the mood, the joke and the fallback, and whether `random.random() > 0.7`. */
  datatype Draws = Draws(mood: nat, joke: nat, fallback: nat, aboveThreshold: bool)

  /** Every index is one `random.choice` can return. */
  predicate ValidDraws(d: Draws) {
    d.mood < |Moods| && d.joke < |Jokes| && d.fallback < 4
  }

  /** The rule of `think` that answers. */
  datatype Branch =
    | Greeting | Identity | Time | Joke | Upbeat | Downcast
    | Callback(topic: string) | Advice | Dream | Fallback

  /** `any(word in text for word in ["hi", "hello", "hey"])`. */
  predicate IsGreeting(text: string) {
    Contains(text, "hi") || Contains(text, "hello") || Contains(text, "hey")
  }

  /** The first rule that matches, in the order of `think`. `score` is the sentiment
      in hundredths; a Python string is true when it is not empty. */
  function Decide(text: string, score: int, recall: Option<string>, aboveThreshold: bool): (b: Branch)
    ensures b.Callback? ==> recall == Some(b.topic) && b.topic != [] && aboveThreshold
  {
    if IsGreeting(text) then Greeting
    else if Contains(text, "who are you") then Identity
    else if Contains(text, "time") then Time
    else if Contains(text, "joke") then Joke
    else if score > 50 then Upbeat
    else if score < -50 then Downcast
    else if recall.Some? && recall.value != [] && aboveThreshold then Callback(recall.value)
    else if Contains(text, "advice") then Advice
    else if Contains(text, "dream") then Dream
    else Fallback
  }

  // The reply templates, one per rule.

  function GreetingReply(p: Persona, mood: string): string {
    "Hey there 👋 I'm Neura v6 — " + p.Tone() + " and currently feeling " + mood + "."
  }

  function IdentityReply(): string {
    "I’m NeuraBrain v6 — your conscious-level AI that grows with your vibe ⚡"
  }

  function TimeReply(clock: string): string {
    "⏰ It’s currently " + clock + " UTC — time flies when we vibe."
  }

  /** The time reply quotes the clock reading. */
  lemma TimeReplyQuotesClock(clock: string)
    ensures Contains(TimeReply(clock), clock)
  {
    var head := "⏰ It’s currently ";
    assert OccursAt(TimeReply(clock), clock, |head|);
  }

  const UpbeatText := "that’s beautiful energy 🌈 Keep shining bright!"
  const DowncastText := "I can tell something’s off 💙 Want to talk about it?"
  const AdviceText := "progress thrives on patience 🌱 even small steps are momentum."
  const DreamText := "dreams are data from the soul ✨ Don’t be afraid to interpret them."

  function CallbackText(topic: string): string {
    "remember when you mentioned **" + topic + "** earlier? It still sounds fascinating 🔗"
  }

  /** The callback reply quotes the recalled topic. */
  lemma CallbackQuotesTopic(p: Persona, topic: string)
    ensures Contains(Voiced(p, CallbackText(topic)), topic)
  {
    var head := p.Prefix() + "remember when you mentioned **";
    assert OccursAt(Voiced(p, CallbackText(topic)), topic, |head|);
  }

  /** The reply string of a branch. */
  function Render(b: Branch, p: Persona, d: Draws, clock: string): string
    requires ValidDraws(d)
  {
    match b
    case Greeting => GreetingReply(p, Moods[d.mood])
    case Identity => IdentityReply()
    case Time => TimeReply(clock)
    case Joke => Jokes[d.joke]
    case Upbeat => Voiced(p, UpbeatText)
    case Downcast => Voiced(p, DowncastText)
    case Callback(topic) => Voiced(p, CallbackText(topic))
    case Advice => Voiced(p, AdviceText)
    case Dream => Voiced(p, DreamText)
    case Fallback => FallbackAt(p, d.fallback)
  }

  /** Every rule whose reply is written `f"{prefix}..."` (upbeat, empathetic,
      callback, advice, dream and the fallbacks) starts with the persona's prefix. */
  lemma VoicedRender(b: Branch, p: Persona, d: Draws, clock: string)
    requires ValidDraws(d)
    requires b.Upbeat? || b.Downcast? || b.Callback? || b.Advice? || b.Dream? || b.Fallback?
    ensures p.Prefix() <= Render(b, p, d, clock)
  {
    match b
    case Upbeat =>
    case Downcast =>
    case Callback(t) =>
    case Advice =>
    case Dream =>
    case Fallback =>
  }

  /** The reply of `think` for an already cleaned `text`. */
  function Reply(text: string, p: Persona, score: int, recall: Option<string>, d: Draws, clock: string): string
    requires ValidDraws(d)
  {
    Render(Decide(text, score, recall, d.aboveThreshold), p, d, clock)
  }

  // ---------------------------------------------------------------------------
  // Precedence

  /** A greeting keyword wins whatever the sentiment, the memory and the draw. */
  lemma GreetingWins(text: string, score: int, recall: Option<string>, above: bool)
    requires IsGreeting(text)
    ensures Decide(text, score, recall, above) == Greeting
  {
  }

  /** The greeting test is a substring test: any text containing a word that
      contains "hi" (this, which, think, nothing, ...) is answered with the greeting. */
  lemma GreetingInsideWords(text: string, word: string, score: int, recall: Option<string>, above: bool)
    requires Contains(word, "hi") && Contains(text, word)
    ensures Decide(text, score, recall, above) == Greeting
  {
    ContainsTransitive(text, word, "hi");
  }

  /** So "what time is this" never reaches the time rule: "this" contains "hi". */
  lemma TimeQuestionWithThis(score: int, recall: Option<string>, above: bool)
    ensures Decide("what time is this", score, recall, above) == Greeting
  {
    assert OccursAt("this", "hi", 1);
    assert OccursAt("what time is this", "this", 13);
    GreetingInsideWords("what time is this", "this", score, recall, above);
  }

  /** The identity, time and joke rules answer only when no earlier rule does. */
  lemma KeywordRules(text: string, score: int, recall: Option<string>, above: bool)
    ensures Decide(text, score, recall, above) == Identity <==>
      !IsGreeting(text) && Contains(text, "who are you")
    ensures Decide(text, score, recall, above) == Time <==>
      !IsGreeting(text) && !Contains(text, "who are you") && Contains(text, "time")
    ensures Decide(text, score, recall, above) == Joke <==>
      !IsGreeting(text) && !Contains(text, "who are you") && !Contains(text, "time") && Contains(text, "joke")
  {
  }

  /** None of the greeting, identity, time and joke rules applies. */
  predicate NoEarlyKeyword(text: string) {
    !IsGreeting(text) && !Contains(text, "who are you") && !Contains(text, "time") && !Contains(text, "joke")
  }

  /** With the score of `_emotion`, the tone rules are decided by the keyword counts:
      the positive reply needs more than three times as many positive keywords as
      negative ones, the empathetic one the reverse. */
  lemma SentimentRules(text: string, recall: Option<string>, above: bool)
    ensures Decide(text, Emotion(text), recall, above) == Upbeat <==>
      NoEarlyKeyword(text) && Positives(text) > 3 * Negatives(text)
    ensures Decide(text, Emotion(text), recall, above) == Downcast <==>
      NoEarlyKeyword(text) && Negatives(text) > 3 * Positives(text)
  {
    ToneRules(text, Emotion(text), recall, above);
    EmotionAboveHalf(text);
    EmotionBelowHalf(text);
  }

  /** The tone rules in terms of the score in hundredths. */
  lemma ToneRules(text: string, score: int, recall: Option<string>, above: bool)
    ensures Decide(text, score, recall, above) == Upbeat <==> NoEarlyKeyword(text) && score > 50
    ensures Decide(text, score, recall, above) == Downcast <==> NoEarlyKeyword(text) && score < -50
  {
  }

  /** A balanced or keyword-free text never gets a tone reply. */
  lemma NoToneWithoutImbalance(text: string, recall: Option<string>, above: bool)
    requires Positives(text) <= 3 * Negatives(text) && Negatives(text) <= 3 * Positives(text)
    ensures Decide(text, Emotion(text), recall, above) !in {Upbeat, Downcast}
  {
    SentimentRules(text, recall, above);
  }

  /** The memory callback answers exactly when no earlier rule does, a topic is
      recalled and the draw exceeds 0.7. */
  lemma CallbackRule(text: string, score: int, recall: Option<string>, above: bool)
    ensures Decide(text, score, recall, above).Callback? <==>
      NoEarlyKeyword(text) && -50 <= score <= 50 && recall.Some? && recall.value != [] && above
  {
  }

  /** The advice and dream rules, and the fallback when nothing matches. */
  lemma LateRules(text: string, score: int, recall: Option<string>, above: bool)
    ensures Decide(text, score, recall, above) == Advice <==>
      NoEarlyKeyword(text) && -50 <= score <= 50 && !(recall.Some? && recall.value != [] && above)
      && Contains(text, "advice")
    ensures Decide(text, score, recall, above) == Dream <==>
      NoEarlyKeyword(text) && -50 <= score <= 50 && !(recall.Some? && recall.value != [] && above)
      && !Contains(text, "advice") && Contains(text, "dream")
    ensures Decide(text, score, recall, above) == Fallback <==>
      NoEarlyKeyword(text) && -50 <= score <= 50 && !(recall.Some? && recall.value != [] && above)
      && !Contains(text, "advice") && !Contains(text, "dream")
  {
  }

  /** When no rule matches the reply is the drawn one of the persona's four fallback
      prompts (which FallbackAt shows all start with the persona's prefix). */
  lemma FallbackReply(text: string, p: Persona, score: int, recall: Option<string>, d: Draws, clock: string)
    requires ValidDraws(d)
    requires Decide(text, score, recall, d.aboveThreshold) == Fallback
    ensures Reply(text, p, score, recall, d, clock) == FallbackAt(p, d.fallback)
  {
    RenderFallback(p, d, clock);
  }

  lemma RenderFallback(p: Persona, d: Draws, clock: string)
    requires ValidDraws(d)
    ensures Render(Fallback, p, d, clock) == FallbackAt(p, d.fallback)
  {
  }
}
