/** `NeuraAIEngine` (bot_engine.py): an offline keyword responder and a formatter
    for the last turns of a conversation. Its settings come from `clients.json`;
    here they are given as optional values, the way `cfg.get` sees them. */
module Engine {
  import opened Text
  import opened Wrappers

  const DefaultFallbacks: seq<string> := [
    "I'm offline right now — I can still help with general guidance.",
    "Offline: try breaking the task into smaller steps and asking me for each step.",
    "Hi — I'm Neura-AI (offline). How can I help?"
  ]

  const DefaultMemory: int := 12

  const GreetingReply: string := "Hi — I'm Neura-AI (offline). How can I help?"
  const CryptoReply: string := "Offline crypto tip: check volume and market cap. For live prices use an exchange API."
  const WeatherReply: string := "Offline weather info: I cannot access live data now. Try local weather apps."
  const ClarifyReply: string := "Could you give me a bit more detail?"
  const NoHistoryReply: string := "No conversation history."

  /** `random.choice` on an empty list raises IndexError. */
  datatype ChoiceError = EmptyFallbacks

  /** A history item: the dict's "role" and "content" entries, absent or present. */
  datatype Turn = Turn(role: Option<string>, content: Option<string>)

  /** `any(w in t for w in ["hello", "hi", "hey"])`. */
  predicate HasGreeting(t: string) {
    Contains(t, "hello") || Contains(t, "hi") || Contains(t, "hey")
  }

  /** No keyword rule applies to `t`, so only its length and the fallbacks decide. */
  predicate NoKeyword(t: string) {
    !HasGreeting(t) && !Contains(t, "crypto") && !Contains(t, "weather")
  }

  /** `history[-n:]` with Python's slice rules: a negative start counts from the end
      and is clipped at 0, a non-negative one is clipped at the length. So `n > 0`
      keeps the last n items, `n == 0` keeps everything (`-0` is `0`), and `n < 0`
      drops the first `-n` items. */
  function Window(history: seq<Turn>, n: int): (w: seq<Turn>)
    ensures |w| <= |history| && w == history[|history| - |w|..]
    ensures n > 0 ==> |w| == if n < |history| then n else |history|
    ensures n == 0 ==> w == history
    ensures n < 0 ==> |w| == if -n < |history| then |history| + n else 0
  {
    var start := -n;
    var from := if start < 0 then (if |history| + start < 0 then 0 else |history| + start)
                else (if start > |history| then |history| else start);
    history[from..]
  }

  /** `f"{role}: {content}"` with `item.get("role", "user")` and `item.get("content", "")`. */
  function Entry(t: Turn): string {
    t.role.GetOr("user") + ": " + t.content.GetOr("")
  }

  function Entries(ts: seq<Turn>): (es: seq<string>)
    ensures |es| == |ts| && forall i :: 0 <= i < |ts| ==> es[i] == Entry(ts[i])
  {
    seq(|ts|, i requires 0 <= i < |ts| => Entry(ts[i]))
  }

  /** What `summarize_history` returns for a history and `default_memory` n. */
  function Summary(history: seq<Turn>, n: int): string {
    if history == [] then NoHistoryReply else Join(Entries(Window(history, n)), "\n")
  }

  datatype NeuraAIEngine = NeuraAIEngine(fallbacks: seq<string>, defaultMemory: int) {

    /** `get_response(text)`; `pick` is the index `random.choice` draws when the
        fallback list is used. */
    function GetResponse(text: Option<string>, pick: nat): (r: Result<string, ChoiceError>)
      requires fallbacks != [] ==> pick < |fallbacks|
      ensures r.Failure? <==> fallbacks == [] && NoKeyword(Lower(text.GetOr(""))) && |Strip(Lower(text.GetOr("")))| >= 3
      ensures r.Success? ==> r.value in [GreetingReply, CryptoReply, WeatherReply, ClarifyReply] || r.value in fallbacks
    {
      var t := Lower(text.GetOr(""));
      if HasGreeting(t) then Success(GreetingReply)
      else if Contains(t, "crypto") then Success(CryptoReply)
      else if Contains(t, "weather") then Success(WeatherReply)
      else if |Strip(t)| < 3 then Success(ClarifyReply)
      else if fallbacks == [] then Failure(EmptyFallbacks)
      else Success(fallbacks[pick])
    }

    /** `summarize_history(history)`. */
    method SummarizeHistory(history: seq<Turn>) returns (s: string)
      ensures s == Summary(history, defaultMemory)
      ensures history == [] ==> s == NoHistoryReply
    {
      if history == [] {
        return NoHistoryReply;
      }
      var window := Window(history, defaultMemory);
      var summary: seq<string> := [];
      for i := 0 to |window|
        invariant |summary| == i
        invariant forall j :: 0 <= j < i ==> summary[j] == Entry(window[j])
      {
        var item := window[i];
        var role := item.role.GetOr("user");
        var content := item.content.GetOr("");
        summary := summary + [role + ": " + content];
      }
      assert summary == Entries(window);
      s := Join(summary, "\n");
    }
  }

  /** `__init__`: the settings read from the configuration, or the built-in defaults
      when the file or the key is missing. */
  function FromConfig(configFallbacks: Option<seq<string>>, configDefaultMemory: Option<int>): (e: NeuraAIEngine)
    ensures configFallbacks.None? ==> e.fallbacks == DefaultFallbacks && |e.fallbacks| == 3
    ensures configFallbacks.Some? ==> e.fallbacks == configFallbacks.value
    ensures configDefaultMemory.None? ==> e.defaultMemory == 12
    ensures configDefaultMemory.Some? ==> e.defaultMemory == configDefaultMemory.value
  {
    NeuraAIEngine(configFallbacks.GetOr(DefaultFallbacks), configDefaultMemory.GetOr(DefaultMemory))
  }

  // ---------------------------------------------------------------------------
  // get_response

  /** A greeting keyword, in any letter case, wins over every other rule. */
  lemma GreetingFirst(e: NeuraAIEngine, text: Option<string>, pick: nat)
    requires e.fallbacks != [] ==> pick < |e.fallbacks|
    requires HasGreeting(Lower(text.GetOr("")))
    ensures e.GetResponse(text, pick) == Success(GreetingReply)
  {
  }

  /** "hi" is shorter than 3 characters and still gets the greeting. */
  lemma ShortGreeting(e: NeuraAIEngine, pick: nat)
    requires e.fallbacks != [] ==> pick < |e.fallbacks|
    ensures |Strip("hi")| < 3
    ensures e.GetResponse(Some("hi"), pick) == Success(GreetingReply)
  {
    assert Lower("hi") == "hi";
    assert OccursAt("hi", "hi", 0);
  }

  /** "crypto" is tested before "weather". */
  lemma CryptoBeforeWeather(e: NeuraAIEngine, text: Option<string>, pick: nat)
    requires e.fallbacks != [] ==> pick < |e.fallbacks|
    requires !HasGreeting(Lower(text.GetOr(""))) && Contains(Lower(text.GetOr("")), "crypto")
    ensures e.GetResponse(text, pick) == Success(CryptoReply)
  {
  }

  /** Without a greeting and without "crypto", a "weather" anywhere in the input, in
      any letter case, gives the weather reply. */
  lemma WeatherRule(e: NeuraAIEngine, text: Option<string>, pick: nat)
    requires e.fallbacks != [] ==> pick < |e.fallbacks|
    requires !HasGreeting(Lower(text.GetOr(""))) && !Contains(Lower(text.GetOr("")), "crypto")
    requires Contains(Lower(text.GetOr("")), "weather")
    ensures e.GetResponse(text, pick) == Success(WeatherReply)
  {
  }

  /** Without a keyword, fewer than 3 characters after stripping ask for more detail;
      otherwise the reply is the drawn fallback, or an IndexError when there is none. */
  lemma KeywordlessInput(e: NeuraAIEngine, text: Option<string>, pick: nat)
    requires e.fallbacks != [] ==> pick < |e.fallbacks|
    requires NoKeyword(Lower(text.GetOr("")))
    ensures |Strip(Lower(text.GetOr("")))| < 3 ==> e.GetResponse(text, pick) == Success(ClarifyReply)
    ensures |Strip(Lower(text.GetOr("")))| >= 3 && e.fallbacks != [] ==> e.GetResponse(text, pick) == Success(e.fallbacks[pick])
    ensures |Strip(Lower(text.GetOr("")))| >= 3 && e.fallbacks == [] ==> e.GetResponse(text, pick) == Failure(EmptyFallbacks)
  {
  }

  /** None is read as the empty string, which asks for more detail. */
  lemma NoneIsEmpty(e: NeuraAIEngine, pick: nat)
    requires e.fallbacks != [] ==> pick < |e.fallbacks|
    ensures e.GetResponse(None, pick) == e.GetResponse(Some(""), pick) == Success(ClarifyReply)
  {
    assert Lower("") == "";
    assert !HasGreeting("") && !Contains("", "crypto") && !Contains("", "weather");
  }

  /** The input is lower-cased before matching, so the letter case of the input never
      changes the reply. */
  lemma CaseInsensitive(e: NeuraAIEngine, s: string, pick: nat)
    requires e.fallbacks != [] ==> pick < |e.fallbacks|
    ensures e.GetResponse(Some(s), pick) == e.GetResponse(Some(Lower(s)), pick)
  {
    LowerIdempotent(s);
  }

  // ---------------------------------------------------------------------------
  // summarize_history

  /** A non-empty history gives one "role: content" line per item of the window, in
      the original order, and with a positive `default_memory` n at most n of them:
      the last n items. */
  lemma SummaryLines(history: seq<Turn>, n: int)
    requires history != []
    ensures Summary(history, n) == Join(Entries(Window(history, n)), "\n")
    ensures n > 0 ==> |Entries(Window(history, n))| <= n
    ensures forall i :: 0 <= i < |Window(history, n)| ==>
      Entries(Window(history, n))[i] == Entry(history[|history| - |Window(history, n)| + i])
  {
  }
}
