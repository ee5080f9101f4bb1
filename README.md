# Neura-AI reply engines, modelled in Dafny

Neura-AI is a small chat bot with two offline reply engines. This project models both of them and proves properties about them.

- **`NeuraBrain`** (`src/src/bot_engine.py`) is the conversational core. It has a randomly chosen persona (mentor, playful, analyst or empath) and a session id. It also keeps a word-frequency memory of the session. Each call of `think` does the following, in order:
  1. Cleans the input: lower-case, strip, then drop everything except letters, digits, whitespace and `'`.
  2. Adds every word longer than 4 characters to the memory.
  3. Scores the sentiment of the cleaned text.
  4. Recalls the most frequent remembered word.
  5. Answers with the first of ten rules that matches: greeting, identity, time, joke, upbeat, empathetic, callback to the recalled topic, advice, dream, fallback.
- **`NeuraAIEngine`** (`bot_engine.py`) has two operations:
  - `get_response` is a keyword responder with a configurable fallback list.
  - `summarize_history` formats the last `default_memory` turns of a conversation.

Modules:

| module | file | content |
|---|---|---|
| `Wrappers` | `wrappers.dfy` | `Option`, `Result` |
| `Text` | `text.dfy` | the Python `str` operations used: `isspace`, `lower`, `strip`, `in`, `split()`, `join` |
| `BrainAnalysis` | `brain_analysis.dfy` | `_clean` and `_emotion` |
| `BrainMemory` | `brain_memory.dfy` | `_memorize` and `_recall` as functions on a map plus its key order |
| `BrainReply` | `brain_reply.dfy` | the decision table of `think` and its reply templates |
| `Brain` | `brain.dfy` | the `NeuraBrain` class: memory fields, the `_memorize` loop, `think` |
| `Engine` | `engine.dfy` | `NeuraAIEngine` |

Modelling decisions:

- **Randomness is an input.**
  - `random.choice` becomes an index: the mood, joke and fallback indices in `BrainReply.Draws`, and `pick` in `GetResponse`.
  - `random.random() > 0.7` becomes the boolean `Draws.aboveThreshold`.
  - The personality drawn by `__init__` is a constructor argument.
- **Time is an input.** The UTC clock reading (`%H:%M:%S`) is a string parameter of `Think`. The `time.time()`-based session id is a constructor argument.
- **Key order is kept.** A Python dict remembers insertion order, and `max` returns the first maximal key in that order. So the memory is a `map<string, nat>` together with an `order: seq<string>` of its keys. `MostFrequent` resolves ties exactly as `max(self.memory, key=self.memory.get)` does.
- **Scores are whole hundredths.**
  - `round((pos - neg) / (pos + neg), 2)` is the integer `Score(pos, neg)`.
  - `emotion_score > 0.5` becomes `score > 50`.
  - `NoRoundingTie` proves that no exact half-hundredth arises for the counts that can occur (0 to 6 keywords each). `ScoreNearest` uses it to prove that `Score` is strictly within half a hundredth of the exact ratio. So `Score` is the nearest hundredth, which Python's round-half-even and the model's round-half-up both give.
- **Source behaviour the model keeps, even where it looks unintended:**
  - `get_response` raises `IndexError` when the configured fallback list is empty. This is `Failure(EmptyFallbacks)`.
  - An empty message to `think` gets no clarification prompt. It goes through the same rules as any text: it is answered by the callback when a topic is remembered and the draw exceeds 0.7, otherwise by the fallback.
  - Greeting detection is a substring test, so "this", "which" or "think" count as greetings. `TimeQuestionWithThis` shows that "what time is this" is greeted rather than told the time.

## Model

| member | source | states |
|---|---|---|
| Text.IsSpace | src/src/bot_engine.py:48 | the whitespace set of `str.isspace()` and of `\s` in a `str` pattern: \t to \r, \x1c to \x1f, the space, U+0085, U+00A0, U+1680, U+2000 to U+200A, U+2028, U+2029, U+202F, U+205F and U+3000 |
| Text.LowerChar | src/src/bot_engine.py:48 | `lower()` on one character: an ASCII capital becomes its small letter (code + 32), every other character is kept, and no capital remains |
| Text.Lower | src/src/bot_engine.py:48 | `lower()` keeps the length, maps each ASCII capital to its small letter and every other character to itself, and leaves no capital |
| Text.LowerIdempotent | bot_engine.py:26 | lower-casing twice is lower-casing once |
| Text.StripLeft | src/src/bot_engine.py:48 | `lstrip()`: the result is a suffix, everything removed is whitespace, and it does not start with whitespace |
| Text.StripRight | src/src/bot_engine.py:48 | `rstrip()`: the result is a prefix, everything removed is whitespace, and it does not end with whitespace |
| Text.Strip | src/src/bot_engine.py:48 | `strip()`: the result occurs in the input with only whitespace around it, and neither end is whitespace |
| Text.StripTrimmed | src/src/bot_engine.py:48 | stripping text that neither starts nor ends with whitespace changes nothing |
| Text.Contains | src/src/bot_engine.py:54-55 | `w in s` holds exactly when `w` occurs in `s` at some index |
| Text.ContainsTransitive | src/src/bot_engine.py:90 | a substring of a substring is a substring |
| Text.AbsentChar | src/src/bot_engine.py:54-55 | text lacking a character of `w` does not contain `w` |
| Text.WordLength | src/src/bot_engine.py:62 | the length of the leading run of non-whitespace, ended by whitespace or the end of the text |
| Text.Words | src/src/bot_engine.py:62 | `text.split()`: the maximal runs of non-whitespace in order; WordsAreRuns, WordsOfSpace, WordsOfWord and WordsOfWordThen state its contract |
| Text.WordsAreRuns | src/src/bot_engine.py:62 | every item of `split()` is non-empty and holds no whitespace |
| Text.WordsOfWord | src/src/bot_engine.py:62 | a single word splits into itself |
| Text.WordsOfWordThen | src/src/bot_engine.py:62 | a word followed by a whitespace character splits off as the first item, and the rest splits as before |
| Text.StripLeftSpace | src/src/bot_engine.py:62 | whitespace in front of a text is removed by `lstrip()` whatever follows |
| Text.WordsOfSpace | src/src/bot_engine.py:62 | `split()` skips leading whitespace, and text made only of whitespace (or empty) has no words |
| Text.Join | bot_engine.py:52 | joining no parts gives the empty string, and joining one part gives that part |
| Text.JoinSnoc | bot_engine.py:47-52 | appending a part to a non-empty list adds the separator and then that part at the end of the joined text |
| BrainAnalysis.KeepAllowed | src/src/bot_engine.py:48 | the regex substitution keeps a subsequence of the input. Every kept character is in the class `[a-zA-Z0-9\s']`, and each such character keeps all its occurrences |
| BrainAnalysis.IsKept | src/src/bot_engine.py:48 | the regex class `[a-zA-Z0-9\s']`: ASCII letters of both cases, digits, whitespace and the apostrophe |
| BrainAnalysis.Clean | src/src/bot_engine.py:47-48 | `_clean` is a subsequence of the stripped lower-cased text, keeps every allowed character of it, and yields only small letters, digits, whitespace and `'` |
| BrainAnalysis.StripOfLower | src/src/bot_engine.py:48 | `text.lower().strip()` holds no ASCII capital letter |
| BrainAnalysis.CleanFixedPoint | src/src/bot_engine.py:47-48 | text already made of clean characters, with no whitespace at either end, is its own `_clean` |
| BrainAnalysis.KeepAllowedOfLower | src/src/bot_engine.py:48 | after lower-casing, the substitution leaves only clean characters |
| BrainAnalysis.KeepAllowedKept | src/src/bot_engine.py:48 | the substitution leaves text made of allowed characters unchanged |
| BrainAnalysis.CountPresent | src/src/bot_engine.py:54-55 | `sum(w in text for w in keywords)` is at most the number of keywords. It is 0 exactly when no keyword occurs, and the maximum exactly when all occur |
| BrainAnalysis.CountPresentFrom | src/src/bot_engine.py:54-55 | from any position on, the sum counts exactly the positions whose keyword occurs in the text |
| BrainAnalysis.CountPresentIsCount | src/src/bot_engine.py:54-55 | `sum(w in text for w in keywords)` equals the number of positions of the list whose keyword occurs in the text |
| BrainAnalysis.Positives | src/src/bot_engine.py:52-54 | at most 6 positive keywords are present |
| BrainAnalysis.Negatives | src/src/bot_engine.py:53-55 | at most 6 negative keywords are present |
| BrainAnalysis.Score | src/src/bot_engine.py:56-58 | `round((pos - neg) / (pos + neg), 2)` in hundredths is always within [-100, 100]; ScoreFacts states when it is 0, ±100 or beyond ±50 |
| BrainAnalysis.NoRoundingTie | src/src/bot_engine.py:58 | for counts up to 6, `100 * (pos - neg) / (pos + neg)` is never an exact half, so the rounding mode does not matter |
| BrainAnalysis.ScoreNearest | src/src/bot_engine.py:58 | for counts up to 6, `Score` is strictly within half a hundredth of 100 * (pos - neg) / (pos + neg), so it is the value `round(..., 2)` gives in hundredths under any tie rule |
| BrainAnalysis.ScoreFacts | src/src/bot_engine.py:56-58 | the score lies in [-100, 100]. It is 0 iff the counts are equal, 100 iff only positives occur, -100 iff only negatives occur, above 50 iff `pos > 3 * neg`, and below -50 iff `neg > 3 * pos` |
| BrainAnalysis.Emotion | src/src/bot_engine.py:50-58 | `_emotion` is in [-100, 100] hundredths and is 0 without keywords. It is 100 exactly when only positive keywords occur, and -100 exactly when only negative ones do |
| BrainAnalysis.EmotionAboveHalf | src/src/bot_engine.py:58 | `_emotion(text) > 0.5` iff more than three times as many positive as negative keywords occur |
| BrainAnalysis.EmotionBelowHalf | src/src/bot_engine.py:58 | `_emotion(text) < -0.5` iff more than three times as many negative as positive keywords occur |
| BrainAnalysis.EmotionOfEmpty | src/src/bot_engine.py:56-57 | the empty text scores 0 |
| BrainAnalysis.EmotionOfSadHate | src/src/bot_engine.py:50-58 | "sad hate" scores -1.0 |
| BrainAnalysis.NoPositiveWithout | src/src/bot_engine.py:52-54 | text missing one letter of each positive keyword has no positive keyword |
| BrainMemory.Get | src/src/bot_engine.py:64 | `memory.get(w, 0)`: the stored count, or 0 for a word not in the memory |
| BrainMemory.KeepLong | src/src/bot_engine.py:62 | the filter `len(w) > 4` keeps only words longer than 4 characters |
| BrainMemory.KeepLongSubsequence | src/src/bot_engine.py:62 | the kept words are a subsequence of the input: some words deleted, the rest in their original order |
| BrainMemory.KeepLongCounts | src/src/bot_engine.py:62 | the filter keeps every occurrence of each long word and no occurrence of a short one |
| BrainMemory.LongWords | src/src/bot_engine.py:62 | every word `_memorize` counts is longer than 4 characters |
| BrainMemory.AddWord | src/src/bot_engine.py:64 | `memory[w] = memory.get(w, 0) + 1` raises the count of `w` by 1, adds `w` to the keys and leaves every other count unchanged |
| BrainMemory.Tally | src/src/bot_engine.py:63-64 | the counts after the first `n` loop iterations; no key is lost |
| BrainMemory.Arrivals | src/src/bot_engine.py:63-64 | the dict's insertion order after the first `n` iterations: the old order stays a prefix and at most one key is added per word |
| BrainMemory.Memorized | src/src/bot_engine.py:60-64 | the counts after `_memorize(text)`; every old key is kept |
| BrainMemory.MemorizedOrder | src/src/bot_engine.py:60-64 | the insertion order after `_memorize(text)`; the old order stays a prefix |
| BrainMemory.TallyCounts | src/src/bot_engine.py:63-64 | after the first `n` words, each count has grown by the word's number of occurrences among them, and the keys are the old ones plus those words |
| BrainMemory.AddWordWellFormed | src/src/bot_engine.py:64 | one dict increment keeps the memory well formed: distinct ordered keys, and counts of at least 1 for words longer than 4 characters |
| BrainMemory.MemorizeStep | src/src/bot_engine.py:63-64 | one more loop iteration is one more word of the tally and of the key order |
| BrainMemory.TallyWellFormed | src/src/bot_engine.py:63-64 | tallying long words keeps the memory well formed, and existing keys keep their place in the order |
| BrainMemory.MemorizeCounts | src/src/bot_engine.py:60-64 | `_memorize(text)` raises each word's count by its number of occurrences in `text.split()` when it is longer than 4 characters. All other counts are unchanged |
| BrainMemory.MemorizeKeys | src/src/bot_engine.py:60-64 | after `_memorize(text)` the keys are the old keys plus the long words of the text |
| BrainMemory.MemoryGrows | src/src/bot_engine.py:60-64 | memorising never removes a key and never lowers a count |
| BrainMemory.IndexOf | src/src/bot_engine.py:70 | the position of the first occurrence of an item |
| BrainMemory.IndexOfIs | src/src/bot_engine.py:70 | a first occurrence is unique |
| BrainMemory.IndexOfPrefix | src/src/bot_engine.py:64 | appending keys leaves the position of a key already present unchanged |
| BrainMemory.IndexOfLast | src/src/bot_engine.py:64 | a key inserted for the first time lands at the end of the order |
| BrainMemory.AppendAfter | src/src/bot_engine.py:64 | a key inserted for the first time comes after every key already present |
| BrainMemory.ArrivalsKeys | src/src/bot_engine.py:63-64 | after `n` iterations the order lists exactly the old keys and the first `n` words |
| BrainMemory.ArrivalsInOrder | src/src/bot_engine.py:63-64 | two keys new to the dict are inserted in the order of their first occurrences among the words |
| BrainMemory.KeepLongInOrder | src/src/bot_engine.py:62 | the filter keeps two long words in their relative order of first occurrence |
| BrainMemory.KeepLongArrivals | src/src/bot_engine.py:62-64 | tallying the filtered words inserts two new keys in the order of their first occurrences in the unfiltered list |
| BrainMemory.NewKeysInOrder | src/src/bot_engine.py:60-64 | of two words new to the memory, the one whose first occurrence in `text.split()` comes first is inserted first, which decides a later `max` tie |
| BrainMemory.FirstMaxIndex | src/src/bot_engine.py:70 | the index of a maximal count that is strictly greater than every count before it |
| BrainMemory.MostFrequent | src/src/bot_engine.py:66-71 | `_recall` is None iff the memory is empty. Otherwise it is a key with the largest count, and every key inserted before it has a smaller count |
| BrainReply.Persona.Tone | src/src/bot_engine.py:19-40 | the `tone` entry of each of the four personalities, with the source's text |
| BrainReply.Persona.Prefix | src/src/bot_engine.py:19-40 | the `prefix` entry of each of the four personalities, with the source's text |
| BrainReply.FallbackReplies | src/src/bot_engine.py:127-132 | four fallback prompts, each starting with the persona's prefix |
| BrainReply.FallbackAt | src/src/bot_engine.py:133 | the drawn fallback is one of the four prompts and starts with the prefix |
| BrainReply.IsGreeting | src/src/bot_engine.py:90 | the greeting test `any(word in text for word in ["hi", "hello", "hey"])`; GreetingWins and GreetingInsideWords state its effect |
| BrainReply.Decide | src/src/bot_engine.py:89-133 | a callback is chosen only for the recalled topic, only when it is non-empty and only when the draw exceeds 0.7 |
| BrainReply.TimeReplyQuotesClock | src/src/bot_engine.py:99 | the time reply contains the clock reading |
| BrainReply.Voiced | src/src/bot_engine.py:112-131 | every reply built as `f"{prefix}..."` (positive, empathetic, callback, advice, dream, fallback) starts with the persona's prefix |
| BrainReply.CallbackQuotesTopic | src/src/bot_engine.py:118 | the callback reply contains the recalled topic |
| BrainReply.Render | src/src/bot_engine.py:89-133 | the reply string each rule returns, built from the templates GreetingReply, IdentityReply, TimeReply and CallbackText, the tone texts and the drawn mood, joke or fallback; FallbackReply, VoicedRender, TimeReplyQuotesClock and CallbackQuotesTopic state its properties |
| BrainReply.VoicedRender | src/src/bot_engine.py:110-133 | the upbeat, empathetic, callback, advice, dream and fallback replies each start with the persona's prefix |
| BrainReply.Reply | src/src/bot_engine.py:89-133 | the reply of the first matching rule; the precedence lemmas below state which rule that is |
| BrainReply.GreetingWins | src/src/bot_engine.py:89-91 | a greeting keyword wins over every other rule, whatever the score, the memory and the draws |
| BrainReply.GreetingInsideWords | src/src/bot_engine.py:90 | any text containing a word that contains "hi" is greeted |
| BrainReply.TimeQuestionWithThis | src/src/bot_engine.py:90-99 | "what time is this" is greeted, not told the time |
| BrainReply.KeywordRules | src/src/bot_engine.py:89-108 | identity, time and joke are chosen exactly when their keyword occurs and no earlier keyword does |
| BrainReply.SentimentRules | src/src/bot_engine.py:110-114 | with `_emotion`'s score, the upbeat rule fires iff no earlier keyword occurs and positives exceed three times negatives. The empathetic rule fires iff the same holds with negatives and positives swapped |
| BrainReply.ToneRules | src/src/bot_engine.py:110-114 | for any score in hundredths, the upbeat rule fires iff no earlier keyword occurs and the score exceeds 50, and the empathetic rule iff no earlier keyword occurs and the score is below -50 |
| BrainReply.NoToneWithoutImbalance | src/src/bot_engine.py:110-114 | when neither count exceeds three times the other, neither tone rule fires |
| BrainReply.CallbackRule | src/src/bot_engine.py:116-118 | the callback is chosen iff no earlier rule fires, a non-empty topic is recalled and the draw exceeds 0.7 |
| BrainReply.LateRules | src/src/bot_engine.py:120-133 | advice, then dream, then the fallback, each exactly when every earlier rule fails |
| BrainReply.FallbackReply | src/src/bot_engine.py:126-133 | when no rule matches, the reply is the drawn fallback prompt |
| Brain.NeuraBrain.constructor | src/src/bot_engine.py:17-43 | a new brain has the given persona and session id and an empty memory |
| Brain.NeuraBrain.Increment | src/src/bot_engine.py:64 | the dict increment raises one count by 1 and appends a new key at the end of the order, keeping the memory well formed |
| Brain.NeuraBrain.Memorize | src/src/bot_engine.py:60-64 | the loop leaves exactly `Memorized`/`MemorizedOrder` of the old state, well formed |
| Brain.NeuraBrain.Recall | src/src/bot_engine.py:66-71 | None iff the memory is empty. Otherwise a key with the largest count, and every key inserted before it has a smaller count |
| Brain.NeuraBrain.Think | src/src/bot_engine.py:79-133 | the memory is updated with the cleaned text before the score, the recall and the reply are computed from that text and the new memory |
| Brain.RecallAfterMemorize | src/src/bot_engine.py:82-86 | because memorising comes first, a text with a word longer than 4 characters always leaves a topic to recall |
| Brain.MostSaidRecalled | src/src/bot_engine.py:60-71 | on a fresh memory, the long word said more often than every other long word is the one recalled; short words do not compete |
| Engine.Window | bot_engine.py:48 | `history[-n:]` is a suffix. It has the last n items for n > 0, the whole list for n == 0, and drops the first -n items for n < 0 |
| Engine.Entry | bot_engine.py:48-51 | `f"{role}: {content}"` with "user" and "" for a missing role or content; SummaryLines states where each line comes from |
| Engine.Entries | bot_engine.py:48-51 | one `"role: content"` line per item, in order |
| Engine.Summary | bot_engine.py:41-52 | what `summarize_history` returns; SummaryLines and SummarizeHistory state its contents |
| Engine.HasGreeting | bot_engine.py:29 | the greeting test `any(w in t for w in ["hello", "hi", "hey"])`; GreetingFirst and ShortGreeting state its effect |
| Engine.NeuraAIEngine.GetResponse | bot_engine.py:21-39 | fails (IndexError) exactly when the fallback list is empty, no keyword occurs and the stripped text has at least 3 characters. Otherwise the reply is a fixed reply or one of the fallbacks |
| Engine.NeuraAIEngine.SummarizeHistory | bot_engine.py:41-52 | the loop builds the summary of the window; an empty history gives "No conversation history." |
| Engine.FromConfig | bot_engine.py:6-19 | each setting is the configured value when present, else the built-in default (three fallbacks, memory 12) |
| Engine.GreetingFirst | bot_engine.py:26-30 | a greeting keyword in any letter case gives the greeting |
| Engine.ShortGreeting | bot_engine.py:29-36 | "hi" is under 3 characters yet greeted, because the greeting test comes first |
| Engine.CryptoBeforeWeather | bot_engine.py:31-34 | "crypto" is tested before "weather" |
| Engine.WeatherRule | bot_engine.py:33-34 | with no greeting and no "crypto", a "weather" in any letter case gives the weather reply |
| Engine.KeywordlessInput | bot_engine.py:35-39 | without a keyword: under 3 stripped characters asks for detail, otherwise the drawn fallback or the IndexError |
| Engine.NoneIsEmpty | bot_engine.py:26 | a missing text is treated as the empty string and asks for detail |
| Engine.CaseInsensitive | bot_engine.py:26 | the letter case of the input never changes the reply |
| Engine.SummaryLines | bot_engine.py:45-52 | a non-empty history gives one line per window item, in order, at most n of them for positive n |

## Left out

- `_respond_delay`: the sleep before each reply has no effect on the result.
- `save_memory` and `load_memory`: file I/O and JSON.
- Reading `clients.json` in `NeuraAIEngine.__init__` is file I/O. `Engine.FromConfig` takes the two `cfg.get` results instead. A configured value of the wrong JSON type, such as a non-list of fallbacks or a non-integer `default_memory`, is not modelled.
- The Flask HTTP layer, the emoji suffix it appends, its global session dictionaries, and the browser script are not part of this model.
- The random source and the clock are parameters. The session id and the persona drawn in `__init__` are constructor arguments.
- The `history` argument of `think` is never read by the source and is not a parameter of `Think`.
- Inputs that are not strings are not modelled, nor are history items that are not dicts or a `history` that is not a list. Examples are an `int` passed to `get_response` and a `None` item in the history.
- A `None` value stored under "role" or "content" in a history item is not modelled. Python prints it as "None"; an absent key is modelled.
- Text.Lower, Text.LowerChar: lower-case only the ASCII capitals. Python's `lower()` also maps other capitals. Two of them change what `_clean` keeps: U+212A becomes 'k', and U+0130 becomes "i" plus a combining dot, which also changes the length. BrainAnalysis.Clean and Engine.NeuraAIEngine.GetResponse inherit this difference.
- Persona styles (the unused `style` entries) are not modelled.
