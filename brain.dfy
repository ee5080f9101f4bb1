/** `NeuraBrain` (src/src/bot_engine.py): a personality chosen at construction, a
    session id, and a word-frequency memory that every call of `think` updates
    before it picks a reply. */
module Brain {
  import opened Text
  import opened Wrappers
  import opened BrainAnalysis
  import opened BrainMemory
  import opened BrainReply

  class NeuraBrain {
    const personality: Persona
    const sessionId: string
    /** The counts of `self.memory`. */
    var memory: map<string, nat>
    /** The insertion order of `self.memory`'s keys. */
    var order: seq<string>

    ghost predicate Valid()
      reads this
    {
      WellFormed(memory, order)
    }

    /** `__init__`, with the random personality and the clock-based session id given. */
    constructor (personality: Persona, sessionId: string)
      ensures Valid()
      ensures this.personality == personality && this.sessionId == sessionId
      ensures memory == map[] && order == []
    {
      this.personality := personality;
      this.sessionId := sessionId;
      memory := map[];
      order := [];
    }

    /** `self.memory[w] = self.memory.get(w, 0) + 1`: the dict assignment, which
        also appends `w` to the key order when it is a new key. */
    method Increment(w: string)
      requires Valid() && |w| > 4
      modifies this
      ensures Valid()
      ensures memory == AddWord(old(memory), w)
      ensures order == if w in old(memory) then old(order) else old(order) + [w]
    {
      AddWordWellFormed(memory, order, w);
      if w !in memory {
        order := order + [w];
      }
      memory := AddWord(memory, w);
    }

    /** `_memorize(text)`: each word of `text.split()` longer than 4 characters, in
        order, has its count raised by one. */
    method Memorize(text: string)
      requires Valid()
      modifies this
      ensures Valid()
      ensures memory == Memorized(old(memory), text)
      ensures order == MemorizedOrder(old(order), text)
    {
      var words := LongWords(text);
      ghost var m0, o0 := memory, order;
      for i := 0 to |words|
        invariant Valid()
        invariant memory == Tally(m0, words, i)
        invariant order == Arrivals(o0, words, i)
      {
        MemorizeStep(m0, o0, words, i, memory, order);
        Increment(words[i]);
      }
    }

    /** `_recall()`. */
    function Recall(): (r: Option<string>)
      reads this
      requires Valid()
      ensures r.None? <==> |memory| == 0
      ensures r.Some? ==> r.value in memory && forall w :: w in memory ==> memory[w] <= memory[r.value]
      ensures r.Some? ==> forall j, k :: 0 <= j < k < |order| && order[k] == r.value ==> memory[order[j]] < memory[r.value]
    {
      MostFrequent(memory, order)
    }

    /** `think(user_input, history)`: clean the input, memorise it, and only then score
        it, recall a topic and pick the reply. `history` is unused by the source and is
        not a parameter here; the random draws and the clock reading are. */
    method Think(userInput: string, draws: Draws, clock: string) returns (reply: string)
      requires Valid() && ValidDraws(draws)
      modifies this
      ensures Valid()
      ensures memory == Memorized(old(memory), Clean(userInput))
      ensures order == MemorizedOrder(old(order), Clean(userInput))
      ensures reply == Reply(Clean(userInput), personality, Emotion(Clean(userInput)), MostFrequent(memory, order), draws, clock)
    {
      var text := Clean(userInput);
      Memorize(text);
      var emotionScore := Emotion(text);
      var recall := Recall();
      reply := Reply(text, personality, emotionScore, recall, draws, clock);
    }
  }

  /** Because `think` memorises before it recalls, a text with a word longer than 4
      characters always leaves a topic to recall, even on an empty memory. */
  lemma RecallAfterMemorize(memory: map<string, nat>, order: seq<string>, text: string)
    requires WellFormed(memory, order)
    requires LongWords(text) != []
    ensures WellFormed(Memorized(memory, text), MemorizedOrder(order, text))
    ensures MostFrequent(Memorized(memory, text), MemorizedOrder(order, text)).Some?
  {
    var ws := LongWords(text);
    TallyWellFormed(memory, order, ws, |ws|);
    TallyCounts(memory, ws, |ws|);
    assert ws[0] in ws[..|ws|];
  }

  /** On a fresh memory, a long word said more often than every other long word of
      the text is the one recalled; short words are never counted, so they do not
      compete. */
  lemma MostSaidRecalled(a: string, text: string)
    requires |a| > 4 && a in Words(text)
    requires forall w :: w in Words(text) && w != a && |w| > 4 ==> multiset(Words(text))[w] < multiset(Words(text))[a]
    ensures WellFormed(Memorized(map[], text), MemorizedOrder([], text))
    ensures MostFrequent(Memorized(map[], text), MemorizedOrder([], text)) == Some(a)
  {
    var ws := Words(text);
    var m := Memorized(map[], text);
    MemorizeCounts(map[], text);
    MemorizeKeys(map[], text);
    KeepLongCounts(ws);
    assert multiset(KeepLong(ws))[a] > 0;
    assert a in LongWords(text);
    RecallAfterMemorize(map[], [], text);
    var top := MostFrequent(m, MemorizedOrder([], text)).value;
    assert top in ws && |top| > 4;
    assert Get(m, a) == multiset(ws)[a] && Get(m, top) == multiset(ws)[top];
  }
}
