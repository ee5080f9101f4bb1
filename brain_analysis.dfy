/** The two text analyses of `NeuraBrain` (src/src/bot_engine.py): the normaliser
    `_clean` and the keyword sentiment scorer `_emotion`. */
module BrainAnalysis {
  import opened Text

  // ---------------------------------------------------------------------------
  // _clean

  /** The characters of the class `[a-zA-Z0-9\s']`, which `_clean` keeps. */
  predicate IsKept(c: char) {
    ('a' <= c <= 'z') || IsUpper(c) || ('0' <= c <= '9') || IsSpace(c) || c == '\''
  }

  /** What a cleaned text is made of: lower-case ASCII letters, digits, whitespace
      and apostrophes. */
  predicate IsCleanChar(c: char) {
    ('a' <= c <= 'z') || ('0' <= c <= '9') || IsSpace(c) || c == '\''
  }

  /** `re.sub(r"[^a-zA-Z0-9\s']", "", s)`: deletes every character outside the class. */
  function KeepAllowed(s: string): (r: string)
    ensures IsSubsequence(r, s)
    ensures forall i :: 0 <= i < |r| ==> IsKept(r[i])
    ensures forall c :: IsKept(c) ==> multiset(r)[c] == multiset(s)[c]
  {
    if s == [] then []
    else
      assert s == [s[0]] + s[1..];
      if IsKept(s[0]) then [s[0]] + KeepAllowed(s[1..]) else KeepAllowed(s[1..])
  }

  /** `_clean(text)`: `re.sub(r"[^a-zA-Z0-9\s']", "", text.lower().strip())`. */
  function Clean(text: string): (r: string)
    ensures IsSubsequence(r, Strip(Lower(text)))
    ensures forall c :: IsKept(c) ==> multiset(r)[c] == multiset(Strip(Lower(text)))[c]
    ensures forall i :: 0 <= i < |r| ==> IsCleanChar(r[i])
  {
    var stripped := Strip(Lower(text));
    StripOfLower(text);
    KeepAllowedOfLower(stripped);
    KeepAllowed(stripped)
  }

  /** Stripping lower-cased text leaves no capital letter. */
  lemma StripOfLower(text: string)
    ensures forall i :: 0 <= i < |Strip(Lower(text))| ==> !IsUpper(Strip(Lower(text))[i])
  {
    var lowered := Lower(text);
    var stripped := Strip(lowered);
    var j :| StrippedAt(lowered, stripped, j);
    forall i | 0 <= i < |stripped| ensures !IsUpper(stripped[i]) {
      assert stripped[i] == lowered[j + i];
    }
  }

  /** Without upper-case letters in the input, only clean characters survive. */
  lemma {:induction false} KeepAllowedOfLower(s: string)
    requires forall i :: 0 <= i < |s| ==> !IsUpper(s[i])
    ensures forall i :: 0 <= i < |KeepAllowed(s)| ==> IsCleanChar(KeepAllowed(s)[i])
  {
    if s != [] {
      KeepAllowedOfLower(s[1..]);
    }
  }

  /** Text made only of the characters `_clean` keeps, with no whitespace at either
      end, is already clean. */
  lemma CleanFixedPoint(s: string)
    requires forall i :: 0 <= i < |s| ==> IsCleanChar(s[i])
    requires s == [] || (!IsSpace(s[0]) && !IsSpace(s[|s| - 1]))
    ensures Clean(s) == s
  {
    assert Lower(s) == s;
    StripTrimmed(s);
    KeepAllowedKept(s);
  }

  lemma {:induction false} KeepAllowedKept(s: string)
    requires forall i :: 0 <= i < |s| ==> IsKept(s[i])
    ensures KeepAllowed(s) == s
  {
    if s != [] {
      KeepAllowedKept(s[1..]);
    }
  }

  // ---------------------------------------------------------------------------
  // _emotion

  const PositiveWords: seq<string> := ["love", "happy", "great", "awesome", "fantastic", "joy"]
  const NegativeWords: seq<string> := ["sad", "hate", "angry", "pain", "lonely", "upset"]

  /** `sum(w in text for w in keywords)`: how many of the keywords occur in `text`
      as substrings (each keyword counts once, however often it occurs). */
  function CountPresent(text: string, keywords: seq<string>): (n: nat)
    ensures n <= |keywords|
    ensures n == 0 <==> forall k :: k in keywords ==> !Contains(text, k)
    ensures n == |keywords| <==> forall k :: k in keywords ==> Contains(text, k)
  {
    if keywords == [] then 0
    else
      assert forall k :: k in keywords <==> k == keywords[0] || k in keywords[1..];
      (if Contains(text, keywords[0]) then 1 else 0) + CountPresent(text, keywords[1..])
  }

  /** The positions from `m` on whose keyword occurs in `text`. */
  ghost function PresentFrom(text: string, keywords: seq<string>, m: nat): set<int> {
    set i | m <= i < |keywords| && Contains(text, keywords[i])
  }

  /** From position `m` on, `CountPresent` is the number of positions whose keyword
      occurs in `text`. */
  lemma {:induction false} CountPresentFrom(text: string, keywords: seq<string>, m: nat)
    requires m <= |keywords|
    ensures CountPresent(text, keywords[m..]) == |PresentFrom(text, keywords, m)|
    decreases |keywords| - m
  {
    var here := PresentFrom(text, keywords, m);
    if m == |keywords| {
      assert here == {};
    } else {
      CountPresentFrom(text, keywords, m + 1);
      var later := PresentFrom(text, keywords, m + 1);
      assert keywords[m..][0] == keywords[m] && keywords[m..][1..] == keywords[m + 1..];
      if Contains(text, keywords[m]) {
        assert m !in later && here == later + {m};
      } else {
        assert here == later;
      }
    }
  }

  /** `sum(w in text for w in keywords)` is exactly the number of listed keywords
      present in `text`: each position of the list adds 1 when its keyword occurs. */
  lemma CountPresentIsCount(text: string, keywords: seq<string>)
    ensures CountPresent(text, keywords) == |set i | 0 <= i < |keywords| && Contains(text, keywords[i])|
  {
    CountPresentFrom(text, keywords, 0);
    assert keywords[0..] == keywords;
    assert PresentFrom(text, keywords, 0) == set i | 0 <= i < |keywords| && Contains(text, keywords[i]);
  }

  function Positives(text: string): (n: nat)
    ensures n <= 6
  {
    CountPresent(text, PositiveWords)
  }

  function Negatives(text: string): (n: nat)
    ensures n <= 6
  {
    CountPresent(text, NegativeWords)
  }

  /** `round((pos - neg) / (pos + neg), 2)`, or `0` when `pos + neg == 0`, given in
      hundredths: the nearest integer to 100 * (pos - neg) / (pos + neg), with
      halves rounded up (no half occurs for counts up to 6: see NoRoundingTie). */
  function Score(pos: nat, neg: nat): (r: int)
    ensures -100 <= r <= 100
  {
    if pos + neg == 0 then 0
    else
      var a, b := 200 * (pos - neg) + (pos + neg), 2 * (pos + neg);
      FloorDivAtLeast(a, b, -100);
      FloorDivAtLeast(a, b, 101);
      a / b
  }

  /** For a positive divisor, `a / b` is the floor of a / b. */
  lemma FloorDivAtLeast(a: int, b: int, k: int)
    requires b > 0
    ensures a / b >= k <==> a >= k * b
  {
    var q, r := a / b, a % b;
    assert a == b * q + r && 0 <= r < b;
    if q >= k {
      assert b * q >= b * k;
    } else {
      assert b * q <= b * (k - 1);
    }
  }

  /** Rounding `(pos - neg) / (pos + neg)` to hundredths never meets an exact half
      for counts up to 6, so Python's round-half-to-even and the round-half-up of
      Score agree. */
  lemma NoRoundingTie(pos: nat, neg: nat)
    requires pos <= 6 && neg <= 6 && pos + neg > 0
    ensures (200 * (pos - neg) + (pos + neg)) % (2 * (pos + neg)) != 0
  {
    var d := pos + neg;
    if d == 1 {} else if d == 2 {} else if d == 3 {} else if d == 4 {}
    else if d == 5 {} else if d == 6 {} else if d == 7 {} else if d == 8 {}
    else if d == 9 {} else if d == 10 {} else if d == 11 {} else {}
  }

  /** `Score` is the integer nearest to 100 * (pos - neg) / (pos + neg): it lies
      strictly within half a hundredth of the exact ratio, so `round` to two places
      gives it whatever the tie rule. */
  lemma ScoreNearest(pos: nat, neg: nat)
    requires pos <= 6 && neg <= 6 && pos + neg > 0
    ensures (pos + neg) * (2 * Score(pos, neg) - 1) < 200 * (pos - neg) < (pos + neg) * (2 * Score(pos, neg) + 1)
  {
    var a, b := 200 * (pos - neg) + (pos + neg), 2 * (pos + neg);
    NoRoundingTie(pos, neg);
    assert a == b * (a / b) + a % b;
  }

  lemma ScoreFacts(pos: nat, neg: nat)
    requires pos <= 6 && neg <= 6
    ensures -100 <= Score(pos, neg) <= 100
    ensures Score(pos, neg) == 0 <==> pos == neg
    ensures Score(pos, neg) == 100 <==> pos > 0 && neg == 0
    ensures Score(pos, neg) == -100 <==> neg > 0 && pos == 0
    ensures Score(pos, neg) > 50 <==> pos > 3 * neg
    ensures Score(pos, neg) < -50 <==> neg > 3 * pos
  {
    if pos + neg > 0 {
      var a, b := 200 * (pos - neg) + (pos + neg), 2 * (pos + neg);
      FloorDivAtLeast(a, b, -100);
      FloorDivAtLeast(a, b, 101);
      FloorDivAtLeast(a, b, 0);
      FloorDivAtLeast(a, b, 1);
      FloorDivAtLeast(a, b, 100);
      FloorDivAtLeast(a, b, -99);
      FloorDivAtLeast(a, b, 51);
      FloorDivAtLeast(a, b, -50);
    }
  }

  /** `_emotion(text)` in hundredths. */
  function Emotion(text: string): (h: int)
    ensures -100 <= h <= 100
    ensures Positives(text) == 0 && Negatives(text) == 0 ==> h == 0
    ensures h == 100 <==> Positives(text) > 0 && Negatives(text) == 0
    ensures h == -100 <==> Negatives(text) > 0 && Positives(text) == 0
  {
    ScoreFacts(Positives(text), Negatives(text));
    Score(Positives(text), Negatives(text))
  }

  /** `_emotion(text) > 0.5` exactly when more than three times as many positive
      keywords as negative ones occur. */
  lemma EmotionAboveHalf(text: string)
    ensures Emotion(text) > 50 <==> Positives(text) > 3 * Negatives(text)
  {
    ScoreFacts(Positives(text), Negatives(text));
  }

  /** `_emotion(text) < -0.5` exactly when more than three times as many negative
      keywords as positive ones occur. */
  lemma EmotionBelowHalf(text: string)
    ensures Emotion(text) < -50 <==> Negatives(text) > 3 * Positives(text)
  {
    ScoreFacts(Positives(text), Negatives(text));
  }

  // ---------------------------------------------------------------------------
  // Worked examples

  /** Keyword-free text scores 0. */
  lemma EmotionOfEmpty()
    ensures Emotion("") == 0
  {
  }

  /** Only negative keywords: "sad hate" scores -1.0. The text is a parameter fixed
      by the requires rather than a literal in the ensures, so that the verifier
      works from the general facts (NoPositiveWithout, one occurrence of "sad")
      instead of unfolding the keyword search over the literal. */
  lemma EmotionOfSadHate(s: string)
    requires s == "sad hate"
    ensures Emotion(s) == -100
  {
    NoPositiveWithout(s, 'l', 'p', 'g', 'w', 'f', 'j');
    assert OccursAt(s, "sad", 0);
  }

  /** No positive keyword occurs in a text that lacks one letter of each of them. */
  lemma NoPositiveWithout(s: string, l: char, h: char, g: char, a: char, f: char, j: char)
    requires l in "love" && h in "happy" && g in "great" && a in "awesome" && f in "fantastic" && j in "joy"
    requires l !in s && h !in s && g !in s && a !in s && f !in s && j !in s
    ensures Positives(s) == 0
  {
    AbsentChar(s, "love", l);
    AbsentChar(s, "happy", h);
    AbsentChar(s, "great", g);
    AbsentChar(s, "awesome", a);
    AbsentChar(s, "fantastic", f);
    AbsentChar(s, "joy", j);
  }
}
