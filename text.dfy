/** The few operations on Python `str` values that both reply engines rely on:
    `isspace`, `lower`, `strip`, the `in` substring test, `split()` and `join`. */
module Text {

  /** Python's `str.isspace()` (the same set `\s` matches in a `str` regular
      expression): the ASCII controls \t \n \v \f \r, the separators \x1c-\x1f,
      the space, and the Unicode spaces and line/paragraph separators. */
  predicate IsSpace(c: char) {
    || c == ' '
    || ('\t' <= c <= '\r')
    || ('\U{1C}' <= c <= '\U{1F}')
    || c == '\U{85}' || c == '\U{A0}' || c == '\U{1680}'
    || ('\U{2000}' <= c <= '\U{200A}')
    || c == '\U{2028}' || c == '\U{2029}' || c == '\U{202F}' || c == '\U{205F}'
    || c == '\U{3000}'
  }

  predicate IsUpper(c: char) { 'A' <= c <= 'Z' }

  function LowerChar(c: char): (d: char)
    ensures !IsUpper(d)
    ensures IsUpper(c) ==> d as int == c as int + 32
    ensures !IsUpper(c) ==> d == c
  {
    if IsUpper(c) then (c as int + 32) as char else c
  }

  /** `str.lower()` on the ASCII letters; every other character is kept. */
  function Lower(s: string): (r: string)
    ensures |r| == |s|
    ensures forall i :: 0 <= i < |s| ==> r[i] == LowerChar(s[i])
    ensures forall i :: 0 <= i < |r| ==> !IsUpper(r[i])
  {
    seq(|s|, i requires 0 <= i < |s| => LowerChar(s[i]))
  }

  lemma LowerIdempotent(s: string)
    ensures Lower(Lower(s)) == Lower(s)
  {
  }

  /** `str.lstrip()`. */
  function StripLeft(s: string): (r: string)
    ensures |r| <= |s| && r == s[|s| - |r|..]
    ensures forall i :: 0 <= i < |s| - |r| ==> IsSpace(s[i])
    ensures r == [] || !IsSpace(r[0])
  {
    if s != [] && IsSpace(s[0]) then StripLeft(s[1..]) else s
  }

  /** `str.rstrip()`. */
  function StripRight(s: string): (r: string)
    ensures |r| <= |s| && r == s[..|r|]
    ensures forall i :: |r| <= i < |s| ==> IsSpace(s[i])
    ensures r == [] || !IsSpace(r[|r| - 1])
  {
    if s != [] && IsSpace(s[|s| - 1]) then StripRight(s[..|s| - 1]) else s
  }

  /** `str.strip()`: `r` is the slice of `s` at `i`, and everything outside it is whitespace. */
  ghost predicate StrippedAt(s: string, r: string, i: int) {
    && OccursAt(s, r, i)
    && (forall k :: 0 <= k < i ==> IsSpace(s[k]))
    && (forall k :: i + |r| <= k < |s| ==> IsSpace(s[k]))
  }

  function Strip(s: string): (r: string)
    ensures exists i :: StrippedAt(s, r, i)
    ensures r == [] || (!IsSpace(r[0]) && !IsSpace(r[|r| - 1]))
  {
    StripBothEnds(s);
    StripRight(StripLeft(s))
  }

  /** Stripping a string that neither starts nor ends with whitespace changes nothing. */
  lemma StripTrimmed(s: string)
    requires s == [] || (!IsSpace(s[0]) && !IsSpace(s[|s| - 1]))
    ensures Strip(s) == s
  {
    var r := Strip(s);
    var i :| StrippedAt(s, r, i);
  }

  lemma StripBothEnds(s: string)
    ensures StrippedAt(s, StripRight(StripLeft(s)), |s| - |StripLeft(s)|)
  {
    var l := StripLeft(s);
    var r := StripRight(l);
    var i := |s| - |l|;
    assert OccursAt(s, r, i) by {
      SliceOfSlice(s, i, |s|, 0, |r|);
    }
    assert forall k :: i + |r| <= k < |s| ==> IsSpace(s[k]) by {
      forall k | i + |r| <= k < |s| ensures IsSpace(s[k]) {
        assert s[k] == l[k - i];
      }
    }
  }

  lemma SliceOfSlice(s: string, a: int, b: int, c: int, d: int)
    requires 0 <= a <= b <= |s| && 0 <= c <= d <= b - a
    ensures s[a..b][c..d] == s[a + c..a + d]
  {
    assert forall k :: 0 <= k < d - c ==> s[a..b][c..d][k] == s[a + c + k];
  }

  /** `w` occurs in `s` starting at index `i`. */
  ghost predicate OccursAt(s: string, w: string, i: int) {
    0 <= i && i + |w| <= |s| && s[i..i + |w|] == w
  }

  /** Python's `w in s` for two strings. */
  function Contains(s: string, w: string): (b: bool)
    ensures b <==> exists i :: OccursAt(s, w, i)
  {
    if |w| > |s| then
      false
    else if s[..|w|] == w then
      assert OccursAt(s, w, 0);
      true
    else
      assert forall i :: OccursAt(s, w, i) ==> i > 0 && OccursAt(s[1..], w, i - 1) by {
        forall i | OccursAt(s, w, i) ensures i > 0 && OccursAt(s[1..], w, i - 1) {
          assert s[1..][i - 1..i - 1 + |w|] == s[i..i + |w|];
        }
      }
      assert forall i :: OccursAt(s[1..], w, i) ==> OccursAt(s, w, i + 1);
      Contains(s[1..], w)
  }

  /** Substring occurrence is transitive: a piece of a piece of `s` is a piece of `s`. */
  lemma ContainsTransitive(s: string, u: string, w: string)
    requires Contains(s, u) && Contains(u, w)
    ensures Contains(s, w)
  {
    var i :| OccursAt(s, u, i);
    var j :| OccursAt(u, w, j);
    SliceOfSlice(s, i, i + |u|, j, j + |w|);
    assert OccursAt(s, w, i + j);
  }

  /** A string that lacks one of the characters of `w` does not contain `w`. */
  lemma AbsentChar(s: string, w: string, c: char)
    requires c in w && c !in s
    ensures !Contains(s, w)
  {
  }

  /** Number of leading characters of `s` that are not whitespace. */
  function WordLength(s: string): (n: nat)
    ensures n <= |s|
    ensures forall i :: 0 <= i < n ==> !IsSpace(s[i])
    ensures n < |s| ==> IsSpace(s[n])
  {
    if s == [] || IsSpace(s[0]) then 0 else 1 + WordLength(s[1..])
  }

  /** Python's `s.split()` without arguments: the maximal runs of non-whitespace
      characters, in order. */
  function Words(s: string): seq<string>
    decreases |s|
  {
    var t := StripLeft(s);
    if t == [] then [] else [t[..WordLength(t)]] + Words(t[WordLength(t)..])
  }

  /** Every item of `split()` is a non-empty run of non-whitespace characters. */
  lemma {:induction false} WordsAreRuns(s: string)
    ensures forall w :: w in Words(s) ==> w != [] && forall c :: c in w ==> !IsSpace(c)
    decreases |s|
  {
    var t := StripLeft(s);
    if t != [] {
      var n := WordLength(t);
      WordsAreRuns(t[n..]);
      assert forall c :: c in t[..n] ==> !IsSpace(c);
    }
  }

  /** Leading whitespace is skipped by `split()`. */
  lemma {:induction false} StripLeftSpace(sp: string, s: string)
    requires forall i :: 0 <= i < |sp| ==> IsSpace(sp[i])
    ensures StripLeft(sp + s) == StripLeft(s)
  {
    if sp != [] {
      var t := sp + s;
      assert t[0] == sp[0] && t[1..] == sp[1..] + s;
      assert IsSpace(t[0]);
      assert StripLeft(t) == StripLeft(t[1..]);
      assert forall i :: 0 <= i < |sp[1..]| ==> IsSpace(sp[1..][i]) by {
        forall i | 0 <= i < |sp[1..]| ensures IsSpace(sp[1..][i]) {
          assert sp[1..][i] == sp[i + 1];
        }
      }
      StripLeftSpace(sp[1..], s);
    } else {
      assert sp + s == s;
    }
  }

  /** `split()` looks at a text only after its leading whitespace. */
  lemma WordsAfterStrip(a: string, b: string)
    requires StripLeft(a) == StripLeft(b)
    ensures Words(a) == Words(b)
  {
  }

  /** Whitespace in front of a text does not change its words; in particular a text
      made only of whitespace (or the empty text) has no words at all. */
  lemma WordsOfSpace(sp: string, s: string)
    requires forall i :: 0 <= i < |sp| ==> IsSpace(sp[i])
    ensures Words(sp + s) == Words(s)
    ensures Words(sp) == []
  {
    StripLeftSpace(sp, s);
    WordsAfterStrip(sp + s, s);
    StripLeftSpace(sp, []);
    assert sp + [] == sp;
    WordsAfterStrip(sp, []);
  }

  /** A word with nothing around it splits into itself. */
  lemma WordsOfWord(w: string)
    requires w != [] && forall c :: c in w ==> !IsSpace(c)
    ensures Words(w) == [w]
  {
    assert !IsSpace(w[0]);
    assert StripLeft(w) == w;
    assert w[..|w|] == w;
  }

  /** A word followed by a whitespace character splits off as the first item. */
  lemma WordsOfWordThen(w: string, sep: char, rest: string)
    requires w != [] && forall c :: c in w ==> !IsSpace(c)
    requires IsSpace(sep)
    ensures Words(w + [sep] + rest) == [w] + Words(rest)
  {
    var s := w + [sep] + rest;
    assert !IsSpace(s[0]);
    assert StripLeft(s) == s;
    assert s[|w|] == sep;
    assert forall i :: 0 <= i < |w| ==> s[i] == w[i];
    assert WordLength(s) == |w|;
    assert s[..|w|] == w;
    assert s[|w|..] == [sep] + rest;
    assert ([sep] + rest)[1..] == rest;
    assert StripLeft([sep] + rest) == StripLeft(rest);
  }

  /** `sep.join(parts)`. */
  function Join(parts: seq<string>, sep: string): (r: string)
    ensures parts == [] ==> r == []
    ensures |parts| == 1 ==> r == parts[0]
  {
    if parts == [] then []
    else if |parts| == 1 then parts[0]
    else parts[0] + sep + Join(parts[1..], sep)
  }

  /** Appending one more part adds the separator and the part at the end, which is
      how the joined summary grows line by line. */
  lemma {:induction false} JoinSnoc(parts: seq<string>, p: string, sep: string)
    requires parts != []
    ensures Join(parts + [p], sep) == Join(parts, sep) + sep + p
    decreases |parts|
  {
    if |parts| > 1 {
      assert (parts + [p])[1..] == parts[1..] + [p];
      JoinSnoc(parts[1..], p, sep);
    }
  }

  /** `a` is `b` with some items deleted and the others kept in order. */
  ghost predicate IsSubsequence<T>(a: seq<T>, b: seq<T>)
    decreases |b|
  {
    a == [] || (b != [] && ((a[0] == b[0] && IsSubsequence(a[1..], b[1..])) || IsSubsequence(a, b[1..])))
  }
}
