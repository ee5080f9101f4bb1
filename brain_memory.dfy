/** The word-frequency memory of `NeuraBrain` (src/src/bot_engine.py): what
    `_memorize` does to the memory and which topic `_recall` picks.

    `self.memory` is a Python dict, so besides the counts it has an insertion
    order, which decides `max` ties; the model keeps that order as a sequence
    of keys beside the map of counts. */
module BrainMemory {
  import opened Text
  import opened Wrappers

  /** `memory.get(w, 0)`. */
  function Get(m: map<string, nat>, w: string): nat {
    if w in m then m[w] else 0
  }

  predicate Distinct(s: seq<string>) {
    forall i, j :: 0 <= i < j < |s| ==> s[i] != s[j]
  }

  /** What every memory built by `_memorize` looks like: the order lists each key
      once, and every key is a word of more than 4 characters seen at least once. */
  ghost predicate WellFormed(memory: map<string, nat>, order: seq<string>) {
    && Distinct(order)
    && (forall w :: w in memory <==> w in order)
    && (forall w :: w in memory ==> memory[w] >= 1 && |w| > 4)
  }

  /** The words of `ws` longer than 4 characters, in order. */
  function KeepLong(ws: seq<string>): (r: seq<string>)
    ensures forall w :: w in r ==> |w| > 4
  {
    if ws == [] then []
    else if |ws[0]| > 4 then [ws[0]] + KeepLong(ws[1..]) else KeepLong(ws[1..])
  }

  /** KeepLong keeps every occurrence of each long word and drops every short one. */
  lemma {:induction false} KeepLongCounts(ws: seq<string>)
    ensures forall w :: |w| > 4 ==> multiset(KeepLong(ws))[w] == multiset(ws)[w]
    ensures forall w :: |w| <= 4 ==> multiset(KeepLong(ws))[w] == 0
  {
    if ws != [] {
      KeepLongCounts(ws[1..]);
      assert ws == [ws[0]] + ws[1..];
    }
  }

  /** The kept words are the input with some words deleted, the others in their
      original order. */
  lemma {:induction false} KeepLongSubsequence(ws: seq<string>)
    ensures IsSubsequence(KeepLong(ws), ws)
  {
    if ws != [] {
      KeepLongSubsequence(ws[1..]);
      if |ws[0]| > 4 {
        assert KeepLong(ws)[1..] == KeepLong(ws[1..]);
      }
    }
  }

  /** `[w for w in text.split() if len(w) > 4]`. */
  function LongWords(text: string): (ws: seq<string>)
    ensures forall w :: w in ws ==> |w| > 4
  {
    KeepLong(Words(text))
  }

  /** `memory[w] = memory.get(w, 0) + 1`. */
  function AddWord(m: map<string, nat>, w: string): (r: map<string, nat>)
    ensures Get(r, w) == Get(m, w) + 1 && r.Keys == m.Keys + {w}
    ensures forall v :: v != w ==> Get(r, v) == Get(m, v)
  {
    m[w := Get(m, w) + 1]
  }

  /** The counts after that assignment for each of the first `n` words of `ws`, in turn. */
  function Tally(m: map<string, nat>, ws: seq<string>, n: nat): (r: map<string, nat>)
    requires n <= |ws|
    ensures m.Keys <= r.Keys
  {
    if n == 0 then m else AddWord(Tally(m, ws, n - 1), ws[n - 1])
  }

  /** The insertion order after the same assignments: a key joins at the end the
      first time it is assigned. */
  function Arrivals(order: seq<string>, ws: seq<string>, n: nat): (r: seq<string>)
    requires n <= |ws|
    ensures order <= r && |r| <= |order| + n
  {
    if n == 0 then order
    else
      var o := Arrivals(order, ws, n - 1);
      if ws[n - 1] in o then o else o + [ws[n - 1]]
  }

  /** The counts after `_memorize(text)`. */
  function Memorized(m: map<string, nat>, text: string): (r: map<string, nat>)
    ensures m.Keys <= r.Keys
  {
    Tally(m, LongWords(text), |LongWords(text)|)
  }

  /** The insertion order after `_memorize(text)`. */
  function MemorizedOrder(order: seq<string>, text: string): (r: seq<string>)
    ensures order <= r
  {
    Arrivals(order, LongWords(text), |LongWords(text)|)
  }

  /** Each word's count rises by its number of occurrences among the first `n` words;
      no other count changes, and the keys are the old ones plus those words. */
  lemma {:induction false} TallyCounts(m: map<string, nat>, ws: seq<string>, n: nat)
    requires n <= |ws|
    ensures forall w :: Get(Tally(m, ws, n), w) == Get(m, w) + multiset(ws[..n])[w]
    ensures forall w :: w in Tally(m, ws, n) <==> w in m || w in ws[..n]
  {
    if n > 0 {
      TallyCounts(m, ws, n - 1);
      assert ws[..n] == ws[..n - 1] + [ws[n - 1]];
    }
  }

  /** Counting one more word of more than 4 characters keeps the memory well formed. */
  lemma AddWordWellFormed(m: map<string, nat>, order: seq<string>, w: string)
    requires WellFormed(m, order) && |w| > 4
    ensures WellFormed(AddWord(m, w), if w in m then order else order + [w])
  {
  }

  /** One more step of the `_memorize` loop, from the state after the first `i` words. */
  lemma MemorizeStep(m0: map<string, nat>, o0: seq<string>, ws: seq<string>, i: nat, m: map<string, nat>, o: seq<string>)
    requires i < |ws| && |ws[i]| > 4
    requires m == Tally(m0, ws, i) && o == Arrivals(o0, ws, i) && WellFormed(m, o)
    ensures AddWord(m, ws[i]) == Tally(m0, ws, i + 1)
    ensures (if ws[i] in m then o else o + [ws[i]]) == Arrivals(o0, ws, i + 1)
    ensures WellFormed(AddWord(m, ws[i]), if ws[i] in m then o else o + [ws[i]])
  {
    AddWordWellFormed(m, o, ws[i]);
  }

  /** The memory stays well formed when words longer than 4 characters are tallied,
      and keys already present keep their place in the order. */
  lemma {:induction false} TallyWellFormed(m: map<string, nat>, order: seq<string>, ws: seq<string>, n: nat)
    requires WellFormed(m, order)
    requires n <= |ws| && forall w :: w in ws ==> |w| > 4
    ensures WellFormed(Tally(m, ws, n), Arrivals(order, ws, n))
    ensures order <= Arrivals(order, ws, n)
  {
    if n > 0 {
      TallyWellFormed(m, order, ws, n - 1);
      AddWordWellFormed(Tally(m, ws, n - 1), Arrivals(order, ws, n - 1), ws[n - 1]);
    }
  }

  /** What `_memorize(text)` does to the counts: every word of `text.split()` longer
      than 4 characters gains its number of occurrences; shorter words and words
      not in the text keep their count. */
  lemma MemorizeCounts(m: map<string, nat>, text: string)
    ensures forall w :: Get(Memorized(m, text), w) == Get(m, w) + (if |w| > 4 then multiset(Words(text))[w] else 0)
    ensures forall w :: w !in Words(text) ==> Get(Memorized(m, text), w) == Get(m, w)
  {
    var ws, all := LongWords(text), Words(text);
    var after := Memorized(m, text);
    KeepLongCounts(all);
    TallyCounts(m, ws, |ws|);
    assert ws[..|ws|] == ws;
    forall w ensures Get(after, w) == Get(m, w) + (if |w| > 4 then multiset(all)[w] else 0) {
      assert Get(after, w) == Get(m, w) + multiset(ws)[w];
    }
  }

  /** The keys after `_memorize(text)`: the old ones and the words of the text longer
      than 4 characters, so a word of 4 or fewer characters is never added. */
  lemma MemorizeKeys(m: map<string, nat>, text: string)
    ensures forall w :: w in Memorized(m, text) <==> w in m || (w in Words(text) && |w| > 4)
  {
    var ws, all := LongWords(text), Words(text);
    KeepLongCounts(all);
    TallyCounts(m, ws, |ws|);
    assert ws[..|ws|] == ws;
    forall w ensures w in ws <==> w in all && |w| > 4 {
      assert w in ws <==> multiset(ws)[w] > 0;
      assert w in all <==> multiset(all)[w] > 0;
    }
  }

  /** No count ever decreases and every key survives: a turn only adds. */
  lemma MemoryGrows(m: map<string, nat>, text: string)
    ensures m.Keys <= Memorized(m, text).Keys
    ensures forall w :: Get(m, w) <= Get(Memorized(m, text), w)
  {
    MemorizeKeys(m, text);
    MemorizeCounts(m, text);
  }

  // ---------------------------------------------------------------------------
  // Where new keys land in the insertion order

  /** The position of the first occurrence of `w` in `s`. */
  function IndexOf(s: seq<string>, w: string): (i: nat)
    requires w in s
    ensures i < |s| && s[i] == w && w !in s[..i]
  {
    if s[0] == w then 0
    else
      assert s == [s[0]] + s[1..];
      var j := IndexOf(s[1..], w);
      assert s[..j + 1] == [s[0]] + s[1..][..j];
      1 + j
  }

  /** A first occurrence is unique. */
  lemma IndexOfIs(s: seq<string>, w: string, i: nat)
    requires i < |s| && s[i] == w && w !in s[..i]
    ensures IndexOf(s, w) == i
  {
  }

  /** Appending items leaves the first occurrence of an item already present in place. */
  lemma IndexOfPrefix(s: seq<string>, t: seq<string>, w: string)
    requires w in s
    ensures w in s + t && IndexOf(s + t, w) == IndexOf(s, w)
  {
    var i := IndexOf(s, w);
    assert (s + t)[..i] == s[..i];
    IndexOfIs(s + t, w, i);
  }

  /** An item appended for the first time lands at the end. */
  lemma IndexOfLast(s: seq<string>, w: string)
    requires w !in s
    ensures IndexOf(s + [w], w) == |s|
  {
    assert (s + [w])[..|s|] == s;
    IndexOfIs(s + [w], w, |s|);
  }

  /** The keys of the order after `n` words: the old keys and those words. */
  lemma {:induction false} ArrivalsKeys(order: seq<string>, ws: seq<string>, n: nat)
    requires n <= |ws|
    ensures forall w :: w in Arrivals(order, ws, n) <==> w in order || w in ws[..n]
  {
    if n > 0 {
      ArrivalsKeys(order, ws, n - 1);
      assert ws[..n] == ws[..n - 1] + [ws[n - 1]];
    }
  }

  /** A key already present keeps its place when a new key is appended after it. */
  lemma AppendAfter(s: seq<string>, u: string, v: string)
    requires u in s && v !in s
    ensures u in s + [v] && v in s + [v]
    ensures IndexOf(s + [v], u) < IndexOf(s + [v], v)
  {
    IndexOfPrefix(s, [v], u);
    IndexOfLast(s, v);
  }

  /** Two keys that are new to the order join it in the order of their first
      occurrences among the words. */
  lemma {:induction false} ArrivalsInOrder(order: seq<string>, ws: seq<string>, n: nat, u: string, v: string)
    requires n <= |ws|
    requires u !in order && v !in order && u in ws[..n] && v in ws[..n]
    ensures u in Arrivals(order, ws, n) && v in Arrivals(order, ws, n)
    ensures IndexOf(Arrivals(order, ws, n), u) < IndexOf(Arrivals(order, ws, n), v) <==>
      IndexOf(ws[..n], u) < IndexOf(ws[..n], v)
  {
    var x, seen := ws[n - 1], ws[..n - 1];
    assert ws[..n] == seen + [x];
    var before, after := Arrivals(order, ws, n - 1), Arrivals(order, ws, n);
    ArrivalsKeys(order, ws, n - 1);
    assert u in before <==> u in seen;
    assert v in before <==> v in seen;
    if u in seen && v in seen {
      ArrivalsInOrder(order, ws, n - 1, u, v);
      IndexOfPrefix(seen, [x], u);
      IndexOfPrefix(seen, [x], v);
      if after != before {
        IndexOfPrefix(before, [x], u);
        IndexOfPrefix(before, [x], v);
      }
    } else if u in seen {
      assert v == x && after == before + [v];
      AppendAfter(before, u, v);
      AppendAfter(seen, u, v);
    } else if v in seen {
      assert u == x && after == before + [u];
      AppendAfter(before, v, u);
      AppendAfter(seen, v, u);
    } else {
      assert u == x && v == x && after == before + [x];
    }
  }

  /** Dropping the short words keeps the long ones in their relative order. */
  lemma {:induction false} KeepLongInOrder(ws: seq<string>, u: string, v: string)
    requires |u| > 4 && |v| > 4 && u in ws && v in ws
    ensures u in KeepLong(ws) && v in KeepLong(ws)
    ensures IndexOf(KeepLong(ws), u) < IndexOf(KeepLong(ws), v) <==> IndexOf(ws, u) < IndexOf(ws, v)
  {
    var x, rest := ws[0], ws[1..];
    assert ws == [x] + rest;
    var kept := KeepLong(rest);
    if u == x && v == x {
    } else if u == x {
      KeepLongInOrder(rest, v, v);
      assert KeepLong(ws) == [x] + kept && KeepLong(ws)[1..] == kept;
    } else if v == x {
      KeepLongInOrder(rest, u, u);
      assert KeepLong(ws) == [x] + kept && KeepLong(ws)[1..] == kept;
    } else {
      KeepLongInOrder(rest, u, v);
      if |x| > 4 {
        assert KeepLong(ws) == [x] + kept && KeepLong(ws)[1..] == kept;
      }
    }
  }

  /** Tallying the long words of `all` inserts two new keys in the order of their
      first occurrences in `all`. */
  lemma KeepLongArrivals(order: seq<string>, all: seq<string>, u: string, v: string)
    requires u !in order && v !in order
    requires u in all && v in all && |u| > 4 && |v| > 4
    ensures u in Arrivals(order, KeepLong(all), |KeepLong(all)|) && v in Arrivals(order, KeepLong(all), |KeepLong(all)|)
    ensures IndexOf(Arrivals(order, KeepLong(all), |KeepLong(all)|), u) < IndexOf(Arrivals(order, KeepLong(all), |KeepLong(all)|), v) <==>
      IndexOf(all, u) < IndexOf(all, v)
  {
    var ws := KeepLong(all);
    KeepLongInOrder(all, u, v);
    assert ws[..|ws|] == ws;
    ArrivalsInOrder(order, ws, |ws|, u, v);
  }

  /** `_memorize(text)` appends the words new to the memory in the order in which
      they first occur in `text.split()`: of two new keys, the one said first comes
      first, and so wins a later `max` tie. */
  lemma NewKeysInOrder(order: seq<string>, text: string, u: string, v: string)
    requires u !in order && v !in order
    requires u in Words(text) && v in Words(text) && |u| > 4 && |v| > 4
    ensures u in MemorizedOrder(order, text) && v in MemorizedOrder(order, text)
    ensures IndexOf(MemorizedOrder(order, text), u) < IndexOf(MemorizedOrder(order, text), v) <==>
      IndexOf(Words(text), u) < IndexOf(Words(text), v)
  {
    KeepLongArrivals(order, Words(text), u, v);
  }

  /** `max(keys, key=memory.get)`: scanning left to right, the running best is replaced
      only by a strictly larger count, so the first key with the largest count wins. */
  function FirstMaxIndex(keys: seq<string>, m: map<string, nat>): (i: nat)
    requires keys != []
    ensures i < |keys|
    ensures forall j :: 0 <= j < |keys| ==> Get(m, keys[j]) <= Get(m, keys[i])
    ensures forall j :: 0 <= j < i ==> Get(m, keys[j]) < Get(m, keys[i])
    decreases |keys|
  {
    if |keys| == 1 then 0
    else
      var best := FirstMaxIndex(keys[..|keys| - 1], m);
      if Get(m, keys[|keys| - 1]) > Get(m, keys[best]) then |keys| - 1 else best
  }

  /** `_recall()`: None for an empty memory, otherwise a key with the largest count,
      the earliest inserted one among equals. */
  function MostFrequent(memory: map<string, nat>, order: seq<string>): (r: Option<string>)
    requires Distinct(order) && forall w :: w in memory <==> w in order
    ensures r.None? <==> |memory| == 0
    ensures r.Some? ==> r.value in memory && forall w :: w in memory ==> memory[w] <= memory[r.value]
    ensures r.Some? ==> forall j, k :: 0 <= j < k < |order| && order[k] == r.value ==> memory[order[j]] < memory[r.value]
  {
    if |memory| == 0 then
      None
    else
      assert order != [] by {
        var w :| w in memory;
      }
      var i := FirstMaxIndex(order, memory);
      assert forall w :: w in memory ==> exists j :: 0 <= j < |order| && order[j] == w;
      Some(order[i])
  }
}
