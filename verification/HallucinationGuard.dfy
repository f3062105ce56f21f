/**
  Repetition detector (src/utils/HallucinationGuard.h).

  The source makes one pass with a map of bigram counts and three early returns; it is proved to
  return exactly the declarative `Repetitive`. Text is a sequence of bytes, written as `char`.
*/
module HallucinationGuard {

  const MAX_LENGTH := 500

  type Word = string

  predicate IsSpace(c: char) {
    c in {' ', '\t', '\n', '\r', 11 as char, 12 as char}
  }

  predicate NoSpaces(s: string) {
    forall i :: 0 <= i < |s| ==> !IsSpace(s[i])
  }

  // ---------------------------------------------------------------- splitting into words

  /** Index of the first character at or after `i` whose spacehood is `space`. */
  function ScanTo(text: string, i: nat, space: bool): (j: nat)
    requires i <= |text|
    ensures i <= j <= |text|
    ensures forall k :: i <= k < j ==> IsSpace(text[k]) != space
    ensures j < |text| ==> IsSpace(text[j]) == space
    decreases |text| - i
  {
    if i == |text| || IsSpace(text[i]) == space then i else ScanTo(text, i + 1, space)
  }

  /** Maximal space-free runs at or after position `i`. */
  function WordsFrom(text: string, i: nat): (ws: seq<Word>)
    requires i <= |text|
    ensures forall k :: 0 <= k < |ws| ==> ws[k] != "" && NoSpaces(ws[k])
    decreases |text| - i
  {
    var start := ScanTo(text, i, false);
    if start == |text| then []
    else
      var end := ScanTo(text, start, true);
      [text[start..end]] + WordsFrom(text, end)
  }

  function Words(text: string): seq<Word> {
    WordsFrom(text, 0)
  }

  predicate AllSpaces(s: string) {
    forall i :: 0 <= i < |s| ==> s[i] in {' ', '\t', '\n', '\r', 11 as char, 12 as char}
  }

  /** `text` is the words in order, with spaces before, between and after them. */
  predicate Spaced(text: string, words: seq<Word>)
    decreases |words|
  {
    if words == [] then AllSpaces(text)
    else
      var w := words[0];
      exists i :: 0 <= i && i + |w| <= |text| && WordAt(text, w, i) && Spaced(text[i + |w|..], words[1..])
  }

  /** `w` stands at `i`, after spaces only, and ends where the text ends or a space follows. */
  predicate WordAt(text: string, w: Word, i: nat)
    requires i + |w| <= |text|
  {
    && w != "" && NoSpaces(w) && AllSpaces(text[..i]) && text[i..i + |w|] == w
    && (i + |w| < |text| ==> AllSpaces([text[i + |w|]]))
  }

  lemma SpacesAreSpaces(s: string)
    ensures AllSpaces(s) <==> forall i :: 0 <= i < |s| ==> IsSpace(s[i])
  {
  }

  lemma WordIsCut(text: string, from: nat, start: nat, end: nat)
    requires from <= start < end <= |text|
    requires forall k :: from <= k < start ==> IsSpace(text[k])
    requires forall k :: start <= k < end ==> !IsSpace(text[k])
    requires end < |text| ==> IsSpace(text[end])
    ensures var rest, i, w := text[from..], start - from, text[start..end];
      i + |w| <= |rest| && WordAt(rest, w, i) && rest[i + |w|..] == text[end..]
  {
    var rest, i := text[from..], start - from;
    SpacesAreSpaces(rest[..i]);
  }

  lemma SpacedFirst(text: string, w: Word, i: nat, rest: seq<Word>)
    requires i + |w| <= |text| && WordAt(text, w, i) && Spaced(text[i + |w|..], rest)
    ensures Spaced(text, [w] + rest)
  {
    var words := [w] + rest;
    assert words[0] == w && words[1..] == rest;
    assert WordAt(text, words[0], i) && Spaced(text[i + |words[0]|..], words[1..]);
  }

  /** The words cover the text: nothing but spaces is left out, and no two words touch. */
  lemma {:induction false} WordsCoverText(text: string, from: nat)
    requires from <= |text|
    ensures Spaced(text[from..], WordsFrom(text, from))
    decreases |text| - from
  {
    var start := ScanTo(text, from, false);
    if start == |text| {
      SpacesAreSpaces(text[from..]);
    } else {
      var end := ScanTo(text, start, true);
      WordIsCut(text, from, start, end);
      WordsCoverText(text, end);
      SpacedFirst(text[from..], text[start..end], start - from, WordsFrom(text, end));
    }
  }

  // ---------------------------------------------------------------- what counts as repetition

  predicate RunEndsAt(ws: seq<Word>, i: int) {
    3 <= i < |ws| && ws[i - 3] == ws[i - 2] == ws[i - 1] == ws[i]
  }

  ghost predicate FourInARow(ws: seq<Word>) {
    exists i :: RunEndsAt(ws, i)
  }

  /** How often `a` is immediately followed by `b`; occurrences may overlap. */
  function PairCount(ws: seq<Word>, a: Word, b: Word): nat {
    if |ws| < 2 then 0
    else
      PairCount(ws[..|ws| - 1], a, b) + if ws[|ws| - 2] == a && ws[|ws| - 1] == b then 1 else 0
  }

  predicate PairIsFrequent(ws: seq<Word>, i: int) {
    1 <= i < |ws| && PairCount(ws, ws[i - 1], ws[i]) >= 4
  }

  ghost predicate FrequentPair(ws: seq<Word>) {
    exists i :: PairIsFrequent(ws, i)
  }

  ghost predicate Repetitive(text: string) {
    |text| > MAX_LENGTH || FourInARow(Words(text)) || FrequentPair(Words(text))
  }

  // ---------------------------------------------------------------- the one-pass state

  /** Length of the run of equal words at the end. */
  function TailRun(ws: seq<Word>): nat {
    if |ws| < 2 then |ws|
    else if ws[|ws| - 1] == ws[|ws| - 2] then TailRun(ws[..|ws| - 1]) + 1
    else 1
  }

  function Last(ws: seq<Word>): Word {
    if ws == [] then "" else ws[|ws| - 1]
  }

  function Key(a: Word, b: Word): string {
    a + " " + b
  }

  /** The joined key loses nothing: words hold no space, so the first space is the joint. */
  lemma KeyIsInjective(a: Word, b: Word, c: Word, d: Word)
    requires NoSpaces(a) && NoSpaces(c) && Key(a, b) == Key(c, d)
    ensures a == c && b == d
  {
    var k := Key(a, b);
    assert k[|a|] == ' ' && k[|c|] == ' ';
    assert forall i :: 0 <= i < |a| ==> k[i] == a[i] && k[i] != ' ';
    assert forall i :: 0 <= i < |c| ==> k[i] == c[i] && k[i] != ' ';
    assert k[..|a|] == a && k[..|c|] == c;
    assert k[|a| + 1..] == b && k[|c| + 1..] == d;
  }

  predicate Clean(ws: seq<Word>) {
    forall i :: 0 <= i < |ws| ==> ws[i] != "" && NoSpaces(ws[i])
  }

  /** The map holds exactly the pair counts of the words read. */
  ghost predicate Counts(bigrams: map<string, nat>, ws: seq<Word>) {
    forall a: Word, b: Word {:trigger PairCount(ws, a, b)} {:trigger Key(a, b)} :: NoSpaces(a) ==>
      PairCount(ws, a, b) == if Key(a, b) in bigrams then bigrams[Key(a, b)] else 0
  }

  function Bumped(bigrams: map<string, nat>, key: string): map<string, nat> {
    bigrams[key := (if key in bigrams then bigrams[key] else 0) + 1]
  }

  lemma CountsAfter(bigrams: map<string, nat>, ws: seq<Word>, w: Word)
    requires ws != [] && Clean(ws) && Counts(bigrams, ws)
    ensures Counts(Bumped(bigrams, Key(Last(ws), w)), ws + [w])
  {
    var p, all := Last(ws), ws + [w];
    var bigrams' := Bumped(bigrams, Key(p, w));
    assert all[..|all| - 1] == ws;
    forall a: Word, b: Word | NoSpaces(a)
      ensures PairCount(all, a, b) == if Key(a, b) in bigrams' then bigrams'[Key(a, b)] else 0
    {
      assert PairCount(all, a, b) == PairCount(ws, a, b) + if p == a && w == b then 1 else 0;
      if Key(a, b) == Key(p, w) {
        KeyIsInjective(a, b, p, w);
      }
    }
  }

  /** The source stops at the i-th word: a run of four ends there, or a pair occurs a fourth time. */
  predicate Alarm(ws: seq<Word>, i: nat)
    requires i < |ws|
  {
    TailRun(ws[..i + 1]) >= 4 || (i >= 1 && PairCount(ws[..i + 1], ws[i - 1], ws[i]) >= 4)
  }

  lemma RunOfFour(ws: seq<Word>)
    ensures TailRun(ws) >= 4 <==> RunEndsAt(ws, |ws| - 1)
  {
    var n := |ws|;
    if n >= 4 {
      var a, b, c := ws[..n - 1], ws[..n - 2], ws[..n - 3];
      assert a[..|a| - 1] == b && b[..|b| - 1] == c;
      assert TailRun(c) >= 1;
      assert TailRun(b) == if b[n - 3] == b[n - 4] then TailRun(c) + 1 else 1;
      assert TailRun(a) == if a[n - 2] == a[n - 3] then TailRun(b) + 1 else 1;
    } else if n == 3 {
      assert ws[..2][..1] == ws[..1];
      assert TailRun(ws[..2]) <= 2;
    }
  }

  lemma {:induction false} PairCountGrows(ws: seq<Word>, n: nat, a: Word, b: Word)
    requires n <= |ws|
    ensures PairCount(ws[..n], a, b) <= PairCount(ws, a, b)
  {
    if n == |ws| {
      assert ws[..n] == ws;
    } else {
      var init := ws[..|ws| - 1];
      assert init[..n] == ws[..n];
      PairCountGrows(init, n, a, b);
    }
  }

  /** A pair that occurs four times occurs a fourth time somewhere. */
  lemma {:induction false} FourthTime(ws: seq<Word>, a: Word, b: Word) returns (i: nat)
    requires PairCount(ws, a, b) >= 4
    ensures i < |ws| && Alarm(ws, i)
  {
    i := |ws| - 1;
    assert ws[..i + 1] == ws;
    if !(ws[i - 1] == a && ws[i] == b) {
      var init := ws[..i];
      i := FourthTime(init, a, b);
      assert init[..i + 1] == ws[..i + 1];
    }
  }

  lemma AlarmMeansRepetition(ws: seq<Word>, i: nat)
    requires i < |ws| && Alarm(ws, i)
    ensures FourInARow(ws) || FrequentPair(ws)
  {
    if TailRun(ws[..i + 1]) >= 4 {
      RunOfFour(ws[..i + 1]);
      assert RunEndsAt(ws, i);
    } else {
      PairCountGrows(ws, i + 1, ws[i - 1], ws[i]);
      assert PairIsFrequent(ws, i);
    }
  }

  lemma RepetitionMeansAlarm(ws: seq<Word>) returns (i: nat)
    requires FourInARow(ws) || FrequentPair(ws)
    ensures i < |ws| && Alarm(ws, i)
  {
    if FourInARow(ws) {
      i :| RunEndsAt(ws, i);
      assert RunEndsAt(ws[..i + 1], i);
      RunOfFour(ws[..i + 1]);
    } else {
      i :| PairIsFrequent(ws, i);
      i := FourthTime(ws, ws[i - 1], ws[i]);
    }
  }

  /** None of the first `n` words stops the source. */
  predicate Quiet(ws: seq<Word>, n: nat)
    requires n <= |ws|
  {
    n == 0 || (Quiet(ws, n - 1) && !Alarm(ws, n - 1))
  }

  lemma {:induction false} QuietBefore(ws: seq<Word>, n: nat, i: nat)
    requires i < n <= |ws| && Quiet(ws, n)
    ensures !Alarm(ws, i)
  {
    if i < n - 1 {
      QuietBefore(ws, n - 1, i);
    }
  }

  /** Reading every word without stopping is the absence of repetition. */
  lemma QuietMeansNoRepetition(ws: seq<Word>)
    requires Quiet(ws, |ws|)
    ensures !FourInARow(ws) && !FrequentPair(ws)
  {
    if FourInARow(ws) || FrequentPair(ws) {
      var i := RepetitionMeansAlarm(ws);
      QuietBefore(ws, |ws|, i);
    }
  }

  /** How the source's locals follow the n-th word, and what they say about stopping there. */
  lemma OneMoreWord(ws: seq<Word>, n: nat, bigrams: map<string, nat>)
    requires n < |ws| && Clean(ws) && Counts(bigrams, ws[..n])
    ensures Last(ws[..n + 1]) == ws[n]
    ensures var run := if Last(ws[..n]) == ws[n] then TailRun(ws[..n]) + 1 else 1;
      var key := Key(Last(ws[..n]), ws[n]);
      var bigrams' := if n > 0 then Bumped(bigrams, key) else bigrams;
      && TailRun(ws[..n + 1]) == run
      && Counts(bigrams', ws[..n + 1])
      && (Alarm(ws, n) <==> run >= 4 || (n > 0 && bigrams'[key] >= 4))
  {
    var before, after := ws[..n], ws[..n + 1];
    assert after == before + [ws[n]] && after[..n] == before;
    if n > 0 {
      CountsAfter(bigrams, before, ws[n]);
      assert PairCount(after, ws[n - 1], ws[n]) == Bumped(bigrams, Key(ws[n - 1], ws[n]))[Key(ws[n - 1], ws[n])];
    }
  }

  /** The source's locals after `n` words, none of which raised an alarm. */
  ghost predicate Reads(ws: seq<Word>, n: nat, prev: Word, consec: nat, bigrams: map<string, nat>) {
    && n <= |ws| && Quiet(ws, n)
    && prev == Last(ws[..n]) && consec == TailRun(ws[..n]) && Counts(bigrams, ws[..n])
  }

  /** Reading the next word: it raises an alarm exactly if the source stops there. */
  lemma ReadsOn(ws: seq<Word>, n: nat, prev: Word, consec: nat, bigrams: map<string, nat>,
                cur: Word, run: nat, counted: map<string, nat>)
    requires Reads(ws, n, prev, consec, bigrams) && n < |ws| && Clean(ws) && cur == ws[n]
    requires run == if cur == prev then consec + 1 else 1
    requires counted == if prev != "" then Bumped(bigrams, Key(prev, cur)) else bigrams
    ensures Alarm(ws, n) <==> run >= 4 || (prev != "" && counted[Key(prev, cur)] >= 4)
    ensures !Alarm(ws, n) ==> Reads(ws, n + 1, cur, run, counted)
  {
    OneMoreWord(ws, n, bigrams);
    assert prev != "" <==> n > 0;
  }

  /** The source's detector. `pos` is the read position of its input stream. */
  method IsHallucination(text: string) returns (r: bool)
    ensures r <==> Repetitive(text)
    ensures r <==> |text| > 500 || FourInARow(Words(text)) || FrequentPair(Words(text))
  {
    if |text| > MAX_LENGTH {
      return true;
    }
    var bigrams: map<string, nat> := map[];
    var prev, consec, pos := "", 0, 0;
    ghost var ws, n := Words(text), 0;
    while true
      invariant pos <= |text| && n <= |ws| && Clean(ws)
      invariant WordsFrom(text, pos) == ws[n..]
      invariant Reads(ws, n, prev, consec, bigrams)
      decreases |text| - pos
    {
      var start := ScanTo(text, pos, false);
      if start == |text| {
        assert n == |ws|;
        QuietMeansNoRepetition(ws);
        return false;
      }
      var end := ScanTo(text, start, true);
      var cur := text[start..end];
      assert cur == ws[n] && WordsFrom(text, end) == ws[n + 1..];
      ghost var counted := if prev != "" then Bumped(bigrams, Key(prev, cur)) else bigrams;
      ReadsOn(ws, n, prev, consec, bigrams, cur, if cur == prev then consec + 1 else 1, counted);
      AlarmIsRepetition(text, ws, n);
      if cur == prev {
        consec := consec + 1;
        if consec >= 4 {
          return true;
        }
      } else {
        consec := 1;
      }
      if prev != "" {
        var key := Key(prev, cur);
        bigrams := Bumped(bigrams, key);
        if bigrams[key] >= 4 {
          return true;
        }
      }
      prev, pos, n := cur, end, n + 1;
    }
  }

  lemma AlarmIsRepetition(text: string, ws: seq<Word>, n: nat)
    requires n < |ws| && ws == Words(text)
    ensures Alarm(ws, n) ==> Repetitive(text)
  {
    if Alarm(ws, n) {
      AlarmMeansRepetition(ws, n);
    }
  }
}
