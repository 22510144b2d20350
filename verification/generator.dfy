/** Word and phrase generation (index.js:139-172): a random walk over the
    graph whose length target is drawn per word.  Each random draw is a
    nondeterministic choice; every contract below holds for every draw. */
module Generator {
  import opened Wrappers
  import opened Numbers
  import opened Graphs
  import opened Text

  /** A generated word: the drawn length target and the phonemes chosen. */
  datatype Word = Word(target: int, phonemes: seq<string>) {
    /** The word as returned: the phonemes joined with no separator. */
    function Spelling(): string {
      Concat(phonemes)
    }
  }

  /** A generated phrase: its words, joined with single spaces. */
  datatype Phrase = Phrase(words: seq<Word>) {
    function Spelling(): string {
      Join(Spellings(words), Space)
    }
  }

  function Spellings(ws: seq<Word>): (r: seq<string>)
    ensures |r| == |ws|
    ensures forall i | 0 <= i < |ws| :: r[i] == ws[i].Spelling()
  {
    if |ws| == 0 then [] else [ws[0].Spelling()] + Spellings(ws[1..])
  }

  datatype GenError =
    /** "A phoneme set must be provided as an adjacency list!" */
    | MissingGraph
    /** The draw after `walk` had nothing to draw from (no keys, or the previous
        phoneme has no entry or an empty list), so reading the drawn phoneme's
        length throws a TypeError. */
    | Undefined(target: int, walk: seq<string>)

  /** `_.random(1, maxChars)`: lodash swaps reversed bounds, so the target lies
      between 1 and `maxChars` whichever is larger. */
  predicate Drawn(maxChars: int, target: int) {
    Min(1, maxChars) <= target <= Max(1, maxChars)
  }

  /** The walk restarts from the keys when nothing, or the empty phoneme,
      precedes it (`!prev`); otherwise it follows an edge of the previous phoneme. */
  predicate Restarts(walk: seq<string>) {
    |walk| == 0 || walk[|walk| - 1] == ""
  }

  /** `p` may be drawn after `walk`. */
  predicate CanFollow(g: Graph, walk: seq<string>, p: string) {
    if Restarts(walk) then p in g
    else walk[|walk| - 1] in g && p in g[walk[|walk| - 1]]
  }

  /** The draw after `walk` has nothing to choose from. */
  predicate Blocked(g: Graph, walk: seq<string>) {
    if Restarts(walk) then |g| == 0
    else walk[|walk| - 1] !in g || |g[walk[|walk| - 1]]| == 0
  }

  /** Every phoneme was drawn legally after the ones before it. */
  predicate IsWalk(g: Graph, ps: seq<string>) {
    forall i | 0 <= i < |ps| :: CanFollow(g, ps[..i], ps[i])
  }

  /** Every phoneme was drawn while the word was still shorter than the target. */
  predicate Underway(target: int, ps: seq<string>) {
    forall i | 0 <= i < |ps| :: |Concat(ps[..i])| < target
  }

  /** The possible successful outcomes of one word for a given target. */
  predicate Finished(g: Graph, target: int, ps: seq<string>) {
    IsWalk(g, ps) && Underway(target, ps) && |Concat(ps)| >= target
  }

  /** The possible failing outcomes: the walk got stuck short of the target. */
  predicate StuckAt(g: Graph, target: int, ps: seq<string>) {
    IsWalk(g, ps) && Underway(target, ps) && |Concat(ps)| < target && Blocked(g, ps)
  }

  /** A word that `MakeWord(maxChars, g)` may return. */
  predicate Sampled(g: Graph, maxChars: int, w: Word) {
    Drawn(maxChars, w.target) && Finished(g, w.target, w.phonemes)
  }

  /** Nothing can be drawn exactly when the draw is blocked. */
  lemma BlockedIffNoChoice(g: Graph, walk: seq<string>)
    ensures Blocked(g, walk) <==> forall p :: !CanFollow(g, walk, p)
  {
    if !Blocked(g, walk) {
      if Restarts(walk) {
        assert g.Keys != {};
        var p :| p in g.Keys;
        assert CanFollow(g, walk, p);
      } else {
        var prev := walk[|walk| - 1];
        assert CanFollow(g, walk, g[prev][0]);
      }
    }
  }

  lemma {:induction false} ExtendWalk(g: Graph, target: int, ps: seq<string>, p: string)
    requires IsWalk(g, ps) && Underway(target, ps)
    requires CanFollow(g, ps, p) && |Concat(ps)| < target
    ensures IsWalk(g, ps + [p]) && Underway(target, ps + [p])
  {
    var ps' := ps + [p];
    assert ps'[..|ps|] == ps;
    forall i | 0 <= i < |ps|
      ensures ps'[..i] == ps[..i] && ps'[i] == ps[i]
    {
    }
  }

  /** The loop stops at the first phoneme that reaches the target, so the
      word overshoots the target by less than its last phoneme. */
  lemma {:induction false} FinishedBounds(g: Graph, target: int, ps: seq<string>)
    requires Finished(g, target, ps) && target >= 1
    ensures |ps| >= 1
    ensures target <= |Concat(ps)| <= target - 1 + |ps[|ps| - 1]|
  {
    assert |ps| >= 1;
    assert |Concat(ps[..|ps| - 1])| < target;
  }

  /** One draw (index.js:150-156): a key when the walk restarts, otherwise a
      member of the previous phoneme's edge list; `None` is lodash's
      `undefined` from sampling nothing. */
  method Draw(g: Graph, walk: seq<string>) returns (next: Option<string>)
    ensures next.None? <==> Blocked(g, walk)
    ensures next.Some? ==> CanFollow(g, walk, next.value)
  {
    if Restarts(walk) {
      if |g| == 0 {
        return None;
      }
      assert g.Keys != {};
      var p :| p in g.Keys;
      return Some(p);
    } else {
      var prev := walk[|walk| - 1];
      if prev !in g || |g[prev]| == 0 {
        return None;
      }
      var j :| 0 <= j < |g[prev]|;
      return Some(g[prev][j]);
    }
  }

  /** On a well-formed graph a walk stays on keys and never gets stuck. */
  lemma WellFormedWalk(g: Graph, ps: seq<string>, p: string)
    requires WellFormed(g) && CanFollow(g, ps, p)
    requires forall i | 0 <= i < |ps| :: ps[i] in g
    ensures !Blocked(g, ps)
    ensures forall i | 0 <= i < |ps + [p]| :: (ps + [p])[i] in g
  {
  }

  /** The loop of index.js:149-159: draw and append phonemes while the
      word is shorter than `target`; `stuck` when a draw finds nothing. */
  method Walk(g: Graph, target: int) returns (ps: seq<string>, stuck: bool)
    requires "" !in g
    ensures stuck ==> StuckAt(g, target, ps)
    ensures !stuck ==> Finished(g, target, ps)
    ensures target < 1 ==> !stuck && ps == []
    ensures WellFormed(g) ==> !stuck
  {
    ps := [];
    var chars := 0;
    while chars < target
      invariant chars == |Concat(ps)|
      invariant IsWalk(g, ps) && Underway(target, ps)
      invariant target < 1 ==> ps == []
      invariant WellFormed(g) ==> forall i | 0 <= i < |ps| :: ps[i] in g
      decreases target - chars, if Restarts(ps) then 0 else 1
    {
      var next := Draw(g, ps);
      if next.None? {
        return ps, true;
      }
      if WellFormed(g) {
        WellFormedWalk(g, ps, next.value);
      }
      ExtendWalk(g, target, ps, next.value);
      ConcatSnoc(ps, next.value);
      chars := chars + |next.value|;
      ps := ps + [next.value];
    }
    return ps, false;
  }

  method MakeWord(maxChars: int, sets: Option<Graph>) returns (r: Result<Word, GenError>)
    requires sets.Some? ==> "" !in sets.value
    ensures sets.None? <==> r == Err(MissingGraph)
    ensures r.Ok? ==> Sampled(sets.value, maxChars, r.value)
    ensures r.Ok? && r.value.target >= 1 ==>
              var ps := r.value.phonemes;
              && |ps| >= 1
              && r.value.target <= |r.value.Spelling()| <= r.value.target - 1 + |ps[|ps| - 1]|
    ensures r.Ok? && r.value.target < 1 ==> r.value.phonemes == []
    ensures r.Err? && sets.Some? ==>
              && r.error.Undefined?
              && Drawn(maxChars, r.error.target)
              && StuckAt(sets.value, r.error.target, r.error.walk)
    ensures sets.Some? && WellFormed(sets.value) ==> r.Ok?
  {
    if sets.None? {
      return Err(MissingGraph);
    }
    var g := sets.value;
    var target :| Min(1, maxChars) <= target <= Max(1, maxChars);
    var ps, stuck := Walk(g, target);
    if stuck {
      return Err(Undefined(target, ps));
    }
    if target >= 1 {
      FinishedBounds(g, target, ps);
    }
    return Ok(Word(target, ps));
  }

  /** `Number.MAX_SAFE_INTEGER`, 2^53 - 1. */
  const MaxSafeInteger: int := 0x1F_FFFF_FFFF_FFFF

  /** How often lodash's `_.times(n, f)` calls `f`: never when `n` is below 1
      or above `Number.MAX_SAFE_INTEGER`, otherwise `n` times. */
  function Times(n: int): nat {
    if n < 1 || n > MaxSafeInteger then 0 else n
  }

  method MakePhrase(numWords: int, maxChars: int, sets: Option<Graph>) returns (r: Result<Phrase, GenError>)
    requires sets.Some? ==> "" !in sets.value
    ensures sets.None? <==> r == Err(MissingGraph)
    ensures r.Ok? ==> |r.value.words| == Times(numWords)
    ensures r.Ok? ==> forall i | 0 <= i < |r.value.words| :: Sampled(sets.value, maxChars, r.value.words[i])
    ensures r.Err? && sets.Some? ==>
              && Times(numWords) >= 1
              && r.error.Undefined?
              && Drawn(maxChars, r.error.target)
              && StuckAt(sets.value, r.error.target, r.error.walk)
    ensures sets.Some? && Times(numWords) == 0 ==> r == Ok(Phrase([]))
    ensures sets.Some? && WellFormed(sets.value) ==> r.Ok?
  {
    if sets.None? {
      return Err(MissingGraph);
    }
    var words: seq<Word> := [];
    var n := 0;
    while n < Times(numWords)
      invariant 0 <= n <= Times(numWords) && |words| == n
      invariant forall i | 0 <= i < n :: Sampled(sets.value, maxChars, words[i])
    {
      var w := MakeWord(maxChars, sets);
      if w.Err? {
        return Err(w.error);
      }
      words := words + [w.value];
      n := n + 1;
    }
    return Ok(Phrase(words));
  }

  /** Each phoneme of a walk is a key of the graph or an edge target of one. */
  lemma WalkPhonemesInGraph(g: Graph, ps: seq<string>, i: int)
    requires IsWalk(g, ps) && 0 <= i < |ps|
    ensures ps[i] in g || (ps[i - 1] in g && ps[i] in g[ps[i - 1]])
  {
    assert CanFollow(g, ps[..i], ps[i]);
    if i > 0 {
      assert ps[..i][i - 1] == ps[i - 1];
    }
  }

  /** On a graph of one-character phonemes a word never exceeds `maxChars`. */
  lemma {:induction false} UnitWordWithinMaxChars(g: Graph, maxChars: int, w: Word)
    requires UnitPhonemes(g) && Sampled(g, maxChars, w) && maxChars >= 1
    ensures |w.Spelling()| <= maxChars
  {
    var ps := w.phonemes;
    forall i | 0 <= i < |ps| ensures |ps[i]| == 1 {
      WalkPhonemesInGraph(g, ps, i);
    }
    ConcatOfUnits(ps);
    if |ps| > 0 {
      var init := ps[..|ps| - 1];
      ConcatOfUnits(init);
      assert |Concat(init)| < w.target;
    }
  }

  /** On a closed graph of one-character phonemes, every letter of a word is
      a key and every letter is an edge target of the letter before it. */
  lemma UnitWordFollowsEdges(g: Graph, maxChars: int, w: Word)
    requires UnitPhonemes(g) && Closed(g) && Sampled(g, maxChars, w)
    ensures var s := w.Spelling();
            && (forall i | 0 <= i < |s| :: [s[i]] in g)
            && (forall i | 0 <= i < |s| - 1 :: [s[i + 1]] in g[[s[i]]])
  {
    var ps := w.phonemes;
    forall i | 0 <= i < |ps| ensures ps[i] in g && |ps[i]| == 1 {
      WalkPhonemesInGraph(g, ps, i);
    }
    ConcatOfUnits(ps);
    var s := w.Spelling();
    forall i | 0 <= i < |s| ensures [s[i]] == ps[i] {
      assert |ps[i]| == 1;
    }
    forall i | 0 <= i < |s| - 1 ensures [s[i + 1]] in g[[s[i]]] {
      assert CanFollow(g, ps[..i + 1], ps[i + 1]);
      assert ps[..i + 1][i] == ps[i];
    }
  }

  /** The graph the corpus builder makes from "  ab" with windows of width 2. */
  const EmptyKeyGraph: Graph := map["" := ["ab"]]

  /** On that graph every draw is a restart that yields `""`, so the word
      never grows and never gets stuck: for a target of at least 1 no walk
      finishes and none fails, which is why `makeWord` never returns. */
  lemma {:induction false} EmptyKeyGraphHangs(target: int, ps: seq<string>)
    requires IsWalk(EmptyKeyGraph, ps)
    ensures forall i | 0 <= i < |ps| :: ps[i] == ""
    ensures Concat(ps) == "" && !Blocked(EmptyKeyGraph, ps)
    ensures target >= 1 ==> !Finished(EmptyKeyGraph, target, ps) && !StuckAt(EmptyKeyGraph, target, ps)
  {
    if |ps| > 0 {
      var init := ps[..|ps| - 1];
      assert forall i | 0 <= i < |init| :: init[..i] == ps[..i];
      EmptyKeyGraphHangs(target, init);
      assert ps[..|ps| - 1] == init;
      assert CanFollow(EmptyKeyGraph, init, ps[|ps| - 1]);
    }
  }

  /** The well-formed three-letter example graph: `b` has no self-edge. */
  const ValidSet: Graph := map["a" := ["a", "b", "c", "c"], "b" := ["a", "c"], "c" := ["a", "c"]]

  /** No word generated from the example graph contains "bb", and none is
      longer than `maxChars`. */
  lemma ValidSetWords(maxChars: int, w: Word)
    requires Sampled(ValidSet, maxChars, w)
    ensures forall i | 0 <= i < |w.Spelling()| - 1 :: !(w.Spelling()[i] == 'b' && w.Spelling()[i + 1] == 'b')
    ensures maxChars >= 1 ==> |w.Spelling()| <= maxChars
  {
    assert UnitPhonemes(ValidSet) && Closed(ValidSet);
    UnitWordFollowsEdges(ValidSet, maxChars, w);
    if maxChars >= 1 {
      UnitWordWithinMaxChars(ValidSet, maxChars, w);
    }
    var s := w.Spelling();
    forall i | 0 <= i < |s| - 1 ensures !(s[i] == 'b' && s[i + 1] == 'b') {
      assert [s[i + 1]] in ValidSet[[s[i]]];
    }
  }

  /** Each word's spelling avoids `c` when no phoneme of the graph contains it. */
  lemma WordAvoids(g: Graph, maxChars: int, w: Word, c: char)
    requires Avoids(g, c) && Sampled(g, maxChars, w)
    ensures c !in w.Spelling()
  {
    forall i | 0 <= i < |w.phonemes| ensures c !in w.phonemes[i] {
      WalkPhonemesInGraph(g, w.phonemes, i);
    }
    ConcatAvoids(w.phonemes, c);
  }

  /** Splitting a phrase on spaces gives back its words, so a phrase of n >= 1
      words has n tokens, provided no phoneme contains a space; 0 words give "". */
  lemma PhraseTokens(g: Graph, maxChars: int, p: Phrase)
    requires Avoids(g, Space)
    requires forall i | 0 <= i < |p.words| :: Sampled(g, maxChars, p.words[i])
    ensures |p.words| == 0 ==> p.Spelling() == ""
    ensures |p.words| >= 1 ==> Split(p.Spelling(), Space) == Spellings(p.words)
  {
    var ss := Spellings(p.words);
    forall i | 0 <= i < |ss| ensures Space !in ss[i] {
      WordAvoids(g, maxChars, p.words[i], Space);
    }
    if |p.words| >= 1 {
      SplitJoin(ss, Space);
    }
  }
}
