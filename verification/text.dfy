/** String assembly: the joins that build words and phrases, and the split
    that a phrase's reader applies to recover its words. */
module Text {

  const Space: char := ' '

  /** `Array.prototype.join('')`: the phonemes concatenated in order. */
  function Concat(ps: seq<string>): string {
    if |ps| == 0 then "" else Concat(ps[..|ps| - 1]) + ps[|ps| - 1]
  }

  lemma ConcatSnoc(ps: seq<string>, p: string)
    ensures Concat(ps + [p]) == Concat(ps) + p
  {
    assert (ps + [p])[..|ps|] == ps;
  }

  /** Concatenating one-character phonemes spells them out character by character. */
  lemma {:induction false} ConcatOfUnits(ps: seq<string>)
    requires forall i | 0 <= i < |ps| :: |ps[i]| == 1
    ensures |Concat(ps)| == |ps|
    ensures forall i | 0 <= i < |ps| :: Concat(ps)[i] == ps[i][0]
  {
    if |ps| > 0 {
      var init := ps[..|ps| - 1];
      ConcatOfUnits(init);
      assert forall i | 0 <= i < |init| :: init[i] == ps[i];
    }
  }

  /** A character that occurs in no phoneme does not occur in their concatenation. */
  lemma {:induction false} ConcatAvoids(ps: seq<string>, c: char)
    requires forall i | 0 <= i < |ps| :: c !in ps[i]
    ensures c !in Concat(ps)
  {
    if |ps| > 0 {
      ConcatAvoids(ps[..|ps| - 1], c);
    }
  }

  /** `Array.prototype.join(sep)`: the strings with one separator between neighbours. */
  function Join(ws: seq<string>, sep: char): string {
    if |ws| == 0 then ""
    else if |ws| == 1 then ws[0]
    else ws[0] + [sep] + Join(ws[1..], sep)
  }

  /** `String.prototype.split(sep)` for a one-character separator: the maximal
      separator-free pieces, so the empty string splits into one empty piece. */
  function Split(s: string, sep: char): (r: seq<string>)
    ensures |r| >= 1
  {
    if |s| == 0 then [""]
    else if s[0] == sep then [""] + Split(s[1..], sep)
    else
      var rest := Split(s[1..], sep);
      [[s[0]] + rest[0]] + rest[1..]
  }

  lemma {:induction false} SplitSeparatorFree(w: string, sep: char)
    requires sep !in w
    ensures Split(w, sep) == [w]
  {
    if |w| > 0 {
      SplitSeparatorFree(w[1..], sep);
      assert [w[0]] + w[1..] == w;
    }
  }

  lemma {:induction false} SplitAfterWord(w: string, sep: char, t: string)
    requires sep !in w
    ensures Split(w + [sep] + t, sep) == [w] + Split(t, sep)
  {
    var s := w + [sep] + t;
    if |w| == 0 {
      assert s == [sep] + t;
      assert s[1..] == t;
    } else {
      assert s[1..] == w[1..] + [sep] + t;
      SplitAfterWord(w[1..], sep, t);
      assert [w[0]] + w[1..] == w;
    }
  }

  /** Splitting a join recovers the joined strings when none contains the
      separator. */
  lemma {:induction false} SplitJoin(ws: seq<string>, sep: char)
    requires |ws| >= 1
    requires forall i | 0 <= i < |ws| :: sep !in ws[i]
    ensures Split(Join(ws, sep), sep) == ws
  {
    if |ws| == 1 {
      SplitSeparatorFree(ws[0], sep);
    } else {
      SplitJoin(ws[1..], sep);
      SplitAfterWord(ws[0], sep, Join(ws[1..], sep));
      assert [ws[0]] + ws[1..] == ws;
    }
  }
}
