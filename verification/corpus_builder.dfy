/** The corpus graph builder (index.js:97-137): non-overlapping windows of
    width L, each filtered to lower-case ASCII letters, each followed by the
    filtered next window. */
module CorpusBuilder {
  import opened Wrappers
  import opened Numbers
  import opened Graphs
  import Validator

  predicate IsLower(c: char) {
    'a' <= c <= 'z'
  }

  /** `s.replace(/[^a-z]/g, '')`: the lower-case ASCII letters of `s`, in order. */
  function Strip(s: string): (r: string)
    ensures |r| <= |s|
    ensures forall i | 0 <= i < |r| :: IsLower(r[i])
  {
    if |s| == 0 then ""
    else (if IsLower(s[0]) then [s[0]] else []) + Strip(s[1..])
  }

  /** Filtering keeps exactly the lower-case letters of the text. */
  lemma {:induction false} StripKeepsLetters(s: string)
    ensures forall c :: c in Strip(s) <==> c in s && IsLower(c)
  {
    if |s| > 0 {
      StripKeepsLetters(s[1..]);
      assert s == [s[0]] + s[1..];
    }
  }

  /** Filtering is an in-order filter: a single character is kept exactly
      when it is a lower-case letter, and filtering distributes over
      concatenation, so the kept letters stay in input order. */
  lemma {:induction false} StripIsFilter(a: string, b: string)
    ensures |a| == 1 ==> Strip(a) == if IsLower(a[0]) then a else ""
    ensures Strip(a + b) == Strip(a) + Strip(b)
  {
    if |a| > 0 {
      StripIsFilter(a[1..], b);
      assert (a + b)[1..] == a[1..] + b;
      if |a| == 1 {
        assert a[1..] == "";
      }
    } else {
      assert a + b == b;
    }
  }

  /** A visited window: its filtered text and the filtered text of the window after it. */
  datatype Window = Window(key: string, next: string)

  /** The windows the builder visits: those starting at 0, L, 2L, ... strictly
      below |c| - L, each paired with the following L characters (fewer at the
      end of the corpus). */
  function Windows(c: string, L: int): (ws: seq<Window>)
    requires L > 0
    ensures forall j | 0 <= j < |ws| :: |ws[j].key| <= L && |ws[j].next| <= L
    decreases |c|
  {
    if |c| <= L then []
    else [Window(Strip(c[..L]), Strip(c[L..Min(2 * L, |c|)]))] + Windows(c[L..], L)
  }

  /** The keys registered by the windows `ws`, the empty string included. */
  function KeysOf(ws: seq<Window>): set<string> {
    set j | 0 <= j < |ws| :: ws[j].key
  }

  /** The non-empty followers of the windows keyed `k`, in corpus order,
      duplicates kept. */
  function EdgesOf(ws: seq<Window>, k: string): seq<string> {
    if |ws| == 0 then []
    else
      var w := ws[|ws| - 1];
      EdgesOf(ws[..|ws| - 1], k) + (if w.key == k && w.next != "" then [w.next] else [])
  }

  /** The graph the windows `ws` describe. */
  function CorpusGraph(ws: seq<Window>): Graph {
    map k | k in KeysOf(ws) :: EdgesOf(ws, k)
  }

  /** Thrown for a falsy or negative window width. */
  datatype CorpusError = InvalidPhonemeLength(length: int)

  /** A corpus no longer than one window is reported and yields `{}` without
      being persisted; otherwise the built graph is persisted and returned.
      `Lists` is the map the builder returns in either case. */
  datatype CorpusOutcome = TooShort | Persisted(graph: Graph) {
    function Lists(): Graph {
      if TooShort? then map[] else graph
    }
  }

  method GenerateAdjacencyListsFromCorpus(corpus: string, phonemeLength: int)
    returns (r: Result<CorpusOutcome, CorpusError>)
    ensures r.Err? <==> phonemeLength <= 0
    ensures r.Err? ==> r.error == InvalidPhonemeLength(phonemeLength)
    ensures r.Ok? ==> (r.value.TooShort? <==> |corpus| <= phonemeLength)
    ensures r.Ok? && r.value.Persisted? ==>
              r.value.graph == CorpusGraph(Windows(corpus, phonemeLength))
    ensures r.Ok? ==> r.value.Lists() == CorpusGraph(Windows(corpus, phonemeLength))
  {
    if phonemeLength <= 0 {
      return Err(InvalidPhonemeLength(phonemeLength));
    }
    var L := phonemeLength;
    var end := |corpus|;
    if end <= L {
      assert CorpusGraph([]) == map[];
      return Ok(TooShort);
    }
    var h: Graph := map[];
    var i := 0;
    ghost var done: seq<Window> := [];
    assert corpus[i..] == corpus;
    while i < end - L
      invariant 0 <= i <= end
      invariant Windows(corpus, L) == done + Windows(corpus[i..], L)
      invariant h == CorpusGraph(done)
      decreases end - i
    {
      ghost var h0 := h;
      var chars := Strip(corpus[i..i + L]);
      if chars !in h {
        h := h[chars := []];
      }
      var next := Strip(corpus[i + L..Min(i + 2 * L, end)]);
      if next != "" {
        h := h[chars := h[chars] + [next]];
      }
      assert h == AddWindow(h0, Window(chars, next));
      WindowsAdvance(corpus, L, i, done);
      CorpusGraphSnoc(done, Window(chars, next));
      done := done + [Window(chars, next)];
      i := i + L;
    }
    assert Windows(corpus[i..], L) == [];
    assert done == Windows(corpus, L);
    return Ok(Persisted(h));
  }

  lemma WindowsStep(c: string, L: int, i: int)
    requires L > 0 && 0 <= i && i + L < |c|
    ensures Windows(c[i..], L)
         == [Window(Strip(c[i..i + L]), Strip(c[i + L..Min(i + 2 * L, |c|)]))]
            + Windows(c[i + L..], L)
  {
    var s := c[i..];
    assert s[..L] == c[i..i + L];
    assert s[L..Min(2 * L, |s|)] == c[i + L..Min(i + 2 * L, |c|)];
    assert s[L..] == c[i + L..];
  }

  lemma {:induction false} WindowsAdvance(c: string, L: int, i: int, done: seq<Window>)
    requires L > 0 && 0 <= i && i + L < |c|
    requires Windows(c, L) == done + Windows(c[i..], L)
    ensures Windows(c, L)
         == done + [Window(Strip(c[i..i + L]), Strip(c[i + L..Min(i + 2 * L, |c|)]))]
            + Windows(c[i + L..], L)
  {
    WindowsStep(c, L, i);
  }

  lemma EdgesOfUnregistered(ws: seq<Window>, k: string)
    requires k !in KeysOf(ws)
    ensures EdgesOf(ws, k) == []
  {
    if |ws| > 0 {
      assert KeysOf(ws[..|ws| - 1]) <= KeysOf(ws);
      EdgesOfUnregistered(ws[..|ws| - 1], k);
    }
  }

  /** One loop iteration: register the window's key with an empty list if it
      is new, then append its follower when that is non-empty. */
  function AddWindow(h: Graph, w: Window): Graph {
    var h1 := if w.key in h then h else h[w.key := []];
    if w.next != "" then h1[w.key := h1[w.key] + [w.next]] else h1
  }

  lemma CorpusGraphSnoc(ws: seq<Window>, w: Window)
    ensures CorpusGraph(ws + [w]) == AddWindow(CorpusGraph(ws), w)
  {
    var ws' := ws + [w];
    assert ws'[..|ws|] == ws;
    assert KeysOf(ws') == KeysOf(ws) + {w.key} by {
      forall k | k in KeysOf(ws') ensures k in KeysOf(ws) + {w.key} {
        var j :| 0 <= j < |ws'| && ws'[j].key == k;
        if j < |ws| { assert ws[j].key == k; }
      }
      forall k | k in KeysOf(ws) ensures k in KeysOf(ws') {
        var j :| 0 <= j < |ws| && ws[j].key == k;
        assert ws'[j].key == k;
      }
      assert ws'[|ws|].key == w.key;
    }
    if w.key !in KeysOf(ws) {
      EdgesOfUnregistered(ws, w.key);
    }
    var a, b := CorpusGraph(ws'), AddWindow(CorpusGraph(ws), w);
    assert a.Keys == b.Keys;
    forall k | k in a ensures a[k] == b[k] {
      assert a[k] == EdgesOf(ws, k) + (if w.key == k && w.next != "" then [w.next] else []);
    }
  }

  /** The window visited at position p: the filtered text of its L
      characters and of the (possibly shorter) L characters after them. */
  function WindowFrom(c: string, L: int, p: int): Window
    requires L > 0 && 0 <= p && p + L < |c|
  {
    Window(Strip(c[p..p + L]), Strip(c[p + L..Min(p + 2 * L, |c|)]))
  }

  /** The start of window j, counted out by steps of L. */
  function Start(j: nat, L: int): int {
    if j == 0 then 0 else Start(j - 1, L) + L
  }

  lemma {:induction false} StartIsProduct(j: nat, L: int)
    ensures Start(j, L) == j * L
  {
    if j > 0 {
      StartIsProduct(j - 1, L);
      assert (j - 1) * L + L == j * L;
    }
  }

  /** The window at index j starts at j * L; it is visited exactly when
      j * L < |c| - L, so a last full window ending at the corpus end is not. */
  lemma {:induction false} WindowAt(c: string, L: int, j: nat)
    requires L > 0
    ensures j < |Windows(c, L)| <==> j * L < |c| - L
    ensures j < |Windows(c, L)| ==> Windows(c, L)[j] == WindowFrom(c, L, j * L)
  {
    StartIsProduct(j, L);
    WindowAtStart(c, L, j);
  }

  lemma {:induction false} WindowAtStart(c: string, L: int, j: nat)
    requires L > 0
    ensures Start(j, L) >= 0
    ensures j < |Windows(c, L)| <==> Start(j, L) < |c| - L
    ensures j < |Windows(c, L)| ==> Windows(c, L)[j] == WindowFrom(c, L, Start(j, L))
    decreases j
  {
    if j == 0 {
    } else {
      var p := Start(j, L);
      if |c| <= L {
        WindowAtStart(c, L, j - 1);
      } else {
        var d := c[L..];
        WindowAtStart(d, L, j - 1);
        assert p - L == Start(j - 1, L);
        if j < |Windows(c, L)| {
          assert Windows(c, L)[j] == Windows(d, L)[j - 1];
          WindowFromShift(c, L, p);
        }
      }
    }
  }

  lemma WindowFromShift(c: string, L: int, p: int)
    requires L > 0 && L <= p && p + L < |c|
    ensures WindowFrom(c[L..], L, p - L) == WindowFrom(c, L, p)
  {
    var d := c[L..];
    assert d[p - L..p] == c[p..p + L];
    var hi := Min(p + L, |d|);
    assert hi + L == Min(p + 2 * L, |c|);
    assert forall i | p <= i < hi :: d[i] == c[i + L];
    assert d[p..hi] == c[p + L..hi + L];
  }

  /** Each visited window's follower is the text of the next visited window. */
  predicate Chained(ws: seq<Window>) {
    forall j | 0 <= j < |ws| - 1 :: ws[j].next == ws[j + 1].key
  }

  lemma {:induction false} WindowsChained(c: string, L: int)
    requires L > 0
    ensures Chained(Windows(c, L))
    decreases |c|
  {
    if |c| > L {
      var d := c[L..];
      WindowsChained(d, L);
      if |Windows(d, L)| > 0 {
        assert d[..L] == c[L..2 * L];
      }
    }
  }

  lemma {:induction false} EarlyEdgesAreKeys(ws: seq<Window>, k: string, m: int)
    requires Chained(ws) && 0 <= m < |ws|
    ensures forall x | x in EdgesOf(ws[..m], k) :: x in KeysOf(ws)
  {
    if m > 0 {
      EarlyEdgesAreKeys(ws, k, m - 1);
      assert ws[..m][..m - 1] == ws[..m - 1];
      assert ws[m - 1].next == ws[m].key;
    }
  }

  /** Every edge target of a corpus graph is a key, except possibly the last
      target of the last visited window's key: the follower appended on the
      final iteration, whose window is never visited. */
  lemma CorpusGraphNearlyClosed(c: string, L: int)
    requires L > 0
    ensures var ws := Windows(c, L);
            var h := CorpusGraph(ws);
            forall k, i | k in h && 0 <= i < |h[k]| ::
              h[k][i] != ""
              && (h[k][i] in h
                  || (k == ws[|ws| - 1].key && i == |h[k]| - 1 && h[k][i] == ws[|ws| - 1].next))
  {
    var ws := Windows(c, L);
    var h := CorpusGraph(ws);
    WindowsChained(c, L);
    forall k, i | k in h && 0 <= i < |h[k]|
      ensures h[k][i] != ""
      ensures h[k][i] in h
              || (k == ws[|ws| - 1].key && i == |h[k]| - 1 && h[k][i] == ws[|ws| - 1].next)
    {
      var n := |ws|;
      var early := EdgesOf(ws[..n - 1], k);
      EarlyEdgesAreKeys(ws, k, n - 1);
      EdgesNonEmpty(ws, k);
      assert h[k] == EdgesOf(ws, k);
      assert h[k][i] in EdgesOf(ws, k);
      if i < |early| {
        assert h[k][i] == early[i];
      }
    }
  }

  lemma {:induction false} EdgesNonEmpty(ws: seq<Window>, k: string)
    ensures forall x | x in EdgesOf(ws, k) :: x != ""
  {
    if |ws| > 0 {
      EdgesNonEmpty(ws[..|ws| - 1], k);
    }
  }

  /** Hence the validator warns at most once about a corpus graph. */
  lemma CorpusGraphWarnsAtMostOnce(c: string, L: int, order: seq<string>)
    requires L > 0
    requires IsKeyOrder(CorpusGraph(Windows(c, L)), order)
    ensures |Validator.ValidateAdjList(CorpusGraph(Windows(c, L)), order)| <= 1
  {
    var ws := Windows(c, L);
    var h := CorpusGraph(ws);
    CorpusGraphNearlyClosed(c, L);
    Validator.ValidateAdjListCount(h, order);
    var sinks := Validator.SinkPositions(h, h.Keys);
    if |ws| == 0 {
      assert h == map[];
      assert sinks == {};
    } else {
      var last := ws[|ws| - 1].key;
      forall p | p in sinks ensures p == (last, |h[last]| - 1) {
        assert h[p.0][p.1] !in h;
      }
      if sinks != {} {
        var p :| p in sinks;
        assert sinks == {p};
      }
    }
  }

  /** "abcd" with width 2 visits only the window at 0: the full window "cd"
      ending at the corpus end is never registered, so the graph's one edge
      is a sink reference. */
  lemma LastFullWindowSkipped()
    ensures Windows("abcd", 2) == [Window("ab", "cd")]
    ensures CorpusGraph(Windows("abcd", 2)) == map["ab" := ["cd"]]
    ensures Validator.ValidateAdjList(CorpusGraph(Windows("abcd", 2)), ["ab"])
            == [Validator.SinkReference("cd")]
  {
    var c := "abcd";
    assert Strip("ab") == "ab";
    assert Strip("cd") == "cd";
    assert c[..2] == "ab" && c[2..Min(4, 4)] == "cd";
    assert Windows(c[2..], 2) == [];
    var ws := [Window("ab", "cd")];
    assert Windows(c, 2) == ws;
    assert ws[0].key in KeysOf(ws);
    assert KeysOf(ws) == {"ab"};
    assert EdgesOf(ws, "ab") == ["cd"];
  }

  /** A window with no lower-case letter still registers its key: the empty string. */
  lemma EmptyKeyRegistered()
    ensures CorpusGraph(Windows("  ab", 2)) == map["" := ["ab"]]
  {
    var c := "  ab";
    assert Strip("  ") == "";
    assert Strip("ab") == "ab";
    assert c[..2] == "  " && c[2..Min(4, 4)] == "ab";
    assert Windows(c[2..], 2) == [];
    var ws := [Window("", "ab")];
    assert Windows(c, 2) == ws;
    assert ws[0].key in KeysOf(ws);
    assert KeysOf(ws) == {""};
    assert EdgesOf(ws, "") == ["ab"];
  }
}
