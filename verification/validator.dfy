/** The advisory sink-reference check (index.js:27-38): it reports, never
    rejects or changes, the graph. */
module Validator {
  import opened Graphs

  /** One warning: an edge names a target that is not a key of the graph. */
  datatype Diagnostic = SinkReference(target: string)

  /** The warnings for one edge list, in edge order. */
  function SinksIn(g: Graph, edges: seq<string>): seq<Diagnostic> {
    if |edges| == 0 then []
    else
      SinksIn(g, edges[..|edges| - 1])
      + (if edges[|edges| - 1] in g then [] else [SinkReference(edges[|edges| - 1])])
  }

  /** The warnings for the whole graph: the keys in `order`, each key's
      edges in list order, one warning per offending occurrence. */
  function ValidateAdjList(g: Graph, order: seq<string>): seq<Diagnostic>
    requires forall i | 0 <= i < |order| :: order[i] in g
  {
    if |order| == 0 then []
    else SinksIn(g, g[order[0]]) + ValidateAdjList(g, order[1..])
  }

  /** Warnings come in edge order: one edge is reported exactly when its
      target is not a key, and the warnings of a concatenation of edge lists
      are those of each part, in turn. */
  lemma {:induction false} SinksInInOrder(g: Graph, a: seq<string>, b: seq<string>)
    ensures |a| == 1 ==> SinksIn(g, a) == if a[0] in g then [] else [SinkReference(a[0])]
    ensures SinksIn(g, a + b) == SinksIn(g, a) + SinksIn(g, b)
  {
    if |b| > 0 {
      SinksInInOrder(g, a, b[..|b| - 1]);
      assert (a + b)[..|a + b| - 1] == a + b[..|b| - 1];
    } else {
      assert a + b == a;
    }
    if |a| == 1 {
      assert a[..0] == [];
    }
  }

  /** Warnings come in key order: a single key contributes the warnings of
      its edge list, and the warnings of a concatenation of key enumerations
      are those of each part, in turn. */
  lemma {:induction false} ValidateAdjListInOrder(g: Graph, o1: seq<string>, o2: seq<string>)
    requires forall i | 0 <= i < |o1| :: o1[i] in g
    requires forall i | 0 <= i < |o2| :: o2[i] in g
    ensures |o1| == 1 ==> ValidateAdjList(g, o1) == SinksIn(g, g[o1[0]])
    ensures ValidateAdjList(g, o1 + o2) == ValidateAdjList(g, o1) + ValidateAdjList(g, o2)
  {
    if |o1| > 0 {
      ValidateAdjListInOrder(g, o1[1..], o2);
      assert (o1 + o2)[1..] == o1[1..] + o2;
    } else {
      assert o1 + o2 == o2;
    }
    if |o1| == 1 {
      assert o1[1..] == [];
    }
  }

  /** Every (key, index) position whose edge target is not a key. */
  ghost function SinkPositions(g: Graph, keys: set<string>): set<(string, int)> {
    set k, i | k in keys && k in g && 0 <= i < |g[k]| && g[k][i] !in g :: (k, i)
  }

  /** A target that is not a key, referenced from some key's edge list. */
  ghost predicate IsSinkReference(g: Graph, t: string) {
    t !in g && exists k | k in g :: t in g[k]
  }

  lemma {:induction false} SinksInMembers(g: Graph, edges: seq<string>)
    ensures forall d | d in SinksIn(g, edges) :: d.target !in g && d.target in edges
    ensures forall t | t in edges && t !in g :: SinkReference(t) in SinksIn(g, edges)
  {
    if |edges| > 0 {
      var init := edges[..|edges| - 1];
      SinksInMembers(g, init);
      assert edges == init + [edges[|edges| - 1]];
    }
  }

  /** A warning is issued exactly for the targets that are referenced but are
      not keys; in particular a key with an empty edge list is not reported. */
  lemma {:induction false} ValidateAdjListReports(g: Graph, order: seq<string>)
    requires IsKeyOrder(g, order)
    ensures forall t :: SinkReference(t) in ValidateAdjList(g, order) <==> IsSinkReference(g, t)
  {
    ReportsFrom(g, order);
    forall t | IsSinkReference(g, t)
      ensures SinkReference(t) in ValidateAdjList(g, order)
    {
      var k :| k in g && t in g[k];
      var i :| 0 <= i < |order| && order[i] == k;
      ReportFromKey(g, order, i, t);
    }
  }

  lemma {:induction false} ReportsFrom(g: Graph, order: seq<string>)
    requires forall i | 0 <= i < |order| :: order[i] in g
    ensures forall d | d in ValidateAdjList(g, order) :: IsSinkReference(g, d.target)
  {
    if |order| > 0 {
      SinksInMembers(g, g[order[0]]);
      ReportsFrom(g, order[1..]);
    }
  }

  lemma {:induction false} ReportFromKey(g: Graph, order: seq<string>, i: int, t: string)
    requires forall j | 0 <= j < |order| :: order[j] in g
    requires 0 <= i < |order| && t in g[order[i]] && t !in g
    ensures SinkReference(t) in ValidateAdjList(g, order)
  {
    if i == 0 {
      SinksInMembers(g, g[order[0]]);
    } else {
      ReportFromKey(g, order[1..], i - 1, t);
    }
  }

  /** The validator is silent exactly on closed graphs. */
  lemma ValidateAdjListSilent(g: Graph, order: seq<string>)
    requires IsKeyOrder(g, order)
    ensures ValidateAdjList(g, order) == [] <==> Closed(g)
  {
    ValidateAdjListReports(g, order);
    if ValidateAdjList(g, order) != [] {
      var d := ValidateAdjList(g, order)[0];
      assert SinkReference(d.target) in ValidateAdjList(g, order);
    }
    if !Closed(g) {
      var k, i :| k in g && 0 <= i < |g[k]| && g[k][i] !in g;
      assert IsSinkReference(g, g[k][i]);
    }
  }

  lemma {:induction false} SinksInCount(g: Graph, k: string, m: int)
    requires k in g && 0 <= m <= |g[k]|
    ensures |SinksIn(g, g[k][..m])| == |set i | 0 <= i < m && g[k][i] !in g :: (k, i)|
  {
    var s := set i | 0 <= i < m && g[k][i] !in g :: (k, i);
    if m > 0 {
      SinksInCount(g, k, m - 1);
      var s' := set i | 0 <= i < m - 1 && g[k][i] !in g :: (k, i);
      assert g[k][..m][..m - 1] == g[k][..m - 1];
      if g[k][m - 1] in g {
        assert s == s';
      } else {
        assert s == s' + {(k, m - 1)};
        assert (k, m - 1) !in s';
      }
    } else {
      assert s == {};
    }
  }

  /** One warning per offending occurrence: no deduplication, within an
      edge list or across keys. */
  lemma {:induction false} ValidateAdjListCount(g: Graph, order: seq<string>)
    requires IsKeyOrder(g, order)
    ensures |ValidateAdjList(g, order)| == |SinkPositions(g, g.Keys)|
  {
    CountFrom(g, order);
    assert g.Keys == set i | 0 <= i < |order| :: order[i];
  }

  lemma {:induction false} CountFrom(g: Graph, order: seq<string>)
    requires forall i | 0 <= i < |order| :: order[i] in g
    requires forall i, j | 0 <= i < j < |order| :: order[i] != order[j]
    ensures |ValidateAdjList(g, order)|
         == |SinkPositions(g, set i | 0 <= i < |order| :: order[i])|
  {
    var keys := set i | 0 <= i < |order| :: order[i];
    if |order| == 0 {
      assert keys == {};
      assert SinkPositions(g, keys) == {};
    } else {
      var k := order[0];
      var rest := set i | 0 <= i < |order[1..]| :: order[1..][i];
      CountFrom(g, order[1..]);
      SinksInCount(g, k, |g[k]|);
      assert g[k][..|g[k]|] == g[k];
      assert keys == {k} + rest;
      assert k !in rest;
      var own := set i | 0 <= i < |g[k]| && g[k][i] !in g :: (k, i);
      assert SinkPositions(g, {k}) == own;
      assert SinkPositions(g, keys) == own + SinkPositions(g, rest);
      assert own !! SinkPositions(g, rest);
    }
  }

  /** The occurrences of `t` as an edge target under the keys `keys`, when
      `t` is not a key itself. */
  ghost function Occurrences(g: Graph, keys: set<string>, t: string): set<(string, int)> {
    set k, i | k in keys && k in g && 0 <= i < |g[k]| && g[k][i] == t && t !in g :: (k, i)
  }

  /** The positions in `e` holding `t`, tagged with the key `k`. */
  ghost function PositionsOf(k: string, e: seq<string>, t: string): set<(string, int)> {
    set i | 0 <= i < |e| && e[i] == t :: (k, i)
  }

  lemma PositionsOfSnoc(k: string, e: seq<string>, t: string)
    requires |e| > 0
    ensures |PositionsOf(k, e, t)|
         == |PositionsOf(k, e[..|e| - 1], t)| + (if e[|e| - 1] == t then 1 else 0)
  {
    var init := e[..|e| - 1];
    var s, s' := PositionsOf(k, e, t), PositionsOf(k, init, t);
    if e[|e| - 1] == t {
      assert s == s' + {(k, |e| - 1)};
      assert (k, |e| - 1) !in s';
    } else {
      assert s == s';
    }
  }

  lemma SinksInSnocCount(g: Graph, e: seq<string>, t: string)
    requires t !in g && |e| > 0
    ensures multiset(SinksIn(g, e))[SinkReference(t)]
         == multiset(SinksIn(g, e[..|e| - 1]))[SinkReference(t)] + (if e[|e| - 1] == t then 1 else 0)
  {
    var x := e[|e| - 1];
    var tail := if x in g then [] else [SinkReference(x)];
    assert SinksIn(g, e) == SinksIn(g, e[..|e| - 1]) + tail;
  }

  lemma {:induction false} SinksInTargetCount(g: Graph, k: string, e: seq<string>, t: string)
    requires t !in g
    ensures multiset(SinksIn(g, e))[SinkReference(t)] == |PositionsOf(k, e, t)|
  {
    if |e| > 0 {
      SinksInTargetCount(g, k, e[..|e| - 1], t);
      SinksInSnocCount(g, e, t);
      PositionsOfSnoc(k, e, t);
    } else {
      assert PositionsOf(k, e, t) == {};
    }
  }

  /** Each target is reported once per occurrence: the warnings about `t`
      number exactly its occurrences as an edge target when it is not a key,
      and none when it is. */
  lemma {:induction false} ValidateAdjListPerTarget(g: Graph, order: seq<string>, t: string)
    requires IsKeyOrder(g, order)
    ensures multiset(ValidateAdjList(g, order))[SinkReference(t)] == |Occurrences(g, g.Keys, t)|
  {
    PerTargetFrom(g, order, t);
    assert g.Keys == set i | 0 <= i < |order| :: order[i];
  }

  lemma {:induction false} PerTargetFrom(g: Graph, order: seq<string>, t: string)
    requires forall i | 0 <= i < |order| :: order[i] in g
    requires forall i, j | 0 <= i < j < |order| :: order[i] != order[j]
    ensures multiset(ValidateAdjList(g, order))[SinkReference(t)]
         == |Occurrences(g, set i | 0 <= i < |order| :: order[i], t)|
  {
    var keys := set i | 0 <= i < |order| :: order[i];
    if t in g {
      KeyNeverReported(g, order, keys, t);
    } else if |order| == 0 {
      assert keys == {};
      assert Occurrences(g, keys, t) == {};
    } else {
      var k := order[0];
      var rest := set i | 0 <= i < |order[1..]| :: order[1..][i];
      var d := SinkReference(t);
      PerTargetFrom(g, order[1..], t);
      SinksInTargetCount(g, k, g[k], t);
      assert ValidateAdjList(g, order) == SinksIn(g, g[k]) + ValidateAdjList(g, order[1..]);
      assert multiset(ValidateAdjList(g, order))[d]
          == multiset(SinksIn(g, g[k]))[d] + multiset(ValidateAdjList(g, order[1..]))[d];
      OrderKeysSplit(order);
      OccurrencesSplit(g, k, rest, t);
    }
  }

  lemma KeyNeverReported(g: Graph, order: seq<string>, keys: set<string>, t: string)
    requires forall i | 0 <= i < |order| :: order[i] in g
    requires t in g
    ensures multiset(ValidateAdjList(g, order))[SinkReference(t)] == 0
    ensures Occurrences(g, keys, t) == {}
  {
    ReportsFrom(g, order);
    assert SinkReference(t) !in ValidateAdjList(g, order);
  }

  /** The keys a distinct enumeration lists are its head and, apart from it, the keys of its tail. */
  lemma OrderKeysSplit(order: seq<string>)
    requires |order| > 0
    requires forall i, j | 0 <= i < j < |order| :: order[i] != order[j]
    ensures (set i | 0 <= i < |order| :: order[i])
         == {order[0]} + (set i | 0 <= i < |order[1..]| :: order[1..][i])
    ensures order[0] !in (set i | 0 <= i < |order[1..]| :: order[1..][i])
  {
    var rest := set i | 0 <= i < |order[1..]| :: order[1..][i];
    forall x | x in rest ensures x != order[0] {
      var i :| 0 <= i < |order[1..]| && order[1..][i] == x;
      assert order[i + 1] == x;
    }
  }

  lemma OccurrencesSplit(g: Graph, k: string, rest: set<string>, t: string)
    requires k in g && k !in rest && t !in g
    ensures |Occurrences(g, {k} + rest, t)| == |PositionsOf(k, g[k], t)| + |Occurrences(g, rest, t)|
  {
    var own := PositionsOf(k, g[k], t);
    assert Occurrences(g, {k} + rest, t) == own + Occurrences(g, rest, t);
    assert own !! Occurrences(g, rest, t);
  }

  /** The graph with a dangling `z` warns once; the well-formed example does not. */
  lemma ValidateAdjListExamples()
    ensures ValidateAdjList(map["a" := ["a", "z"], "b" := ["a"]], ["a", "b"])
            == [SinkReference("z")]
    ensures ValidateAdjList(map["a" := ["a", "b", "c", "c"], "b" := ["a", "c"], "c" := ["a", "c"]],
                            ["a", "b", "c"]) == []
  {
    var valid := map["a" := ["a", "b", "c", "c"], "b" := ["a", "c"], "c" := ["a", "c"]];
    assert Closed(valid);
    ValidateAdjListSilent(valid, ["a", "b", "c"]);
  }
}
