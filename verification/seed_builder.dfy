/** The seed graph builder (index.js:80-95): consonants may be followed by
    any vowel, vowels by any phoneme but the space token. */
module SeedBuilder {
  import opened Wrappers
  import opened Graphs
  import Validator

  /** The phoneme used as a word-boundary token in the stem sets. */
  const SpaceToken: string := " "

  /** The stem file's two lists; an absent list is `None`. */
  datatype Stems = Stems(consonants: Option<seq<string>>, vowels: Option<seq<string>>)

  /** Spreading an absent stem list throws a TypeError. */
  datatype SeedError = MissingStems

  /** The phonemes of `ps` other than the space token, in order, every
      duplicate kept. */
  function WithoutSpace(ps: seq<string>): (r: seq<string>)
    ensures SpaceToken !in r
    ensures forall x | x != SpaceToken :: multiset(r)[x] == multiset(ps)[x]
  {
    if |ps| == 0 then []
    else
      assert ps == ps[..|ps| - 1] + [ps[|ps| - 1]];
      WithoutSpace(ps[..|ps| - 1]) + (if ps[|ps| - 1] == SpaceToken then [] else [ps[|ps| - 1]])
  }

  /** Removing the space token is an in-order filter: a single phoneme is
      kept exactly when it is not the space token, and removal distributes
      over concatenation, so the kept phonemes stay in input order. */
  lemma {:induction false} WithoutSpaceIsFilter(a: seq<string>, b: seq<string>)
    ensures |a| == 1 ==> WithoutSpace(a) == if a[0] == SpaceToken then [] else a
    ensures WithoutSpace(a + b) == WithoutSpace(a) + WithoutSpace(b)
  {
    if |b| > 0 {
      WithoutSpaceIsFilter(a, b[..|b| - 1]);
      assert (a + b)[..|a + b| - 1] == a + b[..|b| - 1];
      assert b == b[..|b| - 1] + [b[|b| - 1]];
    } else {
      assert a + b == a;
    }
    if |a| == 1 {
      assert a[..0] == [];
    }
  }

  /** `ks.forEach(k => h[k] = v)`: each key of `ks` is (re)bound to `v`,
      every other key keeps its list. */
  function AssignAll(h: Graph, ks: seq<string>, v: seq<string>): (r: Graph)
    ensures r.Keys == h.Keys + (set i | 0 <= i < |ks| :: ks[i])
    ensures forall k | k in r :: r[k] == if k in ks then v else h[k]
    decreases |ks|
  {
    if |ks| == 0 then h else AssignAll(h[ks[0] := v], ks[1..], v)
  }

  /** Builds the seed graph; the vowel assignments run last, so on a phoneme
      listed as both a consonant and a vowel the vowel list wins. */
  function GenerateAdjacencyLists(stems: Stems): (r: Result<Graph, SeedError>)
    ensures r.Err? <==> stems.consonants.None? || stems.vowels.None?
    ensures r.Ok? ==>
              var cs, vs := stems.consonants.value, stems.vowels.value;
              && (forall k :: k in r.value <==> k in cs || k in vs)
              && (forall k | k in vs :: r.value[k] == WithoutSpace(vs + cs))
              && (forall k | k in cs && k !in vs :: r.value[k] == vs)
  {
    if stems.consonants.None? || stems.vowels.None? then Err(MissingStems)
    else
      var cs, vs := stems.consonants.value, stems.vowels.value;
      var nonSpace := WithoutSpace(vs + cs);
      Ok(AssignAll(AssignAll(map[], cs, vs), vs, nonSpace))
  }

  /** Every edge target of a seed graph is itself a key. */
  lemma {:induction false} SeedGraphClosed(stems: Stems)
    requires GenerateAdjacencyLists(stems).Ok?
    ensures Closed(GenerateAdjacencyLists(stems).value)
  {
    var g := GenerateAdjacencyLists(stems).value;
    var cs, vs := stems.consonants.value, stems.vowels.value;
    forall k, i | k in g && 0 <= i < |g[k]|
      ensures g[k][i] in g
    {
      if k in vs {
        var t := g[k][i];
        assert t in WithoutSpace(vs + cs);
        assert multiset(WithoutSpace(vs + cs))[t] > 0;
        assert t in vs + cs;
      }
    }
  }

  /** Hence the validator never warns about a seed graph. */
  lemma SeedGraphPassesValidation(stems: Stems, order: seq<string>)
    requires GenerateAdjacencyLists(stems).Ok?
    requires IsKeyOrder(GenerateAdjacencyLists(stems).value, order)
    ensures Validator.ValidateAdjList(GenerateAdjacencyLists(stems).value, order) == []
  {
    SeedGraphClosed(stems);
    Validator.ValidateAdjListSilent(GenerateAdjacencyLists(stems).value, order);
  }

  /** With at least one vowel and at least one phoneme other than the space
      token, every edge list of a seed graph is non-empty, so a walk on it
      never gets stuck. */
  lemma {:induction false} SeedGraphWellFormed(stems: Stems)
    requires GenerateAdjacencyLists(stems).Ok?
    requires |stems.vowels.value| > 0
    requires exists p | p in stems.vowels.value + stems.consonants.value :: p != SpaceToken
    ensures WellFormed(GenerateAdjacencyLists(stems).value)
  {
    var g := GenerateAdjacencyLists(stems).value;
    var cs, vs := stems.consonants.value, stems.vowels.value;
    SeedGraphClosed(stems);
    assert vs[0] in g;
    var p :| p in vs + cs && p != SpaceToken;
    assert multiset(vs + cs)[p] > 0;
    assert multiset(WithoutSpace(vs + cs))[p] > 0;
  }

  /** With vowels a, e, i, o, u and consonants k, t, s, each consonant is
      followed by exactly the vowel list. */
  lemma ConsonantsGetVowels()
    ensures var vs := ["a", "e", "i", "o", "u"];
            var r := GenerateAdjacencyLists(Stems(Some(["k", "t", "s"]), Some(vs)));
            && r.Ok?
            && forall c | c in ["k", "t", "s"] :: c in r.value && r.value[c] == vs
  {
    var vs := ["a", "e", "i", "o", "u"];
    var cs := ["k", "t", "s"];
    forall c | c in cs ensures c !in vs {
      assert c == "k" || c == "t" || c == "s";
    }
  }
}
