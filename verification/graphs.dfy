/** The phoneme adjacency list shared by every component. */
module Graphs {

  /** Each phoneme maps to the ordered list of phonemes that may follow it.
      Repeated targets are kept: a target listed twice is drawn twice as often. */
  type Graph = map<string, seq<string>>

  /** Every edge target is itself a key, so no edge leads to a sink. */
  predicate Closed(g: Graph) {
    forall k | k in g :: forall i | 0 <= i < |g[k]| :: g[k][i] in g
  }

  /** A graph on which a random walk can always take another step: it has a
      key to start from, no sink references and no empty edge list. */
  predicate WellFormed(g: Graph) {
    && |g| > 0
    && Closed(g)
    && forall k | k in g :: |g[k]| > 0
  }

  /** `order` enumerates the keys of `g`, each exactly once (the order in
      which an object's own keys are visited). */
  predicate IsKeyOrder(g: Graph, order: seq<string>) {
    && (forall i | 0 <= i < |order| :: order[i] in g)
    && (forall k | k in g :: k in order)
    && (forall i, j | 0 <= i < j < |order| :: order[i] != order[j])
  }

  /** Every key and every edge target of `g` is a one-character string. */
  predicate UnitPhonemes(g: Graph) {
    && (forall k | k in g :: |k| == 1)
    && (forall k | k in g :: forall i | 0 <= i < |g[k]| :: |g[k][i]| == 1)
  }

  /** No key and no edge target of `g` contains the character `c`. */
  predicate Avoids(g: Graph, c: char) {
    && (forall k | k in g :: c !in k)
    && (forall k | k in g :: forall i | 0 <= i < |g[k]| :: c !in g[k][i])
  }
}
