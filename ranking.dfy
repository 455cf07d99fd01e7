/** What the three retrieval modes share: a stored vector is scored against
    the query by an opaque similarity (cosine similarity of the query's
    embedding and the stored one, in the source), a row without a vector is
    not scored, and the best row is the first one that attains the maximum. */
module Ranking {
  import opened Wrappers

  /** A stored embedding vector (a buffer of 32-bit floats in the source). */
  type Embedding = seq<real>

  /** The similarity of a query text to a stored vector. */
  type Scorer = (string, Embedding) -> real

  /** Some scored position has a score strictly above `t`. */
  predicate SomeAbove(s: seq<Option<real>>, t: real)
  {
    exists i :: 0 <= i < |s| && s[i].Some? && s[i].value > t
  }

  /** Position `i` holds a score that no other score exceeds, and every
      earlier score is strictly below it: it is the first maximum. */
  ghost predicate IsFirstArgmax(s: seq<Option<real>>, i: int)
  {
    && 0 <= i < |s| && s[i].Some?
    && (forall j :: 0 <= j < |s| && s[j].Some? ==> s[j].value <= s[i].value)
    && (forall j :: 0 <= j < i && s[j].Some? ==> s[j].value < s[i].value)
  }

  /** There is at most one first maximum. */
  lemma FirstArgmaxUnique(s: seq<Option<real>>, i: int, j: int)
    requires IsFirstArgmax(s, i) && IsFirstArgmax(s, j)
    ensures i == j
  {
  }
}
