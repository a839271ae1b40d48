/** What several modules share: an optional value, the size of a subset, and a way to keep facts folded. */
module Common {

  datatype Option<T> = None | Some(value: T)

  /** A predicate that is kept folded says what it says only where a proof mentions Unfold. */
  predicate Unfold(x: int) {
    true
  }

  /** A second key, for predicates about predicates that Unfold opens. */
  predicate Look(x: int) {
    true
  }

  lemma SubsetSize(s: set<nat>, t: set<nat>)
    requires s <= t
    ensures |s| <= |t|
  {
    assert t == s + (t - s);
  }
}
