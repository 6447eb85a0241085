/** Facts about finite sets of connector ids. */
module Sets {
  /** What a choice of an element relies on. */
  lemma HasElement(s: set<int>)
    ensures s == {} || exists x :: x in s
  {
    if forall x :: x !in s { assert s == {}; }
  }
}
