// Wrapping a predicate as forall key {:trigger Unfold(key)} :: Unfold(key) ==> ... keeps it folded: the verifier
// expands it only where Unfold is mentioned.
module Folding {
  ghost predicate Unfold(key: nat) { true }

  // The same, but unfolding one does not unfold others of the same predicate that are about another x.
  ghost predicate UnfoldFor<T>(key: nat, x: T) { true }
}
