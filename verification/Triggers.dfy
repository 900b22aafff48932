/** A trigger by which a predicate stays closed until a lemma opens it. */
module Triggers {
  ghost predicate Opened(u: int) { true }
}
