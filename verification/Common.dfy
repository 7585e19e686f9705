/** Definitions the other modules share. */
module Common {

  datatype Option<T> = None | Some(value: T)

  /** A fact stated as `forall u :: Look(u) ==> fact` is the plain fact, since Look always holds; but the
      prover looks inside only where a proof mentions Look, and elsewhere carries it along whole. */
  ghost predicate Look(u: bool) {
    true
  }

  /** No element twice. */
  ghost predicate NoDup<T>(s: seq<T>) {
    forall i, j :: 0 <= i < j < |s| ==> s[i] != s[j]
  }
}
