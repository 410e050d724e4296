/** Runs of consecutive pages in a map from page numbers. */
module PageRuns {

  /** Pages i, i+1, ..., i+n-1 are all unmapped. */
  predicate FreeRun<T>(pages: map<nat, T>, i: nat, n: nat) {
    forall p :: i <= p < i + n ==> p !in pages
  }
}
