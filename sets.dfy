/** Bookkeeping facts about the sets that the mirror's loops visit and grow. */
module Sets {

  /** A set grown by one more contribution at each step is the initial set plus all contributions so far. */
  lemma Accumulate<T>(init: set<T>, sofar: set<T>, more: set<T>, acc: set<T>, acc': set<T>, sofar': set<T>)
    requires acc == init + sofar && acc' == acc + more && sofar' == sofar + more
    ensures acc' == init + sofar'
  {
  }

  /** Moving one key from the keys still to visit to the visited ones keeps them a partition. */
  lemma MoveOne<T>(todo: set<T>, done: set<T>, all: set<T>, t: T)
    requires todo !! done && todo + done == all && t in todo
    ensures (todo - {t}) !! (done + {t}) && (todo - {t}) + (done + {t}) == all
  {
  }

  /** A subset is no larger than its superset. */
  lemma SubsetSize<T>(a: set<T>, b: set<T>)
    requires a <= b
    ensures |a| <= |b|
  {
    assert b == a + (b - a);
  }
}
