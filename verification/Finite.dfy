/** What a walk over a finite graph has left to visit. */
module Finite {
  lemma FewerLeft<T>(all: set<T>, seen: set<T>, more: set<T>)
    requires seen <= more
    ensures |all - more| <= |all - seen|
  {
    assert all - seen == (all - more) + ((all - seen) - (all - more));
  }

  /** Visiting one more element leaves strictly fewer, so a walk that never visits one twice ends. */
  lemma SmallerRest<T>(all: set<T>, seen: set<T>, more: set<T>, x: T)
    requires x in all && x !in seen && seen + {x} <= more
    ensures |all - more| < |all - seen|
  {
    assert all - seen == (all - more) + ((all - seen) - (all - more));
    assert x in (all - seen) - (all - more);
  }
}
