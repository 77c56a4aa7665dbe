/** Sizes of finite sets. */
module FiniteSets {

  lemma {:induction false} SubsetSize(xs: set<nat>, ys: set<nat>)
    requires xs <= ys
    ensures |xs| <= |ys|
  {
    if x :| x in xs {
      SubsetSize(xs - {x}, ys - {x});
    }
  }
}
