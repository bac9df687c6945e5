/** How many elements finite sets have. */
module Sets {
  lemma {:induction false} CardSubset(xs: set<nat>, ys: set<nat>)
    requires xs <= ys
    ensures |xs| <= |ys|
    decreases |xs|
  {
    if xs != {} {
      var x :| x in xs;
      CardSubset(xs - {x}, ys - {x});
    }
  }

  lemma CardUnion(xs: set<nat>, ys: set<nat>)
    ensures |xs + ys| <= |xs| + |ys|
  {
    assert xs + ys == xs + (ys - xs);
    assert ys - xs <= ys;
    CardSubset(ys - xs, ys);
  }

  lemma CardThree(xs: set<nat>, ys: set<nat>, zs: set<nat>, all: set<nat>)
    requires all <= xs + ys + zs
    ensures |all| <= |xs| + |ys| + |zs|
  {
    CardSubset(all, xs + ys + zs);
    CardUnion(xs + ys, zs);
    CardUnion(xs, ys);
  }
}
