/** Random identifiers are modelled as numbers; there is always a new one. */
module Fresh {
  lemma {:induction false} NumberAbove(used: set<nat>) returns (n: nat)
    ensures forall u :: u in used ==> u < n
    decreases used
  {
    n := 0;
    if used != {} {
      var u :| u in used;
      var v := NumberAbove(used - {u});
      n := if u < v then v else u + 1;
      assert forall w :: w in used ==> w == u || w in used - {u};
    }
  }
}
