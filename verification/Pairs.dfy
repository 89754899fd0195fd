/** Sets of pairs of integers. */
module Pairs {
  lemma SamePairs(s: set<(int, int)>, t: set<(int, int)>)
    requires forall i, j :: (i, j) in s <==> (i, j) in t
    ensures s == t
  {
    forall p: (int, int)
      ensures p in s <==> p in t
    {
      var (i, j) := p;
      assert (i, j) in s <==> (i, j) in t;
    }
  }
}
