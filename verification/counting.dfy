/** Counting by sets: how a cardinality moves when one element comes or goes. */
module Counting {

  function Ind(b: bool): nat { if b then 1 else 0 }

  lemma Resize<T>(x: set<T>, y: set<T>, a: T)
    requires forall b :: b != a ==> (b in x <==> b in y)
    ensures |y| == |x| - Ind(a in x) + Ind(a in y)
  {
    assert x - {a} == y - {a};
    assert a in x ==> x == (x - {a}) + {a};
    assert a in y ==> y == (y - {a}) + {a};
  }
}
