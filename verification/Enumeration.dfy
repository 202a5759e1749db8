/** The members of a finite set of numbers in ascending order: what a query with ORDER BY returns. */
module Enumeration {

  /** The smallest member of a nonempty set. */
  ghost function Least(s: set<nat>): (m: nat)
    requires s != {}
    ensures m in s && forall x | x in s :: m <= x
    decreases s, 1
  {
    LeastExists(s);
    var m :| m in s && forall x | x in s :: m <= x;
    m
  }

  lemma LeastExists(s: set<nat>)
    requires s != {}
    ensures exists m :: m in s && forall x | x in s :: m <= x
    decreases s, 0
  {
    var m :| m in s;
    var smaller := set x | x in s && x < m;
    if smaller == {} {
      forall x | x in s ensures m <= x {
        assert x !in smaller;
      }
    } else {
      assert m !in smaller && smaller < s;
      var k := Least(smaller);
      forall x | x in s ensures k <= x {
        assert x < m ==> x in smaller;
      }
    }
  }

  ghost function Ascending(s: set<nat>): seq<nat> {
    if s == {} then [] else [Least(s)] + Ascending(s - {Least(s)})
  }

  lemma {:induction false} AscendingIsSorted(s: set<nat>)
    ensures forall x :: x in Ascending(s) <==> x in s
    ensures forall i, j | 0 <= i < j < |Ascending(s)| :: Ascending(s)[i] < Ascending(s)[j]
  {
    if s != {} {
      AscendingIsSorted(s - {Least(s)});
      forall i | 0 <= i < |Ascending(s - {Least(s)})| ensures Least(s) < Ascending(s - {Least(s)})[i] {
        assert Ascending(s - {Least(s)})[i] in s - {Least(s)};
      }
    }
  }
}
