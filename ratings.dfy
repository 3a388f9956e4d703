/** The sparse user × item rating table shared by the loader and the KNN predictor.
    A position that is not stored reads as 0, which the algorithms treat as "unrated";
    a stored position is enumerated even when its value is 0. */
module Ratings {

  datatype RatingMatrix = RatingMatrix(userCount: nat, itemCount: nat, entries: map<(int, int), real>)
  {
    /** Every stored position lies inside the declared dimensions. */
    predicate Valid() {
      forall p :: p in entries ==> 0 <= p.0 < userCount && 0 <= p.1 < itemCount
    }

    /** The value at (u, i), 0 when nothing is stored there. */
    function Get(u: int, i: int): real {
      if (u, i) in entries then entries[(u, i)] else 0.0
    }

    /** The matrix after storing v at (u, i); a stored 0 stays stored. */
    function Set(u: int, i: int, v: real): (r: RatingMatrix)
      ensures r.userCount == userCount && r.itemCount == itemCount
      ensures r.entries.Keys == entries.Keys + {(u, i)}
      ensures r.Get(u, i) == v
      ensures forall p :: p in entries && p != (u, i) ==> p in r.entries && r.entries[p] == entries[p]
    {
      RatingMatrix(userCount, itemCount, entries[(u, i) := v])
    }

    /** The number of stored positions. */
    function NonZerosCount(): nat {
      |entries|
    }
  }

  /** A fresh matrix of the given dimensions with nothing stored. */
  function Empty(userCount: nat, itemCount: nat): RatingMatrix {
    RatingMatrix(userCount, itemCount, map[])
  }
}
