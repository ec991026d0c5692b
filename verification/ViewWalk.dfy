/** A board view walked by its keyset cursors: the view's own order, paged. */
module ViewWalk {
  import opened Base
  import opened Keyset
  import opened Pages

  function Listed<K(==)>(o: Order<K>): Row<K> -> bool { r => Fits(o, r) }

  function Precedes<K(==)>(o: Order<K>): (Row<K>, Row<K>) -> bool {
    (a, b) => Fits(o, a) && Fits(o, b) && Before(o, a, b)
  }

  lemma ViewOrderIsLinear<K(!new)>(o: Order<K>)
    requires Total(o)
    ensures Linear(Listed(o), Precedes(o))
  {
    forall a, b, c | Fits(o, a) && Fits(o, b) && Fits(o, c)
      ensures !Before(o, a, a)
      ensures Before(o, a, b) && Before(o, b, c) ==> Before(o, a, c)
      ensures a == b || Before(o, a, b) || Before(o, b, a)
    {
      BeforeIsTotal(o, a, b, c);
    }
    forall a | Fits(o, a) ensures !Before(o, a, a) { BeforeIsTotal(o, a, a, a); }
    forall a, b | Fits(o, a) && Fits(o, b) ensures a == b || Before(o, a, b) || Before(o, b, a) {
      BeforeIsTotal(o, a, b, b);
    }
  }

  /**
   * Walking a view to its last page returns each row that stays in scope with
   * its keys unchanged exactly once, whatever other rows are added, changed or
   * removed between the pages. A row is a record with the keys it has then: no
   * row comes back twice, but a record whose keys change may, under new ones.
   */
  lemma ViewWalkReturnsOnce<K(!new)>(o: Order<K>, dbs: seq<seq<Row<K>>>, limit: nat, r: Row<K>)
    requires Total(o) && limit > 0
    requires forall k :: 0 <= k < |dbs| ==> Table(Listed(o), dbs[k])
    ensures var (got, finished) := Walk(Precedes(o), dbs, None, limit);
      && multiset(got)[r] <= 1
      && (finished && (forall k :: 0 <= k < |dbs| ==> r in dbs[k]) ==> multiset(got)[r] == 1)
  {
    ViewOrderIsLinear(o);
    WalkReturnsOnce(Listed(o), Precedes(o), dbs, limit, r);
  }
}
