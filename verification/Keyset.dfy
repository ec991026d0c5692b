/**
 * The order of a board view and the keyset clause that continues it: every
 * sort key in its own direction, then newest first, then by id downwards.
 * Keys are compared per column by `less`, which stands for the database's
 * order of numbers or of text.
 */
module Keyset {
  datatype Direction = Asc | Desc

  datatype Row<K> = Row(keys: seq<K>, at: int, id: int)

  /** A view's sort columns, with the order of each column's values. */
  datatype Order<!K> = Order(columns: seq<Direction>, less: (nat, K, K) -> bool)

  /** Each column's values are strictly and totally ordered. */
  ghost predicate Total<K(!new)>(o: Order<K>) {
    && (forall i: nat, a: K :: !o.less(i, a, a))
    && (forall i: nat, a: K, b: K :: a == b || o.less(i, a, b) || o.less(i, b, a))
    && (forall i: nat, a: K, b: K, c: K :: o.less(i, a, b) && o.less(i, b, c) ==> o.less(i, a, c))
  }

  predicate Fits<K>(o: Order<K>, r: Row<K>) { |r.keys| == |o.columns| }

  /** Whether column `i` puts value `a` ahead of `b`. */
  predicate Ahead<K>(o: Order<K>, i: nat, a: K, b: K)
    requires i < |o.columns|
  {
    if o.columns[i] == Asc then o.less(i, a, b) else o.less(i, b, a)
  }

  predicate SameUpTo<K(==)>(a: Row<K>, b: Row<K>, i: nat)
    requires i <= |a.keys| && i <= |b.keys|
  {
    a.keys[..i] == b.keys[..i]
  }

  /** Column `i` is the first where the rows may differ, and it puts `a` ahead. */
  predicate DecidedAt<K(==)>(o: Order<K>, a: Row<K>, b: Row<K>, i: nat)
    requires Fits(o, a) && Fits(o, b) && i < |o.columns|
  {
    SameUpTo(a, b, i) && Ahead(o, i, a.keys[i], b.keys[i])
  }

  /** Rows with the same keys come newest first, then by id downwards. */
  predicate TieBefore<K>(a: Row<K>, b: Row<K>) {
    a.at > b.at || (a.at == b.at && a.id > b.id)
  }

  /** The view lists `a` before `b`: the first column where they differ says so, else their time and id. */
  predicate Before<K(==)>(o: Order<K>, a: Row<K>, b: Row<K>)
    requires Fits(o, a) && Fits(o, b)
  {
    (exists i :: 0 <= i < |o.columns| && DecidedAt(o, a, b, i)) || (a.keys == b.keys && TieBefore(a, b))
  }

  // ---- The clause ----

  /** The SQL clause: a comparison of times and ids, or a key comparison around another clause. */
  datatype Clause<K> =
    | TieClause(at: int, id: int)
    | KeyClause(column: nat, direction: Direction, value: K, rest: Clause<K>)

  predicate Admits<K(==)>(o: Order<K>, clause: Clause<K>, r: Row<K>) {
    match clause
    case TieClause(at, id) => r.at < at || (r.at == at && r.id < id)
    case KeyClause(i, direction, value, rest) =>
      i < |r.keys| &&
      ((if direction == Asc then o.less(i, value, r.keys[i]) else o.less(i, r.keys[i], value))
       || (r.keys[i] == value && Admits(o, rest, r)))
  }

  /** The view lists `a` before `b`, judged column by column from `from` on. */
  predicate BeforeFrom<K(==)>(o: Order<K>, a: Row<K>, b: Row<K>, from: nat)
    requires Fits(o, a) && Fits(o, b) && from <= |o.columns|
    decreases |o.columns| - from
  {
    if from == |o.columns| then TieBefore(a, b)
    else Ahead(o, from, a.keys[from], b.keys[from]) || (a.keys[from] == b.keys[from] && BeforeFrom(o, a, b, from + 1))
  }

  lemma SameOneMore<K>(a: Row<K>, b: Row<K>, i: nat)
    requires i < |a.keys| && i < |b.keys|
    ensures SameUpTo(a, b, i + 1) <==> SameUpTo(a, b, i) && a.keys[i] == b.keys[i]
  {
    assert a.keys[..i + 1] == a.keys[..i] + [a.keys[i]];
    assert b.keys[..i + 1] == b.keys[..i] + [b.keys[i]];
  }

  lemma {:induction false} SameIsDownward<K>(a: Row<K>, b: Row<K>, i: nat, j: nat)
    requires i <= j <= |a.keys| && j <= |b.keys| && SameUpTo(a, b, j)
    ensures SameUpTo(a, b, i)
  {
    assert a.keys[..i] == a.keys[..j][..i] && b.keys[..i] == b.keys[..j][..i];
  }

  /** The first column where the rows differ decides, found column by column. */
  lemma {:induction false} BeforeIsFrom<K>(o: Order<K>, a: Row<K>, b: Row<K>, from: nat)
    requires Fits(o, a) && Fits(o, b) && from <= |o.columns| && SameUpTo(a, b, from)
    ensures BeforeFrom(o, a, b, from) <==>
      (exists i :: from <= i < |o.columns| && DecidedAt(o, a, b, i)) || (a.keys == b.keys && TieBefore(a, b))
    decreases |o.columns| - from
  {
    if from == |o.columns| {
      assert a.keys[..from] == a.keys && b.keys[..from] == b.keys;
    } else {
      SameOneMore(a, b, from);
      if a.keys[from] == b.keys[from] {
        BeforeIsFrom(o, a, b, from + 1);
        assert DecidedAt(o, a, b, from) <==> Ahead(o, from, a.keys[from], b.keys[from]);
      } else {
        forall i | from < i < |o.columns| ensures !DecidedAt(o, a, b, i) {
          if SameUpTo(a, b, i) { SameIsDownward(a, b, from + 1, i); }
        }
        assert DecidedAt(o, a, b, from) <==> Ahead(o, from, a.keys[from], b.keys[from]);
      }
    }
  }

  lemma BeforeIsFromFirst<K>(o: Order<K>, a: Row<K>, b: Row<K>)
    requires Fits(o, a) && Fits(o, b)
    ensures Before(o, a, b) <==> BeforeFrom(o, a, b, 0)
  {
    BeforeIsFrom(o, a, b, 0);
  }

  /** The first column in which two rows differ. */
  predicate FirstDifference<K(==)>(a: Row<K>, b: Row<K>, i: nat) {
    && i < |a.keys| && i < |b.keys| && a.keys[i] != b.keys[i]
    && forall j :: 0 <= j < i ==> a.keys[j] == b.keys[j]
  }

  lemma DiffersLater<K>(a: Row<K>, b: Row<K>, i: nat, j: nat)
    requires FirstDifference(a, b, i) && i < j <= |a.keys| && j <= |b.keys|
    ensures !SameUpTo(a, b, j)
  {
    assert a.keys[..j][i] == a.keys[i] && b.keys[..j][i] == b.keys[i];
  }

  /**
   * What the order is: where rows first differ, an ascending column lists the
   * lesser value first and a descending one the greater; rows that differ in
   * no column come newest first, then with the greater id first.
   */
  lemma BeforeMeans<K(!new)>(o: Order<K>, a: Row<K>, b: Row<K>)
    requires Total(o) && Fits(o, a) && Fits(o, b)
    ensures forall i: nat :: FirstDifference(a, b, i) && o.columns[i] == Asc ==>
      (Before(o, a, b) <==> o.less(i, a.keys[i], b.keys[i]))
    ensures forall i: nat :: FirstDifference(a, b, i) && o.columns[i] == Desc ==>
      (Before(o, a, b) <==> o.less(i, b.keys[i], a.keys[i]))
    ensures a.keys == b.keys ==> (Before(o, a, b) <==> a.at > b.at || (a.at == b.at && a.id > b.id))
  {
    forall i: nat | FirstDifference(a, b, i)
      ensures Before(o, a, b) <==>
        if o.columns[i] == Asc then o.less(i, a.keys[i], b.keys[i]) else o.less(i, b.keys[i], a.keys[i])
    {
      assert SameUpTo(a, b, i) && a.keys != b.keys;
      forall j | 0 <= j < |o.columns| && j != i ensures !DecidedAt(o, a, b, j) {
        if i < j { DiffersLater(a, b, i, j); }
      }
      assert DecidedAt(o, a, b, i) <==> Ahead(o, i, a.keys[i], b.keys[i]);
    }
  }

  /**
   * The keyset clause after the row a cursor names, wrapped key by key from
   * the last sort column out. It admits exactly the rows the view lists
   * strictly after that row.
   */
  method KeysetClause<K(==, !new)>(o: Order<K>, cursor: Row<K>) returns (clause: Clause<K>)
    requires Fits(o, cursor)
    ensures forall r: Row<K> :: Fits(o, r) ==> (Admits(o, clause, r) <==> Before(o, cursor, r))
  {
    clause := TieClause(cursor.at, cursor.id);
    var i := |o.columns|;
    while i > 0
      invariant 0 <= i <= |o.columns|
      invariant forall r: Row<K> :: Fits(o, r) ==> (Admits(o, clause, r) <==> BeforeFrom(o, cursor, r, i))
    {
      ghost var inner := clause;
      i := i - 1;
      clause := KeyClause(i, o.columns[i], cursor.keys[i], clause);
      forall r: Row<K> | Fits(o, r) ensures Admits(o, clause, r) <==> BeforeFrom(o, cursor, r, i) {
        assert Admits(o, inner, r) <==> BeforeFrom(o, cursor, r, i + 1);
      }
    }
    forall r: Row<K> | Fits(o, r) ensures Admits(o, clause, r) <==> Before(o, cursor, r) {
      BeforeIsFromFirst(o, cursor, r);
    }
  }

  // ---- The order is strict and total ----

  lemma {:induction false} FromIsStrict<K(!new)>(o: Order<K>, a: Row<K>, from: nat)
    requires Total(o) && Fits(o, a) && from <= |o.columns|
    ensures !BeforeFrom(o, a, a, from)
    decreases |o.columns| - from
  {
    if from >= |o.columns| {
    } else {
      FromIsStrict(o, a, from + 1);
    }
  }

  lemma {:induction false} FromIsTransitive<K(!new)>(o: Order<K>, a: Row<K>, b: Row<K>, c: Row<K>, from: nat)
    requires Total(o) && Fits(o, a) && Fits(o, b) && Fits(o, c) && from <= |o.columns|
    requires BeforeFrom(o, a, b, from) && BeforeFrom(o, b, c, from)
    ensures BeforeFrom(o, a, c, from)
    decreases |o.columns| - from
  {
    if from >= |o.columns| {
    } else {
      if a.keys[from] == b.keys[from] == c.keys[from] &&
        BeforeFrom(o, a, b, from + 1) && BeforeFrom(o, b, c, from + 1) {
        FromIsTransitive(o, a, b, c, from + 1);
      }
    }
  }

  lemma {:induction false} FromIsTotal<K(!new)>(o: Order<K>, a: Row<K>, b: Row<K>, from: nat)
    requires Total(o) && Fits(o, a) && Fits(o, b) && from <= |o.columns| && SameUpTo(a, b, from)
    ensures BeforeFrom(o, a, b, from) || BeforeFrom(o, b, a, from) || a == b
    decreases |o.columns| - from
  {
    if from == |o.columns| {
      assert a.keys[..from] == a.keys && b.keys[..from] == b.keys;
    } else if a.keys[from] == b.keys[from] {
      SameOneMore(a, b, from);
      FromIsTotal(o, a, b, from + 1);
    }
  }

  /** A view's order is strict, transitive, and leaves no two different rows unordered. */
  lemma BeforeIsTotal<K(!new)>(o: Order<K>, a: Row<K>, b: Row<K>, c: Row<K>)
    requires Total(o) && Fits(o, a) && Fits(o, b) && Fits(o, c)
    ensures !Before(o, a, a)
    ensures Before(o, a, b) && Before(o, b, c) ==> Before(o, a, c)
    ensures a == b || Before(o, a, b) || Before(o, b, a)
  {
    FromIsStrict(o, a, 0);
    FromIsTotal(o, a, b, 0);
    BeforeIsFromFirst(o, a, a);
    BeforeIsFromFirst(o, a, b);
    BeforeIsFromFirst(o, b, a);
    BeforeIsFromFirst(o, b, c);
    BeforeIsFromFirst(o, a, c);
    if Before(o, a, b) && Before(o, b, c) { FromIsTransitive(o, a, b, c, 0); }
  }
}
