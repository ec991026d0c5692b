/**
 * Force-account hours of one person: their check-ins and shifts, merged where
 * they overlap or touch, cut at local midnights and summed per day. Instants
 * are whole microseconds; `start(d)` is the instant local day `d` begins and
 * `dateOf(t)` the local date shown at instant `t`.
 */
module ForceAccount {
  import opened Base

  datatype Span = Span(s: int, e: int)

  datatype CheckIn = CheckIn(at: int, out: Option<int>)

  function Min(a: int, b: int): int { if a < b then a else b }

  function Max(a: int, b: int): int { if a < b then b else a }

  // ---- Which spans count ----

  function Closed(checkIns: seq<CheckIn>): seq<Span> {
    if checkIns == [] then []
    else (if checkIns[0].out.Some? then [Span(checkIns[0].at, checkIns[0].out.value)] else []) + Closed(checkIns[1..])
  }

  /** Past shifts that none of the person's closed check-ins overlaps. */
  function Uncovered(shifts: seq<Span>, closed: seq<Span>, now: int): seq<Span> {
    if shifts == [] then []
    else
      var rest := Uncovered(shifts[1..], closed, now);
      if shifts[0].e <= now && !(exists c :: c in closed && c.s < shifts[0].e && c.e > shifts[0].s)
        then [shifts[0]] + rest
      else rest
  }

  function Worked(checkIns: seq<CheckIn>, shifts: seq<Span>, now: int): seq<Span> {
    Closed(checkIns) + Uncovered(shifts, Closed(checkIns), now)
  }

  // ---- Order, mark, number, merge ----

  function Insert(x: Span, sp: seq<Span>): seq<Span> {
    if sp == [] then [x]
    else if x.s < sp[0].s || (x.s == sp[0].s && x.e <= sp[0].e) then [x] + sp
    else [sp[0]] + Insert(x, sp[1..])
  }

  /** The window's order: by start, then by end. */
  function OrderBy(sp: seq<Span>): seq<Span> {
    if sp == [] then [] else Insert(sp[0], OrderBy(sp[1..]))
  }

  /** The greatest end among the rows before the current one. */
  function MaxEnd(sp: seq<Span>): int
    requires sp != []
  {
    if |sp| == 1 then sp[0].e else Max(MaxEnd(sp[..|sp| - 1]), sp[|sp| - 1].e)
  }

  /** The last row starts an island unless it begins by the greatest end before it. */
  predicate Opens(sp: seq<Span>)
    requires sp != []
  {
    |sp| == 1 || sp[|sp| - 1].s > MaxEnd(sp[..|sp| - 1])
  }

  /** The last row's island: the running sum of the starts. */
  function Island(sp: seq<Span>): nat
    requires sp != []
  {
    (if |sp| == 1 then 0 else Island(sp[..|sp| - 1])) + (if Opens(sp) then 1 else 0)
  }

  function Join(a: Option<Span>, b: Span): Span {
    if a.None? then b else Span(Min(a.value.s, b.s), Max(a.value.e, b.e))
  }

  /** The least start and the greatest end of the rows of island `k`. */
  function Group(sp: seq<Span>, k: nat): Option<Span> {
    if sp == [] then None
    else
      var before := Group(sp[..|sp| - 1], k);
      if Island(sp) == k then Some(Join(before, sp[|sp| - 1])) else before
  }

  function Groups(sp: seq<Span>, m: nat): seq<Span> {
    if m == 0 then []
    else Groups(sp, m - 1) + (if Group(sp, m).Some? then [Group(sp, m).value] else [])
  }

  /** One row per island: `group by` its number. */
  function Merged(sp: seq<Span>): seq<Span> {
    if sp == [] then [] else Groups(sp, Island(sp))
  }

  // ---- Cut into days ----

  datatype Piece = Piece(day: int, length: nat)

  function Clip(m: Span, lo: int, hi: int): nat {
    if Min(m.e, hi) > Max(m.s, lo) then Min(m.e, hi) - Max(m.s, lo) else 0
  }

  /** The pieces of `m` on days `from` to `upto`, those of no length left out. */
  function PiecesOn(m: Span, start: int -> int, from: int, upto: int): seq<Piece>
    decreases upto - from
  {
    if from > upto then []
    else PiecesOn(m, start, from, upto - 1) +
         (if Clip(m, start(upto), start(upto + 1)) > 0
          then [Piece(upto, Clip(m, start(upto), start(upto + 1)))]
          else [])
  }

  function Pieces(m: Span, start: int -> int, dateOf: int -> int): seq<Piece> {
    PiecesOn(m, start, dateOf(m.s), dateOf(m.e))
  }

  function Cut(ms: seq<Span>, start: int -> int, dateOf: int -> int): seq<Piece> {
    if ms == [] then [] else Cut(ms[..|ms| - 1], start, dateOf) + Pieces(ms[|ms| - 1], start, dateOf)
  }

  /** A person's time on one day. */
  function DayTotal(ps: seq<Piece>, day: int): nat {
    if ps == [] then 0
    else DayTotal(ps[..|ps| - 1], day) + (if ps[|ps| - 1].day == day then ps[|ps| - 1].length else 0)
  }

  /** A person's time over the days `from` to `upto`. */
  function DaysTotal(ps: seq<Piece>, from: int, upto: int): nat
    decreases upto - from
  {
    if from > upto then 0 else DaysTotal(ps, from, upto - 1) + DayTotal(ps, upto)
  }

  // ---- What the hours measure ----

  function Range(a: int, b: int): (instants: set<int>)
    ensures forall t :: t in instants <==> a <= t < b
    decreases b - a
  {
    if a < b then Range(a, b - 1) + {b - 1} else {}
  }

  /** The instants in some span. */
  function Covered(sp: seq<Span>): set<int> {
    if sp == [] then {} else Covered(sp[..|sp| - 1]) + Range(sp[|sp| - 1].s, sp[|sp| - 1].e)
  }

  predicate Forward(sp: seq<Span>) { forall x :: x in sp ==> x.s <= x.e }

  predicate ByStart(sp: seq<Span>) { forall i, j :: 0 <= i < j < |sp| ==> sp[i].s <= sp[j].s }

  /** Islands in order, each apart from the next by a positive gap. */
  predicate Separated(ms: seq<Span>) { forall i, j :: 0 <= i < j < |ms| ==> ms[i].e < ms[j].s }

  ghost predicate Increasing(start: int -> int) { forall a, b :: a < b ==> start(a) < start(b) }

  /** The dates shown at both ends of a span fit the instants its days begin and end. */
  predicate DatesFit(m: Span, start: int -> int, dateOf: int -> int) {
    start(dateOf(m.s)) <= m.s && m.e <= start(dateOf(m.e) + 1)
  }

  // ---- Ordering changes nothing covered ----

  lemma {:induction false} CoveredIs(sp: seq<Span>, t: int)
    ensures t in Covered(sp) <==> exists x :: x in sp && x.s <= t < x.e
  {
    if sp == [] {
    } else {
      CoveredIs(sp[..|sp| - 1], t);
      var last := sp[|sp| - 1];
      assert sp == sp[..|sp| - 1] + [last];
      assert t in Range(last.s, last.e) <==> last.s <= t < last.e;
    }
  }

  lemma {:induction false} InsertKeeps(x: Span, sp: seq<Span>)
    requires ByStart(sp)
    ensures ByStart(Insert(x, sp))
    ensures forall y :: y in Insert(x, sp) <==> y == x || y in sp
  {
    if sp != [] && !(x.s < sp[0].s || (x.s == sp[0].s && x.e <= sp[0].e)) {
      InsertKeeps(x, sp[1..]);
      assert sp == [sp[0]] + sp[1..];
      var rest := Insert(x, sp[1..]);
      forall k | 0 <= k < |rest| ensures sp[0].s <= rest[k].s {
        assert rest[k] in rest;
      }
    }
  }

  lemma {:induction false} OrderByKeeps(sp: seq<Span>)
    ensures ByStart(OrderBy(sp))
    ensures forall y :: y in OrderBy(sp) <==> y in sp
    ensures Covered(OrderBy(sp)) == Covered(sp)
  {
    if sp == [] {
    } else {
      OrderByKeeps(sp[1..]);
      InsertKeeps(sp[0], OrderBy(sp[1..]));
      assert sp == [sp[0]] + sp[1..];
    }
    forall t ensures t in Covered(OrderBy(sp)) <==> t in Covered(sp) {
      CoveredIs(OrderBy(sp), t);
      CoveredIs(sp, t);
    }
  }

  // ---- Merging, one row at a time ----

  /** Every number up to the last row's has its island, and none beyond it has. */
  lemma {:induction false} GroupExists(sp: seq<Span>, k: nat)
    requires sp != []
    ensures Island(sp) >= 1
    ensures Group(sp, k).Some? <==> 1 <= k <= Island(sp)
  {
    if |sp| > 1 { GroupExists(sp[..|sp| - 1], k); } else { assert Group([], k) == None; }
  }

  lemma GroupGrows(sp: seq<Span>, x: Span, k: nat)
    requires sp != []
    ensures Island(sp + [x]) == Island(sp) + (if x.s > MaxEnd(sp) then 1 else 0)
    ensures Group(sp + [x], k) == if Island(sp + [x]) == k then Some(Join(Group(sp, k), x)) else Group(sp, k)
  {
    assert (sp + [x])[..|sp|] == sp;
  }

  lemma {:induction false} GroupsBefore(sp: seq<Span>, x: Span, m: nat)
    requires sp != [] && m < Island(sp + [x])
    ensures Groups(sp + [x], m) == Groups(sp, m)
  {
    if m == 0 {
    } else {
      GroupsBefore(sp, x, m - 1);
      GroupGrows(sp, x, m);
    }
  }

  /** The islands are those of the lower numbers and the last row's. */
  lemma MergedEnds(sp: seq<Span>, m: nat)
    requires sp != [] && m == Island(sp)
    ensures m >= 1 && Group(sp, m).Some?
    ensures Merged(sp) == Groups(sp, m - 1) + [Group(sp, m).value]
  {
    GroupExists(sp, m);
  }

  lemma OpensAlone(sp: seq<Span>, x: Span)
    requires sp != [] && x.s > MaxEnd(sp)
    ensures Island(sp + [x]) == Island(sp) + 1 && Group(sp + [x], Island(sp) + 1) == Some(x)
  {
    var k := Island(sp) + 1;
    assert Group(sp, k).None? by { GroupExists(sp, k); }
    GroupGrows(sp, x, k);
  }

  /** A row that begins past every end before it is an island of its own. */
  lemma MergedAdds(sp: seq<Span>, x: Span)
    requires sp != [] && x.s > MaxEnd(sp)
    ensures Merged(sp + [x]) == Merged(sp) + [x]
  {
    var m, all := Island(sp), sp + [x];
    OpensAlone(sp, x);
    GroupsBefore(sp, x, m);
    MergedEnds(all, m + 1);
    assert Merged(all) == Groups(all, m) + [x];
    assert Groups(all, m) == Groups(sp, m) == Merged(sp);
  }

  /** Any other row stretches the last island. */
  lemma MergedStretches(sp: seq<Span>, x: Span, front: seq<Span>, last: Span)
    requires sp != [] && x.s <= MaxEnd(sp) && Merged(sp) == front + [last]
    ensures Merged(sp + [x]) == front + [Span(Min(last.s, x.s), Max(last.e, x.e))]
  {
    var m := Island(sp);
    MergedEnds(sp, m);
    assert Groups(sp, m - 1) == (front + [last])[..|front|] == front;
    assert Group(sp, m).value == (front + [last])[|front|];
    GroupGrows(sp, x, m);
    MergedEnds(sp + [x], m);
    GroupsBefore(sp, x, m - 1);
  }

  lemma MergedOfOne(x: Span)
    ensures Merged([x]) == [x]
  {
    var one := [x];
    assert one[..0] == [];
    assert Island(one) == 1 && Group([], 1) == None;
    assert Group(one, 1) == Some(x);
    MergedEnds(one, 1);
  }

  /** What the islands of ordered rows are: separated, covering the same instants, ending at the greatest end. */
  predicate Islands(sp: seq<Span>, ms: seq<Span>)
    requires sp != []
  {
    && ms != [] && Separated(ms) && Forward(ms)
    && ms[|ms| - 1].e == MaxEnd(sp) && ms[|ms| - 1].s <= sp[|sp| - 1].s
    && Covered(ms) == Covered(sp)
  }

  lemma IslandAdds(before: seq<Span>, ms: seq<Span>, x: Span)
    requires before != [] && Islands(before, ms) && x.s > MaxEnd(before) && x.s <= x.e
    ensures Islands(before + [x], ms + [x])
  {
    assert (ms + [x])[..|ms|] == ms && (before + [x])[..|before|] == before;
    forall i | 0 <= i < |ms| ensures ms[i].e < x.s {
      assert ms[i].e <= ms[|ms| - 1].e by { assert ms[|ms| - 1] in ms; }
    }
  }

  lemma RangesJoin(a: int, b: int, c: int, d: int)
    requires a <= c <= b && c <= d
    ensures Range(Min(a, c), Max(b, d)) == Range(a, b) + Range(c, d)
  {
    assert forall t :: t in Range(Min(a, c), Max(b, d)) <==> t in Range(a, b) + Range(c, d);
  }

  lemma LastCovers(sp: seq<Span>, x: Span)
    ensures Covered(sp + [x]) == Covered(sp) + Range(x.s, x.e)
  {
    assert (sp + [x])[..|sp|] == sp;
  }

  lemma CoversJoin(front: seq<Span>, last: Span, x: Span, long: Span)
    requires Range(long.s, long.e) == Range(last.s, last.e) + Range(x.s, x.e)
    ensures Covered(front + [long]) == Covered(front + [last]) + Range(x.s, x.e)
  {
    LastCovers(front, long);
    LastCovers(front, last);
  }

  /** Stretching the last island by a row that begins within it covers what the row covers. */
  lemma StretchCovers(ms: seq<Span>, x: Span)
    requires ms != [] && ms[|ms| - 1].s <= x.s <= ms[|ms| - 1].e && x.s <= x.e
    ensures var last := ms[|ms| - 1];
      Covered(ms[..|ms| - 1] + [Span(Min(last.s, x.s), Max(last.e, x.e))]) == Covered(ms) + Range(x.s, x.e)
  {
    var last := ms[|ms| - 1];
    RangesJoin(last.s, last.e, x.s, x.e);
    CoversJoin(ms[..|ms| - 1], last, x, Span(Min(last.s, x.s), Max(last.e, x.e)));
    assert ms == ms[..|ms| - 1] + [last];
  }

  lemma IslandStretches(before: seq<Span>, ms: seq<Span>, x: Span)
    requires before != [] && Islands(before, ms) && x.s <= MaxEnd(before) && x.s <= x.e && before[|before| - 1].s <= x.s
    ensures var last := ms[|ms| - 1];
      Islands(before + [x], ms[..|ms| - 1] + [Span(Min(last.s, x.s), Max(last.e, x.e))])
  {
    assert (before + [x])[..|before|] == before;
    StretchCovers(ms, x);
    assert ms[|ms| - 1] in ms;
  }

  lemma {:induction false} MergedIsIslands(sp: seq<Span>)
    requires sp != [] && ByStart(sp) && Forward(sp)
    ensures Islands(sp, Merged(sp))
  {
    var n := |sp| - 1;
    var x := sp[n];
    if n == 0 {
      assert sp == [x];
      MergedOfOne(x);
    } else {
      var before := sp[..n];
      assert sp == before + [x];
      assert before[n - 1] == sp[n - 1];
      MergedIsIslands(before);
      var ms := Merged(before);
      if x.s > MaxEnd(before) {
        MergedAdds(before, x);
        IslandAdds(before, ms, x);
      } else {
        MergedStretches(before, x, ms[..|ms| - 1], ms[|ms| - 1]);
        IslandStretches(before, ms, x);
      }
    }
  }

  // ---- Lengths ----

  lemma {:induction false} RangeSize(a: int, b: int)
    requires a <= b
    ensures |Range(a, b)| == b - a
    decreases b - a
  {
    if a >= b {
    } else {
      RangeSize(a, b - 1);
    }
  }

  function Lengths(ms: seq<Span>): int {
    if ms == [] then 0 else Lengths(ms[..|ms| - 1]) + (ms[|ms| - 1].e - ms[|ms| - 1].s)
  }

  lemma {:induction false} SeparatedSize(ms: seq<Span>)
    requires Separated(ms) && Forward(ms)
    ensures |Covered(ms)| == Lengths(ms)
  {
    if ms == [] {
    } else {
      var n := |ms| - 1;
      SeparatedSize(ms[..n]);
      RangeSize(ms[n].s, ms[n].e);
      forall t | t in Covered(ms[..n]) ensures t !in Range(ms[n].s, ms[n].e) {
        CoveredIs(ms[..n], t);
      }
      assert Covered(ms[..n]) !! Range(ms[n].s, ms[n].e);
    }
  }

  function PieceLengths(ps: seq<Piece>): nat {
    if ps == [] then 0 else PieceLengths(ps[..|ps| - 1]) + ps[|ps| - 1].length
  }

  lemma {:induction false} PieceLengthsAppend(a: seq<Piece>, b: seq<Piece>)
    ensures PieceLengths(a + b) == PieceLengths(a) + PieceLengths(b)
  {
    if b == [] { assert a + b == a; }
    else {
      assert (a + b)[..|a + b| - 1] == a + b[..|b| - 1];
      PieceLengthsAppend(a, b[..|b| - 1]);
    }
  }

  /** The pieces of one span over consecutive days telescope: they are the span clipped to those days. */
  lemma {:induction false} PiecesTelescope(m: Span, start: int -> int, from: int, upto: int)
    requires Increasing(start) && m.s <= m.e && from <= upto + 1
    ensures PieceLengths(PiecesOn(m, start, from, upto)) == Clip(m, start(from), start(upto + 1))
    decreases upto - from
  {
    if from > upto {
    } else {
      PiecesTelescope(m, start, from, upto - 1);
      assert start(from) <= start(upto) < start(upto + 1);
      var more :=
        if Clip(m, start(upto), start(upto + 1)) > 0 then [Piece(upto, Clip(m, start(upto), start(upto + 1)))] else [];
      PieceLengthsAppend(PiecesOn(m, start, from, upto - 1), more);
      if more != [] { assert more[..0] == []; }
    }
  }

  /** A span's pieces never exceed it, and make it up exactly when its dates fit. */
  lemma SpanConserves(m: Span, start: int -> int, dateOf: int -> int)
    requires Increasing(start) && m.s <= m.e
    ensures PieceLengths(Pieces(m, start, dateOf)) <= m.e - m.s
    ensures PieceLengths(Pieces(m, start, dateOf)) == m.e - m.s <==> m.s == m.e || DatesFit(m, start, dateOf)
  {
    var from, upto := dateOf(m.s), dateOf(m.e);
    if from <= upto + 1 {
      PiecesTelescope(m, start, from, upto);
    } else {
      assert start(upto + 1) < start(from);
    }
  }

  lemma {:induction false} CutConserves(ms: seq<Span>, start: int -> int, dateOf: int -> int)
    requires Increasing(start) && Forward(ms)
    ensures PieceLengths(Cut(ms, start, dateOf)) <= Lengths(ms)
    ensures PieceLengths(Cut(ms, start, dateOf)) == Lengths(ms) <==>
            forall m :: m in ms ==> m.s == m.e || DatesFit(m, start, dateOf)
  {
    if ms == [] {
    } else {
      var n := |ms| - 1;
      CutConserves(ms[..n], start, dateOf);
      SpanConserves(ms[n], start, dateOf);
      PieceLengthsAppend(Cut(ms[..n], start, dateOf), Pieces(ms[n], start, dateOf));
      assert ms == ms[..n] + [ms[n]];
    }
  }

  lemma {:induction false} DaysTotalAppends(ps: seq<Piece>, p: Piece, from: int, upto: int)
    requires from <= upto + 1
    ensures DaysTotal(ps + [p], from, upto) == DaysTotal(ps, from, upto) +
      (if from <= p.day <= upto then p.length else 0)
    decreases upto - from
  {
    if from > upto {
    } else {
      assert (ps + [p])[..|ps|] == ps;
      DaysTotalAppends(ps, p, from, upto - 1);
    }
  }

  lemma {:induction false} NothingOnNoPieces(from: int, upto: int)
    ensures DaysTotal([], from, upto) == 0
    decreases upto - from
  {
    if from > upto {
    } else {
      NothingOnNoPieces(from, upto - 1);
    }
  }

  /** Summing per day and then over the days is summing the pieces. */
  lemma {:induction false} DaysTotalIsPieces(ps: seq<Piece>, from: int, upto: int)
    requires from <= upto + 1 && forall p :: p in ps ==> from <= p.day <= upto
    ensures DaysTotal(ps, from, upto) == PieceLengths(ps)
  {
    if ps == [] { NothingOnNoPieces(from, upto); }
    else {
      var n := |ps| - 1;
      assert ps == ps[..n] + [ps[n]];
      DaysTotalIsPieces(ps[..n], from, upto);
      DaysTotalAppends(ps[..n], ps[n], from, upto);
    }
  }

  // ---- Each day holds its own time ----

  lemma {:induction false} DayTotalAppends(a: seq<Piece>, b: seq<Piece>, day: int)
    ensures DayTotal(a + b, day) == DayTotal(a, day) + DayTotal(b, day)
  {
    if b == [] { assert a + b == a; }
    else {
      assert (a + b)[..|a + b| - 1] == a + b[..|b| - 1];
      DayTotalAppends(a, b[..|b| - 1], day);
    }
  }

  lemma DayOfOne(p: Piece, day: int)
    ensures DayTotal([p], day) == if p.day == day then p.length else 0
  {
    assert [p][..0] == [];
  }

  lemma {:induction false} DayOfSpan(m: Span, start: int -> int, from: int, upto: int, day: int)
    ensures DayTotal(PiecesOn(m, start, from, upto), day)
         == if from <= day <= upto then Clip(m, start(day), start(day + 1)) else 0
    decreases upto - from
  {
    if from > upto {
    } else {
      var before, length := PiecesOn(m, start, from, upto - 1), Clip(m, start(upto), start(upto + 1));
      DayOfSpan(m, start, from, upto - 1, day);
      if length > 0 {
        DayTotalAppends(before, [Piece(upto, length)], day);
        DayOfOne(Piece(upto, length), day);
      } else {
        assert before + [] == before;
      }
    }
  }

  /** A span whose dates fit has nothing on other days than its pieces'. */
  lemma DayOfFitting(m: Span, start: int -> int, dateOf: int -> int, day: int)
    requires Increasing(start) && m.s <= m.e
    ensures DayTotal(Pieces(m, start, dateOf), day) <= Clip(m, start(day), start(day + 1))
    ensures m.s == m.e || DatesFit(m, start, dateOf) ==>
      DayTotal(Pieces(m, start, dateOf), day) == Clip(m, start(day), start(day + 1))
  {
    var from, upto := dateOf(m.s), dateOf(m.e);
    DayOfSpan(m, start, from, upto, day);
    if day < from { assert start(day + 1) <= start(from); }
    if day > upto { assert start(upto + 1) <= start(day); }
  }

  function Clips(ms: seq<Span>, lo: int, hi: int): nat {
    if ms == [] then 0 else Clips(ms[..|ms| - 1], lo, hi) + Clip(ms[|ms| - 1], lo, hi)
  }

  lemma {:induction false} DayOfIslands(ms: seq<Span>, start: int -> int, dateOf: int -> int, day: int)
    requires Increasing(start) && Forward(ms)
    ensures DayTotal(Cut(ms, start, dateOf), day) <= Clips(ms, start(day), start(day + 1))
    ensures (forall m :: m in ms ==> m.s == m.e || DatesFit(m, start, dateOf)) ==>
      DayTotal(Cut(ms, start, dateOf), day) == Clips(ms, start(day), start(day + 1))
  {
    if ms == [] {
    } else {
      var n := |ms| - 1;
      assert ms == ms[..n] + [ms[n]];
      DayOfIslands(ms[..n], start, dateOf, day);
      DayTotalAppends(Cut(ms[..n], start, dateOf), Pieces(ms[n], start, dateOf), day);
      DayOfFitting(ms[n], start, dateOf, day);
    }
  }

  lemma ClipSize(m: Span, lo: int, hi: int)
    ensures |Range(m.s, m.e) * Range(lo, hi)| == Clip(m, lo, hi)
  {
    var from, upto := Max(m.s, lo), Min(m.e, hi);
    if from < upto {
      RangeSize(from, upto);
      assert Range(m.s, m.e) * Range(lo, hi) == Range(from, upto);
    } else {
      assert Range(m.s, m.e) * Range(lo, hi) == {};
    }
  }

  /** Islands cover as much of a day as they have there one by one. */
  lemma {:induction false} ClipsSize(ms: seq<Span>, lo: int, hi: int)
    requires Separated(ms) && Forward(ms)
    ensures |Covered(ms) * Range(lo, hi)| == Clips(ms, lo, hi)
  {
    if ms == [] {
    } else {
      var n := |ms| - 1;
      ClipsSize(ms[..n], lo, hi);
      ClipSize(ms[n], lo, hi);
      var before, last := Covered(ms[..n]) * Range(lo, hi), Range(ms[n].s, ms[n].e) * Range(lo, hi);
      forall t | t in Covered(ms[..n]) ensures t !in Range(ms[n].s, ms[n].e) { CoveredIs(ms[..n], t); }
      assert before !! last && Covered(ms) * Range(lo, hi) == before + last;
    }
  }

  lemma PartFits(instants: set<int>, lo: int, hi: int)
    requires lo <= hi
    ensures |instants * Range(lo, hi)| <= hi - lo
  {
    RangeSize(lo, hi);
    assert Range(lo, hi) == (instants * Range(lo, hi)) + (Range(lo, hi) - instants);
  }

  // ---- The summary ----

  lemma MergedKeeps(worked: seq<Span>)
    requires Forward(worked)
    ensures var ms := Merged(OrderBy(worked));
      Separated(ms) && Forward(ms) && Covered(ms) == Covered(worked) && |Covered(worked)| == Lengths(ms)
  {
    OrderByKeeps(worked);
    if worked != [] {
      assert worked[0] in OrderBy(worked);
      MergedIsIslands(OrderBy(worked));
    }
    SeparatedSize(Merged(OrderBy(worked)));
  }

  /**
   * A day's hours are no more than what is covered of that very day, nor than
   * its length, and just that where the dates at every island's ends fit.
   */
  lemma DayHoldsItsTime(worked: seq<Span>, start: int -> int, dateOf: int -> int, day: int)
    requires Forward(worked) && Increasing(start)
    ensures var ms := Merged(OrderBy(worked));
      var total, covered := DayTotal(Cut(ms, start, dateOf), day), Covered(worked) * Range(start(day), start(day + 1));
      && total <= |covered| <= start(day + 1) - start(day)
      && ((forall m :: m in ms ==> m.s == m.e || DatesFit(m, start, dateOf)) ==> total == |covered|)
  {
    var ms := Merged(OrderBy(worked));
    MergedKeeps(worked);
    DayOfIslands(ms, start, dateOf, day);
    ClipsSize(ms, start(day), start(day + 1));
    assert start(day) < start(day + 1);
    PartFits(Covered(worked), start(day), start(day + 1));
  }

  /**
   * The hours of a person, summed over the days, are the time their spans
   * cover together, each instant once, exactly when the dates shown at the
   * ends of every island fit the days; they are never more, and no day holds
   * more than its own length.
   */
  lemma HoursConserveTime(worked: seq<Span>, start: int -> int, dateOf: int -> int, from: int, upto: int)
    requires Forward(worked) && Increasing(start) && from <= upto + 1
    requires forall p :: p in Cut(Merged(OrderBy(worked)), start, dateOf) ==> from <= p.day <= upto
    ensures var ms := Merged(OrderBy(worked));
      var ps := Cut(ms, start, dateOf);
      && (DaysTotal(ps, from, upto) == |Covered(worked)| <==>
            forall m :: m in ms ==> m.s == m.e || DatesFit(m, start, dateOf))
      && DaysTotal(ps, from, upto) <= |Covered(worked)|
      && forall day :: DayTotal(ps, day) <= start(day + 1) - start(day)
  {
    var ms := Merged(OrderBy(worked));
    var ps := Cut(ms, start, dateOf);
    MergedKeeps(worked);
    CutConserves(ms, start, dateOf);
    DaysTotalIsPieces(ps, from, upto);
    forall day ensures DayTotal(ps, day) <= start(day + 1) - start(day) {
      DayHoldsItsTime(worked, start, dateOf, day);
    }
  }

  /** A check-in counts from its start to its end once it is closed, as often as it was made. */
  lemma {:induction false} ClosedExactly(checkIns: seq<CheckIn>, x: Span)
    ensures multiset(Closed(checkIns))[x] == multiset(checkIns)[CheckIn(x.s, Some(x.e))]
  {
    if checkIns == [] {
    } else {
      ClosedExactly(checkIns[1..], x);
      assert checkIns == [checkIns[0]] + checkIns[1..];
    }
  }

  /**
   * A shift counts, as often as it was planned, exactly when it is over and
   * every closed check-in ends by its start or begins at or after its end.
   */
  lemma {:induction false} UncoveredExactly(shifts: seq<Span>, closed: seq<Span>, now: int, x: Span)
    ensures multiset(Uncovered(shifts, closed, now))[x] ==
      if x.e <= now && forall c :: c in closed ==> c.e <= x.s || c.s >= x.e then multiset(shifts)[x] else 0
  {
    if shifts == [] {
    } else {
      UncoveredExactly(shifts[1..], closed, now, x);
      assert shifts == [shifts[0]] + shifts[1..];
    }
  }

  /** A closed check-in holds the instant. */
  predicate CheckedIn(checkIns: seq<CheckIn>, t: int) {
    exists c :: c in checkIns && c.out.Some? && c.at <= t < c.out.value
  }

  /** A shift that is over, and that no closed check-in overlaps, holds the instant. */
  predicate OnShift(checkIns: seq<CheckIn>, shifts: seq<Span>, now: int, t: int) {
    exists x :: x in shifts && x.e <= now && x.s <= t < x.e &&
      forall c :: c in checkIns && c.out.Some? ==> c.out.value <= x.s || c.at >= x.e
  }

  lemma ClosedIs(checkIns: seq<CheckIn>, x: Span)
    ensures x in Closed(checkIns) <==> CheckIn(x.s, Some(x.e)) in checkIns
  {
    ClosedExactly(checkIns, x);
    assert x in multiset(Closed(checkIns)) <==> CheckIn(x.s, Some(x.e)) in multiset(checkIns);
  }

  lemma UncoveredIs(checkIns: seq<CheckIn>, shifts: seq<Span>, now: int, x: Span)
    ensures x in Uncovered(shifts, Closed(checkIns), now) <==>
      && x in shifts && x.e <= now
      && forall c :: c in checkIns && c.out.Some? ==> c.out.value <= x.s || c.at >= x.e
  {
    var closed := Closed(checkIns);
    UncoveredExactly(shifts, closed, now, x);
    assert x in multiset(Uncovered(shifts, closed, now)) <==> multiset(Uncovered(shifts, closed, now))[x] > 0;
    assert x in multiset(shifts) <==> multiset(shifts)[x] > 0;
    forall c | c in checkIns && c.out.Some? ensures Span(c.at, c.out.value) in closed {
      ClosedIs(checkIns, Span(c.at, c.out.value));
    }
    forall y | y in closed ensures CheckIn(y.s, Some(y.e)) in checkIns { ClosedIs(checkIns, y); }
  }

  /** The time that counts: every instant a closed check-in holds, or else a shift that is over and has none. */
  lemma WorkedIs(checkIns: seq<CheckIn>, shifts: seq<Span>, now: int, t: int)
    ensures t in Covered(Worked(checkIns, shifts, now)) <==>
      CheckedIn(checkIns, t) || OnShift(checkIns, shifts, now, t)
  {
    var worked := Worked(checkIns, shifts, now);
    CoveredIs(worked, t);
    if x: Span :| x in worked && x.s <= t < x.e {
      if x in Closed(checkIns) { ClosedIs(checkIns, x); } else { UncoveredIs(checkIns, shifts, now, x); }
    }
    if CheckedIn(checkIns, t) {
      var c :| c in checkIns && c.out.Some? && c.at <= t < c.out.value;
      ClosedIs(checkIns, Span(c.at, c.out.value));
      assert Span(c.at, c.out.value) in worked;
    }
    if OnShift(checkIns, shifts, now, t) {
      var x :| x in shifts && x.e <= now && x.s <= t < x.e &&
        forall c :: c in checkIns && c.out.Some? ==> c.out.value <= x.s || c.at >= x.e;
      UncoveredIs(checkIns, shifts, now, x);
      assert x in worked;
    }
  }

  /** A past shift is counted only where no closed check-in of the person overlaps it. */
  lemma {:induction false} ShiftsNeverOverlapCheckIns(shifts: seq<Span>, closed: seq<Span>, now: int, x: Span)
    requires x in Uncovered(shifts, closed, now)
    ensures x in shifts && x.e <= now && forall c :: c in closed ==> c.e <= x.s || x.e <= c.s
  {
    if !(x in Uncovered(shifts[1..], closed, now)) {
      assert x == shifts[0];
    } else {
      ShiftsNeverOverlapCheckIns(shifts[1..], closed, now, x);
    }
  }

  lemma {:induction false} ClosedIsForward(checkIns: seq<CheckIn>)
    requires forall c :: c in checkIns && c.out.Some? ==> c.at <= c.out.value
    ensures Forward(Closed(checkIns))
  {
    if checkIns == [] {
    } else {
      assert checkIns[0] in checkIns && forall c :: c in checkIns[1..] ==> c in checkIns;
      ClosedIsForward(checkIns[1..]);
    }
  }

  /**
   * The summary of a person's check-ins and shifts: the hours of its days are
   * the time a closed check-in holds, or else a shift that is over and that no
   * check-in overlaps, under the same condition on the shown dates.
   */
  lemma SummaryConservesTime(
    checkIns: seq<CheckIn>, shifts: seq<Span>, now: int, start: int -> int, dateOf: int -> int, from: int, upto: int)
    requires (forall c :: c in checkIns && c.out.Some? ==> c.at <= c.out.value) && Forward(shifts)
    requires Increasing(start) && from <= upto + 1
    requires forall p :: p in Cut(Merged(OrderBy(Worked(checkIns, shifts, now))), start, dateOf) ==>
      from <= p.day <= upto
    ensures var worked := Worked(checkIns, shifts, now);
      var ms := Merged(OrderBy(worked));
      && (DaysTotal(Cut(ms, start, dateOf), from, upto) == |Covered(worked)| <==>
            forall m :: m in ms ==> m.s == m.e || DatesFit(m, start, dateOf))
      && DaysTotal(Cut(ms, start, dateOf), from, upto) <= |Covered(worked)|
      && (forall day :: DayTotal(Cut(ms, start, dateOf), day) <= start(day + 1) - start(day))
      && forall t :: t in Covered(worked) <==> CheckedIn(checkIns, t) || OnShift(checkIns, shifts, now, t)
  {
    var closed := Closed(checkIns);
    forall t ensures t in Covered(Worked(checkIns, shifts, now)) <==>
      CheckedIn(checkIns, t) || OnShift(checkIns, shifts, now, t)
    {
      WorkedIs(checkIns, shifts, now, t);
    }
    ClosedIsForward(checkIns);
    forall x | x in Uncovered(shifts, closed, now) ensures x.s <= x.e {
      ShiftsNeverOverlapCheckIns(shifts, closed, now, x);
    }
    HoursConserveTime(Worked(checkIns, shifts, now), start, dateOf, from, upto);
  }

  // ---- Clocks that lose no time ----

  lemma OrderOfOne(m: Span)
    ensures OrderBy([m]) == [m]
  {
    assert [m][1..] == [];
  }

  lemma CoveredByOne(m: Span)
    requires m.s <= m.e
    ensures |Covered([m])| == m.e - m.s
  {
    assert [m][..0] == [];
    assert Covered([m]) == Range(m.s, m.e);
    RangeSize(m.s, m.e);
  }

  lemma CutOfOne(m: Span, start: int -> int, dateOf: int -> int)
    ensures Cut([m], start, dateOf) == Pieces(m, start, dateOf)
  {
    assert [m][..0] == [] && Cut([], start, dateOf) == [];
  }

  /** Each piece is what the span has of one of its days, and is something. */
  lemma {:induction false} PiecesOnDays(m: Span, start: int -> int, from: int, upto: int, p: Piece)
    requires p in PiecesOn(m, start, from, upto)
    ensures from <= p.day <= upto && p.length == Clip(m, start(p.day), start(p.day + 1)) > 0
    decreases upto - from
  {
    if p in PiecesOn(m, start, from, upto - 1) {
      PiecesOnDays(m, start, from, upto - 1, p);
    } else {
      assert p == Piece(upto, Clip(m, start(upto), start(upto + 1)));
    }
  }

  /** Every instant is within the day shown at it, or is that day's end. */
  ghost predicate PlainClock(start: int -> int, dateOf: int -> int) {
    forall t :: start(dateOf(t)) <= t <= start(dateOf(t) + 1)
  }

  /** Summed over any days that hold all the pieces, the hours are the time covered. */
  ghost predicate Conserved(worked: seq<Span>, start: int -> int, dateOf: int -> int, from: int, upto: int) {
    var ps := Cut(Merged(OrderBy(worked)), start, dateOf);
    from <= upto + 1 && (forall p :: p in ps ==> from <= p.day <= upto) ==>
      DaysTotal(ps, from, upto) == |Covered(worked)|
  }

  /** An instant outside the day shown at it is the start or the end of a span that loses time. */
  lemma OneSpanLoses(start: int -> int, dateOf: int -> int, t: int) returns (m: Span)
    requires Increasing(start) && !(start(dateOf(t)) <= t <= start(dateOf(t) + 1))
    ensures m.s < m.e
    ensures !Conserved([m], start, dateOf, Min(dateOf(m.s), dateOf(m.e)), Max(dateOf(m.s), dateOf(m.e)))
  {
    m := if t < start(dateOf(t)) then Span(t, t + 1) else Span(t - 1, t);
    var from, upto := Min(dateOf(m.s), dateOf(m.e)), Max(dateOf(m.s), dateOf(m.e));
    OrderOfOne(m);
    MergedOfOne(m);
    CutOfOne(m, start, dateOf);
    forall p | p in Pieces(m, start, dateOf) ensures from <= p.day <= upto {
      PiecesOnDays(m, start, dateOf(m.s), dateOf(m.e), p);
    }
    HoursConserveTime([m], start, dateOf, from, upto);
    assert m in [m] && !DatesFit(m, start, dateOf);
  }

  /** A clock loses no one's time if and only if it shows at each instant the day the instant is in, or ends. */
  lemma HoursConserveOnPlainClocks(start: int -> int, dateOf: int -> int)
    requires Increasing(start)
    ensures (forall worked, from, upto :: Forward(worked) ==> Conserved(worked, start, dateOf, from, upto))
       <==> PlainClock(start, dateOf)
  {
    if PlainClock(start, dateOf) {
      forall worked, from, upto | Forward(worked) ensures Conserved(worked, start, dateOf, from, upto) {
        var ps := Cut(Merged(OrderBy(worked)), start, dateOf);
        if from <= upto + 1 && forall p :: p in ps ==> from <= p.day <= upto {
          HoursConserveTime(worked, start, dateOf, from, upto);
        }
      }
    } else {
      var t :| !(start(dateOf(t)) <= t <= start(dateOf(t) + 1));
      var m := OneSpanLoses(start, dateOf, t);
      assert Forward([m]);
    }
  }

  // ---- Where time is lost ----

  /**
   * Days of 100 whose second midnight is shown twice: the clock goes back
   * from 160 to 100, and day 1 begins at the second.
   */
  function StartsLate(d: int): int { if d <= 0 then 100 * d else 100 * d + 60 }

  function ShownDate(t: int): int { if t < 100 then 0 else 1 }

  lemma PiecesOfOneDay(m: Span, start: int -> int, day: int)
    requires Clip(m, start(day), start(day + 1)) > 0
    ensures PiecesOn(m, start, day, day) == [Piece(day, Clip(m, start(day), start(day + 1)))]
  {
    assert PiecesOn(m, start, day, day - 1) == [];
  }

  lemma CutOfLateSpan(m: Span)
    requires 100 <= m.s < 160 < m.e <= 260
    ensures Cut([m], StartsLate, ShownDate) == [Piece(1, m.e - 160)]
  {
    assert StartsLate(1) == 160 && StartsLate(2) == 260 && ShownDate(m.s) == ShownDate(m.e) == 1;
    PiecesOfOneDay(m, StartsLate, 1);
    CutOfOne(m, StartsLate, ShownDate);
  }

  lemma OnePiece(p: Piece)
    ensures DaysTotal([p], p.day, p.day) == p.length
  {
    assert [p][..0] == [];
    assert DaysTotal([p], p.day, p.day - 1) == 0;
    assert DayTotal([], p.day) == 0;
  }

  /** Every span that begins in the hour before the repeated midnight loses the rest of that hour. */
  lemma RepeatedMidnightLosesTime(m: Span)
    requires 100 <= m.s < 160 < m.e <= 260
    ensures Increasing(StartsLate)
    ensures DaysTotal(Cut(Merged(OrderBy([m])), StartsLate, ShownDate), 1, 1) == |Covered([m])| - (160 - m.s)
  {
    OrderOfOne(m);
    MergedOfOne(m);
    CutOfLateSpan(m);
    OnePiece(Piece(1, m.e - 160));
    CoveredByOne(m);
  }
}
