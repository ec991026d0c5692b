/**
 * A view's conditions twice: as the page query's SQL predicate, whose truth may
 * be unknown, and as the filter that has the last word on each page. The first
 * is to admit every row the second keeps; it does so for exactly the conditions
 * that are `Safe`.
 */
module Conditions {
  import opened Base

  // ---- Values and conditions ----

  /** A stored value. Numbers and composite values carry the texts JavaScript and PostgreSQL print them as. */
  datatype Value =
    | Absent
    | Null
    | Bool(b: bool)
    | Num(n: real, js: string, pg: string)
    | Text(s: string)
    | Other(js: string, pg: string)

  datatype Op =
    | Eq(x: Value)
    | Neq(x: Value)
    | In(texts: seq<string>)
    | NotIn(texts: seq<string>)
    | Contains(sought: string)
    | StartsWith(sought: string)
    | EqIgnoreCase(sought: string)
    | Gt(n: real)
    | Gte(n: real)
    | Lt(n: real)
    | Lte(n: real)
    | Between(lo: real, hi: real)
    | Timed(words: string)
    | IsEmpty
    | IsNotEmpty

  datatype Condition = Condition(field: string, op: Op)

  datatype Item = Leaf(c: Condition) | Group(any: bool, zone: Option<string>, items: seq<Item>)

  /**
   * Case folding, reading a time in JavaScript and in PostgreSQL, and the
   * bounds of a time condition by the page's clock in a zone.
   */
  datatype Env = Env(
    fold: string -> string,
    time: string -> Option<int>,
    pgTime: string -> Option<int>,
    bounds: (string, string) -> Option<(Option<int>, Option<int>)>)

  /** A board's fields: those the reader may read, those it declares, and the calculated ones among them. */
  datatype Board = Board(readable: set<string>, known: set<string>, calculated: set<string>)

  /**
   * One row. A calculated field has no stored value but a derived one. `added`
   * is what the page's record holds under a name beside its fields: the id,
   * times and names the page adds, and what every record object inherits.
   */
  datatype Row = Row(
    board: Board,
    stored: map<string, Value>,
    derived: map<string, Value>,
    added: map<string, Value>)

  function At(values: map<string, Value>, field: string): Value { if field in values then values[field] else Absent }

  ghost predicate Proper(row: Row) {
    && row.board.readable <= row.board.known
    && forall f :: f !in row.board.calculated ==> At(row.derived, f) == At(row.stored, f)
  }

  /** What the page copies of a field: an unreadable one is masked. */
  function Masked(row: Row, field: string): Value {
    if field in row.board.readable then At(row.derived, field) else Absent
  }

  /** What the filter sees under a name: the field's value, or else what the page's record holds there anyway. */
  function Shown(row: Row, field: string): Value {
    if Masked(row, field).Absent? then At(row.added, field) else Masked(row, field)
  }

  predicate SameScalar(v: Value, x: Value) {
    (v.Bool? && x.Bool? && v.b == x.b) || (v.Num? && x.Num? && v.n == x.n) || (v.Text? && x.Text? && v.s == x.s)
  }

  predicate Scalar(v: Value) { v.Bool? || v.Num? || v.Text? }

  /** `String(v)`. */
  function JsText(v: Value): string {
    match v
    case Absent => "undefined"
    case Null => "null"
    case Bool(b) => if b then "true" else "false"
    case Num(_, js, _) => js
    case Text(s) => s
    case Other(js, _) => js
  }

  predicate Within(part: string, text: string) { part <= text || (text != "" && Within(part, text[1..])) }

  predicate Inside(bounds: (Option<int>, Option<int>), t: int) {
    (bounds.0.Some? ==> t >= bounds.0.value) && (bounds.1.Some? ==> t < bounds.1.value)
  }

  /** An operator that compares a value's text, given as it was printed. */
  predicate TextHolds(env: Env, op: Op, text: string) {
    match op
    case In(texts) => text in texts
    case NotIn(texts) => text !in texts
    case Contains(sought) => Within(env.fold(sought), env.fold(text))
    case StartsWith(sought) => env.fold(sought) <= env.fold(text)
    case EqIgnoreCase(sought) => env.fold(text) == env.fold(sought)
    case _ => false
  }

  predicate TimeHolds(bounds: Option<(Option<int>, Option<int>)>, at: Option<int>) {
    at.Some? && bounds.Some? && Inside(bounds.value, at.value)
  }

  // ---- The filter ----

  predicate Empty(v: Value) { v.Absent? || v.Null? || (v.Text? && v.s == "") }

  predicate Holds(env: Env, op: Op, v: Value, zone: string) {
    match op
    case Eq(x) => SameScalar(v, x)
    case Neq(x) => !SameScalar(v, x)
    case In(texts) => JsText(v) in texts
    case NotIn(texts) => JsText(v) !in texts
    case Contains(_) => Scalar(v) && TextHolds(env, op, JsText(v))
    case StartsWith(_) => Scalar(v) && TextHolds(env, op, JsText(v))
    case EqIgnoreCase(_) => Scalar(v) && TextHolds(env, op, JsText(v))
    case Gt(n) => v.Num? && v.n > n
    case Gte(n) => v.Num? && v.n >= n
    case Lt(n) => v.Num? && v.n < n
    case Lte(n) => v.Num? && v.n <= n
    case Between(lo, hi) => v.Num? && lo <= v.n <= hi
    case Timed(words) => v.Text? && TimeHolds(env.bounds(words, zone), env.time(v.s))
    case IsEmpty => Empty(v)
    case IsNotEmpty => !Empty(v)
  }

  function ZoneOf(zone: Option<string>, outer: string): string { if zone.Some? then zone.value else outer }

  predicate SetHolds(env: Env, item: Item, row: Row, zone: string) {
    match item
    case Leaf(c) => Holds(env, c.op, Shown(row, c.field), zone)
    case Group(any, own, items) =>
      if any then exists i :: 0 <= i < |items| && SetHolds(env, items[i], row, ZoneOf(own, zone))
      else forall i :: 0 <= i < |items| ==> SetHolds(env, items[i], row, ZoneOf(own, zone))
  }

  // ---- What the filter keeps ----

  predicate Occurs(part: string, text: string, i: nat) { i + |part| <= |text| && text[i..i + |part|] == part }

  lemma OccursFirst(part: string, text: string)
    ensures Occurs(part, text, 0) <==> part <= text
  {
    if Occurs(part, text, 0) { assert forall k :: 0 <= k < |part| ==> part[k] == text[0..0 + |part|][k]; }
  }

  lemma {:induction false} WithinMeans(part: string, text: string)
    ensures Within(part, text) <==> exists i :: Occurs(part, text, i)
  {
    OccursFirst(part, text);
    if part <= text {
    } else if text == "" {
    } else {
      WithinMeans(part, text[1..]);
      if i: nat :| Occurs(part, text[1..], i) {
        assert text[1..][i..i + |part|] == text[i + 1..i + 1 + |part|];
        assert Occurs(part, text, i + 1);
      }
      if i: nat :| Occurs(part, text, i) {
        assert text[1..][i - 1..i - 1 + |part|] == text[i..i + |part|];
        assert Occurs(part, text[1..], i - 1);
      }
    }
  }

  /** A text, a number and a truth value are compared by their texts, without regard to case; nothing else is. */
  lemma TextsMean(env: Env, v: Value, sought: string, zone: string)
    ensures var f, t := env.fold(sought), env.fold(if v == Bool(true) then "true" else if v == Bool(false) then "false"
        else if v.Num? then v.js else if v.Text? then v.s else "");
      var compared := v.Bool? || v.Num? || v.Text?;
      && (Holds(env, Contains(sought), v, zone) <==> compared && exists i :: Occurs(f, t, i))
      && (Holds(env, StartsWith(sought), v, zone) <==> compared && Occurs(f, t, 0))
      && (Holds(env, EqIgnoreCase(sought), v, zone) <==> compared && t == f)
  {
    WithinMeans(env.fold(sought), env.fold(JsText(v)));
  }

  /** Equal are two texts, two numbers or two truth values; nothing to show is no value, null or the empty text. */
  lemma ValuesMean(env: Env, x: Value, v: Value, zone: string)
    ensures Holds(env, Eq(x), v, zone) <==>
      (v == x && (x.Bool? || x.Text?)) || (v.Num? && x.Num? && v.n == x.n)
    ensures Holds(env, Neq(x), v, zone) != Holds(env, Eq(x), v, zone)
    ensures Holds(env, IsEmpty, v, zone) <==> v == Absent || v == Null || v == Text("")
    ensures Holds(env, IsNotEmpty, v, zone) != Holds(env, IsEmpty, v, zone)
  {
  }

  /** Only a number is compared with numbers; bounds count in, but for "greater" and "less". */
  lemma NumbersMean(env: Env, lo: real, hi: real, v: Value, zone: string)
    ensures Holds(env, Gt(lo), v, zone) <==> v.Num? && lo < v.n
    ensures Holds(env, Lt(hi), v, zone) <==> v.Num? && v.n < hi
    ensures Holds(env, Gte(lo), v, zone) <==> v.Num? && !Holds(env, Lt(lo), v, zone)
    ensures Holds(env, Lte(hi), v, zone) <==> v.Num? && !Holds(env, Gt(hi), v, zone)
    ensures Holds(env, Between(lo, hi), v, zone) <==> Holds(env, Gte(lo), v, zone) && Holds(env, Lte(hi), v, zone)
  {
  }

  /** A time lies in a stretch of time that begins with its first instant and ends before its last. */
  lemma TimesMean(env: Env, words: string, s: string, from: Option<int>, until: Option<int>, zone: string)
    requires env.bounds(words, zone) == Some((from, until))
    ensures Holds(env, Timed(words), Text(s), zone) <==>
      match env.time(s)
      case Some(t) => !(from.Some? && t < from.value) && !(until.Some? && until.value <= t)
      case None => false
  {
  }

  /** One more entry in front: it or the rest for a set of which one must hold, it and the rest for another. */
  lemma FrontJoins(env: Env, any: bool, own: Option<string>, first: Item, rest: seq<Item>, row: Row, zone: string)
    ensures SetHolds(env, Group(any, own, [first] + rest), row, zone) <==>
      if any then SetHolds(env, first, row, ZoneOf(own, zone)) || SetHolds(env, Group(any, own, rest), row, zone)
      else SetHolds(env, first, row, ZoneOf(own, zone)) && SetHolds(env, Group(any, own, rest), row, zone)
  {
    var items := [first] + rest;
    assert items[0] == first && forall i :: 0 <= i < |rest| ==> items[i + 1] == rest[i];
    assert forall i :: 0 < i < |items| ==> items[i] == rest[i - 1];
  }

  // ---- The SQL ----

  datatype Truth = True | False | Unknown

  function Not(t: Truth): Truth { match t case True => False case False => True case Unknown => Unknown }
  function And(s: Truth, t: Truth): Truth {
    if s == False || t == False then False
    else if s == True && t == True then True
    else Unknown
  }
  function Or(s: Truth, t: Truth): Truth { Not(And(Not(s), Not(t))) }
  function Known(b: bool): Truth { if b then True else False }

  /** `data ->> field`: nothing for a missing value and for JSON null. */
  function PgText(v: Value): Option<string> {
    match v
    case Absent => None
    case Null => None
    case Num(_, _, pg) => Some(pg)
    case Other(_, pg) => Some(pg)
    case _ => Some(JsText(v))
  }

  /** A comparison with the stored number, unknown when there is none. */
  function Compared(v: Value, holds: bool): Truth { if v.Num? then Known(holds) else Unknown }

  function Matched(env: Env, op: Op, v: Value): Truth {
    And(if v.Absent? then Unknown else Known(Scalar(v)),
        if PgText(v).None? then Unknown else Known(TextHolds(env, op, PgText(v).value)))
  }

  function OpSql(env: Env, op: Op, v: Value, zone: string): Truth {
    match op
    case Eq(x) => if !Scalar(x) then False else if v.Absent? then Unknown else Known(SameScalar(v, x))
    case Neq(x) => if !Scalar(x) then True else if v.Absent? then True else Known(!SameScalar(v, x))
    case In(texts) => if texts == [] then False else
      if PgText(v).None? then Unknown else Known(PgText(v).value in texts)
    case NotIn(texts) => if texts == [] || PgText(v).None? then True else Known(PgText(v).value !in texts)
    case Contains(_) => Matched(env, op, v)
    case StartsWith(_) => Matched(env, op, v)
    case EqIgnoreCase(_) => Matched(env, op, v)
    case Gt(n) => Compared(v, v.Num? && v.n > n)
    case Gte(n) => Compared(v, v.Num? && v.n >= n)
    case Lt(n) => Compared(v, v.Num? && v.n < n)
    case Lte(n) => Compared(v, v.Num? && v.n <= n)
    case Between(lo, hi) => Compared(v, v.Num? && lo <= v.n <= hi)
    case Timed(words) =>
      var bounds := env.bounds(words, zone);
      if bounds.None? then False else Known(v.Text? && TimeHolds(bounds, env.pgTime(v.s)))
    case IsEmpty => Known(Empty(v))
    case IsNotEmpty => if v.Absent? then False else Known(!Empty(v))
  }

  function LeafSql(env: Env, c: Condition, row: Row, zone: string): Truth {
    if c.field in row.board.calculated then True
    else if c.field !in row.board.known || c.field !in row.board.readable then Known(Holds(env, c.op, Absent, zone))
    else OpSql(env, c.op, At(row.stored, c.field), zone)
  }

  /** The predicate text, as far as its truth for a row goes. */
  datatype Expr = Const(b: bool) | Atom(c: Condition, zone: string) | Conj(l: Expr, r: Expr) | Disj(l: Expr, r: Expr)

  function Eval(env: Env, e: Expr, row: Row): Truth {
    match e
    case Const(b) => Known(b)
    case Atom(c, zone) => LeafSql(env, c, row, zone)
    case Conj(l, r) => And(Eval(env, l, row), Eval(env, r, row))
    case Disj(l, r) => Or(Eval(env, l, row), Eval(env, r, row))
  }

  /**
   * Whether a set's entries admit a row: one of them or each of them, as it
   * matches; a set without entries admits all.
   */
  predicate Admits(env: Env, item: Item, row: Row, zone: string) {
    match item
    case Leaf(c) => LeafSql(env, c, row, zone) == True
    case Group(any, own, items) =>
      if items == [] then true
      else if any then exists i :: 0 <= i < |items| && Admits(env, items[i], row, ZoneOf(own, zone))
      else forall i :: 0 <= i < |items| ==> Admits(env, items[i], row, ZoneOf(own, zone))
  }

  /** One predicate for a whole set, joined entry by entry; for whatever row, it is true when the set admits it. */
  method ConditionSetSql(conditions: Item, zone: string, ghost env: Env, ghost row: Row) returns (e: Expr)
    requires conditions.Group?
    ensures Eval(env, e, row) == True <==> Admits(env, conditions, row, zone)
    decreases conditions
  {
    var inner, items := ZoneOf(conditions.zone, zone), conditions.items;
    var parts: seq<Expr> := [];
    for i := 0 to |items|
      invariant |parts| == i
      invariant forall k :: 0 <= k < i ==> (Eval(env, parts[k], row) == True <==> Admits(env, items[k], row, inner))
    {
      var part: Expr;
      match items[i] {
        case Leaf(c) => part := Atom(c, inner);
        case Group(_, _, _) => part := ConditionSetSql(items[i], inner, env, row);
      }
      parts := parts + [part];
    }
    if parts == [] { return Const(true); }
    e := parts[0];
    for i := 1 to |parts|
      invariant Eval(env, e, row) == True <==>
        if conditions.any then exists k :: 0 <= k < i && Eval(env, parts[k], row) == True
        else forall k :: 0 <= k < i ==> Eval(env, parts[k], row) == True
    {
      e := if conditions.any then Disj(e, parts[i]) else Conj(e, parts[i]);
    }
  }

  // ---- The predicate admits what the filter keeps ----

  /** A list that asks for a missing value by the word JavaScript prints for it. */
  predicate AsksForMissing(op: Op, v: Value) {
    op.In? && ((v.Absent? && "undefined" in op.texts) || (v.Null? && "null" in op.texts))
  }

  /** The two sides read a value apart, so that the filter keeps it and the SQL does not: a number's text, or a time. */
  predicate ReadsApart(env: Env, op: Op, v: Value, zone: string) {
    match op
    case Timed(words) =>
      && v.Text? && TimeHolds(env.bounds(words, zone), env.time(v.s))
      && !TimeHolds(env.bounds(words, zone), env.pgTime(v.s))
    case _ =>
      && PgText(v).Some? && (op.In? || op.NotIn? || Scalar(v))
      && TextHolds(env, op, JsText(v)) && !TextHolds(env, op, PgText(v).value)
  }

  /** The filter keeps a field's own value, and its SQL does not admit it. */
  predicate Slips(env: Env, op: Op, v: Value, zone: string) { AsksForMissing(op, v) || ReadsApart(env, op, v, zone) }

  /**
   * One condition admits a stored value the filter keeps, but for `in` lists
   * that name a missing value by its word and values the two sides read apart.
   */
  lemma OpAdmitsExactly(env: Env, op: Op, v: Value, zone: string)
    ensures (Holds(env, op, v, zone) ==> OpSql(env, op, v, zone) == True)
       <==> !Slips(env, op, v, zone)
  {
  }

  /** Both sides read the value as the same text, and a text as the same time. */
  ghost predicate ReadAlike(env: Env, v: Value) {
    && ((v.Num? || v.Other?) ==> v.js == v.pg)
    && (v.Text? ==> env.time(v.s) == env.pgTime(v.s))
  }

  /** A list that has the word JavaScript prints for a missing value. */
  predicate NamesMissing(op: Op, v: Value) {
    && (op.In? || op.NotIn?)
    && ((v.Absent? && "undefined" in op.texts) || (v.Null? && "null" in op.texts))
  }

  /** The SQL of an operator is true just where the filter holds, unless a list names a missing value by its word. */
  lemma OpIsExact(env: Env, op: Op, v: Value, zone: string)
    requires ReadAlike(env, v)
    ensures (OpSql(env, op, v, zone) == True <==> Holds(env, op, v, zone)) <==> !NamesMissing(op, v)
  {
  }

  /** The operators whose SQL admits a row without the field. */
  predicate AdmitsAbsent(op: Op) { op.Neq? || op.NotIn? || op.IsEmpty? }

  lemma AbsentSql(env: Env, op: Op, zone: string)
    ensures OpSql(env, op, Absent, zone) == True <==> AdmitsAbsent(op)
  {
  }

  /** The filter keeps what the page's record holds beside its fields, and the SQL takes the field for absent. */
  predicate AddedSlips(env: Env, board: Board, c: Condition, v: Value, zone: string) {
    && Holds(env, c.op, v, zone)
    && !(if c.field in board.readable then AdmitsAbsent(c.op) else Holds(env, c.op, Absent, zone))
  }

  /**
   * When one condition loses a row: where the field has a value of its own, by
   * asking for null by its word or by the two sides reading it apart; where it
   * has none, by holding for what the page's record holds there although the
   * SQL takes the field for absent.
   */
  predicate Loses(env: Env, c: Condition, row: Row, zone: string) {
    var own, more := Masked(row, c.field), At(row.added, c.field);
    && c.field !in row.board.calculated
    && if own.Absent? then AddedSlips(env, row.board, c, more, zone) else Slips(env, c.op, own, zone)
  }

  lemma LeafLosesExactly(env: Env, c: Condition, row: Row, zone: string)
    requires Proper(row)
    ensures SetHolds(env, Leaf(c), row, zone) && !Admits(env, Leaf(c), row, zone) <==> Loses(env, c, row, zone)
  {
    AbsentSql(env, c.op, zone);
    OpAdmitsExactly(env, c.op, At(row.stored, c.field), zone);
  }

  // ---- Conditions that never lose a row ----

  /**
   * A view's page: its board, which values its fields may store, and which a
   * page's record may hold under a name beside its fields.
   */
  datatype Page = Page(board: Board, stores: (string, Value) -> bool, adds: (string, Value) -> bool)

  ghost predicate Fits(page: Page, row: Row) {
    && row.board == page.board && Proper(row)
    && forall f :: page.stores(f, At(row.stored, f)) && page.adds(f, At(row.added, f))
  }

  /** The SQL admits every value the field may store and the filter keeps. */
  ghost predicate StoredSafe(env: Env, page: Page, c: Condition) {
    forall v, zone :: page.stores(c.field, v) && !v.Absent? ==> !Slips(env, c.op, v, zone)
  }

  /**
   * Where the field has nothing to show, the SQL admits whatever the page's
   * record may hold instead and the filter keeps.
   */
  ghost predicate AddedSafe(env: Env, page: Page, c: Condition) {
    forall v, zone :: page.adds(c.field, v) ==> !AddedSlips(env, page.board, c, v, zone)
  }

  ghost predicate Safe(env: Env, page: Page, c: Condition) {
    || c.field in page.board.calculated
    || (if c.field !in page.board.readable then AddedSafe(env, page, c)
        else StoredSafe(env, page, c) && (page.stores(c.field, Absent) ==> AddedSafe(env, page, c)))
  }

  lemma SafeLosesNone(env: Env, page: Page, c: Condition, row: Row, zone: string)
    requires Safe(env, page, c) && Fits(page, row)
    ensures !Loses(env, c, row, zone)
  {
    assert page.stores(c.field, At(row.stored, c.field)) && page.adds(c.field, At(row.added, c.field));
  }

  lemma OthersFit(page: Page, some: Row, row: Row, f: string)
    requires Fits(page, some) && row.board == some.board
    requires forall g :: g != f ==> At(row.stored, g) == At(some.stored, g) && At(row.derived, g) == At(some.derived, g)
    requires forall g :: g != f ==> At(row.added, g) == At(some.added, g)
    requires page.stores(f, At(row.stored, f)) && page.adds(f, At(row.added, f))
    requires f in page.board.calculated || At(row.derived, f) == At(row.stored, f)
    ensures Fits(page, row)
  {
    forall g ensures page.stores(g, At(row.stored, g)) && page.adds(g, At(row.added, g)) {
      assert page.stores(g, At(some.stored, g)) && page.adds(g, At(some.added, g));
    }
  }

  lemma StoredLoses(env: Env, page: Page, c: Condition, some: Row) returns (row: Row, zone: string)
    requires Fits(page, some) && c.field !in page.board.calculated && c.field in page.board.readable
    requires !StoredSafe(env, page, c)
    ensures Fits(page, row) && Loses(env, c, row, zone)
  {
    var f := c.field;
    var v: Value;
    v, zone :| page.stores(f, v) && !v.Absent? && Slips(env, c.op, v, zone);
    row := some.(stored := some.stored[f := v], derived := some.derived[f := v]);
    assert page.adds(f, At(some.added, f));
    OthersFit(page, some, row, f);
  }

  lemma AddedLoses(env: Env, page: Page, c: Condition, some: Row) returns (row: Row, zone: string)
    requires Fits(page, some) && c.field !in page.board.calculated && !AddedSafe(env, page, c)
    requires c.field in page.board.readable ==> page.stores(c.field, Absent)
    ensures Fits(page, row) && Loses(env, c, row, zone)
  {
    var f := c.field;
    var v: Value;
    v, zone :| page.adds(f, v) && AddedSlips(env, page.board, c, v, zone);
    row := some.(added := some.added[f := v]);
    if f in page.board.readable {
      row := row.(stored := some.stored[f := Absent], derived := some.derived[f := Absent]);
    } else {
      assert page.stores(f, At(some.stored, f));
    }
    OthersFit(page, some, row, f);
  }

  /** Otherwise a row of the board is lost: like any other row, but for what it has under the condition's name. */
  lemma UnsafeLoses(env: Env, page: Page, c: Condition, some: Row) returns (row: Row, zone: string)
    requires !Safe(env, page, c) && Fits(page, some)
    ensures Fits(page, row) && Loses(env, c, row, zone)
  {
    if c.field in page.board.readable && !StoredSafe(env, page, c) {
      row, zone := StoredLoses(env, page, c, some);
    } else {
      row, zone := AddedLoses(env, page, c, some);
    }
  }

  /** Every condition of the set, groups opened, is one of `cs`. */
  ghost predicate MadeOf(item: Item, cs: set<Condition>) {
    match item
    case Leaf(c) => c in cs
    case Group(_, _, items) => forall i :: 0 <= i < |items| ==> MadeOf(items[i], cs)
  }

  lemma {:induction false} SetAdmits(
      env: Env, page: Page, cs: set<Condition>, item: Item, row: Row, zone: string)
    requires Fits(page, row) && MadeOf(item, cs) && forall c :: c in cs ==> Safe(env, page, c)
    requires SetHolds(env, item, row, zone)
    ensures Admits(env, item, row, zone)
    decreases item
  {
    match item
    case Leaf(c) =>
      SafeLosesNone(env, page, c, row, zone);
      LeafLosesExactly(env, c, row, zone);
    case Group(any, own, items) =>
      forall i | 0 <= i < |items| && SetHolds(env, items[i], row, ZoneOf(own, zone))
        ensures Admits(env, items[i], row, ZoneOf(own, zone))
      {
        SetAdmits(env, page, cs, items[i], row, ZoneOf(own, zone));
      }
  }

  ghost predicate LosesNone(env: Env, page: Page, item: Item) {
    forall row, zone :: Fits(page, row) && SetHolds(env, item, row, zone) ==> Admits(env, item, row, zone)
  }

  lemma AloneLoses(env: Env, any: bool, c: Condition, row: Row, zone: string)
    ensures SetHolds(env, Group(any, None, [Leaf(c)]), row, zone) == SetHolds(env, Leaf(c), row, zone)
    ensures Admits(env, Group(any, None, [Leaf(c)]), row, zone) == Admits(env, Leaf(c), row, zone)
  {
    var item := Group(any, None, [Leaf(c)]);
    assert item.items[0] == Leaf(c);
  }

  /**
   * However conditions are put together in sets and groups, in whatever zones,
   * the query admits every row of the board the filter keeps if and only if
   * each of the conditions is safe.
   */
  lemma SetsLoseNoneExactly(env: Env, page: Page, cs: set<Condition>, some: Row)
    requires Fits(page, some)
    ensures (forall item: Item :: item.Group? && MadeOf(item, cs) ==> LosesNone(env, page, item))
       <==> (forall c :: c in cs ==> Safe(env, page, c))
  {
    if forall c :: c in cs ==> Safe(env, page, c) {
      forall item: Item, row, zone | MadeOf(item, cs) && Fits(page, row) && SetHolds(env, item, row, zone)
        ensures Admits(env, item, row, zone)
      {
        SetAdmits(env, page, cs, item, row, zone);
      }
    } else {
      var c :| c in cs && !Safe(env, page, c);
      var row, zone := UnsafeLoses(env, page, c, some);
      LeafLosesExactly(env, c, row, zone);
      AloneLoses(env, false, c, row, zone);
      assert MadeOf(Group(false, None, [Leaf(c)]), cs);
      assert !LosesNone(env, page, Group(false, None, [Leaf(c)]));
    }
  }

  function Filtered(keep: Row -> bool, rows: seq<Row>): seq<Row> {
    if rows == [] then []
    else Filtered(keep, rows[..|rows| - 1]) + (if keep(rows[|rows| - 1]) then [rows[|rows| - 1]] else [])
  }

  /** Filtering what the query admits gives what filtering every row would: no nesting of groups loses a row. */
  lemma {:induction false} QueryLosesNothing(
      env: Env, page: Page, cs: set<Condition>, conditions: Item, rows: seq<Row>,
      zone: string)
    requires MadeOf(conditions, cs) && forall c :: c in cs ==> Safe(env, page, c)
    requires forall r :: r in rows ==> Fits(page, r)
    ensures Filtered(r => SetHolds(env, conditions, r, zone), Filtered(r => Admits(env, conditions, r, zone), rows))
         == Filtered(r => SetHolds(env, conditions, r, zone), rows)
  {
    if rows == [] {
    } else {
      var before, r := rows[..|rows| - 1], rows[|rows| - 1];
      var admitted := Filtered(r => Admits(env, conditions, r, zone), before);
      assert r in rows && forall b :: b in before ==> b in rows;
      QueryLosesNothing(env, page, cs, conditions, before, zone);
      if SetHolds(env, conditions, r, zone) { SetAdmits(env, page, cs, conditions, r, zone); }
      assert (admitted + [r])[..|admitted|] == admitted;
      assert admitted + [] == admitted;
    }
  }

  /** The words matter: a record without the field is kept by the filter and lost by the query. */
  lemma MissingIsLost(env: Env, field: string, zone: string)
    ensures var c, board := Condition(field, In(["undefined"])), Board({field}, {field}, {});
      var row := Row(board, map[], map[], map[]);
      Proper(row) && SetHolds(env, Leaf(c), row, zone) && !Admits(env, Leaf(c), row, zone)
  {
  }

  /**
   * So do the names the page adds: whichever text it adds under an undeclared
   * name, an id or a time say, the conditions that it is there and that it is
   * that text keep the row in the filter and lose it in the query.
   */
  lemma AddedIsLost(env: Env, name: string, text: string, op: Op, zone: string)
    requires text != "" && (op == IsNotEmpty || op == Eq(Text(text)))
    ensures var c, row := Condition(name, op), Row(Board({}, {}, {}), map[], map[], map[name := Text(text)]);
      Proper(row) && SetHolds(env, Leaf(c), row, zone) && !Admits(env, Leaf(c), row, zone)
  {
  }
}
