/**
 * The canonical JSON a signed audit page is keyed over (section 3.2 of RFC
 * 8785, for this data): keys sorted, no whitespace. Numbers are known by their
 * printed text; `Undefined` stands where a JavaScript value may be missing.
 */
module CanonicalJson {
  datatype Json =
    | Undefined
    | Null
    | Bool(b: bool)
    | Number(text: string)
    | Str(s: string)
    | Arr(items: seq<Json>)
    | Obj(fields: seq<Field>)

  datatype Field = Field(key: string, value: Json)

  function Size(v: Json): nat {
    match v
    case Arr(items) => 2 + ItemsSize(items)
    case Obj(fields) => 1 + FieldsSize(fields)
    case _ => 0
  }

  function ItemsSize(items: seq<Json>): nat { if items == [] then 0 else 1 + Size(items[0]) + ItemsSize(items[1..]) }

  function FieldsSize(fields: seq<Field>): nat {
    if fields == [] then 0 else 1 + Size(fields[0].value) + FieldsSize(fields[1..])
  }

  /** `record[key]`. */
  function Lookup(fields: seq<Field>, key: string): (v: Json)
    ensures Size(v) <= FieldsSize(fields)
  {
    if fields == [] then Undefined else if fields[0].key == key then fields[0].value else Lookup(fields[1..], key)
  }

  // ---- Printing ----

  function Hex(n: nat): char
    requires n < 16
  {
    if n < 10 then ('0' as int + n) as char else ('a' as int + (n - 10)) as char
  }

  function Escaped(c: char): string {
    if c == '"' then "\\\""
    else if c == '\\' then "\\\\"
    else if c == '\n' then "\\n"
    else if c == '\r' then "\\r"
    else if c == '\t' then "\\t"
    else if c == '\U{8}' then "\\b"
    else if c == '\U{c}' then "\\f"
    else if c < ' ' then "\\u00" + [Hex(c as int / 16), Hex(c as int % 16)]
    else [c]
  }

  function Body(s: string): string { if s == "" then "" else Escaped(s[0]) + Body(s[1..]) }

  function StringText(s: string): string { "\"" + Body(s) + "\"" }

  /** A character's place among first code units: beyond U+FFFF those are surrogates, which lie below U+E000. */
  function Place(c: char): int { if 0xE000 <= c as int < 0x10000 then c as int + 0x110000 else c as int }

  /** The order of `sort()`, which compares code units. */
  predicate Below(s: string, t: string) {
    if t == "" then false else if s == "" then true
    else Place(s[0]) < Place(t[0]) || (s[0] == t[0] && Below(s[1..], t[1..]))
  }

  /** The UTF-16 code units of a text: a character beyond U+FFFF is a pair of surrogates. */
  function Units(s: string): seq<int> {
    if s == "" then []
    else
      var c := s[0] as int;
      (if c < 0x10000 then [c] else [0xD800 + (c - 0x10000) / 0x400, 0xDC00 + (c - 0x10000) % 0x400]) + Units(s[1..])
  }

  /** One list of numbers comes before another: where they first differ its number is less, or it ends there. */
  predicate Lexical(a: seq<int>, b: seq<int>) {
    exists i :: 0 <= i <= |a| && i < |b| && a[..i] == b[..i] && (i == |a| || a[i] < b[i])
  }

  function Inserted(keys: seq<string>, k: string): seq<string> {
    if keys == [] || !Below(keys[0], k) then [k] + keys else [keys[0]] + Inserted(keys[1..], k)
  }

  /** The keys whose member is there, sorted; `all` are the fields the member is looked up in. */
  function Keys(fields: seq<Field>, all: seq<Field>): seq<string> {
    if fields == [] then []
    else
      var later := Keys(fields[1..], all);
      if Lookup(all, fields[0].key).Undefined? then later else Inserted(later, fields[0].key)
  }

  function Canonical(v: Json): string
    decreases Size(v), 0
  {
    match v
    case Undefined => ""
    case Null => "null"
    case Bool(b) => if b then "true" else "false"
    case Number(text) => text
    case Str(s) => StringText(s)
    case Arr(items) => "[" + Items(items) + "]"
    case Obj(fields) => "{" + Members(fields, Keys(fields, fields)) + "}"
  }

  /** Joined with commas; a missing item joins as nothing. */
  function Items(items: seq<Json>): string
    decreases ItemsSize(items), 1
  {
    if items == [] then ""
    else if |items| == 1 then Canonical(items[0])
    else Canonical(items[0]) + "," + Items(items[1..])
  }

  function Member(fields: seq<Field>, key: string): string
    decreases FieldsSize(fields), 1
  {
    StringText(key) + ":" + Canonical(Lookup(fields, key))
  }

  function Members(fields: seq<Field>, keys: seq<string>): string
    decreases FieldsSize(fields), 2, |keys|
  {
    if keys == [] then ""
    else if |keys| == 1 then Member(fields, keys[0])
    else Member(fields, keys[0]) + "," + Members(fields, keys[1..])
  }

  // ---- Being the same value ----

  lemma {:induction false} ItemSmaller(items: seq<Json>, i: nat)
    requires i < |items|
    ensures Size(items[i]) < ItemsSize(items)
  {
    if i == 0 {
    } else {
      ItemSmaller(items[1..], i - 1);
    }
  }

  predicate NumberText(text: string) {
    && text != "" && (text[0] == '-' || '0' <= text[0] <= '9')
    && forall c :: c in text ==> c in "0123456789+-.eE"
  }

  /** A value as JavaScript builds it: an object has each key once, and a number prints as one. */
  ghost predicate Proper(v: Json)
    decreases Size(v)
  {
    match v
    case Number(text) => NumberText(text)
    case Arr(items) => forall i :: 0 <= i < |items| ==> (ItemSmaller(items, i); Proper(items[i]))
    case Obj(fields) =>
      && (forall i, j :: 0 <= i < j < |fields| ==> fields[i].key != fields[j].key)
      && forall k :: Proper(Lookup(fields, k))
    case _ => true
  }

  /** An empty array read as the one that prints alike. */
  function Filled(items: seq<Json>): (r: seq<Json>)
    ensures ItemsSize(r) < 2 + ItemsSize(items)
  {
    if items == [] then [Undefined] else items
  }

  /**
   * The same value up to key order and undefined members. Unless `exact`, an
   * array of one missing item is also taken for the empty array.
   */
  ghost predicate Same(a: Json, b: Json, exact: bool)
    decreases Size(a)
  {
    match (a, b)
    case (Arr(xs), Arr(ys)) => if exact then SameItems(xs, ys, true) else SameItems(Filled(xs), Filled(ys), false)
    case (Obj(fs), Obj(gs)) => forall k :: Same(Lookup(fs, k), Lookup(gs, k), exact)
    case (_, _) => a == b
  }

  ghost predicate SameItems(xs: seq<Json>, ys: seq<Json>, exact: bool)
    decreases ItemsSize(xs)
  {
    |xs| == |ys| && (xs == [] || (Same(xs[0], ys[0], exact) && SameItems(xs[1..], ys[1..], exact)))
  }

  // ---- Strings and numbers end where they end ----

  /** What may follow a value inside a document. */
  predicate Ends(x: string) { x == "" || x[0] == ',' || x[0] == ']' || x[0] == '}' }

  lemma EscapedInjective(c: char, d: char, x: string, y: string)
    requires Escaped(c) + x == Escaped(d) + y
    ensures c == d && x == y
  {
    var t := Escaped(c) + x;
    var m, n := |Escaped(c)|, |Escaped(d)|;
    assert t[..m] == Escaped(c) && t[m..] == x;
    assert t[..n] == Escaped(d) && t[n..] == y;
    assert Escaped(c)[0] == t[0] == Escaped(d)[0];
    if m > 1 && n > 1 {
      assert Escaped(c)[1] == t[1] == Escaped(d)[1];
      if m == 6 && n == 6 {
        assert Escaped(c)[4] == t[4] == Escaped(d)[4];
        assert Escaped(c)[5] == t[5] == Escaped(d)[5];
      }
    }
  }

  lemma BodySplits(s: string, x: string)
    requires s != ""
    ensures Body(s) + x == Escaped(s[0]) + (Body(s[1..]) + x)
  {
  }

  lemma BodyOpens(s: string, x: string)
    requires x != "" && x[0] == '"'
    ensures Body(s) + x != "" && ((Body(s) + x)[0] == '"' <==> s == "")
  {
    if s == "" {
      assert Body(s) + x == x;
    } else {
      assert (Body(s) + x)[0] == Escaped(s[0])[0];
    }
  }

  lemma {:induction false} BodyInjective(s: string, t: string, x: string, y: string)
    requires Body(s) + ("\"" + x) == Body(t) + ("\"" + y)
    ensures s == t && x == y
    decreases |s|
  {
    var x', y' := "\"" + x, "\"" + y;
    BodyOpens(s, x');
    BodyOpens(t, y');
    if s == "" {
      assert Body(s) + x' == x' && Body(t) + y' == y';
      assert x'[1..] == x && y'[1..] == y;
    } else {
      BodySplits(s, x');
      BodySplits(t, y');
      EscapedInjective(s[0], t[0], Body(s[1..]) + x', Body(t[1..]) + y');
      BodyInjective(s[1..], t[1..], x, y);
      assert s == [s[0]] + s[1..] && t == [t[0]] + t[1..];
    }
  }

  lemma StringSplits(s: string, x: string)
    ensures (StringText(s) + x)[1..] == Body(s) + ("\"" + x)
  {
  }

  lemma StringInjective(s: string, t: string, x: string, y: string)
    requires StringText(s) + x == StringText(t) + y
    ensures s == t && x == y
  {
    StringSplits(s, x);
    StringSplits(t, y);
    BodyInjective(s, t, x, y);
  }

  lemma Follows(m: string, n: string, x: string, y: string)
    requires |m| < |n| && m + x == n + y
    ensures x != "" && x[0] in n
  {
    assert n[|m|] == (n + y)[|m|] == (m + x)[|m|];
    assert |x| == |n| + |y| - |m|;
  }

  lemma NumberNoLonger(m: string, n: string, x: string, y: string)
    requires NumberText(n) && Ends(x) && m + x == n + y
    ensures |n| <= |m|
  {
    if |m| < |n| {
      Follows(m, n, x, y);
      assert false;
    }
  }

  lemma NumberInjective(m: string, n: string, x: string, y: string)
    requires NumberText(m) && NumberText(n) && Ends(x) && Ends(y) && m + x == n + y
    ensures m == n && x == y
  {
    NumberNoLonger(m, n, x, y);
    NumberNoLonger(n, m, y, x);
    assert m == (m + x)[..|m|] == n;
    assert x == (m + x)[|m|..] == y;
  }

  // ---- Sorted keys ----

  lemma {:induction false} BelowIsStrict(s: string, t: string)
    ensures !(Below(s, t) && Below(t, s)) && (s == t || Below(s, t) || Below(t, s)) && !Below(s, s)
    decreases |s|
  {
    if s != "" && t != "" && s[0] == t[0] {
      BelowIsStrict(s[1..], t[1..]);
      assert s == [s[0]] + s[1..] && t == [t[0]] + t[1..];
    }
    if s == "" {
    } else {
      BelowIsStrict(s[1..], s[1..]);
    }
  }

  lemma UnitsStart(s: string)
    requires s != ""
    ensures Units(s) != [] && |Units(s)| > |Units(s[1..])|
    ensures s[0] as int < 0x10000 ==> Units(s) == [s[0] as int] + Units(s[1..])
    ensures s[0] as int >= 0x10000 ==>
      Units(s) == [0xD800 + (s[0] as int - 0x10000) / 0x400, 0xDC00 + (s[0] as int - 0x10000) % 0x400] + Units(s[1..])
  {
  }

  lemma SameStart(p: seq<int>, a: seq<int>, b: seq<int>)
    ensures Lexical(p + a, p + b) <==> Lexical(a, b)
  {
    if Lexical(a, b) {
      var i :| 0 <= i <= |a| && i < |b| && a[..i] == b[..i] && (i == |a| || a[i] < b[i]);
      assert (p + a)[..|p| + i] == p + a[..i] && (p + b)[..|p| + i] == p + b[..i];
      assert i == |a| || (p + a)[|p| + i] < (p + b)[|p| + i];
    }
    assert forall j :: 0 <= j < |p| ==> (p + a)[j] == p[j] && (p + b)[j] == p[j];
    if Lexical(p + a, p + b) {
      var i :| 0 <= i <= |p + a| && i < |p + b| && (p + a)[..i] == (p + b)[..i] &&
        (i == |p + a| || (p + a)[i] < (p + b)[i]);
      assert a[..i - |p|] == (p + a)[..i][|p|..] && b[..i - |p|] == (p + b)[..i][|p|..];
    }
  }

  lemma SamePrefix(a: seq<int>, b: seq<int>, i: nat)
    requires 0 < i <= |a| && i <= |b|
    ensures a[..i] == b[..i] ==> a[0] == b[0]
  {
    assert a[..i][0] == a[0] && b[..i][0] == b[0];
  }

  lemma FirstDecides(a: seq<int>, b: seq<int>)
    requires a != [] && b != [] && a[0] != b[0]
    ensures Lexical(a, b) <==> a[0] < b[0]
  {
    if a[0] < b[0] { assert a[..0] == b[..0]; }
    if Lexical(a, b) {
      var i :| 0 <= i <= |a| && i < |b| && a[..i] == b[..i] && (i == |a| || a[i] < b[i]);
      if i > 0 { SamePrefix(a, b, i); }
    }
  }

  /** Where the first characters differ, so do the code units they begin with, or those they end with. */
  lemma UnitsDiffer(s: string, t: string)
    requires s != "" && t != "" && s[0] != t[0]
    ensures Lexical(Units(s), Units(t)) <==> Place(s[0]) < Place(t[0])
  {
    UnitsStart(s);
    UnitsStart(t);
    var a, b := Units(s), Units(t);
    if a[0] != b[0] {
      FirstDecides(a, b);
    } else {
      assert s[0] as int >= 0x10000 && t[0] as int >= 0x10000;
      SameStart([a[0]], a[1..], b[1..]);
      assert a == [a[0]] + a[1..] && b == [a[0]] + b[1..];
      FirstDecides(a[1..], b[1..]);
    }
  }

  /** The order of keys is that of their UTF-16 code units. */
  lemma {:induction false} BelowIsLexical(s: string, t: string)
    ensures Below(s, t) <==> Lexical(Units(s), Units(t))
  {
    if s == "" || t == "" {
      if t != "" { UnitsStart(t); assert Units(s)[..0] == Units(t)[..0]; }
    } else {
      UnitsStart(s);
      UnitsStart(t);
      if s[0] == t[0] {
        BelowIsLexical(s[1..], t[1..]);
        var c := s[0] as int;
        SameStart(if c < 0x10000 then [c] else [0xD800 + (c - 0x10000) / 0x400, 0xDC00 + (c - 0x10000) % 0x400],
                  Units(s[1..]), Units(t[1..]));
      } else {
        UnitsDiffer(s, t);
      }
    }
  }

  lemma {:induction false} BelowChains(s: string, t: string, u: string)
    requires Below(s, t) && Below(t, u)
    ensures Below(s, u)
    decreases |s|
  {
    if s != "" && s[0] == t[0] == u[0] { BelowChains(s[1..], t[1..], u[1..]); }
  }

  predicate Rising(keys: seq<string>) { forall i, j :: 0 <= i < j < |keys| ==> Below(keys[i], keys[j]) }

  lemma {:induction false} InsertedRises(keys: seq<string>, k: string)
    requires Rising(keys) && k !in keys
    ensures Rising(Inserted(keys, k)) && forall j :: j in Inserted(keys, k) <==> j == k || j in keys
    decreases |keys|
  {
    if keys == [] {
    } else if Below(keys[0], k) {
      var later := Inserted(keys[1..], k);
      InsertedRises(keys[1..], k);
      assert keys == [keys[0]] + keys[1..];
      forall j | 0 <= j < |later| ensures Below(keys[0], later[j]) {
        assert later[j] in later;
        if later[j] != k {
          var i :| 0 <= i < |keys[1..]| && keys[1..][i] == later[j];
          assert keys[i + 1] == later[j];
        }
      }
    } else {
      BelowIsStrict(keys[0], k);
      forall j | 0 <= j < |keys| ensures Below(k, keys[j]) {
        if j > 0 { BelowChains(k, keys[0], keys[j]); }
      }
    }
  }

  predicate Distinct(fields: seq<Field>) { forall i, j :: 0 <= i < j < |fields| ==> fields[i].key != fields[j].key }

  predicate Has(fields: seq<Field>, k: string) { exists i :: 0 <= i < |fields| && fields[i].key == k }

  /** The printed keys are exactly those whose member is there, in rising order. */
  lemma {:induction false} KeysAre(fields: seq<Field>, all: seq<Field>)
    requires Distinct(fields)
    ensures Rising(Keys(fields, all))
    ensures forall k :: k in Keys(fields, all) <==> !Lookup(all, k).Undefined? && Has(fields, k)
    decreases |fields|
  {
    if fields == [] {
    } else {
      var later := Keys(fields[1..], all);
      var first := fields[0].key;
      KeysAre(fields[1..], all);
      assert first !in later;
      forall k ensures Has(fields, k) <==> k == first || Has(fields[1..], k) {
        if Has(fields[1..], k) {
          var i :| 0 <= i < |fields[1..]| && fields[1..][i].key == k;
          assert fields[i + 1].key == k;
        }
        if Has(fields, k) && k != first {
          var i :| 0 <= i < |fields| && fields[i].key == k;
          assert fields[1..][i - 1].key == k;
        }
      }
      if !Lookup(all, first).Undefined? { InsertedRises(later, first); }
    }
  }

  lemma {:induction false} LookupFinds(fields: seq<Field>, key: string)
    requires !Lookup(fields, key).Undefined?
    ensures Has(fields, key)
  {
    if fields[0].key == key {
    } else {
      LookupFinds(fields[1..], key);
      var i :| 0 <= i < |fields[1..]| && fields[1..][i].key == key;
      assert fields[i + 1].key == key;
    }
  }

  lemma KeysOf(fields: seq<Field>)
    requires Distinct(fields)
    ensures Rising(Keys(fields, fields))
    ensures forall k :: k in Keys(fields, fields) <==> !Lookup(fields, k).Undefined?
  {
    KeysAre(fields, fields);
    forall k | !Lookup(fields, k).Undefined? ensures k in Keys(fields, fields) { LookupFinds(fields, k); }
  }

  lemma RestIs(ks: seq<string>, k: string)
    requires Rising(ks) && ks != []
    ensures k in ks[1..] <==> k in ks && k != ks[0]
  {
    BelowIsStrict(ks[0], ks[0]);
  }

  lemma FirstIn(ls: seq<string>)
    requires ls != []
    ensures ls[0] in ls
  {
  }

  lemma {:induction false} RisingIsUnique(ks: seq<string>, ls: seq<string>)
    requires Rising(ks) && Rising(ls) && forall k :: k in ks <==> k in ls
    ensures ks == ls
    decreases |ks|
  {
    if ks == [] {
      if ls != [] {
        FirstIn(ls);
        assert false;
      }
    } else {
      assert ks[0] in ls && ls != [] && ls[0] in ks;
      BelowIsStrict(ks[0], ls[0]);
      assert ks[0] == ls[0];
      forall k ensures k in ks[1..] <==> k in ls[1..] {
        RestIs(ks, k);
        RestIs(ls, k);
      }
      RisingIsUnique(ks[1..], ls[1..]);
      assert ks == [ks[0]] + ks[1..] && ls == [ls[0]] + ls[1..];
    }
  }

  // ---- The text determines the value ----

  /** What a value's text begins with. */
  function Lead(c: char): nat {
    if c == '"' then 1 else if c == '[' then 2 else if c == '{' then 3 else if c == 'n' then 4
    else if c == 't' then 5 else if c == 'f' then 6 else if c == '-' || '0' <= c <= '9' then 7 else 0
  }

  function Kind(v: Json): nat {
    match v
    case Undefined => 0
    case Null => 4
    case Bool(b) => if b then 5 else 6
    case Number(_) => 7
    case Str(_) => 1
    case Arr(_) => 2
    case Obj(_) => 3
  }

  lemma OpensAs(v: Json, x: string)
    requires Proper(v) && Ends(x)
    ensures Canonical(v) + x == "" ==> Kind(v) == 0
    ensures Canonical(v) + x != "" ==> Lead((Canonical(v) + x)[0]) == Kind(v)
  {
    var t := Canonical(v) + x;
    match v
    case Undefined => assert t == x;
    case Number(text) => assert t[0] == text[0];
    case Str(s) => assert t[0] == StringText(s)[0];
    case _ =>
  }

  lemma SameKind(a: Json, b: Json, x: string, y: string)
    requires Proper(a) && Proper(b) && Ends(x) && Ends(y) && Canonical(a) + x == Canonical(b) + y
    ensures Kind(a) == Kind(b)
  {
    OpensAs(a, x);
    OpensAs(b, y);
  }

  predicate Closes(x: string, c: char) { x != "" && x[0] == c }

  ghost predicate ProperItems(items: seq<Json>) { forall i :: 0 <= i < |items| ==> Proper(items[i]) }

  ghost predicate ProperFields(fields: seq<Field>) { Distinct(fields) && forall k :: Proper(Lookup(fields, k)) }

  lemma SimpleDelimited(a: Json, b: Json, x: string, y: string)
    requires a.Undefined? || a.Null? || a.Bool?
    requires Kind(a) == Kind(b) && Canonical(a) + x == Canonical(b) + y
    ensures a == b && x == y
  {
    assert a == b;
    var t := Canonical(a) + x;
    assert x == t[|Canonical(a)|..] == y;
  }

  /** Wherever a value stands in a document, its text says which value it is and where it stops. */
  lemma {:induction false} Delimited(a: Json, b: Json, x: string, y: string)
    requires Proper(a) && Proper(b) && Ends(x) && Ends(y) && Canonical(a) + x == Canonical(b) + y
    ensures Same(a, b, false) && x == y
    decreases Size(a), 0
  {
    SameKind(a, b, x, y);
    match a {
      case Number(m) => NumberInjective(m, b.text, x, y);
      case Str(s) => StringInjective(s, b.s, x, y);
      case Arr(xs) => ArrDelimited(xs, b.items, x, y);
      case Obj(fs) => ObjDelimited(fs, b.fields, x, y);
      case _ => SimpleDelimited(a, b, x, y);
    }
  }

  /** What follows the opening bracket of an array or object. */
  lemma Opens(inner: string, x: string)
    ensures ("[" + inner + "]" + x)[1..] == inner + ("]" + x)
    ensures ("{" + inner + "}" + x)[1..] == inner + ("}" + x)
  {
  }

  lemma Uncons(c: char, x: string, y: string)
    ensures [c] + x == [c] + y ==> x == y
  {
    assert ([c] + x)[1..] == x && ([c] + y)[1..] == y;
  }

  lemma FilledPrints(xs: seq<Json>)
    requires Proper(Arr(xs))
    ensures Items(Filled(xs)) == Items(xs) && ProperItems(Filled(xs)) && Filled(xs) != []
    ensures ItemsSize(Filled(xs)) < 2 + ItemsSize(xs)
  {
  }

  lemma ArrDelimited(xs: seq<Json>, ys: seq<Json>, x: string, y: string)
    requires Proper(Arr(xs)) && Proper(Arr(ys)) && Canonical(Arr(xs)) + x == Canonical(Arr(ys)) + y
    ensures Same(Arr(xs), Arr(ys), false) && x == y
    decreases ItemsSize(xs) + 1, 2
  {
    var xs', ys' := Filled(xs), Filled(ys);
    FilledPrints(xs);
    FilledPrints(ys);
    Opens(Items(xs), x);
    Opens(Items(ys), y);
    ItemsDelimited(xs', ys', "]" + x, "]" + y);
    Uncons(']', x, y);
  }

  lemma ItemsSplit(xs: seq<Json>, x: string)
    requires xs != []
    ensures Items(xs) + x == Canonical(xs[0]) + (if |xs| == 1 then x else "," + (Items(xs[1..]) + x))
  {
  }

  lemma ItemsDelimited(xs: seq<Json>, ys: seq<Json>, x: string, y: string)
    requires xs != [] && ys != [] && ProperItems(xs) && ProperItems(ys) && Closes(x, ']') && Closes(y, ']')
    requires Items(xs) + x == Items(ys) + y
    ensures SameItems(xs, ys, false) && x == y
    decreases ItemsSize(xs), 1
  {
    var x' := if |xs| == 1 then x else "," + (Items(xs[1..]) + x);
    var y' := if |ys| == 1 then y else "," + (Items(ys[1..]) + y);
    ItemsSplit(xs, x);
    ItemsSplit(ys, y);
    ItemSmaller(xs, 0);
    Delimited(xs[0], ys[0], x', y');
    assert |xs| == 1 <==> |ys| == 1;
    if |xs| > 1 {
      assert x'[1..] == Items(xs[1..]) + x && y'[1..] == Items(ys[1..]) + y;
      ItemsDelimited(xs[1..], ys[1..], x, y);
    }
  }

  lemma AbsentAreSame(fs: seq<Field>, gs: seq<Field>)
    requires Distinct(fs) && Distinct(gs) && Keys(fs, fs) == Keys(gs, gs)
    requires forall k :: k in Keys(fs, fs) ==> Same(Lookup(fs, k), Lookup(gs, k), false)
    ensures Same(Obj(fs), Obj(gs), false)
  {
    KeysOf(fs);
    KeysOf(gs);
    forall k ensures Same(Lookup(fs, k), Lookup(gs, k), false) {
      if k !in Keys(fs, fs) { assert Lookup(fs, k).Undefined? && Lookup(gs, k).Undefined?; }
    }
  }

  lemma ObjDelimited(fs: seq<Field>, gs: seq<Field>, x: string, y: string)
    requires Proper(Obj(fs)) && Proper(Obj(gs)) && Canonical(Obj(fs)) + x == Canonical(Obj(gs)) + y
    ensures Same(Obj(fs), Obj(gs), false) && x == y
    decreases FieldsSize(fs), 2
  {
    var ks, ls := Keys(fs, fs), Keys(gs, gs);
    Opens(Members(fs, ks), x);
    Opens(Members(gs, ls), y);
    MembersDelimited(fs, gs, ks, ls, "}" + x, "}" + y);
    Uncons('}', x, y);
    AbsentAreSame(fs, gs);
  }

  lemma SameFirstAndRest(ks: seq<string>, ls: seq<string>)
    requires ks != [] && ls != [] && ks[0] == ls[0] && ks[1..] == ls[1..]
    ensures ks == ls && forall k :: k in ks <==> k == ks[0] || k in ks[1..]
  {
    assert ks == [ks[0]] + ks[1..] && ls == [ls[0]] + ls[1..];
  }

  lemma NameDelimited(k: string, l: string, x: string, y: string)
    requires StringText(k) + (":" + x) == StringText(l) + (":" + y)
    ensures k == l && x == y
  {
    StringInjective(k, l, ":" + x, ":" + y);
    Uncons(':', x, y);
  }

  function AfterMember(fs: seq<Field>, ks: seq<string>, x: string): string
    requires ks != []
  {
    if |ks| == 1 then x else "," + (Members(fs, ks[1..]) + x)
  }

  lemma LastMember(member: string, name: string, value: string, x: string)
    requires member == name + ":" + value
    ensures member + x == name + (":" + (value + x))
  {
  }

  lemma MemberThen(member: string, name: string, value: string, rest: string, x: string)
    requires member == name + ":" + value
    ensures member + "," + rest + x == name + (":" + (value + ("," + (rest + x))))
  {
    LastMember(member, name, value, "," + (rest + x));
    assert member + "," + rest + x == member + ("," + (rest + x));
  }

  lemma MembersSplit(fs: seq<Field>, ks: seq<string>, x: string)
    requires ks != []
    ensures Members(fs, ks) + x == StringText(ks[0]) + (":" + (Canonical(Lookup(fs, ks[0])) + AfterMember(fs, ks, x)))
  {
    var name, value := StringText(ks[0]), Canonical(Lookup(fs, ks[0]));
    var member := Member(fs, ks[0]);
    assert member == name + ":" + value;
    if |ks| == 1 {
      LastMember(member, name, value, x);
    } else {
      MemberThen(member, name, value, Members(fs, ks[1..]), x);
    }
  }

  lemma MembersOpen(fs: seq<Field>, ks: seq<string>, x: string)
    requires Closes(x, '}')
    ensures Members(fs, ks) + x != "" && ((Members(fs, ks) + x)[0] == '}' <==> ks == [])
  {
    if ks == [] {
      assert Members(fs, ks) + x == x;
    } else {
      MembersSplit(fs, ks, x);
      assert StringText(ks[0])[0] == '"';
    }
  }

  lemma MembersDelimited(fs: seq<Field>, gs: seq<Field>, ks: seq<string>, ls: seq<string>, x: string, y: string)
    requires ProperFields(fs) && ProperFields(gs) && Closes(x, '}') && Closes(y, '}')
    requires Members(fs, ks) + x == Members(gs, ls) + y
    ensures ks == ls && x == y
    ensures forall k :: k in ks ==> Same(Lookup(fs, k), Lookup(gs, k), false)
    decreases FieldsSize(fs), 1, |ks|
  {
    MembersOpen(fs, ks, x);
    MembersOpen(gs, ls, y);
    if ks == [] {
      assert Members(fs, ks) + x == x && Members(gs, ls) + y == y;
    } else {
      MembersSplit(fs, ks, x);
      MembersSplit(gs, ls, y);
      var x', y' := AfterMember(fs, ks, x), AfterMember(gs, ls, y);
      var v, w := Lookup(fs, ks[0]), Lookup(gs, ls[0]);
      NameDelimited(ks[0], ls[0], Canonical(v) + x', Canonical(w) + y');
      Delimited(v, w, x', y');
      if |ks| > 1 && |ls| > 1 {
        Uncons(',', Members(fs, ks[1..]) + x, Members(gs, ls[1..]) + y);
        MembersDelimited(fs, gs, ks[1..], ls[1..], x, y);
      } else {
        assert |ks| == 1 && |ls| == 1;
      }
      SameFirstAndRest(ks, ls);
    }
  }

  // ---- The value determines the text ----

  lemma {:induction false} SamePrints(a: Json, b: Json)
    requires Proper(a) && Proper(b) && Same(a, b, false)
    ensures Canonical(a) == Canonical(b)
    decreases Size(a), 0
  {
    match a {
      case Arr(xs) =>
        FilledPrints(xs);
        FilledPrints(b.items);
        ItemsPrint(Filled(xs), Filled(b.items));
      case Obj(fs) => ObjPrints(fs, b.fields);
      case _ =>
    }
  }

  lemma ItemsPrint(xs: seq<Json>, ys: seq<Json>)
    requires ProperItems(xs) && ProperItems(ys) && SameItems(xs, ys, false)
    ensures Items(xs) == Items(ys)
    decreases ItemsSize(xs), 1
  {
    if xs != [] {
      ItemSmaller(xs, 0);
      SamePrints(xs[0], ys[0]);
      ItemsPrint(xs[1..], ys[1..]);
    }
  }

  lemma ObjPrints(fs: seq<Field>, gs: seq<Field>)
    requires Proper(Obj(fs)) && Proper(Obj(gs)) && forall k :: Same(Lookup(fs, k), Lookup(gs, k), false)
    ensures Canonical(Obj(fs)) == Canonical(Obj(gs))
    decreases FieldsSize(fs), 2
  {
    KeysOf(fs);
    KeysOf(gs);
    forall k ensures k in Keys(fs, fs) <==> k in Keys(gs, gs) {
      assert Same(Lookup(fs, k), Lookup(gs, k), false);
    }
    RisingIsUnique(Keys(fs, fs), Keys(gs, gs));
    MembersPrint(fs, gs, Keys(fs, fs));
  }

  lemma MembersPrint(fs: seq<Field>, gs: seq<Field>, ks: seq<string>)
    requires ProperFields(fs) && ProperFields(gs) && forall k :: Same(Lookup(fs, k), Lookup(gs, k), false)
    ensures Members(fs, ks) == Members(gs, ks)
    decreases FieldsSize(fs), 1, |ks|
  {
    if ks != [] {
      SamePrints(Lookup(fs, ks[0]), Lookup(gs, ks[0]));
      MembersPrint(fs, gs, ks[1..]);
    }
  }

  /**
   * Two values print alike exactly when they are the same but for key order,
   * undefined members and lone missing items.
   */
  lemma CanonicalExactly(a: Json, b: Json)
    requires Proper(a) && Proper(b)
    ensures Canonical(a) == Canonical(b) <==> Same(a, b, false)
  {
    if Canonical(a) == Canonical(b) {
      Delimited(a, b, "", "");
    } else if Same(a, b, false) {
      SamePrints(a, b);
    }
  }

  // ---- Where the promise of one text per value ends ----

  /** No array anywhere holds one missing item and nothing else. */
  ghost predicate NoLoneHole(v: Json)
    decreases Size(v)
  {
    match v
    case Arr(items) => items != [Undefined] &&
      forall i :: 0 <= i < |items| ==> (ItemSmaller(items, i); NoLoneHole(items[i]))
    case Obj(fields) => forall k :: NoLoneHole(Lookup(fields, k))
    case _ => true
  }

  lemma {:induction false} NoLoneHoleIsExact(a: Json, b: Json)
    requires NoLoneHole(a) && NoLoneHole(b)
    ensures Same(a, b, false) <==> Same(a, b, true)
    decreases Size(a)
  {
    if a.Arr? && b.Arr? {
      ArraysAreExact(a.items, b.items);
    } else if a.Obj? && b.Obj? {
      forall k
        ensures Same(Lookup(a.fields, k), Lookup(b.fields, k), false) <==>
                Same(Lookup(a.fields, k), Lookup(b.fields, k), true)
      {
        NoLoneHoleIsExact(Lookup(a.fields, k), Lookup(b.fields, k));
      }
    }
  }

  ghost predicate NoHoles(items: seq<Json>) { forall i :: 0 <= i < |items| ==> NoLoneHole(items[i]) }

  lemma ItemsAreExact(xs: seq<Json>, ys: seq<Json>)
    requires NoHoles(xs) && NoHoles(ys)
    ensures SameItems(xs, ys, false) <==> SameItems(xs, ys, true)
    decreases ItemsSize(xs)
  {
    if xs != [] && ys != [] {
      NoLoneHoleIsExact(xs[0], ys[0]);
      ItemsAreExact(xs[1..], ys[1..]);
    }
  }

  lemma OnlyEmptyFillsSo(xs: seq<Json>, ys: seq<Json>)
    requires ys != [Undefined]
    ensures xs == [] && ys != [] ==>
      !SameItems(Filled(xs), Filled(ys), false) && !SameItems(Filled(ys), Filled(xs), false)
  {
    if |ys| == 1 { assert ys == [ys[0]]; }
  }

  lemma ArraysAreExact(xs: seq<Json>, ys: seq<Json>)
    requires NoLoneHole(Arr(xs)) && NoLoneHole(Arr(ys))
    ensures SameItems(Filled(xs), Filled(ys), false) <==> SameItems(xs, ys, true)
    decreases ItemsSize(xs) + 1
  {
    if xs == [] && ys == [] {
    } else if xs == [] {
      OnlyEmptyFillsSo(xs, ys);
    } else if ys == [] {
      OnlyEmptyFillsSo(ys, xs);
    } else {
      ItemsAreExact(xs, ys);
    }
  }

  /** On values without such arrays, which every JSON value is, one text means one value. */
  lemma CanonicalIsInjective(a: Json, b: Json)
    requires Proper(a) && Proper(b) && NoLoneHole(a) && NoLoneHole(b)
    ensures Canonical(a) == Canonical(b) <==> Same(a, b, true)
  {
    CanonicalExactly(a, b);
    NoLoneHoleIsExact(a, b);
  }

  lemma LoneHoleCollides()
    ensures Canonical(Arr([Undefined])) == Canonical(Arr([]))
    ensures !Same(Arr([Undefined]), Arr([]), true)
  {
  }
}
