/**
 * A reader of JSON (RFC 8259), written from its grammar, and what it makes of
 * the canonical text: the value that was printed. It expects no whitespace, as
 * there is none, and takes the longest run of a number's characters for one.
 */
module JsonText {
  import opened Base
  import opened CanonicalJson

  // ---- The reader ----

  function HexDigit(c: char): Option<nat> {
    if '0' <= c <= '9' then Some(c as int - '0' as int)
    else if 'a' <= c <= 'f' then Some(c as int - 'a' as int + 10)
    else if 'A' <= c <= 'F' then Some(c as int - 'A' as int + 10)
    else None
  }

  /** What the letter after a backslash stands for (section 7 of RFC 8259). */
  function Short(c: char): Option<char> {
    match c
    case '"' => Some('"')
    case '\\' => Some('\\')
    case '/' => Some('/')
    case 'b' => Some('\U{8}')
    case 'f' => Some('\U{c}')
    case 'n' => Some('\U{a}')
    case 'r' => Some('\U{d}')
    case 't' => Some('\U{9}')
    case _ => None
  }

  /** The code unit four hexadecimal digits name; a surrogate stands for no character of its own. */
  function Unit(a: char, b: char, c: char, d: char): Option<char> {
    if HexDigit(a).None? || HexDigit(b).None? || HexDigit(c).None? || HexDigit(d).None? then None
    else
      var n := HexDigit(a).value * 4096 + HexDigit(b).value * 256 + HexDigit(c).value * 16 + HexDigit(d).value;
      if 0xD800 <= n < 0xE000 || n >= 0x10000 then None else Some(n as char)
  }

  /** One step through a string: its end, or a character and what follows. */
  datatype Lexeme = Bad | Close(rest: string) | Char(c: char, rest: string)

  function Lexed(c: Option<char>, rest: string): Lexeme { if c.Some? then Char(c.value, rest) else Bad }

  function Lex(text: string): (l: Lexeme)
    ensures !l.Bad? ==> |l.rest| < |text|
  {
    if text == "" || text[0] < ' ' then Bad
    else if text[0] == '"' then Close(text[1..])
    else if text[0] != '\\' then Char(text[0], text[1..])
    else if |text| < 2 then Bad
    else if text[1] != 'u' then Lexed(Short(text[1]), text[2..])
    else if |text| < 6 then Bad
    else Lexed(Unit(text[2], text[3], text[4], text[5]), text[6..])
  }

  /** The characters of a string up to its closing quote, and what follows it. */
  function ReadChars(text: string): (r: Option<(string, string)>)
    ensures r.Some? ==> |r.value.1| < |text|
    decreases |text|
  {
    match Lex(text)
    case Bad => None
    case Close(rest) => Some(("", rest))
    case Char(c, rest) => match ReadChars(rest) case Some((s, after)) => Some(([c] + s, after)) case None => None
  }

  predicate InNumber(c: char) { c in "0123456789+-.eE" }

  function NumberLength(text: string): (n: nat)
    ensures n <= |text|
  {
    if text != "" && InNumber(text[0]) then 1 + NumberLength(text[1..]) else 0
  }

  /** The value a text begins with, and what follows it. */
  function ReadValue(text: string): (r: Option<(Json, string)>)
    ensures r.Some? ==> |r.value.1| < |text|
    decreases |text|, 0
  {
    if text == "" then None
    else if text[0] == '"' then
      match ReadChars(text[1..]) case Some((s, rest)) => Some((Str(s), rest)) case None => None
    else if text[0] == '[' then
      if |text| > 1 && text[1] == ']' then Some((Arr([]), text[2..]))
      else (match ReadItems(text[1..]) case Some((items, rest)) => Some((Arr(items), rest)) case None => None)
    else if text[0] == '{' then
      if |text| > 1 && text[1] == '}' then Some((Obj([]), text[2..]))
      else (match ReadMembers(text[1..]) case Some((fields, rest)) => Some((Obj(fields), rest)) case None => None)
    else if "null" <= text then Some((Null, text[4..]))
    else if "true" <= text then Some((Bool(true), text[4..]))
    else if "false" <= text then Some((Bool(false), text[5..]))
    else if NumberLength(text) > 0 then Some((Number(text[..NumberLength(text)]), text[NumberLength(text)..]))
    else None
  }

  /** One item or more, separated by commas, up to the closing bracket. */
  function ReadItems(text: string): (r: Option<(seq<Json>, string)>)
    ensures r.Some? ==> |r.value.1| < |text|
    decreases |text|, 1
  {
    match ReadValue(text)
    case None => None
    case Some((v, rest)) =>
      if rest == "" then None
      else if rest[0] == ']' then Some(([v], rest[1..]))
      else if rest[0] != ',' then None
      else (match ReadItems(rest[1..]) case Some((more, after)) => Some(([v] + more, after)) case None => None)
  }

  /** One member or more, each a name and a value, up to the closing brace. */
  function ReadMembers(text: string): (r: Option<(seq<Field>, string)>)
    ensures r.Some? ==> |r.value.1| < |text|
    decreases |text|, 1
  {
    if text == "" || text[0] != '"' then None
    else match ReadChars(text[1..])
      case None => None
      case Some((key, rest)) =>
        if rest == "" || rest[0] != ':' then None
        else match ReadValue(rest[1..])
          case None => None
          case Some((v, rest)) =>
            if rest == "" then None
            else if rest[0] == '}' then Some(([Field(key, v)], rest[1..]))
            else if rest[0] != ',' then None
            else
              match ReadMembers(rest[1..])
              case Some((more, after)) => Some(([Field(key, v)] + more, after))
              case None => None
  }

  // ---- What is to be read ----

  /** No item of any array is missing. */
  ghost predicate Whole(v: Json)
    decreases Size(v)
  {
    match v
    case Undefined => false
    case Arr(items) => forall i :: 0 <= i < |items| ==> (ItemSmaller(items, i); Whole(items[i]))
    case Obj(fields) => forall k :: Lookup(fields, k).Undefined? || Whole(Lookup(fields, k))
    case _ => true
  }

  /** The value with every object's keys in order and its missing members left out. */
  function Kept(v: Json): Json
    decreases Size(v), 0
  {
    match v
    case Arr(items) => Arr(KeptItems(items))
    case Obj(fields) => Obj(KeptMembers(fields, Keys(fields, fields)))
    case _ => v
  }

  function KeptItems(items: seq<Json>): seq<Json>
    decreases ItemsSize(items), 1
  {
    if items == [] then [] else [Kept(items[0])] + KeptItems(items[1..])
  }

  function KeptMembers(fields: seq<Field>, keys: seq<string>): seq<Field>
    decreases FieldsSize(fields), 1, |keys|
  {
    if keys == [] then [] else [Field(keys[0], Kept(Lookup(fields, keys[0])))] + KeptMembers(fields, keys[1..])
  }

  // ---- Strings and numbers ----

  lemma HexReads(n: nat)
    requires n < 16
    ensures HexDigit(Hex(n)) == Some(n)
  {
  }

  lemma UnitLexes(c: char, more: string)
    requires c < ' '
    ensures Lex("\\u00" + [Hex(c as int / 16), Hex(c as int % 16)] + more) == Char(c, more)
  {
    var text := "\\u00" + [Hex(c as int / 16), Hex(c as int % 16)] + more;
    assert text[6..] == more;
    assert text[0] == '\\' && text[1] == 'u' && text[2] == '0' && text[3] == '0';
    HexReads(c as int / 16);
    HexReads(c as int % 16);
    assert Unit(text[2], text[3], text[4], text[5]) == Some(c);
  }

  /** An escaped character reads as itself. */
  lemma EscapedLexes(c: char, more: string)
    ensures Lex(Escaped(c) + more) == Char(c, more)
  {
    var text := Escaped(c) + more;
    assert text[|Escaped(c)|..] == more && text[0] == Escaped(c)[0];
    if |Escaped(c)| == 2 { assert text[1] == Escaped(c)[1]; }
    if |Escaped(c)| == 6 { UnitLexes(c, more); }
  }

  lemma QuoteEnds(x: string)
    ensures Body("") + ("\"" + x) == "\"" + x && Lex("\"" + x) == Close(x)
  {
    assert ("\"" + x)[1..] == x;
  }

  lemma {:induction false} BodyReads(s: string, x: string)
    ensures ReadChars(Body(s) + ("\"" + x)) == Some((s, x))
  {
    if s == "" {
      QuoteEnds(x);
    } else {
      BodySplits(s, "\"" + x);
      EscapedLexes(s[0], Body(s[1..]) + ("\"" + x));
      BodyReads(s[1..], x);
      assert [s[0]] + s[1..] == s;
    }
  }

  lemma StringReads(s: string, x: string)
    ensures StringText(s) + x != "" && (StringText(s) + x)[0] == '"'
    ensures ReadChars((StringText(s) + x)[1..]) == Some((s, x))
  {
    assert (StringText(s) + x)[1..] == Body(s) + ("\"" + x);
    BodyReads(s, x);
  }

  lemma {:induction false} NumberEnds(m: string, x: string)
    requires (forall c :: c in m ==> InNumber(c)) && Ends(x)
    ensures NumberLength(m + x) == |m|
  {
    if m == "" {
      assert m + x == x;
    } else {
      assert (m + x)[1..] == m[1..] + x;
      assert m[0] in m && forall c :: c in m[1..] ==> c in m;
      NumberEnds(m[1..], x);
    }
  }

  lemma PrefixReads(word: string, x: string)
    ensures word <= word + x && (word + x)[|word|..] == x
  {
  }

  lemma NumberSplits(m: string, x: string)
    requires m != ""
    ensures (m + x)[0] == m[0] && (m + x)[..|m|] == m && (m + x)[|m|..] == x
  {
  }

  lemma OpensNumber(text: string, n: nat)
    requires text != "" && (text[0] == '-' || '0' <= text[0] <= '9') && NumberLength(text) == n > 0
    ensures ReadValue(text) == Some((Number(text[..n]), text[n..]))
  {
  }

  lemma NumberReads(m: string, x: string)
    requires NumberText(m) && Ends(x)
    ensures ReadValue(m + x) == Some((Number(m), x))
  {
    NumberEnds(m, x);
    NumberSplits(m, x);
    OpensNumber(m + x, |m|);
  }

  lemma WordReads(v: Json, x: string)
    requires v.Null? || v.Bool?
    ensures ReadValue(Canonical(v) + x) == Some((v, x))
  {
    PrefixReads(Canonical(v), x);
    assert (Canonical(v) + x)[0] == Canonical(v)[0];
  }

  // ---- Arrays, objects and all ----

  /** The text of a value reads as that value, wherever it stands in a document. */
  lemma {:induction false} ValueReads(v: Json, x: string)
    requires Proper(v) && Whole(v) && Ends(x)
    ensures ReadValue(Canonical(v) + x) == Some((Kept(v), x))
    decreases Size(v), 0
  {
    match v {
      case Number(m) => NumberReads(m, x);
      case Str(s) => StringReads(s, x);
      case Arr(items) => ArrayReads(items, x);
      case Obj(fields) => ObjectReads(fields, x);
      case _ => WordReads(v, x);
    }
  }

  ghost predicate WholeItems(items: seq<Json>) { forall i :: 0 <= i < |items| ==> Whole(items[i]) }

  /** No printed value opens as a closing bracket. */
  lemma OpensNoClose(v: Json, x: string)
    requires Proper(v) && Whole(v)
    ensures Canonical(v) + x != "" && (Canonical(v) + x)[0] != ']'
  {
    if v.Number? { assert (v.text + x)[0] == v.text[0]; }
  }

  /** An opening bracket is followed by its items, or at once by the closing one. */
  lemma BracketReads(inner: string)
    requires inner != ""
    ensures ReadValue("[" + inner) ==
      if inner[0] == ']' then Some((Arr([]), inner[1..]))
      else match ReadItems(inner) case Some((items, rest)) => Some((Arr(items), rest)) case None => None
  {
    var text := "[" + inner;
    assert text[0] == '[' && text[1] == inner[0] && text[1..] == inner && text[2..] == inner[1..];
  }

  lemma BraceReads(inner: string)
    requires inner != ""
    ensures ReadValue("{" + inner) ==
      if inner[0] == '}' then Some((Obj([]), inner[1..]))
      else match ReadMembers(inner) case Some((fields, rest)) => Some((Obj(fields), rest)) case None => None
  {
    var text := "{" + inner;
    assert text[0] == '{' && text[1] == inner[0] && text[1..] == inner && text[2..] == inner[1..];
  }

  lemma Encloses(open: string, inner: string, close: string, x: string)
    ensures open + inner + close + x == open + (inner + (close + x))
  {
  }

  function AfterItem(items: seq<Json>, x: string): string
    requires items != []
  {
    if |items| == 1 then x else "," + (Items(items[1..]) + x)
  }

  lemma ArrayReads(items: seq<Json>, x: string)
    requires Proper(Arr(items)) && Whole(Arr(items))
    ensures ReadValue(Canonical(Arr(items)) + x) == Some((Kept(Arr(items)), x))
    decreases ItemsSize(items) + 1, 2
  {
    var inner := Items(items) + ("]" + x);
    Encloses("[", Items(items), "]", x);
    if items == [] {
      assert inner == "]" + x && inner[1..] == x;
    } else {
      ItemsSplit(items, "]" + x);
      OpensNoClose(items[0], AfterItem(items, "]" + x));
      ItemsRead(items, x);
    }
    assert Canonical(Arr(items)) + x == "[" + inner;
    BracketReads(inner);
  }

  lemma KeptOne(items: seq<Json>)
    requires |items| == 1
    ensures KeptItems(items) == [Kept(items[0])]
  {
    assert items[1..] == [] && [Kept(items[0])] + [] == [Kept(items[0])];
  }

  /** What reading items does once the first of them is read. */
  function ItemsOn(first: Json, rest: string): Option<(seq<Json>, string)> {
    if rest == "" then None
    else if rest[0] == ']' then Some(([first], rest[1..]))
    else if rest[0] != ',' then None
    else match ReadItems(rest[1..]) case Some((more, after)) => Some(([first] + more, after)) case None => None
  }

  lemma LastItem(first: Json, x: string)
    ensures ItemsOn(first, "]" + x) == Some(([first], x))
  {
    assert ("]" + x)[1..] == x;
  }

  lemma NextItem(first: Json, text: string, more: seq<Json>, x: string)
    requires ReadItems(text) == Some((more, x))
    ensures ItemsOn(first, "," + text) == Some(([first] + more, x))
  {
    assert ("," + text)[1..] == text;
  }

  lemma ItemsGoOn(text: string, v: Json, rest: string)
    requires ReadValue(text) == Some((v, rest))
    ensures ReadItems(text) == ItemsOn(v, rest)
  {
  }

  lemma ItemsRead(items: seq<Json>, x: string)
    requires items != [] && ProperItems(items) && WholeItems(items)
    ensures ReadItems(Items(items) + ("]" + x)) == Some((KeptItems(items), x))
    decreases ItemsSize(items), 1
  {
    var rest := AfterItem(items, "]" + x);
    ItemsSplit(items, "]" + x);
    ItemSmaller(items, 0);
    ValueReads(items[0], rest);
    ItemsGoOn(Canonical(items[0]) + rest, Kept(items[0]), rest);
    if |items| == 1 {
      LastItem(Kept(items[0]), x);
      KeptOne(items);
    } else {
      ItemsRead(items[1..], x);
      NextItem(Kept(items[0]), Items(items[1..]) + ("]" + x), KeptItems(items[1..]), x);
    }
  }

  ghost predicate WholeMembers(fields: seq<Field>, keys: seq<string>) {
    forall i :: 0 <= i < |keys| ==> Whole(Lookup(fields, keys[i]))
  }

  lemma ObjectReads(fields: seq<Field>, x: string)
    requires Proper(Obj(fields)) && Whole(Obj(fields))
    ensures ReadValue(Canonical(Obj(fields)) + x) == Some((Kept(Obj(fields)), x))
    decreases FieldsSize(fields), 2
  {
    var keys := Keys(fields, fields);
    var inner := Members(fields, keys) + ("}" + x);
    Encloses("{", Members(fields, keys), "}", x);
    KeysOf(fields);
    MembersOpen(fields, keys, "}" + x);
    if keys == [] {
      assert inner == "}" + x && inner[1..] == x;
    } else {
      MembersRead(fields, keys, x);
    }
    assert Canonical(Obj(fields)) + x == "{" + inner;
    BraceReads(inner);
  }

  /** What reading members does once the first of them is read. */
  function ReadOn(first: Field, rest: string): Option<(seq<Field>, string)> {
    if rest == "" then None
    else if rest[0] == '}' then Some(([first], rest[1..]))
    else if rest[0] != ',' then None
    else
      match ReadMembers(rest[1..])
      case Some((more, after)) => Some(([first] + more, after))
      case None => None
  }

  lemma FinalMember(first: Field, x: string)
    ensures ReadOn(first, "}" + x) == Some(([first], x))
  {
    assert ("}" + x)[1..] == x;
  }

  lemma NextMember(first: Field, text: string, more: seq<Field>, x: string)
    requires ReadMembers(text) == Some((more, x))
    ensures ReadOn(first, "," + text) == Some(([first] + more, x))
  {
    assert ("," + text)[1..] == text;
  }

  lemma MemberReads(key: string, v: Json, rest: string)
    requires ReadValue(Canonical(v) + rest) == Some((Kept(v), rest))
    ensures ReadMembers(StringText(key) + (":" + (Canonical(v) + rest))) == ReadOn(Field(key, Kept(v)), rest)
  {
    StringReads(key, ":" + (Canonical(v) + rest));
    assert (":" + (Canonical(v) + rest))[1..] == Canonical(v) + rest;
  }

  lemma KeptOneMember(fields: seq<Field>, keys: seq<string>)
    requires |keys| == 1
    ensures KeptMembers(fields, keys) == [Field(keys[0], Kept(Lookup(fields, keys[0])))]
  {
    var member := Field(keys[0], Kept(Lookup(fields, keys[0])));
    assert keys[1..] == [] && [member] + [] == [member];
  }

  lemma MembersRead(fields: seq<Field>, keys: seq<string>, x: string)
    requires keys != [] && ProperFields(fields) && WholeMembers(fields, keys)
    ensures ReadMembers(Members(fields, keys) + ("}" + x)) == Some((KeptMembers(fields, keys), x))
    decreases FieldsSize(fields), 1, |keys|
  {
    var v, rest := Lookup(fields, keys[0]), AfterMember(fields, keys, "}" + x);
    MembersSplit(fields, keys, "}" + x);
    ValueReads(v, rest);
    MemberReads(keys[0], v, rest);
    if |keys| == 1 {
      FinalMember(Field(keys[0], Kept(v)), x);
      KeptOneMember(fields, keys);
    } else {
      MembersRead(fields, keys[1..], x);
      NextMember(Field(keys[0], Kept(v)), Members(fields, keys[1..]) + ("}" + x), KeptMembers(fields, keys[1..]), x);
    }
  }

  // ---- What is read is the value that was printed ----

  lemma {:induction false} KeptFinds(fields: seq<Field>, keys: seq<string>, k: string)
    ensures Lookup(KeptMembers(fields, keys), k) == if k in keys then Kept(Lookup(fields, k)) else Undefined
    decreases |keys|
  {
    if keys == [] {
    } else {
      var rest := KeptMembers(fields, keys[1..]);
      KeptFinds(fields, keys[1..], k);
      assert ([Field(keys[0], Kept(Lookup(fields, keys[0])))] + rest)[1..] == rest;
    }
  }

  lemma {:induction false} KeptIsSame(v: Json)
    requires Proper(v)
    ensures Same(v, Kept(v), true)
    decreases Size(v), 0
  {
    match v {
      case Arr(items) => KeptItemsSame(items);
      case Obj(fields) => KeptMembersSame(fields);
      case _ =>
    }
  }

  lemma KeptItemsSame(items: seq<Json>)
    requires ProperItems(items)
    ensures SameItems(items, KeptItems(items), true)
    decreases ItemsSize(items), 1
  {
    if items != [] {
      var rest := KeptItems(items[1..]);
      ItemSmaller(items, 0);
      KeptIsSame(items[0]);
      KeptItemsSame(items[1..]);
      assert ([Kept(items[0])] + rest)[1..] == rest;
    }
  }

  lemma KeptMembersSame(fields: seq<Field>)
    requires Proper(Obj(fields))
    ensures Same(Obj(fields), Kept(Obj(fields)), true)
    decreases FieldsSize(fields), 2
  {
    KeysOf(fields);
    forall k ensures Same(Lookup(fields, k), Lookup(KeptMembers(fields, Keys(fields, fields)), k), true) {
      KeptFinds(fields, Keys(fields, fields), k);
      if !Lookup(fields, k).Undefined? { KeptIsSame(Lookup(fields, k)); }
    }
  }

  // ---- Missing items have no text ----

  /** No value is missing anywhere, be it an item or a member. */
  predicate Complete(v: Json) {
    match v
    case Undefined => false
    case Arr(items) => AllComplete(items)
    case Obj(fields) => AllMembersComplete(fields)
    case _ => true
  }

  predicate AllComplete(items: seq<Json>) { forall i :: 0 <= i < |items| ==> Complete(items[i]) }

  predicate AllMembersComplete(fields: seq<Field>) { forall i :: 0 <= i < |fields| ==> Complete(fields[i].value) }

  /** The reader never makes up a missing value. */
  lemma {:induction false} ReadIsComplete(text: string)
    ensures ReadValue(text).Some? ==> Complete(ReadValue(text).value.0)
    decreases |text|, 0
  {
    if text != "" && text[0] == '[' { ItemsAreComplete(text[1..]); }
    if text != "" && text[0] == '{' { MembersAreComplete(text[1..]); }
  }

  lemma ItemsAreComplete(text: string)
    ensures ReadItems(text).Some? ==> AllComplete(ReadItems(text).value.0)
    decreases |text|, 1
  {
    ReadIsComplete(text);
    if ReadValue(text).Some? {
      var rest := ReadValue(text).value.1;
      if rest != "" && rest[0] == ',' { ItemsAreComplete(rest[1..]); }
    }
  }

  lemma MembersAreComplete(text: string)
    ensures ReadMembers(text).Some? ==> AllMembersComplete(ReadMembers(text).value.0)
    decreases |text|, 1
  {
    if text != "" && text[0] == '"' && ReadChars(text[1..]).Some? {
      var rest := ReadChars(text[1..]).value.1;
      if rest != "" && rest[0] == ':' {
        ReadIsComplete(rest[1..]);
        if ReadValue(rest[1..]).Some? {
          var more := ReadValue(rest[1..]).value.1;
          if more != "" && more[0] == ',' { MembersAreComplete(more[1..]); }
        }
      }
    }
  }

  lemma {:induction false} KeptItemIs(items: seq<Json>, i: nat)
    requires i < |items|
    ensures |KeptItems(items)| == |items| && KeptItems(items)[i] == Kept(items[i])
    decreases |items|
  {
    if |items| == 1 {
    } else {
      KeptItemIs(items[1..], if i == 0 then 0 else i - 1);
    }
  }

  lemma {:induction false} LookupIsComplete(fields: seq<Field>, k: string)
    requires AllMembersComplete(fields)
    ensures Lookup(fields, k).Undefined? || Complete(Lookup(fields, k))
  {
    if fields == [] {
    } else if fields[0].key != k {
      LookupIsComplete(fields[1..], k);
    }
  }

  lemma {:induction false} CompleteIsWhole(v: Json)
    requires Proper(v) && Complete(Kept(v))
    ensures Whole(v)
    decreases Size(v)
  {
    match v {
      case Arr(items) =>
        forall i | 0 <= i < |items| ensures Whole(items[i]) {
          ItemSmaller(items, i);
          KeptItemIs(items, i);
          CompleteIsWhole(items[i]);
        }
      case Obj(fields) =>
        KeysOf(fields);
        forall k | !Lookup(fields, k).Undefined? ensures Whole(Lookup(fields, k)) {
          KeptFinds(fields, Keys(fields, fields), k);
          LookupIsComplete(KeptMembers(fields, Keys(fields, fields)), k);
          CompleteIsWhole(Lookup(fields, k));
        }
      case _ =>
    }
  }

  /**
   * The canonical text reads as the value that was printed if and only if no
   * item of any of its arrays is missing; the value read is the same but for
   * the order of keys and members that are missing.
   */
  lemma CanonicalReadsBackExactly(v: Json)
    requires Proper(v)
    ensures ReadValue(Canonical(v)) == Some((Kept(v), "")) <==> Whole(v)
    ensures Same(v, Kept(v), true)
  {
    KeptIsSame(v);
    assert Canonical(v) + "" == Canonical(v);
    if Whole(v) { ValueReads(v, ""); }
    ReadIsComplete(Canonical(v));
    if Complete(Kept(v)) { CompleteIsWhole(v); }
  }
}
