/**
 * Activity texts: how one is read, and the tag a sender on several incidents
 * is told to start the next one with.
 */
module SmsTags {
  import opened Base

  // ---- Reading a text ----

  datatype Activity = Activity(marked: bool, incident: Option<string>, entry: string)

  predicate IsAlnum(c: char) { '0' <= c <= '9' || 'a' <= c <= 'z' || 'A' <= c <= 'Z' }

  predicate IsPlain(c: char) { '0' <= c <= '9' || 'a' <= c <= 'z' }

  function LowerAscii(c: char): char { if 'A' <= c <= 'Z' then (c as int + 32) as char else c }

  const SMALL := "abcdefghijklmnopqrstuvwxyz"
  const CAPITALS := "ABCDEFGHIJKLMNOPQRSTUVWXYZ"

  /** A tag's characters are the small letters and the digits; a text's word may have capitals too. */
  lemma PlainIs(c: char)
    ensures IsPlain(c) <==> c in SMALL || c in "0123456789"
  {
  }

  lemma AlnumIs(c: char)
    ensures IsAlnum(c) <==> c in SMALL || c in CAPITALS || c in "0123456789"
  {
  }

  /** Capitals are lowered, and nothing else changes. */
  lemma LoweredIs(c: char)
    ensures forall i :: 0 <= i < 26 ==> LowerAscii(CAPITALS[i]) == SMALL[i]
    ensures c !in CAPITALS ==> LowerAscii(c) == c
  {
  }

  function Lowered(s: string): string { if s == "" then "" else [LowerAscii(s[0])] + Lowered(s[1..]) }

  /** The letters and digits a text begins with. */
  function Word(s: string): (w: string)
    ensures w <= s
  {
    if s != "" && IsAlnum(s[0]) then [s[0]] + Word(s[1..]) else ""
  }

  /** What follows a mark: it must end the text, or go on with a colon or a blank. */
  function AfterMark(s: string): Option<string> {
    if s == "" then Some("")
    else if s[0] == ':' then Some(s[1..])
    else if IsBlank(s[0]) then Some(TrimLeft(s))
    else None
  }

  function AfterLog(rest: string): Option<string> {
    if |rest| >= 3 && Lowered(rest[..3]) == "log" then AfterMark(rest[3..]) else None
  }

  function AfterTag(rest: string): Option<(string, string)> {
    if rest == "" || rest[0] != '#' || Word(rest[1..]) == "" then None
    else
      var word := Word(rest[1..]);
      match AfterMark(rest[1 + |word|..])
      case Some(after) => Some((Lowered(word), after))
      case None => None
  }

  function ParseActivityText(text: string): Activity {
    var log := AfterLog(Trim(text));
    var rest := if log.Some? then TrimLeft(log.value) else Trim(text);
    match AfterTag(rest)
    case Some((incident, after)) => Activity(true, Some(incident), Trim(after))
    case None => Activity(log.Some?, None, Trim(rest))
  }

  /** A mark ends at `n`: there the text ends, or goes on with a colon or a blank. */
  predicate MarkEnds(t: string, n: nat) { n <= |t| && (n == |t| || t[n] == ':' || IsBlank(t[n])) }

  predicate StartsWithLog(t: string) {
    |t| >= 3 && t[0] in "lL" && t[1] in "oO" && t[2] in "gG" && MarkEnds(t, 3)
  }

  /** A hash, then letters and digits up to `n`, where the mark ends. */
  predicate TagEnds(t: string, n: nat) {
    1 < n <= |t| && t[0] == '#' && (forall k :: 1 <= k < n ==> IsAlnum(t[k])) && MarkEnds(t, n)
  }

  predicate StartsWithTag(t: string) { exists n: nat :: n <= |t| && TagEnds(t, n) }

  /** What goes on after a mark that ends at `n`, but for its colon. */
  function Onward(t: string, n: nat): string
    requires MarkEnds(t, n)
  {
    if n < |t| && t[n] == ':' then t[n + 1..] else t[n..]
  }

  lemma Associates(a: string, b: string, c: string)
    ensures a + (b + c) == a + b + c
  {
  }

  lemma {:induction false} WordReaches(s: string, n: nat)
    requires n <= |s| && (forall k :: 0 <= k < n ==> IsAlnum(s[k])) && (n < |s| ==> !IsAlnum(s[n]))
    ensures Word(s) == s[..n]
  {
    if n == 0 {
    } else {
      WordReaches(s[1..], n - 1);
      assert s[..n] == [s[0]] + s[1..][..n - 1];
    }
  }

  lemma {:induction false} WordIsAlnum(s: string)
    ensures forall k :: 0 <= k < |Word(s)| ==> IsAlnum(s[k])
    ensures |Word(s)| < |s| ==> !IsAlnum(s[|Word(s)|])
  {
    if s == "" || !IsAlnum(s[0]) {
    } else {
      WordIsAlnum(s[1..]);
    }
  }

  lemma {:induction false} LoweredAt(s: string)
    ensures |Lowered(s)| == |s| && forall i :: 0 <= i < |s| ==> Lowered(s)[i] == LowerAscii(s[i])
  {
    if s == "" {
    } else {
      LoweredAt(s[1..]);
    }
  }

  lemma {:induction false} TrimLeftTwice(s: string)
    ensures TrimLeft(TrimLeft(s)) == TrimLeft(s)
  {
    if s != "" && IsBlank(s[0]) { TrimLeftTwice(s[1..]); }
  }

  lemma MarkGoesOn(t: string, n: nat)
    requires n <= |t|
    ensures AfterMark(t[n..]).Some? <==> MarkEnds(t, n)
    ensures MarkEnds(t, n) ==> TrimLeft(AfterMark(t[n..]).value) == TrimLeft(Onward(t, n))
  {
    if n < |t| {
      assert t[n..][0] == t[n] && t[n..][1..] == t[n + 1..];
      TrimLeftTwice(t[n..]);
    }
  }

  lemma LogStarts(t: string)
    ensures AfterLog(t).Some? <==> StartsWithLog(t)
    ensures StartsWithLog(t) ==> TrimLeft(AfterLog(t).value) == TrimLeft(Onward(t, 3))
  {
    if |t| >= 3 {
      var low := Lowered(t[..3]);
      LoweredAt(t[..3]);
      assert low == "log" <==> low[0] == 'l' && low[1] == 'o' && low[2] == 'g';
      MarkGoesOn(t, 3);
    }
  }

  lemma TagReached(t: string)
    requires AfterTag(t).Some?
    ensures StartsWithTag(t)
  {
    var n := 1 + |Word(t[1..])|;
    WordIsAlnum(t[1..]);
    MarkGoesOn(t, n);
    assert forall k :: 1 <= k < n ==> t[k] == t[1..][k - 1];
    assert TagEnds(t, n);
  }

  lemma TagIs(t: string, n: nat)
    requires TagEnds(t, n)
    ensures AfterTag(t).Some? && AfterTag(t).value.0 == Lowered(t[1..n])
    ensures TrimLeft(AfterTag(t).value.1) == TrimLeft(Onward(t, n))
  {
    assert forall k :: 0 <= k < n - 1 ==> t[1..][k] == t[k + 1];
    WordReaches(t[1..], n - 1);
    assert t[1..][..n - 1] == t[1..n];
    MarkGoesOn(t, n);
  }

  /**
   * What a text means: trimmed, it may begin with LOG, however cased, and go
   * on with # and a word, each ended by a colon, a blank or the text's end. It
   * is marked if it has either; the word, in small letters, is its incident,
   * and the rest, trimmed, its entry.
   */
  lemma ParsesExactly(text: string, n: nat)
    ensures var t := Trim(text);
      var rest := if StartsWithLog(t) then TrimLeft(Onward(t, 3)) else t;
      var read := ParseActivityText(text);
      && (read.marked <==> StartsWithLog(t) || StartsWithTag(t))
      && (read.incident.Some? <==> StartsWithTag(rest))
      && (TagEnds(rest, n) ==> read.incident == Some(Lowered(rest[1..n])) && read.entry == Trim(Onward(rest, n)))
      && (!StartsWithTag(rest) ==> read.entry == Trim(rest))
  {
    var t := Trim(text);
    var rest := if StartsWithLog(t) then TrimLeft(Onward(t, 3)) else t;
    LogStarts(t);
    if StartsWithTag(rest) {
      var k: nat :| k <= |rest| && TagEnds(rest, k);
      TagIs(rest, k);
    }
    if AfterTag(rest).Some? { TagReached(rest); }
    if TagEnds(rest, n) { TagIs(rest, n); }
  }

  // ---- Picking an incident ----

  function Plain(s: string): string { if s == "" then "" else (if IsPlain(s[0]) then [s[0]] else "") + Plain(s[1..]) }

  lemma {:induction false} PlainJoins(a: string, b: string)
    ensures Plain(a + b) == Plain(a) + Plain(b)
  {
    if a == "" {
      assert a + b == b;
    } else {
      var more := a[1..];
      PlainJoins(more, b);
      assert (a + b)[1..] == more + b;
      Associates(if IsPlain(a[0]) then [a[0]] else "", Plain(more), Plain(b));
    }
  }

  /** An incident name as a tag matches it; `lower` is the runtime's case table. */
  function Compact(lower: char -> string, name: string): string {
    if name == "" then "" else Plain(lower(name[0])) + Compact(lower, name[1..])
  }

  /** A name is compacted character by character, in order: each in small letters, as far as a tag may have them. */
  lemma {:induction false} CompactJoins(lower: char -> string, a: string, b: string)
    ensures Compact(lower, a + b) == Compact(lower, a) + Compact(lower, b)
  {
    if a == "" {
      assert a + b == b;
    } else {
      var more := a[1..];
      CompactJoins(lower, more, b);
      assert (a + b)[1..] == more + b;
      Associates(Plain(lower(a[0])), Compact(lower, more), Compact(lower, b));
    }
  }

  lemma CompactOne(lower: char -> string, c: char)
    ensures Compact(lower, [c]) == Plain(lower(c))
    ensures Plain([c]) == if IsPlain(c) then [c] else ""
  {
    assert [c][1..] == "" && Plain(lower(c)) + "" == Plain(lower(c));
  }

  function FirstWord(name: string): string {
    if name == "" || IsBlank(name[0]) then "" else [name[0]] + FirstWord(name[1..])
  }

  lemma {:induction false} FirstWordIs(name: string)
    ensures FirstWord(name) <= name && forall c :: c in FirstWord(name) ==> !IsBlank(c)
    ensures |FirstWord(name)| < |name| ==> IsBlank(name[|FirstWord(name)|])
  {
    if name == "" || IsBlank(name[0]) {
    } else {
      FirstWordIs(name[1..]);
    }
  }

  /** The incidents a text picks: all of them when it names none. */
  function Picked(incident: Option<string>, fulls: seq<string>): seq<nat> {
    if fulls == [] then []
    else
      var n := |fulls| - 1;
      Picked(incident, fulls[..n]) + (if incident.None? || incident.value <= fulls[n] then [n] else [])
  }

  function Shortest(lower: char -> string, name: string): nat {
    var n := |Compact(lower, FirstWord(name))|;
    if n < 3 then 3 else n
  }

  /** `tag` is the shortest prefix, from the name's first word up, that picks one incident, or the whole name. */
  ghost predicate IsTag(lower: char -> string, name: string, fulls: seq<string>, tag: string) {
    var full := Compact(lower, name);
    && tag <= full
    && (tag == full || (Shortest(lower, name) <= |tag| && |Picked(Some(tag), fulls)| == 1))
    && forall n :: Shortest(lower, name) <= n < |tag| ==> |Picked(Some(full[..n]), fulls)| != 1
  }

  function Compacts(lower: char -> string, names: seq<string>): seq<string> {
    seq(|names|, i requires 0 <= i < |names| => Compact(lower, names[i]))
  }

  method IncidentTag(lower: char -> string, name: string, names: seq<string>) returns (tag: string)
    ensures IsTag(lower, name, Compacts(lower, names), tag)
  {
    var full := Compact(lower, name);
    var fulls := Compacts(lower, names);
    var n := Shortest(lower, name);
    while n < |full|
      invariant Shortest(lower, name) <= n
      invariant forall m :: Shortest(lower, name) <= m < n && m < |full| ==> |Picked(Some(full[..m]), fulls)| != 1
    {
      tag := full[..n];
      if |Picked(Some(tag), fulls)| == 1 { return tag; }
      n := n + 1;
    }
    return full;
  }

  // ---- Following the suggestion ----

  lemma {:induction false} PickedAre(incident: Option<string>, fulls: seq<string>)
    ensures forall k :: k in Picked(incident, fulls) <==>
      0 <= k < |fulls| && (incident.None? || incident.value <= fulls[k])
  {
    if fulls == [] {
    } else {
      PickedAre(incident, fulls[..|fulls| - 1]);
    }
  }

  predicate OnlyAt(tag: string, fulls: seq<string>, i: nat)
    requires i < |fulls|
  {
    tag <= fulls[i] && forall j :: 0 <= j < |fulls| && j != i ==> !(tag <= fulls[j])
  }

  lemma {:induction false} PickedAtMostOnce(tag: string, fulls: seq<string>, i: nat)
    requires forall j :: 0 <= j < |fulls| && j != i ==> !(tag <= fulls[j])
    ensures Picked(Some(tag), fulls) == if i < |fulls| && tag <= fulls[i] then [i] else []
  {
    if fulls == [] {
    } else {
      PickedAtMostOnce(tag, fulls[..|fulls| - 1], i);
    }
  }

  lemma {:induction false} PickedOnly(tag: string, fulls: seq<string>, i: nat)
    requires i < |fulls|
    ensures Picked(Some(tag), fulls) == [i] <==> OnlyAt(tag, fulls, i)
  {
    PickedAre(Some(tag), fulls);
    if Picked(Some(tag), fulls) == [i] {
      assert i in Picked(Some(tag), fulls);
      forall j | 0 <= j < |fulls| && j != i ensures !(tag <= fulls[j]) { assert j !in Picked(Some(tag), fulls); }
    } else if OnlyAt(tag, fulls, i) {
      PickedAtMostOnce(tag, fulls, i);
    }
  }

  lemma TagPicksExactly(lower: char -> string, names: seq<string>, i: nat, tag: string)
    requires i < |names| && IsTag(lower, names[i], Compacts(lower, names), tag)
    ensures OnlyAt(tag, Compacts(lower, names), i) <==> OnlyAt(Compact(lower, names[i]), Compacts(lower, names), i)
  {
    var fulls := Compacts(lower, names);
    var full := fulls[i];
    assert forall j :: 0 <= j < |fulls| && full <= fulls[j] ==> tag <= fulls[j];
    if !OnlyAt(tag, fulls, i) && tag != full {
      PickedAre(Some(tag), fulls);
      assert i in Picked(Some(tag), fulls);
      assert Picked(Some(tag), fulls) == [i];
      PickedOnly(tag, fulls, i);
    }
  }

  // ---- The suggested text, read back ----

  lemma {:induction false} TrimRightAppends(a: string, b: string)
    ensures TrimRight(a + b) == if TrimRight(b) == "" then TrimRight(a) else a + TrimRight(b)
    decreases |b|
  {
    if b == "" {
      assert a + b == a;
    } else {
      assert (a + b)[..|a + b| - 1] == a + b[..|b| - 1];
      TrimRightAppends(a, b[..|b| - 1]);
    }
  }

  lemma {:induction false} PlainOnly(s: string)
    ensures forall c :: c in Plain(s) ==> IsPlain(c)
  {
    if s == "" {
    } else {
      PlainOnly(s[1..]);
    }
  }

  lemma {:induction false} PlainText(lower: char -> string, name: string)
    ensures forall c :: c in Compact(lower, name) ==> IsPlain(c)
  {
    if name == "" {
    } else {
      PlainOnly(lower(name[0]));
      PlainText(lower, name[1..]);
    }
  }

  lemma {:induction false} WordIs(tag: string, rest: string)
    requires (forall i :: 0 <= i < |tag| ==> IsPlain(tag[i])) && (rest == "" || !IsAlnum(rest[0]))
    ensures Word(tag + rest) == tag && Lowered(tag) == tag
    decreases |tag|
  {
    if tag == "" {
      assert tag + rest == rest;
    } else {
      assert (tag + rest)[1..] == tag[1..] + rest;
      WordIs(tag[1..], rest);
    }
  }

  lemma {:induction false} TrimLeftThenRight(s: string)
    ensures TrimRight(TrimLeft(s)) == TrimLeft(TrimRight(s))
    decreases |s|
  {
    if s != "" && IsBlank(s[0]) {
      TrimLeftThenRight(s[1..]);
      TrimRightAppends([s[0]], s[1..]);
      assert [s[0]] + s[1..] == s;
      if TrimRight(s[1..]) == "" {
        assert [s[0]][..0] == "";
      } else {
        assert ([s[0]] + TrimRight(s[1..]))[1..] == TrimRight(s[1..]);
      }
    } else if s != "" {
      TrimRightAppends([s[0]], s[1..]);
      assert [s[0]] + s[1..] == s;
    }
  }

  lemma {:induction false} TrimRightTwice(s: string)
    ensures TrimRight(TrimRight(s)) == TrimRight(s)
  {
    if s != "" && IsBlank(s[|s| - 1]) { TrimRightTwice(s[..|s| - 1]); }
  }

  lemma {:induction false} TrimmedInside(entry: string)
    ensures Trim(TrimLeft(TrimRight(entry))) == Trim(entry)
  {
    TrimLeftThenRight(entry);
    TrimRightTwice(entry);
    TrimLeftThenRight(TrimRight(entry));
    TrimLeftTwice(TrimRight(entry));
  }

  /** A text that opens with a mark is trimmed only after it. */
  lemma TrimmedAfter(head: string, entry: string)
    requires head != "" && !IsBlank(head[0]) && !IsBlank(head[|head| - 1])
    ensures var rest := TrimRight(" " + entry);
      && Trim(head + (" " + entry)) == head + rest
      && (rest == " " + TrimRight(entry) || (rest == "" && TrimRight(entry) == ""))
  {
    var tail := " " + entry;
    assert TrimLeft(head + tail) == head + tail;
    TrimRightAppends(head, tail);
    TrimRightAppends(" ", entry);
    assert " " + TrimRight(entry) != "";
    assert TrimRight(head) == head && TrimRight(" ") == TrimRight(" "[..0]) == "";
  }

  lemma NoLog(text: string)
    requires text != "" && text[0] == '#'
    ensures AfterLog(text).None?
  {
    if |text| >= 3 { assert Lowered(text[..3])[0] == '#'; }
  }

  lemma TaggedReads(tag: string, rest: string, entry: string)
    requires tag != "" && forall i :: 0 <= i < |tag| ==> IsPlain(tag[i])
    requires rest == " " + entry || (rest == "" && entry == "")
    ensures AfterTag("#" + tag + rest) == Some((tag, TrimLeft(entry)))
  {
    var text := "#" + tag + rest;
    assert text[1..] == tag + rest;
    WordIs(tag, rest);
    assert text[1 + |tag|..] == rest;
    if rest != "" { assert rest[1..] == entry; }
  }

  /** "#tag entry" reads back as that tag and that entry. */
  lemma SuggestionReadsBack(tag: string, entry: string)
    requires tag != "" && forall i :: 0 <= i < |tag| ==> IsPlain(tag[i])
    ensures ParseActivityText("#" + tag + " " + entry) == Activity(true, Some(tag), Trim(entry))
  {
    var head := "#" + tag;
    assert head + (" " + entry) == "#" + tag + " " + entry;
    assert head[|head| - 1] == tag[|tag| - 1];
    TrimmedAfter(head, entry);
    var rest := TrimRight(" " + entry);
    NoLog(head + rest);
    TaggedReads(tag, rest, TrimRight(entry));
    TrimmedInside(entry);
  }

  lemma Unmarked(entry: string)
    ensures ParseActivityText("#" + "" + " " + entry).incident.None?
  {
    assert "#" + "" + " " + entry == "#" + (" " + entry);
    TrimmedAfter("#", entry);
    var rest := TrimRight(" " + entry);
    NoLog("#" + rest);
    assert ("#" + rest)[1..] == rest;
    assert Word(rest) == "";
  }

  /**
   * Sending the suggested text files on exactly the incident the tag was for,
   * if and only if its name has a letter or digit and begins no other name.
   */
  lemma SuggestionWorksExactly(lower: char -> string, names: seq<string>, i: nat, tag: string, entry: string)
    requires i < |names| && IsTag(lower, names[i], Compacts(lower, names), tag)
    ensures var read := ParseActivityText("#" + tag + " " + entry);
      var fulls := Compacts(lower, names);
      (read.marked && read.incident == Some(tag) && read.entry == Trim(entry) && Picked(read.incident, fulls) == [i])
      <==> fulls[i] != "" && OnlyAt(fulls[i], fulls, i)
  {
    var fulls := Compacts(lower, names);
    TagPicksExactly(lower, names, i, tag);
    PickedOnly(tag, fulls, i);
    PlainText(lower, names[i]);
    assert tag <= fulls[i];
    if tag != "" {
      assert forall k :: 0 <= k < |tag| ==> tag[k] == fulls[i][k] && fulls[i][k] in fulls[i];
      SuggestionReadsBack(tag, entry);
    } else {
      Unmarked(entry);
    }
  }
}
