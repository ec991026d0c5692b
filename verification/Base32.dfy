/**
 * Unpadded base32 (section 6 of RFC 4648) as two loops over a 32-bit
 * accumulator that is never masked. Bytes and symbols are also read as one
 * string of bits; the loops are proved to regroup that string and nothing else.
 */
module Base32 {
  import opened Base

  type Byte = n: nat | n < 256
  type Index = n: nat | n < 32

  // ---- Bits ----

  function Pow2(n: nat): (p: nat)
    ensures p > 0
  {
    if n == 0 then 1 else 2 * Pow2(n - 1)
  }

  /** The `w` low bits of `n`, highest first. */
  function BitsOf(n: nat, w: nat): (bits: seq<bool>)
    ensures |bits| == w
  {
    if w == 0 then [] else BitsOf(n / 2, w - 1) + [n % 2 == 1]
  }

  function ValueOf(bits: seq<bool>): nat {
    if bits == [] then 0 else 2 * ValueOf(bits[..|bits| - 1]) + (if bits[|bits| - 1] then 1 else 0)
  }

  /** Values of `w` bits each, strung together. */
  function Strung(values: seq<nat>, w: nat): seq<bool> {
    if values == [] then [] else BitsOf(values[0], w) + Strung(values[1..], w)
  }

  lemma {:induction false} Fits(bits: seq<bool>)
    ensures ValueOf(bits) < Pow2(|bits|)
  {
    if bits == [] {
    } else {
      Fits(bits[..|bits| - 1]);
    }
  }

  /** The values of the whole `w`-bit groups, first group first; bits left over are dropped. */
  function Grouped(bits: seq<bool>, w: nat): (values: seq<nat>)
    requires w > 0
    ensures forall v :: v in values ==> v < Pow2(w)
  {
    if |bits| < w then [] else
      Fits(bits[..w]);
      [ValueOf(bits[..w])] + Grouped(bits[w..], w)
  }

  function Zeros(n: nat): seq<bool> { seq(n, _ => false) }

  lemma {:induction false} ValueOfBits(n: nat, w: nat)
    requires n < Pow2(w)
    ensures ValueOf(BitsOf(n, w)) == n
  {
    if w == 0 {
    } else {
      ValueOfBits(n / 2, w - 1);
    }
  }

  lemma {:induction false} BitsOfValue(bits: seq<bool>)
    ensures BitsOf(ValueOf(bits), |bits|) == bits
  {
    if bits == [] {
    } else {
      BitsOfValue(bits[..|bits| - 1]);
    }
  }

  lemma Joins<T>(a: seq<T>, b: seq<T>, c: seq<T>)
    ensures a + (b + c) == a + b + c
  {
  }

  lemma {:induction false} StrungAppends(values: seq<nat>, v: nat, w: nat)
    ensures Strung(values + [v], w) == Strung(values, w) + BitsOf(v, w)
  {
    if values == [] {
      assert Strung([v], w) == BitsOf(v, w) + Strung([], w);
    } else {
      StrungAppends(values[1..], v, w);
      assert (values + [v])[1..] == values[1..] + [v];
      Joins(BitsOf(values[0], w), Strung(values[1..], w), BitsOf(v, w));
    }
  }

  lemma {:induction false} StrungLengths(values: seq<nat>)
    ensures |Strung(values, 5)| == 5 * |values| && |Strung(values, 8)| == 8 * |values|
  {
    if values == [] {
    } else {
      StrungLengths(values[1..]);
    }
  }

  lemma Parts(a: seq<bool>, b: seq<bool>, c: seq<bool>)
    ensures (a + b + c)[..|a|] == a && (a + b + c)[|a|..] == b + c
  {
  }

  lemma FirstGroup(values: seq<nat>, w: nat, rest: seq<bool>)
    requires values != []
    ensures var bits := Strung(values, w) + rest;
      |bits| >= w && bits[..w] == BitsOf(values[0], w) && bits[w..] == Strung(values[1..], w) + rest
  {
    Parts(BitsOf(values[0], w), Strung(values[1..], w), rest);
  }

  /** Grouping undoes stringing, whatever partial group follows. */
  lemma {:induction false} GroupedUndoesStrung(values: seq<nat>, w: nat, rest: seq<bool>)
    requires w > 0 && |rest| < w && forall v :: v in values ==> v < Pow2(w)
    ensures Grouped(Strung(values, w) + rest, w) == values
  {
    if values == [] {
      assert Strung(values, w) + rest == rest;
    } else {
      var more := values[1..];
      FirstGroup(values, w, rest);
      assert values[0] in values && values == [values[0]] + more;
      ValueOfBits(values[0], w);
      assert forall v :: v in more ==> v in values;
      GroupedUndoesStrung(more, w, rest);
    }
  }

  /** Stringing undoes grouping when the bits divide into fives. */
  lemma {:induction false} StrungUndoesGrouped(bits: seq<bool>)
    requires |bits| % 5 == 0
    ensures Strung(Grouped(bits, 5), 5) == bits && |Grouped(bits, 5)| == |bits| / 5
  {
    if |bits| < 5 {
    } else {
      StrungUndoesGrouped(bits[5..]);
      BitsOfValue(bits[..5]);
    }
  }

  // ---- Encoding and decoding, as regroupings of the bit string ----

  /** The alphabet in order: A to Z, then 2 to 7. */
  function Symbol(i: Index): char {
    if i < 26 then ('A' as int + i) as char else ('2' as int + (i - 26)) as char
  }

  function IndexOf(c: char): (i: Option<Index>)
    ensures i.Some? ==> Symbol(i.value) == c
    ensures i.None? ==> forall k: Index :: Symbol(k) != c
  {
    if 'A' <= c <= 'Z' then Some(c as int - 'A' as int)
    else if '2' <= c <= '7' then Some(c as int - '2' as int + 26)
    else None
  }

  /** The alphabet of section 6 of RFC 4648, in its order. */
  lemma SymbolIs(i: Index)
    ensures Symbol(i) == "ABCDEFGHIJKLMNOPQRSTUVWXYZ234567"[i]
  {
  }

  function Symbols(values: seq<nat>): (text: string)
    requires forall v :: v in values ==> v < 32
    ensures |text| == |values|
  {
    seq(|values|, i requires 0 <= i < |values| => assert values[i] in values; Symbol(values[i]))
  }

  /** How many zero bits complete the last symbol. */
  function Padding(bits: nat): (z: nat)
    ensures z < 5 && (bits + z) % 5 == 0
  {
    if bits % 5 == 0 then 0 else 5 - bits % 5
  }

  function Encoded(bytes: seq<Byte>): string {
    var bits := Strung(bytes, 8);
    assert Pow2(5) == 32;
    Symbols(Grouped(bits + Zeros(Padding(|bits|)), 5))
  }

  function Uppered(upper: char -> string, text: string): string {
    if text == "" then "" else Uppered(upper, text[..|text| - 1]) + upper(text[|text| - 1])
  }

  function Strip(text: string): string {
    if text == "" then ""
    else
      var c := text[|text| - 1];
      Strip(text[..|text| - 1]) + (if IsBlank(c) || c == '=' || c == '-' then "" else [c])
  }

  /** Upper case per character, then blanks, `=` and `-` removed. `upper` is the runtime's case table. */
  function Clean(upper: char -> string, text: string): string {
    Strip(Uppered(upper, text))
  }

  /** The symbols' indices, or nothing when some character is no symbol. */
  function Indices(text: string): (r: Option<seq<nat>>)
    ensures r.Some? ==> |r.value| == |text| && forall v :: v in r.value ==> v < 32
    ensures r.Some? <==> forall c :: c in text ==> IndexOf(c).Some?
  {
    if text == "" then Some([])
    else
      var n := |text| - 1;
      assert forall c :: c in text <==> c in text[..n] || c == text[n];
      var before := Indices(text[..n]);
      var i := IndexOf(text[n]);
      if before.Some? && i.Some? then Some(before.value + [i.value]) else None
  }

  /** Stands for the error thrown on a character outside the alphabet. */
  const INVALID := 400

  function Decoded(upper: char -> string, text: string): Result<seq<nat>> {
    match Indices(Clean(upper, text))
    case None => Err(INVALID)
    case Some(values) => Ok(Grouped(Strung(values, 5), 8))
  }

  /** One symbol for every five bits begun. */
  lemma EncodedLength(bytes: seq<Byte>)
    ensures |Encoded(bytes)| == (8 * |bytes| + 4) / 5
  {
    StrungLengths(bytes);
    var bits := Strung(bytes, 8);
    StrungUndoesGrouped(bits + Zeros(Padding(|bits|)));
  }

  lemma {:induction false} IndicesOfSymbols(values: seq<nat>)
    requires forall v :: v in values ==> v < 32
    ensures Indices(Symbols(values)) == Some(values)
  {
    if values == [] {
    } else {
      var n := |values| - 1;
      assert values == values[..n] + [values[n]] && values[n] in values;
      assert forall v :: v in values[..n] ==> v in values;
      IndicesOfSymbols(values[..n]);
      assert Symbols(values)[..n] == Symbols(values[..n]);
    }
  }

  /** Any text that cleans to a secret's encoding gives the secret back: case, grouping and padding do not matter. */
  lemma DecodedUndoesEncoded(upper: char -> string, text: string, bytes: seq<Byte>)
    requires Clean(upper, text) == Encoded(bytes)
    ensures Decoded(upper, text) == Ok(bytes)
  {
    var bits := Strung(bytes, 8);
    var zeros := Zeros(Padding(|bits|));
    var values := Grouped(bits + zeros, 5);
    assert Pow2(5) == 32;
    IndicesOfSymbols(values);
    StrungUndoesGrouped(bits + zeros);
    assert Pow2(8) == 256;
    GroupedUndoesStrung(bytes, 8, zeros);
  }

  /** Where every symbol lies, in ASCII. */
  predicate Lettered(c: char) { 'A' <= c <= 'Z' || '2' <= c <= '7' }

  lemma {:induction false} UpperedKeeps(upper: char -> string, text: string)
    requires forall k :: 0 <= k < |text| ==> upper(text[k]) == [text[k]]
    ensures Uppered(upper, text) == text
  {
    if text == "" {
    } else {
      UpperedKeeps(upper, text[..|text| - 1]);
    }
  }

  lemma LetteredStays(c: char)
    requires Lettered(c)
    ensures !IsBlank(c) && c != '=' && c != '-'
  {
  }

  lemma {:induction false} StripKeeps(text: string)
    requires forall k :: 0 <= k < |text| ==> Lettered(text[k])
    ensures Strip(text) == text
  {
    if text == "" {
    } else {
      LetteredStays(text[|text| - 1]);
      StripKeeps(text[..|text| - 1]);
    }
  }

  lemma CleanKeeps(upper: char -> string, values: seq<nat>)
    requires forall i: Index :: upper(Symbol(i)) == [Symbol(i)]
    requires forall v :: v in values ==> v < 32
    ensures Clean(upper, Symbols(values)) == Symbols(values)
  {
    var text := Symbols(values);
    forall k | 0 <= k < |text| ensures upper(text[k]) == [text[k]] && Lettered(text[k]) {
      assert values[k] in values && text[k] == Symbol(values[k]);
    }
    UpperedKeeps(upper, text);
    StripKeeps(text);
  }

  /** An encoding is made of symbols only, so cleaning leaves it alone and it decodes as it stands. */
  lemma RoundTrip(upper: char -> string, bytes: seq<Byte>)
    requires forall i: Index :: upper(Symbol(i)) == [Symbol(i)]
    ensures Decoded(upper, Encoded(bytes)) == Ok(bytes)
  {
    var bits := Strung(bytes, 8);
    assert Pow2(5) == 32;
    CleanKeeps(upper, Grouped(bits + Zeros(Padding(|bits|)), 5));
    DecodedUndoesEncoded(upper, Encoded(bytes), bytes);
  }

  // ---- The accumulator ----

  const WORD: nat := 0x1_0000_0000

  /** `value << k | low` in 32 bits. */
  function ShiftIn(value: nat, k: nat, low: nat): nat { (value * Pow2(k) + low) % WORD }

  /** `(value >>> k) & (2^w - 1)`. */
  function ShiftOut(value: nat, k: nat, w: nat): nat { (value / Pow2(k)) % Pow2(w) }

  /** The low bits of the accumulator are the pending bits; above them stand old ones, never masked. */
  predicate Holds(value: nat, pending: seq<bool>) { |pending| <= 32 && BitsOf(value, |pending|) == pending }

  lemma Multiple(d: int, p: nat)
    ensures d >= 1 ==> d * p >= p
    ensures d <= -1 ==> d * p + p <= 0
  {
    if d >= 1 {
      assert d * p == (d - 1) * p + p && (d - 1) * p >= 0;
    } else if d <= -1 {
      assert d * p == (d + 1) * p - p && (d + 1) * p <= 0;
    }
  }

  /** Quotient and remainder are the only ones there are. */
  lemma QuotientIs(x: nat, q: int, r: nat, p: nat)
    requires r < p && x == q * p + r
    ensures x / p == q && x % p == r
  {
    var d: int := x / p - q;
    assert x == (x / p) * p + x % p;
    assert d * p == r - x % p;
    Multiple(d, p);
  }

  lemma HalvesAt(x: nat, p: nat, q: int, y: nat, m: nat)
    requires m == 2 * p && y < m && x == q * m + y
    ensures x / 2 / p == q && x / 2 % p == y / 2 && y % 2 == x % 2
  {
    var t := q * p;
    assert x == 2 * t + y;
    QuotientIs(x / 2, q, y / 2, p);
  }

  lemma Halves(x: nat, p: nat, m: nat)
    requires p > 0 && m == 2 * p
    ensures x / 2 / p == x / m && x / 2 % p == x % m / 2 && x % m % 2 == x % 2
  {
    HalvesAt(x, p, x / m, x % m, m);
  }

  /** The low bits survive reduction to a wide enough word. */
  lemma {:induction false} LowBits(x: nat, n: nat, m: nat)
    requires n <= m
    ensures BitsOf(x % Pow2(m), n) == BitsOf(x, n)
  {
    if n == 0 {
    } else {
      Halves(x, Pow2(m - 1), Pow2(m));
      LowBits(x / 2, n - 1, m - 1);
    }
  }

  lemma HalfShifted(x: nat, low: nat)
    ensures (2 * x + low) / 2 == x + low / 2 && (2 * x + low) % 2 == low % 2
  {
  }

  lemma LastBit(n: nat, w: nat)
    requires w > 0
    ensures BitsOf(n, w) == BitsOf(n / 2, w - 1) + [n % 2 == 1]
  {
  }

  lemma {:induction false} ShiftedBits(value: nat, b: nat, k: nat, low: nat)
    requires low < Pow2(k)
    ensures BitsOf(value * Pow2(k) + low, b + k) == BitsOf(value, b) + BitsOf(low, k)
  {
    if k == 0 {
    } else {
      var x := value * Pow2(k - 1);
      assert value * Pow2(k) + low == 2 * x + low by { assert Pow2(k) == 2 * Pow2(k - 1); }
      ShiftedBits(value, b, k - 1, low / 2);
      HalfShifted(x, low);
      LastBit(2 * x + low, b + k);
      LastBit(low, k);
    }
  }

  lemma Pow32()
    ensures Pow2(32) == WORD
  {
    assert Pow2(8) == 256;
    assert Pow2(16) == 65536;
    assert Pow2(24) == 16777216;
  }

  lemma WordBits(x: nat, n: nat)
    requires n <= 32
    ensures BitsOf(x % WORD, n) == BitsOf(x, n)
  {
    Pow32();
    LowBits(x, n, 32);
  }

  /** Shifting in appends the bits: what falls off the word's top was above the pending ones. */
  lemma ShiftInHolds(value: nat, pending: seq<bool>, low: nat, k: nat)
    requires Holds(value, pending) && |pending| + k <= 32 && low < Pow2(k)
    ensures Holds(ShiftIn(value, k, low), pending + BitsOf(low, k))
  {
    ShiftedBits(value, |pending|, k, low);
    WordBits(value * Pow2(k) + low, |pending| + k);
  }

  /** `value` without its `k` low bits. */
  function Dropped(value: nat, k: nat): nat { if k == 0 then value else Dropped(value / 2, k - 1) }

  lemma {:induction false} DroppedIs(value: nat, k: nat)
    ensures Dropped(value, k) == value / Pow2(k)
  {
    if k == 0 {
    } else {
      DroppedIs(value / 2, k - 1);
      Halves(value, Pow2(k - 1), Pow2(k));
    }
  }

  lemma {:induction false} SplitBits(value: nat, w: nat, k: nat)
    ensures BitsOf(value, w + k) == BitsOf(Dropped(value, k), w) + BitsOf(value, k)
  {
    if k == 0 {
    } else {
      SplitBits(value / 2, w, k - 1);
      var head := BitsOf(Dropped(value, k), w);
      assert head + BitsOf(value, k) == head + BitsOf(value / 2, k - 1) + [value % 2 == 1];
    }
  }

  lemma {:induction false} LowValue(n: nat, w: nat)
    ensures ValueOf(BitsOf(n, w)) == n % Pow2(w)
  {
    if w == 0 {
    } else {
      LowValue(n / 2, w - 1);
      Halves(n, Pow2(w - 1), Pow2(w));
    }
  }

  /** The top `w` pending bits come out as their value and the rest stay held. */
  lemma ShiftOutHolds(value: nat, pending: seq<bool>, w: nat)
    requires Holds(value, pending) && w <= |pending|
    ensures ShiftOut(value, |pending| - w, w) == ValueOf(pending[..w]) < Pow2(w)
    ensures Holds(value, pending[w..])
  {
    var k := |pending| - w;
    SplitBits(value, w, k);
    DroppedIs(value, k);
    LowValue(Dropped(value, k), w);
    assert pending[..w] == BitsOf(Dropped(value, k), w) && pending[w..] == BitsOf(value, k);
  }

  // ---- The loops ----

  /** What both loops keep: the bits read so far are the values put out, then the accumulator's pending bits. */
  ghost predicate Carries(value: nat, bits: nat, pending: seq<bool>, input: seq<bool>, out: seq<nat>, w: nat) {
    && |pending| == bits && Holds(value, pending)
    && input == Strung(out, w) + pending
    && forall v :: v in out ==> v < Pow2(w)
  }

  lemma TakesIn(value: nat, bits: nat, pending: seq<bool>, input: seq<bool>, out: seq<nat>, w: nat, low: nat, k: nat)
    requires Carries(value, bits, pending, input, out, w) && bits + k <= 32 && low < Pow2(k)
    ensures Carries(ShiftIn(value, k, low), bits + k, pending + BitsOf(low, k), input + BitsOf(low, k), out, w)
  {
    ShiftInHolds(value, pending, low, k);
  }

  lemma Splits<T>(front: seq<T>, s: seq<T>, w: nat)
    requires w <= |s|
    ensures front + s == front + s[..w] + s[w..]
  {
  }

  lemma PutsValue(value: nat, pending: seq<bool>, input: seq<bool>, out: seq<nat>, w: nat, v: nat)
    requires Carries(value, |pending|, pending, input, out, w) && w <= |pending|
    requires v == ValueOf(pending[..w]) < Pow2(w) && Holds(value, pending[w..])
    ensures Carries(value, |pending| - w, pending[w..], input, out + [v], w)
  {
    BitsOfValue(pending[..w]);
    StrungAppends(out, v, w);
    Splits(Strung(out, w), pending, w);
  }

  lemma PutsOut(value: nat, bits: nat, pending: seq<bool>, input: seq<bool>, out: seq<nat>, w: nat)
    requires Carries(value, bits, pending, input, out, w) && w <= bits
    ensures ShiftOut(value, bits - w, w) < Pow2(w)
    ensures Carries(value, bits - w, pending[w..], input, out + [ShiftOut(value, bits - w, w)], w)
  {
    ShiftOutHolds(value, pending, w);
    PutsValue(value, pending, input, out, w, ShiftOut(value, bits - w, w));
  }

  lemma StrungNext(values: seq<nat>, i: nat, w: nat)
    requires i < |values|
    ensures Strung(values[..i + 1], w) == Strung(values[..i], w) + BitsOf(values[i], w)
  {
    assert values[..i + 1] == values[..i] + [values[i]];
    StrungAppends(values[..i], values[i], w);
  }

  lemma Widths()
    ensures Pow2(5) == 32 && Pow2(8) == 256
  {
    assert Pow2(5) == 32;
  }

  ghost predicate Spells(out: string, values: seq<nat>) {
    (forall v :: v in values ==> v < 32) && out == Symbols(values)
  }

  lemma SpellsNext(out: string, values: seq<nat>, v: nat)
    requires Spells(out, values) && v < 32
    ensures Spells(out + [Symbol(v)], values + [v])
  {
    assert Symbols(values + [v]) == Symbols(values) + [Symbol(v)];
  }

  lemma {:induction false} ZeroBits(w: nat)
    ensures BitsOf(0, w) == Zeros(w)
  {
    if w == 0 {
    } else {
      ZeroBits(w - 1);
    }
  }

  lemma PadsToFives(n: nat, z: nat, m: nat)
    requires z < 5 && n + z == 5 * m
    ensures z == Padding(n)
  {
  }

  lemma PaddingIs(bytes: seq<Byte>, values: seq<nat>, z: nat)
    requires z < 5 && Strung(bytes, 8) + Zeros(z) == Strung(values, 5)
    ensures z == Padding(|Strung(bytes, 8)|)
  {
    StrungLengths(values);
    PadsToFives(|Strung(bytes, 8)|, z, |values|);
  }

  lemma PaddedIs(bytes: seq<Byte>, values: seq<nat>, z: nat)
    requires z < 5 && Strung(bytes, 8) + Zeros(z) == Strung(values, 5) && forall v :: v in values ==> v < 32
    ensures Encoded(bytes) == Symbols(values)
  {
    PaddingIs(bytes, values, z);
    Widths();
    GroupedUndoesStrung(values, 5, []);
    assert Strung(values, 5) + [] == Strung(values, 5);
  }

  /** Shifting in zeros completes the last symbol. */
  lemma LastSymbol(value: nat, bits: nat, pending: seq<bool>, bytes: seq<Byte>, values: seq<nat>, out: string)
    requires 0 < bits < 5 && Carries(value, bits, pending, Strung(bytes, 8), values, 5) && Spells(out, values)
    ensures ShiftOut(ShiftIn(value, 5 - bits, 0), 0, 5) < 32
    ensures out + [Symbol(ShiftOut(ShiftIn(value, 5 - bits, 0), 0, 5))] == Encoded(bytes)
  {
    var z := 5 - bits;
    Widths();
    TakesIn(value, bits, pending, Strung(bytes, 8), values, 5, 0, z);
    ZeroBits(z);
    var input := Strung(bytes, 8) + Zeros(z);
    var symbol := ShiftOut(ShiftIn(value, z, 0), 0, 5);
    PutsOut(ShiftIn(value, z, 0), 5, pending + Zeros(z), input, values, 5);
    SpellsNext(out, values, symbol);
    PaddedIs(bytes, values + [symbol], z);
  }

  method ToBase32(bytes: seq<Byte>) returns (out: string)
    ensures out == Encoded(bytes)
  {
    var bits, value := 0, 0;
    out := "";
    ghost var values: seq<nat>, pending: seq<bool> := [], [];
    Widths();
    for i := 0 to |bytes|
      invariant bits < 5 && Carries(value, bits, pending, Strung(bytes[..i], 8), values, 5) && Spells(out, values)
    {
      TakesIn(value, bits, pending, Strung(bytes[..i], 8), values, 5, bytes[i], 8);
      StrungNext(bytes, i, 8);
      value, pending, bits := ShiftIn(value, 8, bytes[i]), pending + BitsOf(bytes[i], 8), bits + 8;
      while bits >= 5
        invariant bits < 13 &&
          Carries(value, bits, pending, Strung(bytes[..i + 1], 8), values, 5) && Spells(out, values)
      {
        PutsOut(value, bits, pending, Strung(bytes[..i + 1], 8), values, 5);
        var symbol := ShiftOut(value, bits - 5, 5);
        SpellsNext(out, values, symbol);
        values, pending := values + [symbol], pending[5..];
        out := out + [Symbol(symbol)];
        bits := bits - 5;
      }
    }
    assert bytes[..|bytes|] == bytes;
    if bits > 0 {
      LastSymbol(value, bits, pending, bytes, values, out);
      out := out + [Symbol(ShiftOut(ShiftIn(value, 5 - bits, 0), 0, 5))];
    } else {
      PaddedIs(bytes, values, 0);
    }
  }

  lemma IndicesNext(text: string, i: nat)
    requires i < |text| && Indices(text[..i]).Some?
    ensures IndexOf(text[i]).None? ==> Indices(text).None?
    ensures IndexOf(text[i]).Some? ==>
      Indices(text[..i + 1]) == Some(Indices(text[..i]).value + [IndexOf(text[i]).value])
  {
    assert text[..i + 1][..i] == text[..i];
    assert text[i] in text;
  }

  method FromBase32(upper: char -> string, text: string) returns (r: Result<seq<nat>>)
    ensures r == Decoded(upper, text)
  {
    var clean := Clean(upper, text);
    var bytes: seq<nat> := [];
    var bits, value := 0, 0;
    ghost var values: seq<nat>, pending: seq<bool> := [], [];
    Widths();
    for i := 0 to |clean|
      invariant Indices(clean[..i]) == Some(values)
      invariant bits < 8 && Carries(value, bits, pending, Strung(values, 5), bytes, 8)
    {
      var index := IndexOf(clean[i]);
      IndicesNext(clean, i);
      if index.None? { return Err(INVALID); }
      TakesIn(value, bits, pending, Strung(values, 5), bytes, 8, index.value, 5);
      StrungAppends(values, index.value, 5);
      value, values := ShiftIn(value, 5, index.value), values + [index.value];
      pending, bits := pending + BitsOf(index.value, 5), bits + 5;
      if bits >= 8 {
        PutsOut(value, bits, pending, Strung(values, 5), bytes, 8);
        bytes, pending := bytes + [ShiftOut(value, bits - 8, 8)], pending[8..];
        bits := bits - 8;
      }
    }
    assert clean[..|clean|] == clean;
    GroupedUndoesStrung(bytes, 8, pending);
    return Ok(bytes);
  }
}
