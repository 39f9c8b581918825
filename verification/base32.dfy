/** The unpadded Base32 codec for TOTP secrets (RFC 4648, section 6). The loops keep their
    unconsumed bits in the low end of a 32-bit accumulator that is never masked; the
    specification works on the unbounded string of bits. */
module Base32 {

  type Byte = b: int | 0 <= b < 256

  datatype Decoded = Invalid | Bytes(value: seq<Byte>)

  const ALPHABET := "ABCDEFGHIJKLMNOPQRSTUVWXYZ234567"

  // ---------- bits ----------

  function Pow2(n: nat): (p: nat)
    ensures p > 0
  {
    if n == 0 then 1 else 2 * Pow2(n - 1)
  }

  /** The n low bits of x, the most significant first. */
  function Bits(x: nat, n: nat): (bits: seq<bool>)
    ensures |bits| == n
  {
    if n == 0 then [] else Bits(x / 2, n - 1) + [x % 2 == 1]
  }

  function Number(bits: seq<bool>): (x: nat)
    ensures x < Pow2(|bits|)
  {
    if bits == [] then 0 else 2 * Number(bits[..|bits| - 1]) + if bits[|bits| - 1] then 1 else 0
  }

  function Zeros(n: nat): seq<bool> {
    seq(n, _ => false)
  }

  lemma {:induction false} NumberOfBits(x: nat, n: nat)
    requires x < Pow2(n)
    ensures Number(Bits(x, n)) == x
  {
    if n > 0 {
      NumberOfBits(x / 2, n - 1);
      assert Bits(x, n)[..n - 1] == Bits(x / 2, n - 1);
    }
  }

  lemma {:induction false} BitsOfNumber(bits: seq<bool>)
    ensures Bits(Number(bits), |bits|) == bits
  {
    if bits != [] {
      BitsOfNumber(bits[..|bits| - 1]);
    }
  }

  // ---------- words ----------

  function ShiftLeft(x: nat, k: nat): nat {
    if k == 0 then x else 2 * ShiftLeft(x, k - 1)
  }

  function ShiftRight(x: nat, k: nat): nat {
    if k == 0 then x else ShiftRight(x / 2, k - 1)
  }

  /** The number in the k low bits of x: what a k-bit word or mask keeps. */
  function Low(x: nat, k: nat): (r: nat)
    ensures r < Pow2(k)
    ensures (k == 5 ==> r < 32) && (k == 8 ==> r < 256)
  {
    Powers();
    if k == 0 then 0 else 2 * Low(x / 2, k - 1) + x % 2
  }

  /** `(accumulator << k) | low` on a 32-bit word; the shifted word has k zero bits where `low` goes. */
  function ShiftIn(accumulator: nat, k: nat, low: nat): (r: nat)
    requires low < Pow2(k)
    ensures r < Pow2(32)
  {
    Low(ShiftLeft(accumulator, k) + low, 32)
  }

  /** `(accumulator >>> shift) & mask`, for the mask of `width` one bits. */
  function Extract(accumulator: nat, shift: nat, width: nat): (r: nat)
    ensures r < Pow2(width)
    ensures (width == 5 ==> r < 32) && (width == 8 ==> r < 256)
  {
    Low(ShiftRight(accumulator, shift), width)
  }

  /** A word keeps its low bits: the ones lost above never matter. */
  lemma {:induction false} BitsOfLow(x: nat, n: nat, k: nat)
    requires n <= k
    ensures Bits(Low(x, k), n) == Bits(x, n)
  {
    if n > 0 { BitsOfLow(x / 2, n - 1, k - 1); }
  }

  lemma {:induction false} ShiftedSum(x: nat, n: nat, k: nat, low: nat)
    requires low < Pow2(k)
    ensures Bits(ShiftLeft(x, k) + low, n + k) == Bits(x, n) + Bits(low, k)
  {
    if k > 0 {
      ShiftedSum(x, n, k - 1, low / 2);
      var sum := ShiftLeft(x, k) + low;
      assert sum / 2 == ShiftLeft(x, k - 1) + low / 2 && sum % 2 == low % 2;
    }
  }

  lemma ShiftInBits(accumulator: nat, n: nat, k: nat, low: nat)
    requires low < Pow2(k) && n + k <= 32
    ensures Bits(ShiftIn(accumulator, k, low), n + k) == Bits(accumulator, n) + Bits(low, k)
  {
    BitsOfLow(ShiftLeft(accumulator, k) + low, n + k, 32);
    ShiftedSum(accumulator, n, k, low);
  }

  lemma {:induction false} BitsSplit(x: nat, n: nat, m: nat)
    ensures Bits(x, n + m) == Bits(ShiftRight(x, m), n) + Bits(x, m)
  {
    if m > 0 { BitsSplit(x / 2, n, m - 1); }
  }

  lemma ExtractBits(accumulator: nat, n: nat, m: nat)
    ensures Bits(accumulator, n + m) == Bits(Extract(accumulator, m, n), n) + Bits(accumulator, m)
  {
    BitsSplit(accumulator, n, m);
    BitsOfLow(ShiftRight(accumulator, m), n, n);
  }

  // ---------- the alphabet ----------

  const LETTER_A := 0x41
  const DIGIT_2 := 0x32

  /** `BASE32_ALPHABET[i]` */
  function Symbol(i: nat): (c: char)
    requires i < 32
  {
    if i < 26 then (LETTER_A + i) as char else (DIGIT_2 + i - 26) as char
  }

  /** `BASE32_ALPHABET.indexOf(c)` */
  function IndexOf(c: char): (i: int)
    ensures -1 <= i < 32
  {
    var u := c as int;
    if LETTER_A <= u < LETTER_A + 26 then u - LETTER_A else if DIGIT_2 <= u < DIGIT_2 + 6 then u - DIGIT_2 + 26 else -1
  }

  lemma AlphabetSpelledOut(c: char)
    ensures forall i :: 0 <= i < 32 ==> Symbol(i) == ALPHABET[i] && IndexOf(ALPHABET[i]) == i
    ensures IndexOf(c) < 0 ==> c !in ALPHABET
  {
    forall i | 0 <= i < 32 ensures Symbol(i) == ALPHABET[i] {
      assert forall k :: 0 <= k < 26 ==> ALPHABET[k] == (LETTER_A + k) as char;
    }
  }

  // ---------- specification ----------

  /** The bits of a list of w-bit groups: bytes for w = 8, Base32 symbols for w = 5. */
  function GroupBits(groups: seq<nat>, w: nat): (bits: seq<bool>)
    ensures (w == 5 ==> |bits| == 5 * |groups|) && (w == 8 ==> |bits| == 8 * |groups|)
  {
    if groups == [] then [] else GroupBits(groups[..|groups| - 1], w) + Bits(groups[|groups| - 1], w)
  }

  /** The whole w-bit groups at the front of a bit string; what is left over is dropped. */
  function Groups(bits: seq<bool>, w: nat): (groups: seq<nat>)
    requires w > 0
    ensures forall i :: 0 <= i < |groups| ==> groups[i] < Pow2(w)
    decreases |bits|
  {
    if |bits| < w then [] else [Number(bits[..w])] + Groups(bits[w..], w)
  }

  predicate Fits(groups: seq<nat>, w: nat) {
    forall i :: 0 <= i < |groups| ==> groups[i] < Pow2(w)
  }

  lemma Powers()
    ensures Pow2(5) == 32 && Pow2(8) == 256
  {
  }

  /** The five-bit groups of a bit string, the last one filled up with zeros. */
  function FilledGroups(bits: seq<bool>): (symbols: seq<nat>)
    ensures forall i :: 0 <= i < |symbols| ==> symbols[i] < 32
    ensures 5 * |symbols| - 5 < |bits| <= 5 * |symbols|
    decreases |bits|
  {
    Powers();
    if bits == [] then []
    else if |bits| <= 5 then [Number(bits + Zeros(5 - |bits|))]
    else [Number(bits[..5])] + FilledGroups(bits[5..])
  }

  function Spell(symbols: seq<nat>): (text: string)
    requires forall i :: 0 <= i < |symbols| ==> symbols[i] < 32
    ensures |text| == |symbols|
    ensures forall i :: 0 <= i < |text| ==> text[i] == Symbol(symbols[i])
  {
    seq(|symbols|, i requires 0 <= i < |symbols| => Symbol(symbols[i]))
  }

  /** RFC 4648, section 6: the bits of the bytes, filled up with zeros to whole groups of five,
      one symbol for each group. */
  function Encoded(value: seq<Byte>): (text: string) {
    Spell(FilledGroups(GroupBits(value, 8)))
  }

  /** The upper case of a character, when it is ASCII: that of the letters a to z, of the dotless i, the
      long s, the sharp s and the Latin ligatures. Any other character is left alone here; its upper
      case has a character that is no symbol either. */
  function UpperCase(c: char): string {
    var u := c as int;
    if 'a' <= c <= 'z' then [(u - 0x20) as char]
    else if u in NON_ASCII_LETTERS then NON_ASCII_LETTERS[u]
    else [c]
  }

  const NON_ASCII_LETTERS: map<int, string> :=
    map[0xDF := "SS", 0x131 := "I", 0x17F := "S", 0xFB00 := "FF", 0xFB01 := "FI", 0xFB02 := "FL", 0xFB03 := "FFI",
        0xFB04 := "FFL", 0xFB05 := "ST", 0xFB06 := "ST"]

  /** `replaceAll('=', '')` and upper-casing. */
  function Clean(text: string): string {
    if text == "" then ""
    else if text[0] == '=' then Clean(text[1..])
    else UpperCase(text[0]) + Clean(text[1..])
  }

  predicate AllSymbols(text: string) {
    forall i :: 0 <= i < |text| ==> IndexOf(text[i]) >= 0
  }

  /** The values of the symbols; a character that is none counts as 0 and is refused elsewhere. */
  function Indexes(text: string): (symbols: seq<nat>)
    ensures |symbols| == |text|
    ensures forall i :: 0 <= i < |text| ==> symbols[i] == if IndexOf(text[i]) >= 0 then IndexOf(text[i]) else 0
    ensures forall i :: 0 <= i < |text| ==> symbols[i] < 32
  {
    seq(|text|, i requires 0 <= i < |text| => if IndexOf(text[i]) >= 0 then IndexOf(text[i]) else 0)
  }

  /** The whole bytes in the bits of the symbols. */
  function DecodedSymbols(text: string): Decoded {
    if AllSymbols(text) then
      Powers();
      Bytes(Groups(GroupBits(Indexes(text), 5), 8))
    else Invalid
  }

  function DecodedText(text: string): Decoded {
    DecodedSymbols(Clean(text))
  }

  // ---------- groups and bits are two views of one thing ----------

  lemma {:induction false} FirstGroup(groups: seq<nat>, w: nat)
    requires groups != []
    ensures GroupBits(groups, w) == Bits(groups[0], w) + GroupBits(groups[1..], w)
  {
    var n := |groups| - 1;
    if n > 0 {
      FirstGroup(groups[..n], w);
      assert groups[..n][1..] == groups[1..][..n - 1];
    }
  }

  lemma FrontGroup(head: seq<bool>, tail: seq<bool>, w: nat)
    requires |head| == w > 0
    ensures Groups(head + tail, w) == [Number(head)] + Groups(tail, w)
  {
    assert (head + tail)[..w] == head && (head + tail)[w..] == tail;
  }

  lemma {:induction false} GroupsOfBits(groups: seq<nat>, w: nat, rest: seq<bool>)
    requires Fits(groups, w) && |rest| < w
    ensures Groups(GroupBits(groups, w) + rest, w) == groups
  {
    if groups == [] {
      assert GroupBits(groups, w) + rest == rest;
    } else {
      FirstGroup(groups, w);
      var head, tail := Bits(groups[0], w), GroupBits(groups[1..], w) + rest;
      assert GroupBits(groups, w) + rest == head + tail;
      NumberOfBits(groups[0], w);
      GroupsOfBits(groups[1..], w, rest);
      FrontGroup(head, tail, w);
      assert groups == [groups[0]] + groups[1..];
    }
  }

  lemma PutInFront(head: seq<bool>, groups: seq<nat>, rest: seq<bool>, w: nat)
    requires |head| == w
    ensures head + (GroupBits(groups, w) + rest) == GroupBits([Number(head)] + groups, w) + rest
  {
    var all := [Number(head)] + groups;
    FirstGroup(all, w);
    assert all[1..] == groups;
    BitsOfNumber(head);
  }

  /** Grouping loses only the bits of the last, incomplete group. */
  lemma {:induction false} BitsOfGroups(bits: seq<bool>, w: nat) returns (rest: seq<bool>)
    requires w > 0
    ensures |rest| < w && bits == GroupBits(Groups(bits, w), w) + rest
    decreases |bits|
  {
    if |bits| < w {
      rest := bits;
    } else {
      var head, tail := bits[..w], bits[w..];
      assert bits == head + tail;
      rest := BitsOfGroups(tail, w);
      FrontGroup(head, tail, w);
      PutInFront(head, Groups(tail, w), rest, w);
    }
  }

  lemma AppendGroup(groups: seq<nat>, g: nat, w: nat)
    ensures GroupBits(groups + [g], w) == GroupBits(groups, w) + Bits(g, w)
  {
    assert (groups + [g])[..|groups|] == groups;
  }

  /** Taking in a w-bit group: the accumulator then holds the pending bits and the new ones. */
  lemma Take(out: seq<bool>, accumulator: nat, bits: nat, after: nat, groups: seq<nat>, i: nat, w: nat)
    requires i < |groups| && groups[i] < Pow2(w) && bits + w == after <= 32
    requires out + Bits(accumulator, bits) == GroupBits(groups[..i], w)
    ensures out + Bits(ShiftIn(accumulator, w, groups[i]), after) == GroupBits(groups[..i + 1], w)
  {
    ShiftInBits(accumulator, bits, w, groups[i]);
    assert groups[..i + 1] == groups[..i] + [groups[i]];
    AppendGroup(groups[..i], groups[i], w);
    Regrouped(out, Bits(accumulator, bits), Bits(groups[i], w));
  }

  /** Giving out a w-bit group: the lower pending bits stay. */
  lemma Emit(out: seq<nat>, accumulator: nat, before: nat, bits: nat, w: nat, all: seq<bool>)
    requires before == w + bits && GroupBits(out, w) + Bits(accumulator, before) == all
    ensures GroupBits(out + [Extract(accumulator, bits, w)], w) + Bits(accumulator, bits) == all
  {
    ExtractBits(accumulator, w, bits);
    AppendGroup(out, Extract(accumulator, bits, w), w);
  }

  lemma {:induction false} ZeroBits(n: nat)
    ensures Bits(0, n) == Zeros(n)
  {
    if n > 0 { ZeroBits(n - 1); }
  }

  /** The last symbol holds the pending bits, moved up over `fill` zeros. */
  lemma EmitLast(out: seq<nat>, accumulator: nat, bits: nat, fill: nat, w: nat, all: seq<bool>)
    requires bits + fill == w <= 32 && 0 < Pow2(fill)
    requires GroupBits(out, w) + Bits(accumulator, bits) == all
    ensures GroupBits(out + [Low(ShiftIn(accumulator, fill, 0), w)], w) == all + Zeros(fill)
  {
    var last := Low(ShiftIn(accumulator, fill, 0), w);
    AppendGroup(out, last, w);
    LastBits(accumulator, bits, fill, w);
    Regrouped(GroupBits(out, w), Bits(accumulator, bits), Zeros(fill));
  }

  lemma LastBits(accumulator: nat, bits: nat, fill: nat, w: nat)
    requires bits + fill == w <= 32 && 0 < Pow2(fill)
    ensures Bits(Low(ShiftIn(accumulator, fill, 0), w), w) == Bits(accumulator, bits) + Zeros(fill)
  {
    BitsOfLow(ShiftIn(accumulator, fill, 0), w, w);
    ShiftInBits(accumulator, bits, fill, 0);
    ZeroBits(fill);
  }

  lemma Regrouped(a: seq<bool>, b: seq<bool>, c: seq<bool>)
    ensures a + (b + c) == a + b + c
  {
  }

  /** The filled groups are the only ones whose bits are the given ones and fewer than five zeros. */
  lemma {:induction false} FilledGroupsFound(symbols: seq<nat>, bits: seq<bool>, fill: nat)
    requires Fits(symbols, 5) && fill < 5 && GroupBits(symbols, 5) == bits + Zeros(fill)
    ensures FilledGroups(bits) == symbols
  {
    Powers();
    if symbols != [] {
      var all := bits + Zeros(fill);
      FirstGroup(symbols, 5);
      assert all[..5] == Bits(symbols[0], 5) && all[5..] == GroupBits(symbols[1..], 5);
      NumberOfBits(symbols[0], 5);
      if |bits| <= 5 {
        assert |symbols[1..]| == 0;
        assert all[..5] == bits + Zeros(5 - |bits|);
      } else {
        assert all[5..] == bits[5..] + Zeros(fill);
        FilledGroupsFound(symbols[1..], bits[5..], fill);
        assert all[..5] == bits[..5];
      }
    }
  }

  lemma {:induction false} FilledGroupBits(bits: seq<bool>) returns (fill: nat)
    ensures fill < 5 && GroupBits(FilledGroups(bits), 5) == bits + Zeros(fill)
    decreases |bits|
  {
    var symbols := FilledGroups(bits);
    if bits == [] {
      fill := 0;
    } else if |bits| <= 5 {
      fill := 5 - |bits|;
      FirstGroup(symbols, 5);
      BitsOfNumber(bits + Zeros(fill));
    } else {
      var head, tail := bits[..5], bits[5..];
      fill := FilledGroupBits(tail);
      PutInFront(head, FilledGroups(tail), [], 5);
      var groups := FilledGroups(tail);
      assert symbols == [Number(head)] + groups;
      assert GroupBits(symbols, 5) == GroupBits(symbols, 5) + [] && GroupBits(groups, 5) == GroupBits(groups, 5) + [];
      Regrouped(head, tail, Zeros(fill));
      assert bits == head + tail;
    }
  }

  lemma SpellAppended(symbols: seq<nat>, i: nat)
    requires Fits(symbols, 5) && i < 32
    ensures Pow2(5) == 32 && Fits(symbols + [i], 5) && Spell(symbols + [i]) == Spell(symbols) + [Symbol(i)]
  {
  }

  lemma EmitSymbol(symbols: seq<nat>, accumulator: nat, before: nat, bits: nat, all: seq<bool>)
    requires Fits(symbols, 5) && Pow2(5) == 32 && before == 5 + bits
    requires GroupBits(symbols, 5) + Bits(accumulator, before) == all
    ensures var symbol := Extract(accumulator, bits, 5);
            && Fits(symbols + [symbol], 5) && Spell(symbols + [symbol]) == Spell(symbols) + [Symbol(symbol)]
            && GroupBits(symbols + [symbol], 5) + Bits(accumulator, bits) == all
  {
    Emit(symbols, accumulator, before, bits, 5, all);
    SpellAppended(symbols, Extract(accumulator, bits, 5));
  }

  /** The last, filled symbol completes the encoding. */
  lemma LastSymbol(symbols: seq<nat>, accumulator: nat, bits: nat, value: seq<Byte>)
    requires Fits(symbols, 5)
    requires Pow2(5) == 32 && 0 < bits < 5
    requires GroupBits(symbols, 5) + Bits(accumulator, bits) == GroupBits(value, 8)
    ensures Spell(symbols) + [Symbol(Low(ShiftIn(accumulator, 5 - bits, 0), 5))] == Encoded(value)
  {
    var symbol := Low(ShiftIn(accumulator, 5 - bits, 0), 5);
    EmitLast(symbols, accumulator, bits, 5 - bits, 5, GroupBits(value, 8));
    SpellAppended(symbols, symbol);
    FilledGroupsFound(symbols + [symbol], GroupBits(value, 8), 5 - bits);
  }

  lemma NoLastSymbol(symbols: seq<nat>, accumulator: nat, value: seq<Byte>)
    requires Fits(symbols, 5) && Pow2(5) == 32
    requires GroupBits(symbols, 5) + Bits(accumulator, 0) == GroupBits(value, 8)
    ensures Spell(symbols) == Encoded(value)
  {
    assert GroupBits(symbols, 5) + [] == GroupBits(symbols, 5);
    assert GroupBits(value, 8) + Zeros(0) == GroupBits(value, 8);
    FilledGroupsFound(symbols, GroupBits(value, 8), 0);
  }

  /** One round of the decoder: a symbol taken in, and a byte given out when there is one. */
  lemma DecodeRound(bytes: seq<nat>, accumulator: nat, bits: nat, symbols: seq<nat>, i: nat, shifted: nat,
      longer: seq<nat>, after: nat)
    requires i < |symbols| && symbols[i] < 32 && bits < 8
    requires shifted == ShiftIn(accumulator, 5, symbols[i])
    requires if bits + 5 >= 8 then after + 8 == bits + 5 && longer == bytes + [Extract(shifted, after, 8)]
             else after == bits + 5 && longer == bytes
    requires GroupBits(bytes, 8) + Bits(accumulator, bits) == GroupBits(symbols[..i], 5)
    ensures GroupBits(longer, 8) + Bits(shifted, after) == GroupBits(symbols[..i + 1], 5)
  {
    Powers();
    var all, held := GroupBits(symbols[..i + 1], 5), bits + 5;
    Take(GroupBits(bytes, 8), accumulator, bits, held, symbols, i, 5);
    if held >= 8 {
      Emit(bytes, shifted, held, after, 8, all);
    }
  }

  /** The bytes at the end of the text, where fewer than eight bits are left over. */
  lemma AllDecoded(text: string, bytes: seq<Byte>, accumulator: nat, bits: nat)
    requires AllSymbols(text) && bits < 8
    requires GroupBits(bytes, 8) + Bits(accumulator, bits) == GroupBits(Indexes(text), 5)
    ensures DecodedSymbols(text) == Bytes(bytes)
  {
    Powers();
    GroupsOfBits(bytes, 8, Bits(accumulator, bits));
  }

  lemma OneMoreSymbol(text: string, i: nat)
    requires i < |text| && AllSymbols(text[..i]) && IndexOf(text[i]) >= 0
    ensures AllSymbols(text[..i + 1])
  {
    assert text[..i + 1] == text[..i] + [text[i]];
  }

  lemma NotASymbol(text: string, i: nat)
    requires i < |text| && IndexOf(text[i]) < 0
    ensures DecodedSymbols(text) == Invalid
  {
  }

  lemma Finished(symbols: seq<nat>, accumulator: nat, bits: nat, value: seq<Byte>)
    requires Fits(symbols, 5) && Pow2(5) == 32 && bits < 5
    requires GroupBits(symbols, 5) + Bits(accumulator, bits) == GroupBits(value, 8)
    ensures bits > 0 ==> Spell(symbols) + [Symbol(Low(ShiftIn(accumulator, 5 - bits, 0), 5))] == Encoded(value)
    ensures bits == 0 ==> Spell(symbols) == Encoded(value)
  {
    if bits > 0 {
      LastSymbol(symbols, accumulator, bits, value);
    } else {
      NoLastSymbol(symbols, accumulator, value);
    }
  }

  // ---------- the loops ----------

  /** The inner loop of the encoder: one symbol for each whole group of pending bits. */
  method EmitSymbols(output: string, accumulator: nat, pending: nat, ghost done: seq<nat>, ghost all: seq<bool>)
    returns (text: string, bits: nat, ghost symbols: seq<nat>)
    requires Fits(done, 5) && output == Spell(done) && GroupBits(done, 5) + Bits(accumulator, pending) == all
    ensures bits < 5 && Fits(symbols, 5) && text == Spell(symbols)
    ensures GroupBits(symbols, 5) + Bits(accumulator, bits) == all
  {
    Powers();
    text, bits, symbols := output, pending, done;
    while bits >= 5
      invariant Fits(symbols, 5) && text == Spell(symbols)
      invariant GroupBits(symbols, 5) + Bits(accumulator, bits) == all
    {
      ghost var before := bits;
      bits := bits - 5;
      var symbol := Extract(accumulator, bits, 5);
      EmitSymbol(symbols, accumulator, before, bits, all);
      symbols := symbols + [symbol];
      text := text + [Symbol(symbol)];
    }
  }

  method EncodeBase32(value: seq<Byte>) returns (output: string)
    ensures output == Encoded(value)
  {
    Powers();
    var bits: nat := 0;
    var accumulator: nat := 0;
    output := "";
    ghost var symbols: seq<nat> := [];
    for i := 0 to |value|
      invariant bits < 5 && Fits(symbols, 5) && output == Spell(symbols)
      invariant GroupBits(symbols, 5) + Bits(accumulator, bits) == GroupBits(value[..i], 8)
    {
      Take(GroupBits(symbols, 5), accumulator, bits, bits + 8, value, i, 8);
      accumulator := ShiftIn(accumulator, 8, value[i]);
      bits := bits + 8;
      ghost var all := GroupBits(value[..i + 1], 8);
      assert GroupBits(symbols, 5) + Bits(accumulator, bits) == all;
      output, bits, symbols := EmitSymbols(output, accumulator, bits, symbols, all);
    }
    assert value[..|value|] == value;
    Finished(symbols, accumulator, bits, value);
    if bits > 0 {
      output := output + [Symbol(Low(ShiftIn(accumulator, 5 - bits, 0), 5))];
    }
  }

  /** The loop of the decoder, over the cleaned text. */
  method DecodeSymbols(text: string) returns (result: Decoded)
    ensures result == DecodedSymbols(text)
  {
    Powers();
    var bits: nat := 0;
    var accumulator: nat := 0;
    var bytes: seq<Byte> := [];
    ghost var symbols := Indexes(text);
    for i := 0 to |text|
      invariant bits < 8 && AllSymbols(text[..i])
      invariant GroupBits(bytes, 8) + Bits(accumulator, bits) == GroupBits(symbols[..i], 5)
    {
      var index := IndexOf(text[i]);
      if index < 0 {
        NotASymbol(text, i);
        return Invalid;
      }
      OneMoreSymbol(text, i);
      ghost var before, held := bytes, bits;
      ghost var was := accumulator;
      accumulator := ShiftIn(accumulator, 5, index);
      bits := bits + 5;
      if bits >= 8 {
        bits := bits - 8;
        bytes := bytes + [Extract(accumulator, bits, 8)];
      }
      DecodeRound(before, was, held, symbols, i, accumulator, bytes, bits);
    }
    assert text[..|text|] == text && symbols[..|text|] == symbols;
    AllDecoded(text, bytes, accumulator, bits);
    result := Bytes(bytes);
  }

  method DecodeBase32(value: string) returns (result: Decoded)
    ensures result == DecodedText(value)
  {
    result := DecodeSymbols(Clean(value));
  }

  // ---------- laws ----------

  lemma SpelledIndexes(symbols: seq<nat>)
    requires forall i :: 0 <= i < |symbols| ==> symbols[i] < 32
    ensures AllSymbols(Spell(symbols)) && Indexes(Spell(symbols)) == symbols
  {
  }

  /** Decoding gives the bytes back, also when the text was lower-cased or padded with '='. */
  lemma DecodeEncoded(value: seq<Byte>, text: string)
    requires Clean(text) == Encoded(value)
    ensures DecodedText(text) == Bytes(value)
    ensures 5 * |Encoded(value)| - 5 < 8 * |value| <= 5 * |Encoded(value)|
  {
    Powers();
    var bits := GroupBits(value, 8);
    var fill := FilledGroupBits(bits);
    SpelledIndexes(FilledGroups(bits));
    GroupsOfBits(value, 8, Zeros(fill));
  }

  lemma SymbolIsUpperCase(c: char)
    requires IndexOf(c) >= 0
    ensures UpperCase(c) == [c] && c != '='
  {
    assert c as int < 0x80;
  }

  lemma {:induction false} SymbolsAreClean(text: string)
    requires AllSymbols(text)
    ensures Clean(text) == text
  {
    if text != "" {
      SymbolIsUpperCase(text[0]);
      SymbolsAreClean(text[1..]);
    }
  }

  lemma RoundTrip(value: seq<Byte>)
    ensures DecodedText(Encoded(value)) == Bytes(value)
  {
    SpelledIndexes(FilledGroups(GroupBits(value, 8)));
    SymbolsAreClean(Encoded(value));
    DecodeEncoded(value, Encoded(value));
  }

  /** A text is the encoding of what it decodes to exactly when the bits that decoding drops
      are fewer than five and all zero. */
  lemma EncodeDecodedIff(text: string, value: seq<Byte>)
    requires AllSymbols(text) && DecodedText(text) == Bytes(value)
    ensures 8 * |value| <= 5 * |text|
    ensures Encoded(value) == text
       <==> var dropped := GroupBits(Indexes(text), 5)[8 * |value|..]; |dropped| < 5 && dropped == Zeros(|dropped|)
  {
    DroppedBits(text, value);
    var dropped := GroupBits(Indexes(text), 5)[8 * |value|..];
    if |dropped| < 5 && dropped == Zeros(|dropped|) {
      ZeroTailEncodes(text, value, |dropped|);
    }
    if Encoded(value) == text {
      EncodedDropsZeros(text, value);
    }
  }

  lemma ZeroTailEncodes(text: string, value: seq<Byte>, fill: nat)
    requires AllSymbols(text) && fill < 5 && GroupBits(Indexes(text), 5) == GroupBits(value, 8) + Zeros(fill)
    ensures Encoded(value) == text
  {
    Powers();
    FilledGroupsFound(Indexes(text), GroupBits(value, 8), fill);
    forall i | 0 <= i < |text| ensures Symbol(Indexes(text)[i]) == text[i] {
      assert IndexOf(text[i]) >= 0;
    }
  }

  lemma EncodedDropsZeros(text: string, value: seq<Byte>)
    requires AllSymbols(text) && 8 * |value| <= 5 * |text| && Encoded(value) == text
    ensures var dropped := GroupBits(Indexes(text), 5)[8 * |value|..]; |dropped| < 5 && dropped == Zeros(|dropped|)
  {
    var kept := GroupBits(value, 8);
    var fill := FilledGroupBits(kept);
    SpelledIndexes(FilledGroups(kept));
    assert (kept + Zeros(fill))[|kept|..] == Zeros(fill);
  }

  lemma DroppedBits(text: string, value: seq<Byte>)
    requires AllSymbols(text) && DecodedText(text) == Bytes(value)
    ensures 8 * |value| <= 5 * |text|
    ensures GroupBits(Indexes(text), 5) == GroupBits(value, 8) + GroupBits(Indexes(text), 5)[8 * |value|..]
  {
    SymbolsAreClean(text);
    var bits := GroupBits(Indexes(text), 5);
    var dropped := BitsOfGroups(bits, 8);
    assert bits[|GroupBits(value, 8)|..] == dropped;
  }

  // ---------- bit for bit ----------

  /** The k-th bit of a number, counted from the lowest. */
  predicate Bit(x: nat, k: nat) {
    if k == 0 then x % 2 == 1 else Bit(x / 2, k - 1)
  }

  lemma {:induction false} BitAt(x: nat, n: nat, j: nat)
    requires j < n
    ensures Bits(x, n)[j] == Bit(x, n - 1 - j)
  {
    if j < n - 1 { BitAt(x / 2, n - 1, j); }
  }

  lemma {:induction false} GroupBitAt(groups: seq<nat>, w: nat, i: nat, j: nat)
    requires (w == 5 || w == 8) && i < |groups| && j < w
    ensures GroupBits(groups, w)[w * i + j] == Bit(groups[i], w - 1 - j)
    decreases |groups|
  {
    var n := |groups| - 1;
    if i < n { GroupBitAt(groups[..n], w, i, j); } else { BitAt(groups[n], w, j); }
  }

  lemma SymbolBit(value: seq<Byte>, k: nat, j: nat)
    requires k < |Encoded(value)| && j < 5
    ensures var symbol := IndexOf(Encoded(value)[k]);
            symbol >= 0 && (Bit(symbol, 4 - j) <==> 5 * k + j < 8 * |value| && GroupBits(value, 8)[5 * k + j])
  {
    var bits := GroupBits(value, 8);
    var symbols := FilledGroups(bits);
    var fill := FilledGroupBits(bits);
    GroupBitAt(symbols, 5, k, j);
    assert GroupBits(symbols, 5)[5 * k + j] == (bits + Zeros(fill))[5 * k + j];
    assert Encoded(value)[k] == Symbol(symbols[k]);
  }

  /** The bits of the symbols are those of the bytes, in order and from the highest down, with zeros
      after the last. */
  lemma BitForBit(value: seq<Byte>, k: nat, j: nat)
    requires k < |Encoded(value)| && j < 5
    ensures var i, symbol := 5 * k + j, IndexOf(Encoded(value)[k]);
            symbol >= 0 && (Bit(symbol, 4 - j) <==> i < 8 * |value| && Bit(value[i / 8], 7 - i % 8))
  {
    var i := 5 * k + j;
    SymbolBit(value, k, j);
    if i < 8 * |value| {
      assert i == 8 * (i / 8) + i % 8;
      GroupBitAt(value, 8, i / 8, i % 8);
    }
  }

  /** A text with the symbols of another, some of them in lower case, and padding anywhere. */
  predicate Loosely(text: string, code: string) {
    if text == "" then code == ""
    else if text[0] == '=' then Loosely(text[1..], code)
    else
      && code != ""
      && (text[0] == code[0] || ('A' <= code[0] <= 'Z' && text[0] as int == code[0] as int + 32))
      && Loosely(text[1..], code[1..])
  }

  lemma {:induction false} LooseIsClean(text: string, code: string)
    requires Loosely(text, code) && AllSymbols(code)
    ensures Clean(text) == code
  {
    if text != "" {
      if text[0] == '=' {
        LooseIsClean(text[1..], code);
      } else {
        assert IndexOf(code[0]) >= 0;
        SymbolIsUpperCase(code[0]);
        assert AllSymbols(code[1..]);
        LooseIsClean(text[1..], code[1..]);
        assert code == [code[0]] + code[1..];
      }
    }
  }

  /** An encoding can be read in lower case and with padding. */
  lemma ReadLoosely(value: seq<Byte>, text: string)
    requires Loosely(text, Encoded(value))
    ensures DecodedText(text) == Bytes(value)
  {
    SpelledIndexes(FilledGroups(GroupBits(value, 8)));
    LooseIsClean(text, Encoded(value));
    DecodeEncoded(value, text);
  }
}
