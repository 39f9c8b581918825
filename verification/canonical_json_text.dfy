/** What the canonical text looks like, character by character, as JSON.stringify and the serialiser
    around it print it. */
module CanonicalJsonText {
  import opened AttributeKeys
  import opened CanonicalJson
  import opened CanonicalJsonOrder
  import opened Utf16

  // ---------- strings ----------

  const HEX: Text :=
    [0x30, 0x31, 0x32, 0x33, 0x34, 0x35, 0x36, 0x37, 0x38, 0x39, 0x61, 0x62, 0x63, 0x64, 0x65, 0x66]

  /** A code unit that stands for itself inside quotes. */
  predicate Literal(u: CodeUnit) {
    u >= 0x20 && u != 0x22 && u != 0x5C
  }

  lemma HexStep(n: nat, digits: nat)
    requires digits > 0
    ensures Hex(n, digits) == Hex(n / 16, digits - 1) + [HEX[n % 16]]
  {
  }

  lemma Quotients(u: CodeUnit)
    ensures u / 16 / 16 == u / 256 && u / 256 / 16 == u / 4096 && 0 <= u / 4096 < 16
  {
  }

  /** The digits of a number, given its successive quotients. */
  lemma HexChain(u: nat, n: nat, m: nat, l: nat)
    requires u / 16 == n && n / 16 == m && m / 16 == l && l < 16
    ensures Hex(u, 4) == [HEX[l], HEX[m % 16], HEX[n % 16], HEX[u % 16]]
  {
    HexStep(u, 4);
    HexStep(n, 3);
    HexStep(m, 2);
    HexStep(l, 1);
    EmptyHex(l / 16);
  }

  lemma EmptyHex(n: nat)
    ensures Hex(n, 0) == []
  {
  }

  /** Seven code units have an escape of two characters; the other control characters and single
      surrogates are written as four lower-case hexadecimal digits; all others stand for themselves. */
  lemma EscapesSpelledOut(u: CodeUnit)
    ensures EscapeUnit(u)
         == (match u
             case 0x08 => [0x5C, 0x62]
             case 0x09 => [0x5C, 0x74]
             case 0x0A => [0x5C, 0x6E]
             case 0x0C => [0x5C, 0x66]
             case 0x0D => [0x5C, 0x72]
             case 0x22 => [0x5C, 0x22]
             case 0x5C => [0x5C, 0x5C]
             case _ =>
               if u < 0x20 || 0xD800 <= u <= 0xDFFF then
                 [0x5C, 0x75, HEX[u / 4096], HEX[u / 256 % 16], HEX[u / 16 % 16], HEX[u % 16]]
               else [u])
  {
    Quotients(u);
    HexChain(u, u / 16, u / 256, u / 4096);
  }

  predicate AllLiteral(s: Text) {
    forall i :: 0 <= i < |s| ==> Literal(s[i])
  }

  lemma {:induction false} EscapedLength(s: Text)
    ensures |Escape(s)| >= |s|
    ensures |Escape(s)| == |s| <==> WellPaired(s) && AllLiteral(s)
    ensures |Escape(s)| == |s| ==> Escape(s) == s
    decreases |s|
  {
    if s != [] {
      var k := FirstWidth(s);
      EscapedLength(s[k..]);
      EscapedFirst(s);
      PairedStep(s);
      InTwoParts(s, k, EscapeFirst(s), Escape(s[k..]), k == 1 ==> !IsSurrogate(s[0]), WellPaired(s[k..]));
    }
  }

  /** A text in two parts, each printed at least as long as it is, and unchanged if as long. */
  lemma InTwoParts(s: Text, k: nat, first: Text, rest: Text, headPaired: bool, tailPaired: bool)
    requires k <= |s| && |first| >= k && |rest| >= |s| - k
    requires |first| == k <==> headPaired && AllLiteral(s[..k])
    requires |rest| == |s| - k <==> tailPaired && AllLiteral(s[k..])
    requires (|first| == k ==> first == s[..k]) && (|rest| == |s| - k ==> rest == s[k..])
    ensures |first + rest| >= |s| && (|first + rest| == |s| ==> first + rest == s)
    ensures |first + rest| == |s| <==> headPaired && tailPaired && AllLiteral(s)
  {
    LiteralStep(s, k);
    assert s == s[..k] + s[k..];
  }

  lemma LiteralStep(s: Text, k: nat)
    requires k <= |s|
    ensures AllLiteral(s) <==> AllLiteral(s[..k]) && AllLiteral(s[k..])
  {
    assert forall i :: k <= i < |s| ==> s[i] == s[k..][i - k];
    assert forall i :: 0 <= i < k ==> s[i] == s[..k][i];
  }

  lemma PairedStep(s: Text)
    requires s != []
    ensures var k := FirstWidth(s); WellPaired(s) <==> (k == 1 ==> !IsSurrogate(s[0])) && WellPaired(s[k..])
  {
    var k := FirstWidth(s);
    assert Repaired(s)[k..] == Repaired(s[k..]) && s == s[..k] + s[k..];
    assert k == 1 ==> Repaired(s)[0] == if IsSurrogate(s[0]) then REPLACEMENT else s[0];
  }

  lemma EscapedFirst(s: Text)
    requires s != []
    ensures var k := FirstWidth(s);
            && |EscapeFirst(s)| >= k
            && (|EscapeFirst(s)| == k <==> (k == 1 ==> !IsSurrogate(s[0])) && AllLiteral(s[..k]))
            && (|EscapeFirst(s)| == k ==> EscapeFirst(s) == s[..k])
  {
    EscapesSpelledOut(s[0]);
  }

  /** A string is printed as it is between quotes exactly when none of its code units needs an escape. */
  lemma PrintedAsItIsIff(s: Text)
    ensures Quote(s) == [0x22] + s + [0x22] <==> WellPaired(s) && AllLiteral(s)
  {
    EscapedLength(s);
    assert |Quote(s)| == |Escape(s)| + 2;
  }

  // ---------- values ----------

  lemma {:induction false} SortedStays(le: KeyOrder, entries: seq<Entry>)
    requires SortedByKey(le, entries)
    ensures SortEntries(le, entries) == entries
  {
    if entries != [] {
      SortedStays(le, entries[1..]);
      if |entries| > 1 { assert entries[1..][0] == entries[1] && le(entries[0].key, entries[1].key); }
    }
  }

  lemma {:induction false} ItemsAnywhere(le: KeyOrder, c: Json, d: Json, items: seq<Json>)
    requires forall i :: 0 <= i < |items| ==> items[i] < c && items[i] < d
    ensures StringifyItems(le, c, items) == StringifyItems(le, d, items)
  {
    if items != [] { ItemsAnywhere(le, c, d, items[1..]); }
  }

  lemma {:induction false} EntriesAnywhere(le: KeyOrder, c: Json, d: Json, entries: seq<Entry>)
    requires forall i :: 0 <= i < |entries| ==> entries[i].value < c && entries[i].value < d
    ensures StringifyEntries(le, c, entries) == StringifyEntries(le, d, entries)
  {
    if entries != [] { EntriesAnywhere(le, c, d, entries[1..]); }
  }

  lemma BracketedFirst(open: CodeUnit, part: Text, rest: seq<Text>, close: CodeUnit)
    ensures [open] + Join([part] + rest) + [close]
         == [open] + part + if rest == [] then [close] else [0x2C] + ([open] + Join(rest) + [close])[1..]
  {
    assert ([part] + rest)[1..] == rest;
    assert ([open] + Join(rest) + [close])[1..] == Join(rest) + [close];
  }

  /** The first part of a list, and then its end or a comma and what follows the opening bracket of the
      text of the rest. */
  function FirstThen(first: Text, count: nat, close: CodeUnit, rest: Text): Text {
    if count == 1 || rest == [] then first + [close] else first + [0x2C] + rest[1..]
  }

  /** An array is its items in their order, between brackets and with commas between them. */
  lemma ArrayText(le: KeyOrder, items: seq<Json>)
    ensures StableStringify(le, Array([])) == Codes("[]")
    ensures |items| > 0 ==>
              StableStringify(le, Array(items)) == FirstThen([0x5B] + StableStringify(le, items[0]), |items|, 0x5D,
                                                             StableStringify(le, Array(items[1..])))
  {
    if items != [] {
      var all, rest := Array(items), Array(items[1..]);
      ItemsAnywhere(le, all, rest, items[1..]);
      BracketedFirst(0x5B, StableStringify(le, items[0]), StringifyItems(le, rest, items[1..]), 0x5D);
    }
  }

  /** An object is its entries in order of their keys, between braces and with commas between them, each
      a quoted key, a colon and a value. */
  lemma ObjectText(le: KeyOrder, entries: seq<Entry>)
    requires SortedByKey(le, entries)
    ensures StableStringify(le, Object([])) == Codes("{}")
    ensures |entries| > 0 ==>
              StableStringify(le, Object(entries)) == FirstThen([0x7B] + EntryText(le, entries[0]), |entries|, 0x7D,
                                                                StableStringify(le, Object(entries[1..])))
  {
    if entries != [] { LongObjectText(le, entries); }
  }

  function EntryText(le: KeyOrder, e: Entry): Text {
    Quote(e.key) + [0x3A] + StableStringify(le, e.value)
  }

  lemma LongObjectText(le: KeyOrder, entries: seq<Entry>)
    requires SortedByKey(le, entries) && entries != []
    ensures StableStringify(le, Object(entries)) == FirstThen([0x7B] + EntryText(le, entries[0]), |entries|, 0x7D,
                                                              StableStringify(le, Object(entries[1..])))
  {
    var all, rest := Object(entries), Object(entries[1..]);
    var first, parts := EntryText(le, entries[0]), StringifyEntries(le, rest, entries[1..]);
    SortedText(le, entries);
    SortedText(le, entries[1..]);
    FirstEntry(le, all, rest, entries);
    FirstThenRest(first, parts, |entries|, StableStringify(le, all), StableStringify(le, rest));
  }

  lemma FirstThenRest(first: Text, parts: seq<Text>, count: nat, whole: Text, rest: Text)
    requires whole == [0x7B] + Join([first] + parts) + [0x7D] && rest == [0x7B] + Join(parts) + [0x7D]
    requires parts == [] <==> count == 1
    ensures whole == FirstThen([0x7B] + first, count, 0x7D, rest)
  {
    BracketedFirst(0x7B, first, parts, 0x7D);
  }

  lemma FirstEntry(le: KeyOrder, all: Json, rest: Json, entries: seq<Entry>)
    requires entries != [] && all == Object(entries) && rest == Object(entries[1..])
    ensures StringifyEntries(le, all, entries) == [EntryText(le, entries[0])] + StringifyEntries(le, rest, entries[1..])
    ensures |StringifyEntries(le, rest, entries[1..])| == 0 <==> |entries| == 1
  {
    EntriesAnywhere(le, all, rest, entries[1..]);
  }

  lemma SortedText(le: KeyOrder, entries: seq<Entry>)
    requires SortedByKey(le, entries)
    ensures var v := Object(entries); StableStringify(le, v) == [0x7B] + Join(StringifyEntries(le, v, entries)) + [0x7D]
  {
    SortedStays(le, entries);
  }

  /** Everything else is printed as JavaScript prints it; what JSON does not know becomes null. */
  lemma ScalarText(le: KeyOrder, decimal: NumberText, negative: bool)
    ensures StableStringify(le, Null) == Codes("null")
    ensures StableStringify(le, Undefined) == Codes("null") == StableStringify(le, Infinity(negative))
    ensures StableStringify(le, Boolean(true)) == Codes("true")
    ensures StableStringify(le, Boolean(false)) == Codes("false")
    ensures StableStringify(le, Number(decimal)) == decimal
  {
  }
}
