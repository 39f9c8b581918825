/** What of a JavaScript string survives its encoding as UTF-8, which is what a digest or a database
    sees: each surrogate that is not one of a pair becomes U+FFFD. */
module Utf16 {
  import opened CanonicalJson

  const REPLACEMENT: CodeUnit := 0xFFFD

  predicate IsSurrogate(u: CodeUnit) {
    IsHighSurrogate(u) || IsLowSurrogate(u)
  }

  function Repaired(t: Text): (r: Text)
    ensures |r| == |t|
  {
    if t == [] then []
    else if FirstWidth(t) == 2 then t[..2] + Repaired(t[2..])
    else [if IsSurrogate(t[0]) then REPLACEMENT else t[0]] + Repaired(t[1..])
  }

  predicate WellPaired(t: Text) {
    Repaired(t) == t
  }

  /** The first code point of a well-paired text stays, and so does the rest. */
  lemma FirstStays(a: Text)
    requires a != [] && WellPaired(a)
    ensures WellPaired(a[FirstWidth(a)..]) && (FirstWidth(a) == 1 ==> !IsSurrogate(a[0]))
  {
    var k := FirstWidth(a);
    assert Repaired(a)[k..] == Repaired(a[k..]);
    assert k == 1 ==> Repaired(a)[0] == a[0];
  }

  lemma FirstRepaired(a: Text, b: Text)
    requires a != [] && (FirstWidth(a) == 1 ==> !IsSurrogate(a[0]))
    ensures var k := FirstWidth(a); Repaired(a + b) == a[..k] + Repaired(a[k..] + b)
  {
    var k := FirstWidth(a);
    assert FirstWidth(a + b) == k;
    assert (a + b)[..k] == a[..k] && (a + b)[k..] == a[k..] + b;
  }

  /** Nothing of a well-paired text is repaired when more text follows. */
  lemma {:induction false} RepairedAfter(a: Text, b: Text)
    requires WellPaired(a)
    ensures Repaired(a + b) == a + Repaired(b)
    decreases |a|
  {
    if a == [] {
      assert a + b == b;
    } else {
      var k := FirstWidth(a);
      FirstStays(a);
      FirstRepaired(a, b);
      RepairedAfter(a[k..], b);
      Rejoined(a, k, Repaired(b));
    }
  }

  lemma Rejoined(a: Text, k: nat, b: Text)
    requires k <= |a|
    ensures a[..k] + (a[k..] + b) == a + b
  {
  }

  lemma PairedAppend(a: Text, b: Text)
    requires WellPaired(a) && WellPaired(b)
    ensures WellPaired(a + b)
  {
    RepairedAfter(a, b);
  }

  lemma {:induction false} PlainIsPaired(t: Text)
    requires forall u :: u in t ==> !IsSurrogate(u)
    ensures WellPaired(t)
  {
    if t != [] {
      assert t[0] in t;
      PlainIsPaired(t[1..]);
    }
  }

  lemma OneIsPaired(u: CodeUnit)
    requires !IsSurrogate(u)
    ensures WellPaired([u])
  {
    PlainIsPaired([u]);
  }

  // ---------- the canonical text ----------

  lemma {:induction false} EscapeIsPaired(s: Text)
    ensures WellPaired(Escape(s))
    decreases |s|
  {
    if s != [] {
      EscapeIsPaired(s[FirstWidth(s)..]);
      FirstIsPaired(s);
      PairedAppend(EscapeFirst(s), Escape(s[FirstWidth(s)..]));
    }
  }

  lemma FirstIsPaired(s: Text)
    requires s != []
    ensures WellPaired(EscapeFirst(s))
  {
    if FirstWidth(s) == 2 {
      assert s[..2][2..] == [];
    } else {
      HexIsPlain(s[0], 4);
      PlainIsPaired(EscapeUnit(s[0]));
    }
  }

  lemma {:induction false} HexIsPlain(n: nat, digits: nat)
    ensures forall i :: 0 <= i < digits ==> !IsSurrogate(Hex(n, digits)[i])
  {
    if digits > 0 { HexIsPlain(n / 16, digits - 1); }
  }

  lemma QuoteIsPaired(s: Text)
    ensures WellPaired(Quote(s))
  {
    EscapeIsPaired(s);
    Enclosed(QUOTE, Escape(s), QUOTE);
  }

  lemma {:induction false} JoinIsPaired(parts: seq<Text>)
    requires forall i :: 0 <= i < |parts| ==> WellPaired(parts[i])
    ensures WellPaired(Join(parts))
    decreases |parts|
  {
    if |parts| > 1 {
      JoinIsPaired(parts[1..]);
      OneIsPaired(COMMA);
      PairedAppend(parts[0], [COMMA]);
      PairedAppend(parts[0] + [COMMA], Join(parts[1..]));
    }
  }

  /** The canonical text of any value is well paired, since JSON.stringify escapes lone surrogates: a
      digest of it sees all of it. */
  lemma {:induction false} CanonicalIsPaired(le: KeyOrder, v: Json)
    ensures WellPaired(StableStringify(le, v))
    decreases v, 1
  {
    match v {
      case String(text) => QuoteIsPaired(text);
      case Array(items) =>
        ItemsArePaired(le, v, items);
        JoinIsPaired(StringifyItems(le, v, items));
        Enclosed(LEFT_BRACKET, Join(StringifyItems(le, v, items)), RIGHT_BRACKET);
      case Object(entries) =>
        var sorted := SortEntries(le, entries);
        EntriesArePaired(le, v, sorted);
        JoinIsPaired(StringifyEntries(le, v, sorted));
        Enclosed(LEFT_BRACE, Join(StringifyEntries(le, v, sorted)), RIGHT_BRACE);
      case _ => PlainIsPaired(StableStringify(le, v));
    }
  }

  lemma Enclosed(open: CodeUnit, body: Text, close: CodeUnit)
    requires !IsSurrogate(open) && !IsSurrogate(close) && WellPaired(body)
    ensures WellPaired([open] + body + [close])
  {
    OneIsPaired(open);
    OneIsPaired(close);
    PairedAppend([open], body);
    PairedAppend([open] + body, [close]);
  }

  lemma {:induction false} ItemsArePaired(le: KeyOrder, context: Json, items: seq<Json>)
    requires forall i :: 0 <= i < |items| ==> items[i] < context
    ensures forall i :: 0 <= i < |StringifyItems(le, context, items)| ==>
              WellPaired(StringifyItems(le, context, items)[i])
    decreases context, 0, |items|
  {
    if items != [] {
      CanonicalIsPaired(le, items[0]);
      ItemsArePaired(le, context, items[1..]);
    }
  }

  lemma {:induction false} EntriesArePaired(le: KeyOrder, context: Json, entries: seq<Entry>)
    requires forall i :: 0 <= i < |entries| ==> entries[i].value < context
    ensures forall i :: 0 <= i < |StringifyEntries(le, context, entries)| ==>
                      WellPaired(StringifyEntries(le, context, entries)[i])
    decreases context, 0, |entries|
  {
    if entries != [] {
      QuoteIsPaired(entries[0].key);
      OneIsPaired(COLON);
      CanonicalIsPaired(le, entries[0].value);
      PairedAppend(Quote(entries[0].key), [COLON]);
      PairedAppend(Quote(entries[0].key) + [COLON], StableStringify(le, entries[0].value));
      EntriesArePaired(le, context, entries[1..]);
    }
  }
}
