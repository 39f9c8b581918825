/** The serialiser tells two JSON values apart exactly when they differ in more than the order
    of object keys, as long as no object holds two distinct keys that compare as equal. */
module CanonicalJsonLaws {
  import opened CanonicalJson

  // ---------- quoted strings can be read back, whatever follows ----------

  datatype Read = Unreadable | Read(text: Text, rest: Text)

  function HexValue(u: CodeUnit): int {
    if 0x30 <= u <= 0x39 then u - 0x30 else if 0x61 <= u <= 0x66 then u - 0x61 + 10 else 0
  }

  function Power16(digits: nat): nat {
    if digits == 0 then 1 else 16 * Power16(digits - 1)
  }

  function HexNumber(t: Text): int {
    if t == [] then 0 else HexNumber(t[..|t| - 1]) * 16 + HexValue(t[|t| - 1])
  }

  function UnescapeLetter(u: CodeUnit): CodeUnit {
    if u == 0x62 then 0x08
    else if u == 0x74 then 0x09
    else if u == 0x6E then 0x0A
    else if u == 0x66 then 0x0C
    else if u == 0x72 then 0x0D
    else u
  }

  datatype Unit = NoUnit | Unit(u: CodeUnit, width: nat)

  /** The code unit that the text's first escape sequence, or first plain unit, stands for. */
  function FirstUnitOf(t: Text): (r: Unit)
    ensures r.Unit? ==> 1 <= r.width <= |t|
  {
    if t == [] then NoUnit
    else if t[0] != BACKSLASH then Unit(t[0], 1)
    else if |t| >= 2 && t[1] != LETTER_U then Unit(UnescapeLetter(t[1]), 2)
    else if |t| >= 6 && 0 <= HexNumber(t[2..6]) < 0x1_0000 then Unit(HexNumber(t[2..6]), 6)
    else NoUnit
  }

  /** Reads a JSON string body up to its closing quote (RFC 8259, section 7). */
  function Unquote(t: Text): Read
    decreases |t|
  {
    if t != [] && t[0] == QUOTE then Read([], t[1..])
    else
      match FirstUnitOf(t)
      case NoUnit => Unreadable
      case Unit(u, width) => Prepend(u, Unquote(t[width..]))
  }

  function Prepend(u: CodeUnit, r: Read): Read {
    if r.Unreadable? then r else Read([u] + r.text, r.rest)
  }

  lemma UnquoteUnit(u: CodeUnit, t: Text)
    ensures Unquote(EscapeUnit(u) + t) == Prepend(u, Unquote(t))
  {
    var e := EscapeUnit(u);
    assert (e + t)[|e|..] == t;
    EscapedUnit(u, t);
  }

  lemma EscapedUnit(u: CodeUnit, t: Text)
    ensures FirstUnitOf(EscapeUnit(u) + t) == Unit(u, |EscapeUnit(u)|)
    ensures (EscapeUnit(u) + t)[0] != QUOTE
  {
    if u !in SHORT_ESCAPES && (u < 0x20 || IsHighSurrogate(u) || IsLowSurrogate(u)) {
      HexReadsBack(u, 4);
      assert (EscapeUnit(u) + t)[2..6] == Hex(u, 4);
    }
  }

  lemma {:induction false} HexReadsBack(n: nat, digits: nat)
    requires n < Power16(digits)
    ensures HexNumber(Hex(n, digits)) == n
  {
    if digits > 0 {
      HexReadsBack(n / 16, digits - 1);
      assert Hex(n, digits)[..digits - 1] == Hex(n / 16, digits - 1);
    }
  }

  lemma UnquoteRaw(u: CodeUnit, t: Text)
    requires u != QUOTE && u != BACKSLASH
    ensures Unquote([u] + t) == Prepend(u, Unquote(t))
  {
    assert ([u] + t)[1..] == t;
  }

  lemma UnquoteFirst(s: Text, more: Text, rest: Text)
    requires s != [] && Unquote(more) == Read(s[FirstWidth(s)..], rest)
    ensures Unquote(EscapeFirst(s) + more) == Read(s, rest)
  {
    if FirstWidth(s) == 2 {
      UnquoteRaw(s[1], more);
      UnquoteRaw(s[0], [s[1]] + more);
      assert EscapeFirst(s) + more == [s[0]] + ([s[1]] + more);
      assert s == [s[0]] + ([s[1]] + s[2..]);
    } else {
      UnquoteUnit(s[0], more);
      assert s == [s[0]] + s[1..];
    }
  }

  lemma EscapeSplit(s: Text, tail: Text)
    requires s != []
    ensures Escape(s) + tail == EscapeFirst(s) + (Escape(s[FirstWidth(s)..]) + tail)
  {
  }

  lemma {:induction false} UnquoteEscaped(s: Text, rest: Text, t: Text)
    requires t == Escape(s) + ([QUOTE] + rest)
    ensures Unquote(t) == Read(s, rest)
    decreases |s|
  {
    if s == [] {
      assert t == [QUOTE] + rest;
    } else {
      var more := Escape(s[FirstWidth(s)..]) + ([QUOTE] + rest);
      UnquoteEscaped(s[FirstWidth(s)..], rest, more);
      UnquoteFirst(s, more, rest);
      EscapeSplit(s, [QUOTE] + rest);
    }
  }

  lemma UnquoteQuoted(a: Text, r: Text, t: Text)
    requires [QUOTE] + t == Quote(a) + r
    ensures Unquote(t) == Read(a, r)
  {
    var escaped := Escape(a) + ([QUOTE] + r);
    assert [QUOTE] + t == [QUOTE] + escaped;
    SameTail(QUOTE, t, escaped);
    UnquoteEscaped(a, r, t);
  }

  lemma QuotePrefixFree(a: Text, b: Text, r: Text, s: Text)
    requires Quote(a) + r == Quote(b) + s
    ensures a == b && r == s
  {
    var t := (Quote(a) + r)[1..];
    assert [QUOTE] + t == Quote(a) + r;
    UnquoteQuoted(a, r, t);
    UnquoteQuoted(b, s, t);
  }

  lemma SameTail(u: CodeUnit, r: Text, s: Text)
    requires [u] + r == [u] + s
    ensures r == s
  {
    assert ([u] + r)[1..] == r && ([u] + s)[1..] == s;
  }

  // ---------- the ordered tree that the serialiser walks ----------

  /** The value with every object's entries sorted, and `undefined` and infinities read as null. */
  function Arrange(le: KeyOrder, value: Json): (r: Json)
    decreases value, 1
  {
    match value
    case Undefined => Null
    case Infinity(_) => Null
    case Array(items) => Array(ArrangeItems(le, value, items))
    case Object(entries) => Object(ArrangeEntries(le, value, SortEntries(le, entries)))
    case _ => value
  }

  function ArrangeItems(le: KeyOrder, context: Json, items: seq<Json>): (r: seq<Json>)
    requires forall i :: 0 <= i < |items| ==> items[i] < context
    ensures |r| == |items|
    decreases context, 0, |items|
  {
    if items == [] then [] else [Arrange(le, items[0])] + ArrangeItems(le, context, items[1..])
  }

  function ArrangeEntries(le: KeyOrder, context: Json, entries: seq<Entry>): (r: seq<Entry>)
    requires forall i :: 0 <= i < |entries| ==> entries[i].value < context
    ensures |r| == |entries|
    decreases context, 0, |entries|
  {
    if entries == [] then []
    else [Entry(entries[0].key, Arrange(le, entries[0].value))] + ArrangeEntries(le, context, entries[1..])
  }

  // ---------- prefix-freeness ----------

  /** Text that can follow a value inside a larger text. */
  predicate Delimited(t: Text) {
    t == [] || t[0] in {COMMA, RIGHT_BRACKET, RIGHT_BRACE}
  }

  lemma {:induction false} NumberPrefixFree(a: Text, b: Text, r: Text, s: Text)
    requires forall i :: 0 <= i < |a| ==> IsNumberUnit(a[i])
    requires forall i :: 0 <= i < |b| ==> IsNumberUnit(b[i])
    requires Delimited(r) && Delimited(s) && a + r == b + s
    ensures a == b && r == s
  {
    if |a| < |b| {
      LongerNumber(a, b, r, s);
    } else if |b| < |a| {
      LongerNumber(b, a, s, r);
    } else {
      assert (a + r)[..|a|] == a && (b + s)[..|a|] == b;
      assert (a + r)[|a|..] == r && (b + s)[|a|..] == s;
    }
  }

  lemma LongerNumber(a: Text, b: Text, r: Text, s: Text)
    requires forall i :: 0 <= i < |b| ==> IsNumberUnit(b[i])
    requires Delimited(r) && |a| < |b|
    ensures a + r != b + s
  {
    assert |a + r| == |a| || (a + r)[|a|] == r[0];
    assert (b + s)[|a|] == b[|a|];
    assert IsNumberUnit(b[|a|]);
  }

  /** What follows the first part of a joined list. */
  function After(parts: seq<Text>, close: Text): Text {
    if parts == [] then close else [COMMA] + Join(parts) + close
  }

  lemma JoinCons(part: Text, parts: seq<Text>, close: Text)
    ensures Join([part] + parts) + close == part + After(parts, close)
  {
    assert ([part] + parts)[1..] == parts;
    if parts != [] {
      assert Join([part] + parts) + close == part + ([COMMA] + Join(parts) + close);
    }
  }

  lemma FirstUnit(le: KeyOrder, v: Json)
    ensures StableStringify(le, v) != []
    ensures v.Null? || v.Undefined? || v.Infinity? ==> StableStringify(le, v)[0] == 0x6E
    ensures v.Boolean? ==> StableStringify(le, v)[0] == if v.flag then 0x74 else 0x66
    ensures v.Number? ==> StableStringify(le, v)[0] == 0x2D || 0x30 <= StableStringify(le, v)[0] <= 0x39
    ensures v.String? ==> StableStringify(le, v)[0] == QUOTE
    ensures v.Array? ==> StableStringify(le, v)[0] == LEFT_BRACKET
    ensures v.Object? ==> StableStringify(le, v)[0] == LEFT_BRACE
  {
  }

  lemma {:induction false} ValuePrefixFree(le: KeyOrder, a: Json, b: Json, r: Text, s: Text)
    requires Delimited(r) && Delimited(s)
    requires StableStringify(le, a) + r == StableStringify(le, b) + s
    ensures Arrange(le, a) == Arrange(le, b) && r == s
    decreases a, 1
  {
    FirstUnit(le, a);
    FirstUnit(le, b);
    var ta, tb := StableStringify(le, a), StableStringify(le, b);
    assert (ta + r)[0] == ta[0] && (tb + s)[0] == tb[0];
    match a {
      case Number(x) => NumberPrefixFree(x, b.decimal, r, s);
      case String(x) => QuotePrefixFree(x, b.text, r, s);
      case Array(xs) =>
        Bracketed(LEFT_BRACKET, Join(StringifyItems(le, a, xs)), RIGHT_BRACKET, r);
        Bracketed(LEFT_BRACKET, Join(StringifyItems(le, b, b.items)), RIGHT_BRACKET, s);
        ItemsPrefixFree(le, a, b, xs, b.items, r, s);
      case Object(es) =>
        var sa, sb := SortEntries(le, es), SortEntries(le, b.entries);
        Bracketed(LEFT_BRACE, Join(StringifyEntries(le, a, sa)), RIGHT_BRACE, r);
        Bracketed(LEFT_BRACE, Join(StringifyEntries(le, b, sb)), RIGHT_BRACE, s);
        EntriesPrefixFree(le, a, b, sa, sb, r, s);
      case _ =>
        assert ta == tb;
        assert (ta + r)[|ta|..] == r && (tb + s)[|tb|..] == s;
    }
  }

  lemma Bracketed(open: CodeUnit, body: Text, close: CodeUnit, r: Text)
    ensures ([open] + body + [close] + r)[1..] == body + ([close] + r)
  {
  }

  lemma {:induction false} ItemsPrefixFree(
      le: KeyOrder, ca: Json, cb: Json, xs: seq<Json>, ys: seq<Json>, r: Text, s: Text)
    requires forall i :: 0 <= i < |xs| ==> xs[i] < ca
    requires forall i :: 0 <= i < |ys| ==> ys[i] < cb
    requires Join(StringifyItems(le, ca, xs)) + ([RIGHT_BRACKET] + r) ==
               Join(StringifyItems(le, cb, ys)) + ([RIGHT_BRACKET] + s)
    ensures ArrangeItems(le, ca, xs) == ArrangeItems(le, cb, ys) && r == s
    decreases ca, 0, |xs|, 1
  {
    var ra, rb := [RIGHT_BRACKET] + r, [RIGHT_BRACKET] + s;
    ItemsStart(le, ca, xs, ra);
    ItemsStart(le, cb, ys, rb);
    if xs == [] && ys == [] {
      SameTail(RIGHT_BRACKET, r, s);
    } else if xs != [] && ys != [] {
      SplitItems(le, ca, xs, ra);
      SplitItems(le, cb, ys, rb);
      var fa, fb := After(StringifyItems(le, ca, xs[1..]), ra), After(StringifyItems(le, cb, ys[1..]), rb);
      ValuePrefixFree(le, xs[0], ys[0], fa, fb);
      ItemsAfterPrefixFree(le, ca, cb, xs[1..], ys[1..], r, s);
    }
  }

  lemma {:induction false} ItemsAfterPrefixFree(
      le: KeyOrder, ca: Json, cb: Json, xs: seq<Json>, ys: seq<Json>, r: Text, s: Text)
    requires forall i :: 0 <= i < |xs| ==> xs[i] < ca
    requires forall i :: 0 <= i < |ys| ==> ys[i] < cb
    requires After(StringifyItems(le, ca, xs), [RIGHT_BRACKET] + r) ==
               After(StringifyItems(le, cb, ys), [RIGHT_BRACKET] + s)
    ensures ArrangeItems(le, ca, xs) == ArrangeItems(le, cb, ys) && r == s
    decreases ca, 0, |xs|, 2
  {
    var ra, rb := [RIGHT_BRACKET] + r, [RIGHT_BRACKET] + s;
    var fa, fb := After(StringifyItems(le, ca, xs), ra), After(StringifyItems(le, cb, ys), rb);
    assert fa[0] == (if xs == [] then RIGHT_BRACKET else COMMA) && fb[0] == (if ys == [] then RIGHT_BRACKET else COMMA);
    if xs == [] {
      SameTail(RIGHT_BRACKET, r, s);
    } else {
      var ja, jb := Join(StringifyItems(le, ca, xs)) + ra, Join(StringifyItems(le, cb, ys)) + rb;
      assert fa == [COMMA] + ja && fb == [COMMA] + jb;
      SameTail(COMMA, ja, jb);
      ItemsPrefixFree(le, ca, cb, xs, ys, r, s);
    }
  }

  /** A list closes at once exactly when it is empty. */
  lemma ItemsStart(le: KeyOrder, context: Json, xs: seq<Json>, close: Text)
    requires forall i :: 0 <= i < |xs| ==> xs[i] < context
    requires close != [] && close[0] == RIGHT_BRACKET
    ensures xs == [] ==> Join(StringifyItems(le, context, xs)) + close == close
    ensures xs != [] ==> (Join(StringifyItems(le, context, xs)) + close)[0] != RIGHT_BRACKET
  {
    if xs == [] {
      assert Join(StringifyItems(le, context, xs)) + close == close;
    } else {
      FirstUnit(le, xs[0]);
      SplitItems(le, context, xs, close);
    }
  }

  /** The joined items start with the first item, then what is after it. */
  lemma SplitItems(le: KeyOrder, context: Json, items: seq<Json>, close: Text)
    requires items != [] && forall i :: 0 <= i < |items| ==> items[i] < context
    ensures Join(StringifyItems(le, context, items)) + close
         == StableStringify(le, items[0]) + After(StringifyItems(le, context, items[1..]), close)
  {
    JoinCons(StableStringify(le, items[0]), StringifyItems(le, context, items[1..]), close);
  }

  lemma {:induction false} EntriesPrefixFree(
      le: KeyOrder, ca: Json, cb: Json, xs: seq<Entry>, ys: seq<Entry>, r: Text, s: Text)
    requires forall i :: 0 <= i < |xs| ==> xs[i].value < ca
    requires forall i :: 0 <= i < |ys| ==> ys[i].value < cb
    requires Join(StringifyEntries(le, ca, xs)) + ([RIGHT_BRACE] + r) ==
               Join(StringifyEntries(le, cb, ys)) + ([RIGHT_BRACE] + s)
    ensures ArrangeEntries(le, ca, xs) == ArrangeEntries(le, cb, ys) && r == s
    decreases ca, 0, |xs|, 1
  {
    var ra, rb := [RIGHT_BRACE] + r, [RIGHT_BRACE] + s;
    EntriesStart(le, ca, xs, ra);
    EntriesStart(le, cb, ys, rb);
    if xs == [] && ys == [] {
      SameTail(RIGHT_BRACE, r, s);
    } else if xs != [] && ys != [] {
      SplitEntries(le, ca, xs, ra);
      SplitEntries(le, cb, ys, rb);
      var fa, fb := After(StringifyEntries(le, ca, xs[1..]), ra), After(StringifyEntries(le, cb, ys[1..]), rb);
      var va, vb := StableStringify(le, xs[0].value) + fa, StableStringify(le, ys[0].value) + fb;
      QuotePrefixFree(xs[0].key, ys[0].key, [COLON] + va, [COLON] + vb);
      SameTail(COLON, va, vb);
      ValuePrefixFree(le, xs[0].value, ys[0].value, fa, fb);
      EntriesAfterPrefixFree(le, ca, cb, xs[1..], ys[1..], r, s);
    }
  }

  lemma {:induction false} EntriesAfterPrefixFree(
      le: KeyOrder, ca: Json, cb: Json, xs: seq<Entry>, ys: seq<Entry>, r: Text, s: Text)
    requires forall i :: 0 <= i < |xs| ==> xs[i].value < ca
    requires forall i :: 0 <= i < |ys| ==> ys[i].value < cb
    requires After(StringifyEntries(le, ca, xs), [RIGHT_BRACE] + r) ==
               After(StringifyEntries(le, cb, ys), [RIGHT_BRACE] + s)
    ensures ArrangeEntries(le, ca, xs) == ArrangeEntries(le, cb, ys) && r == s
    decreases ca, 0, |xs|, 2
  {
    var ra, rb := [RIGHT_BRACE] + r, [RIGHT_BRACE] + s;
    var fa, fb := After(StringifyEntries(le, ca, xs), ra), After(StringifyEntries(le, cb, ys), rb);
    assert fa[0] == (if xs == [] then RIGHT_BRACE else COMMA) && fb[0] == (if ys == [] then RIGHT_BRACE else COMMA);
    if xs == [] {
      SameTail(RIGHT_BRACE, r, s);
    } else {
      var ja, jb := Join(StringifyEntries(le, ca, xs)) + ra, Join(StringifyEntries(le, cb, ys)) + rb;
      assert fa == [COMMA] + ja && fb == [COMMA] + jb;
      SameTail(COMMA, ja, jb);
      EntriesPrefixFree(le, ca, cb, xs, ys, r, s);
    }
  }

  /** A list closes at once exactly when it is empty. */
  lemma EntriesStart(le: KeyOrder, context: Json, xs: seq<Entry>, close: Text)
    requires forall i :: 0 <= i < |xs| ==> xs[i].value < context
    requires close != [] && close[0] == RIGHT_BRACE
    ensures xs == [] ==> Join(StringifyEntries(le, context, xs)) + close == close
    ensures xs != [] ==> (Join(StringifyEntries(le, context, xs)) + close)[0] != RIGHT_BRACE
  {
    if xs == [] {
      assert Join(StringifyEntries(le, context, xs)) + close == close;
    } else {
      FirstUnit(le, xs[0].value);
      SplitEntries(le, context, xs, close);
    }
  }

  /** The joined entries start with the first key, then its value, then what is after it. */
  lemma SplitEntries(le: KeyOrder, context: Json, entries: seq<Entry>, close: Text)
    requires entries != [] && forall i :: 0 <= i < |entries| ==> entries[i].value < context
    ensures Join(StringifyEntries(le, context, entries)) + close
         == Quote(entries[0].key)
            + ([COLON] + (StableStringify(le, entries[0].value) +
                After(StringifyEntries(le, context, entries[1..]), close)))
  {
    var part := Quote(entries[0].key) + [COLON] + StableStringify(le, entries[0].value);
    var rest := StringifyEntries(le, context, entries[1..]);
    assert StringifyEntries(le, context, entries) == [part] + rest;
    JoinCons(part, rest, close);
    Regrouped(Quote(entries[0].key), [COLON], StableStringify(le, entries[0].value), After(rest, close));
  }

  lemma Regrouped(a: Text, b: Text, c: Text, d: Text)
    ensures a + b + c + d == a + (b + (c + d))
  {
  }
}
