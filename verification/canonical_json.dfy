/** The canonical JSON text behind event fingerprints and idempotency request hashes.
    A JavaScript string is a sequence of UTF-16 code units; a number is the decimal text
    that JavaScript prints for it (so -0 and 0 are one number), but a number too large for a double,
    such as 1e400, is parsed as an infinity; an object is the list of its own entries in insertion
    order. */
module CanonicalJson {

  type CodeUnit = u: int | 0 <= u < 0x1_0000

  type Text = seq<CodeUnit>

  const QUOTE: CodeUnit := 0x22
  const COMMA: CodeUnit := 0x2C
  const COLON: CodeUnit := 0x3A
  const LEFT_BRACKET: CodeUnit := 0x5B
  const BACKSLASH: CodeUnit := 0x5C
  const RIGHT_BRACKET: CodeUnit := 0x5D
  const LETTER_U: CodeUnit := 0x75
  const LEFT_BRACE: CodeUnit := 0x7B
  const RIGHT_BRACE: CodeUnit := 0x7D
  const NULL_TEXT: Text := [0x6E, 0x75, 0x6C, 0x6C]
  const TRUE_TEXT: Text := [0x74, 0x72, 0x75, 0x65]
  const FALSE_TEXT: Text := [0x66, 0x61, 0x6C, 0x73, 0x65]

  /** The characters of a printed number: digits, sign, point and exponent. */
  predicate IsNumberUnit(u: CodeUnit) {
    0x30 <= u <= 0x39 || u in {0x2B, 0x2D, 0x2E, 0x65}
  }

  type NumberText = t: Text |
      && t != []
      && (t[0] == 0x2D || 0x30 <= t[0] <= 0x39)
      && (forall i :: 0 <= i < |t| ==> IsNumberUnit(t[i]))
    witness [0x30]

  datatype Json =
    | Null
    | Undefined
    | Boolean(flag: bool)
    | Number(decimal: NumberText)
    | Infinity(negative: bool)
    | String(text: Text)
    | Array(items: seq<Json>)
    | Object(entries: seq<Entry>)

  datatype Entry = Entry(key: Text, value: Json)

  /** What a JSON value means once the order of object keys is forgotten, and an infinity, which JSON
      cannot write, is taken for null. */
  datatype Meaning =
    | MNull
    | MBoolean(flag: bool)
    | MNumber(decimal: NumberText)
    | MString(text: Text)
    | MArray(items: seq<Meaning>)
    | MObject(fields: map<Text, Meaning>)

  /** `left.localeCompare(right) <= 0`. */
  type KeyOrder = (Text, Text) -> bool

  ghost predicate WeakOrder(le: KeyOrder) {
    && (forall a, b :: le(a, b) || le(b, a))
    && (forall a, b, c :: le(a, b) && le(b, c) ==> le(a, c))
  }

  // ---------- JSON.stringify on strings ----------

  predicate IsHighSurrogate(u: CodeUnit) { 0xD800 <= u <= 0xDBFF }

  predicate IsLowSurrogate(u: CodeUnit) { 0xDC00 <= u <= 0xDFFF }

  function HexDigit(n: nat): CodeUnit
    requires n < 16
  {
    if n < 10 then 0x30 + n else 0x61 + n - 10
  }

  /** The number in the given count of hexadecimal digits. */
  function Hex(n: nat, digits: nat): (t: Text)
    ensures |t| == digits
  {
    if digits == 0 then [] else Hex(n / 16, digits - 1) + [HexDigit(n % 16)]
  }

  function UnicodeEscape(u: CodeUnit): Text {
    [BACKSLASH, LETTER_U] + Hex(u, 4)
  }

  const SHORT_ESCAPES: map<CodeUnit, CodeUnit> :=
    map[0x08 := 0x62, 0x09 := 0x74, 0x0A := 0x6E, 0x0C := 0x66, 0x0D := 0x72, QUOTE := QUOTE, BACKSLASH := BACKSLASH]

  function EscapeUnit(u: CodeUnit): Text {
    if u in SHORT_ESCAPES then [BACKSLASH, SHORT_ESCAPES[u]]
    else if u < 0x20 || IsHighSurrogate(u) || IsLowSurrogate(u) then UnicodeEscape(u)
    else [u]
  }

  /** The number of code units in the string's first code point. */
  function FirstWidth(s: Text): nat
    requires s != []
  {
    if |s| >= 2 && IsHighSurrogate(s[0]) && IsLowSurrogate(s[1]) then 2 else 1
  }

  function EscapeFirst(s: Text): Text
    requires s != []
  {
    if FirstWidth(s) == 2 then s[..2] else EscapeUnit(s[0])
  }

  function Escape(s: Text): Text {
    if s == [] then [] else EscapeFirst(s) + Escape(s[FirstWidth(s)..])
  }

  function Quote(s: Text): Text {
    [QUOTE] + Escape(s) + [QUOTE]
  }

  // ---------- the serialiser ----------

  function Join(parts: seq<Text>): Text {
    if parts == [] then []
    else if |parts| == 1 then parts[0]
    else parts[0] + [COMMA] + Join(parts[1..])
  }

  function InsertEntry(le: KeyOrder, e: Entry, sorted: seq<Entry>): (r: seq<Entry>)
    ensures |r| == |sorted| + 1
    ensures forall x :: x in r <==> x == e || x in sorted
  {
    if sorted == [] || le(e.key, sorted[0].key) then [e] + sorted
    else [sorted[0]] + InsertEntry(le, e, sorted[1..])
  }

  /** Array.prototype.sort with the comparator: a stable sort by key. */
  function SortEntries(le: KeyOrder, entries: seq<Entry>): (r: seq<Entry>)
    ensures |r| == |entries|
    ensures forall x :: x in r <==> x in entries
    ensures forall i :: 0 <= i < |r| ==> r[i] in entries
  {
    if entries == [] then []
    else
      assert entries == [entries[0]] + entries[1..];
      InsertEntry(le, entries[0], SortEntries(le, entries[1..]))
  }

  function StableStringify(le: KeyOrder, value: Json): Text
    decreases value, 1
  {
    match value
    case Null => NULL_TEXT
    case Undefined => NULL_TEXT
    case Infinity(_) => NULL_TEXT
    case Boolean(flag) => if flag then TRUE_TEXT else FALSE_TEXT
    case Number(decimal) => decimal
    case String(text) => Quote(text)
    case Array(items) => [LEFT_BRACKET] + Join(StringifyItems(le, value, items)) + [RIGHT_BRACKET]
    case Object(entries) =>
      [LEFT_BRACE] + Join(StringifyEntries(le, value, SortEntries(le, entries))) + [RIGHT_BRACE]
  }

  function StringifyItems(le: KeyOrder, context: Json, items: seq<Json>): (parts: seq<Text>)
    requires forall i :: 0 <= i < |items| ==> items[i] < context
    decreases context, 0, |items|
  {
    if items == [] then []
    else [StableStringify(le, items[0])] + StringifyItems(le, context, items[1..])
  }

  function StringifyEntries(le: KeyOrder, context: Json, entries: seq<Entry>): (parts: seq<Text>)
    requires forall i :: 0 <= i < |entries| ==> entries[i].value < context
    decreases context, 0, |entries|
  {
    if entries == [] then []
    else
      [Quote(entries[0].key) + [COLON] + StableStringify(le, entries[0].value)]
      + StringifyEntries(le, context, entries[1..])
  }
}
