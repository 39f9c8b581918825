/** Masking of event attributes before they are stored, and the limits that the ingress puts on
    a JSON payload. Values are what JSON.parse gives; the regular expressions that classify keys
    and rewrite strings are parameters. */
module Masking {
  import opened AttributeKeys
  import opened CanonicalJson

  const MAX_DEPTH := 6
  const MAX_ITEMS := 500
  const MAX_PROPERTIES := 1_000
  const MAX_STRING := 10_000

  /** [REDACTED] */
  const REDACTED: Text := [0x5B, 0x52, 0x45, 0x44, 0x41, 0x43, 0x54, 0x45, 0x44, 0x5D]
  /** __proto__ */
  const PROTO: Text := [0x5F, 0x5F, 0x70, 0x72, 0x6F, 0x74, 0x6F, 0x5F, 0x5F]
  /** constructor */
  const CONSTRUCTOR: Text := [0x63, 0x6F, 0x6E, 0x73, 0x74, 0x72, 0x75, 0x63, 0x74, 0x6F, 0x72]
  /** prototype */
  const PROTOTYPE: Text := [0x70, 0x72, 0x6F, 0x74, 0x6F, 0x74, 0x79, 0x70, 0x65]

  predicate Forbidden(key: Text) {
    key == PROTO || key == CONSTRUCTOR || key == PROTOTYPE
  }

  /** The patterns for keys, the rewriting of free text, and the pseudonyms for users and addresses. */
  datatype Rules = Rules(
    isSecretKey: Text -> bool,
    isUserKey: Text -> bool,
    isAddressKey: Text -> bool,
    maskText: Text -> Text,
    userPseudonym: Text -> Text,
    addressPseudonym: Text -> Text)

  datatype Masked<+T> = Unsafe | Safe(value: T)

  // ---------- masking ----------

  /** What masking makes of a value at a depth; `Unsafe` is the error unsafe_event_attribute. */
  function MaskValue(rules: Rules, value: Json, depth: nat): (r: Masked<Json>)
    decreases value, 1
  {
    match value
    case Null => Safe(value)
    case Boolean(_) => Safe(value)
    case Number(_) => Safe(value)
    case Infinity(_) => Safe(value)
    case String(text) => Safe(String(rules.maskText(text)))
    case Array(items) =>
      if depth > MAX_DEPTH || |items| > MAX_ITEMS then Unsafe
      else
        var masked := MaskItems(rules, value, items, depth);
        if masked.Unsafe? then Unsafe else Safe(Array(masked.value))
    case Object(entries) =>
      if depth > MAX_DEPTH then Unsafe
      else
        var masked := MaskEntries(rules, value, entries, depth);
        if masked.Unsafe? then Unsafe else Safe(Object(masked.value))
    case Undefined => Unsafe
  }

  function MaskItems(rules: Rules, context: Json, items: seq<Json>, depth: nat): (r: Masked<seq<Json>>)
    requires forall i :: 0 <= i < |items| ==> items[i] < context
    ensures r.Safe? ==> |r.value| == |items|
    ensures r.Safe? <==> forall i :: 0 <= i < |items| ==> MaskValue(rules, items[i], depth + 1).Safe?
    ensures r.Safe? ==> forall i :: 0 <= i < |items| ==> MaskValue(rules, items[i], depth + 1) == Safe(r.value[i])
    decreases context, 0, |items|
  {
    if items == [] then Safe([])
    else
      var first := MaskValue(rules, items[0], depth + 1);
      var rest := MaskItems(rules, context, items[1..], depth);
      assert forall i :: 0 < i < |items| ==> items[i] == items[1..][i - 1];
      if first.Unsafe? || rest.Unsafe? then Unsafe else Safe([first.value] + rest.value)
  }

  /** One property of an object at a depth. */
  function MaskEntry(rules: Rules, entry: Entry, depth: nat): (r: Masked<Json>)
    decreases entry.value, 2
  {
    if Forbidden(entry.key) then Unsafe
    else if rules.isSecretKey(entry.key) then Safe(String(REDACTED))
    else if rules.isUserKey(entry.key) && entry.value.String? then Safe(String(rules.userPseudonym(entry.value.text)))
    else if rules.isAddressKey(entry.key) && entry.value.String? then
      Safe(String(rules.addressPseudonym(entry.value.text)))
    else MaskValue(rules, entry.value, depth + 1)
  }

  function MaskEntries(rules: Rules, context: Json, entries: seq<Entry>, depth: nat): (r: Masked<seq<Entry>>)
    requires forall i :: 0 <= i < |entries| ==> entries[i].value < context
    ensures r.Safe? ==> |r.value| == |entries|
    ensures r.Safe? <==> forall i :: 0 <= i < |entries| ==> MaskEntry(rules, entries[i], depth).Safe?
    ensures r.Safe? ==> forall i :: 0 <= i < |entries| ==>
                                      && r.value[i].key == entries[i].key
                                      && MaskEntry(rules, entries[i], depth) == Safe(r.value[i].value)
    decreases context, 0, |entries|
  {
    if entries == [] then Safe([])
    else
      var first := MaskEntry(rules, entries[0], depth);
      var rest := MaskEntries(rules, context, entries[1..], depth);
      assert forall i :: 0 < i < |entries| ==> entries[i] == entries[1..][i - 1];
      if first.Unsafe? || rest.Unsafe? then Unsafe else Safe([Entry(entries[0].key, first.value)] + rest.value)
  }

  /** `maskObject` fills a record property by property. */
  method MaskObject(rules: Rules, candidate: Json, depth: nat) returns (result: Masked<Json>)
    requires candidate.Object?
    ensures result == MaskValue(rules, candidate, depth)
  {
    if depth > MAX_DEPTH {
      return Unsafe;
    }
    var entries := candidate.entries;
    var masked: seq<Entry> := [];
    for i := 0 to |entries|
      invariant |masked| == i
      invariant forall k :: 0 <= k < i ==> masked[k].key == entries[k].key
      invariant forall k :: 0 <= k < i ==> MaskEntry(rules, entries[k], depth) == Safe(masked[k].value)
    {
      var key, value := entries[i].key, entries[i].value;
      if key == PROTO || key == CONSTRUCTOR || key == PROTOTYPE {
        return Unsafe;
      }
      if rules.isSecretKey(key) {
        masked := masked + [Entry(key, String(REDACTED))];
      } else if rules.isUserKey(key) && value.String? {
        masked := masked + [Entry(key, String(rules.userPseudonym(value.text)))];
      } else if rules.isAddressKey(key) && value.String? {
        masked := masked + [Entry(key, String(rules.addressPseudonym(value.text)))];
      } else {
        var inner := MaskValue(rules, value, depth + 1);
        if inner.Unsafe? {
          assert MaskEntry(rules, entries[i], depth).Unsafe?;
          return Unsafe;
        }
        masked := masked + [Entry(key, inner.value)];
      }
    }
    result := Safe(Object(masked));
    assert masked == MaskEntries(rules, candidate, entries, depth).value;
  }

  // ---------- the limits of the ingress ----------

  /** SAFE_ATTRIBUTE_KEY_PATTERN */
  predicate SafeKey(key: Text) {
    SafeCodes(key)
  }

  /** The properties counted so far, unless a limit was passed. */
  datatype Count = Exceeded | Count(properties: nat)

  function Visit(value: Json, depth: nat, properties: nat): (r: Count)
    decreases value, 1
  {
    if depth > MAX_DEPTH then Exceeded
    else
      match value
      case String(text) => if |text| > MAX_STRING then Exceeded else Count(properties)
      case Array(items) => if |items| > MAX_ITEMS then Exceeded else VisitItems(value, items, depth, properties)
      case Object(entries) => VisitEntries(value, entries, depth, properties)
      case _ => Count(properties)
  }

  function VisitItems(context: Json, items: seq<Json>, depth: nat, properties: nat): Count
    requires forall i :: 0 <= i < |items| ==> items[i] < context
    decreases context, 0, |items|
  {
    if items == [] then Count(properties)
    else
      match Visit(items[0], depth + 1, properties)
      case Exceeded => Exceeded
      case Count(n) => VisitItems(context, items[1..], depth, n)
  }

  function VisitEntries(context: Json, entries: seq<Entry>, depth: nat, properties: nat): Count
    requires forall i :: 0 <= i < |entries| ==> entries[i].value < context
    decreases context, 0, |entries|
  {
    if entries == [] then Count(properties)
    else if properties + 1 > MAX_PROPERTIES || !SafeKey(entries[0].key) || Forbidden(entries[0].key) then Exceeded
    else
      match Visit(entries[0].value, depth + 1, properties + 1)
      case Exceeded => Exceeded
      case Count(n) => VisitEntries(context, entries[1..], depth, n)
  }

  /** assertJsonLimits passes. */
  predicate WithinLimits(payload: Json) {
    Visit(payload, 0, 0).Count?
  }

  /** The records of a parsed payload. */
  function Records(payload: Json): seq<Json> {
    if payload.Array? then payload.items else [payload]
  }

  /** inspectIngressPayload accepts the parsed JSON. */
  predicate Admitted(payload: Json) {
    && WithinLimits(payload)
    && 1 <= |Records(payload)| <= MAX_ITEMS
    && forall i :: 0 <= i < |Records(payload)| ==> Records(payload)[i].Object?
  }

  /** JSON.parse never gives `undefined`. */
  predicate Parsed(value: Json) {
    match value
    case Undefined => false
    case Array(items) => forall i :: 0 <= i < |items| ==> Parsed(items[i])
    case Object(entries) => forall i :: 0 <= i < |entries| ==> Parsed(entries[i].value)
    case _ => true
  }

  /** The object that is masked for a record: the whole record for a GitHub delivery, otherwise
      the value of its `attributes` property. */
  predicate IsAttributesOf(attributes: Json, record: Json) {
    attributes.Object? && (attributes == record || (record.Object? && exists i ::
      0 <= i < |record.entries| && record.entries[i].value == attributes))
  }

  // ---------- admitted payloads are maskable ----------

  lemma {:induction false} VisitedIsMaskable(rules: Rules, value: Json, limit: nat, depth: nat, properties: nat)
    requires Parsed(value) && depth <= limit && Visit(value, limit, properties).Count?
    ensures MaskValue(rules, value, depth).Safe?
    decreases value, 1
  {
    match value {
      case Array(items) => VisitedItems(rules, value, items, limit, depth, properties);
      case Object(entries) => VisitedEntries(rules, value, entries, limit, depth, properties);
      case _ =>
    }
  }

  lemma {:induction false} VisitedItems(
      rules: Rules, context: Json, items: seq<Json>, limit: nat, depth: nat, properties: nat)
    requires forall i :: 0 <= i < |items| ==> items[i] < context
    requires forall i :: 0 <= i < |items| ==> Parsed(items[i])
    requires depth <= limit && VisitItems(context, items, limit, properties).Count?
    ensures MaskItems(rules, context, items, depth).Safe?
    decreases context, 0, |items|
  {
    if items != [] {
      VisitedIsMaskable(rules, items[0], limit + 1, depth + 1, properties);
      VisitedItems(rules, context, items[1..], limit, depth, Visit(items[0], limit + 1, properties).properties);
    }
  }

  lemma {:induction false} VisitedEntries(
      rules: Rules, context: Json, entries: seq<Entry>, limit: nat, depth: nat, properties: nat)
    requires forall i :: 0 <= i < |entries| ==> entries[i].value < context
    requires forall i :: 0 <= i < |entries| ==> Parsed(entries[i].value)
    requires depth <= limit && VisitEntries(context, entries, limit, properties).Count?
    ensures MaskEntries(rules, context, entries, depth).Safe?
    decreases context, 0, |entries|
  {
    if entries != [] {
      VisitedIsMaskable(rules, entries[0].value, limit + 1, depth + 1, properties + 1);
      VisitedEntries(rules, context, entries[1..], limit, depth,
                     Visit(entries[0].value, limit + 1, properties + 1).properties);
    }
  }

  lemma {:induction false} VisitedItem(context: Json, items: seq<Json>, depth: nat, properties: nat, i: nat)
      returns (n: nat)
    requires forall k :: 0 <= k < |items| ==> items[k] < context
    requires i < |items| && VisitItems(context, items, depth, properties).Count?
    ensures Visit(items[i], depth + 1, n).Count?
    decreases i
  {
    if i == 0 {
      n := properties;
    } else {
      n := VisitedItem(context, items[1..], depth, Visit(items[0], depth + 1, properties).properties, i - 1);
    }
  }

  lemma {:induction false} VisitedEntry(context: Json, entries: seq<Entry>, depth: nat, properties: nat, i: nat)
      returns (n: nat)
    requires forall k :: 0 <= k < |entries| ==> entries[k].value < context
    requires i < |entries| && VisitEntries(context, entries, depth, properties).Count?
    ensures Visit(entries[i].value, depth + 1, n).Count?
    decreases i
  {
    if i == 0 {
      n := properties + 1;
    } else {
      n := VisitedEntry(context, entries[1..], depth, Visit(entries[0].value, depth + 1, properties + 1).properties,
          i - 1);
    }
  }

  /** No record of an admitted payload is later refused for an unsafe attribute. */
  lemma AdmittedIsMaskable(rules: Rules, payload: Json, i: nat, attributes: Json)
    requires Parsed(payload) && Admitted(payload) && i < |Records(payload)|
    requires IsAttributesOf(attributes, Records(payload)[i])
    ensures MaskValue(rules, attributes, 0).Safe?
  {
    var record := Records(payload)[i];
    var limit, n := 0, 0;
    if payload.Array? {
      n := VisitedItem(payload, payload.items, 0, 0, i);
      limit := 1;
    }
    if attributes != record {
      var k :| 0 <= k < |record.entries| && record.entries[k].value == attributes;
      n := VisitedEntry(record, record.entries, limit, n, k);
      limit := limit + 1;
    }
    VisitedIsMaskable(rules, attributes, limit, 0, n);
  }
}
