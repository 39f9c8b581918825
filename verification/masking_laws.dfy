/** What masking leaves visible, path by path. */
module MaskingLaws {
  import opened AttributeKeys
  import opened CanonicalJson
  import opened Masking

  datatype Step = Key(name: Text) | Index(i: nat)

  datatype Found = Missing | At(value: Json)

  function FindEntry(entries: seq<Entry>, key: Text): (i: int)
    ensures -1 <= i < |entries|
    ensures i >= 0 ==> entries[i].key == key
    ensures i < 0 ==> forall k :: 0 <= k < |entries| ==> entries[k].key != key
  {
    if entries == [] then -1
    else if entries[0].key == key then 0
    else
      var i := FindEntry(entries[1..], key);
      assert forall k :: 0 < k < |entries| ==> entries[k] == entries[1..][k - 1];
      if i < 0 then -1 else i + 1
  }

  /** The value at the end of a path of keys and indexes. */
  function Lookup(value: Json, path: seq<Step>): Found {
    if path == [] then At(value)
    else
      match (value, path[0])
      case (Array(items), Index(i)) => if i < |items| then Lookup(items[i], path[1..]) else Missing
      case (Object(entries), Key(name)) =>
        var i := FindEntry(entries, name);
        if i < 0 then Missing else Lookup(entries[i].value, path[1..])
      case _ => Missing
  }

  /** Where a path lies: above every secret key, exactly at one, or below one. */
  datatype Zone = Open | AtSecret | BelowSecret

  function ZoneOf(rules: Rules, path: seq<Step>): Zone {
    if path == [] then Open
    else if path[0].Key? && rules.isSecretKey(path[0].name) then if |path| == 1 then AtSecret else BelowSecret
    else ZoneOf(rules, path[1..])
  }

  /** What becomes of a text that no secret key hides: under a user or an address key it becomes a
      pseudonym, and anywhere else, items of arrays under such keys included, it is rewritten. */
  function TextAt(rules: Rules, path: seq<Step>, text: Text): Text {
    if path == [] || path[|path| - 1].Index? then rules.maskText(text)
    else
      var key := path[|path| - 1].name;
      if rules.isUserKey(key) then rules.userPseudonym(text)
      else if rules.isAddressKey(key) then rules.addressPseudonym(text)
      else rules.maskText(text)
  }

  /** Scalars stay, strings become what the end of their path asks for, arrays keep their length and
      objects their keys. */
  predicate ShownAt(rules: Rules, path: seq<Step>, before: Json, after: Json) {
    match before
    case String(text) => after == String(TextAt(rules, path, text))
    case Array(items) => after.Array? && |after.items| == |items|
    case Object(entries) =>
      && after.Object?
      && |after.entries| == |entries|
      && forall i :: 0 <= i < |entries| ==> after.entries[i].key == entries[i].key
    case _ => after == before
  }

  predicate IsMark(value: Json) {
    value.String? && value.text == Codes("[REDACTED]")
  }

  lemma MarkSpelledOut()
    ensures REDACTED == Codes("[REDACTED]")
  {
  }

  /** The whole effect of masking at one path. */
  predicate MaskedAt(rules: Rules, path: seq<Step>, before: Found, after: Found) {
    match ZoneOf(rules, path)
    case BelowSecret => after.Missing?
    case AtSecret => if before.Missing? then after.Missing? else after.At? && IsMark(after.value)
    case Open =>
      if before.Missing? then after.Missing? else after.At? && ShownAt(rules, path, before.value, after.value)
  }

  lemma {:induction false} SameEntryFound(xs: seq<Entry>, ys: seq<Entry>, key: Text)
    requires |xs| == |ys| && forall i :: 0 <= i < |xs| ==> xs[i].key == ys[i].key
    ensures FindEntry(xs, key) == FindEntry(ys, key)
  {
    if xs != [] && xs[0].key != key { SameEntryFound(xs[1..], ys[1..], key); }
  }

  /** At every path, a masked value shows what the path allows and nothing else: the mark under a
      secret key, nothing below it, and everywhere else the same shape with every text replaced as
      the end of its path asks. */
  lemma {:induction false} MaskedPath(rules: Rules, value: Json, depth: nat, path: seq<Step>)
    requires MaskValue(rules, value, depth).Safe?
    ensures MaskedAt(rules, path, Lookup(value, path), Lookup(MaskValue(rules, value, depth).value, path))
    decreases |path|
  {
    var masked := MaskValue(rules, value, depth).value;
    if path != [] {
      match (value, path[0]) {
        case (Array(items), Index(i)) =>
          if i < |items| {
            MaskedPath(rules, items[i], depth + 1, path[1..]);
            SameEnd(rules, path, items[i]);
          }
        case (Object(entries), Key(name)) =>
          SameEntryFound(entries, masked.entries, name);
          var i := FindEntry(entries, name);
          if i >= 0 {
            MaskedEntryPath(rules, entries[i], masked.entries[i].value, depth, path);
          }
        case _ =>
      }
    }
  }

  lemma {:induction false} MaskedEntryPath(rules: Rules, entry: Entry, masked: Json, depth: nat, path: seq<Step>)
    requires path != [] && path[0] == Key(entry.key) && MaskEntry(rules, entry, depth) == Safe(masked)
    ensures MaskedAt(rules, path, Lookup(entry.value, path[1..]), Lookup(masked, path[1..]))
    decreases |path|, 0
  {
    MarkSpelledOut();
    if !rules.isSecretKey(entry.key) {
      if entry.value.String? && (rules.isUserKey(entry.key) || rules.isAddressKey(entry.key)) {
        StringHasNoPaths(entry.value.text, path[1..]);
        StringHasNoPaths(masked.text, path[1..]);
        assert path[1..] == [] ==> ZoneOf(rules, path) == Open;
      } else {
        MaskedPath(rules, entry.value, depth + 1, path[1..]);
        SameEnd(rules, path, entry.value);
      }
    }
  }

  /** The rest of a path ends as the path does. Where it ends at once, a text is rewritten, unless its
      key asks for a pseudonym. */
  lemma SameEnd(rules: Rules, path: seq<Step>, value: Json)
    requires path != []
    requires path[0].Key? && value.String? ==> !rules.isUserKey(path[0].name) && !rules.isAddressKey(path[0].name)
    ensures forall before, after ::
              Lookup(value, path[1..]) == At(before) && ShownAt(rules, path[1..], before, after) ==>
                                      ShownAt(rules, path, before, after)
  {
    if |path| > 1 { assert path[1..][|path| - 2] == path[|path| - 1]; }
  }

  lemma StringHasNoPaths(text: Text, path: seq<Step>)
    ensures Lookup(String(text), path) == if path == [] then At(String(text)) else Missing
  {
  }

  /** A secret key at any depth of a masked value holds the mark. */
  lemma SecretsRedacted(rules: Rules, value: Json, depth: nat, path: seq<Step>, key: Text)
    requires MaskValue(rules, value, depth).Safe? && rules.isSecretKey(key)
    ensures var found := Lookup(MaskValue(rules, value, depth).value, path + [Key(key)]);
            found.Missing? || IsMark(found.value)
  {
    MaskedPath(rules, value, depth, path + [Key(key)]);
    LastKeySecret(rules, path, key);
  }

  lemma {:induction false} LastKeySecret(rules: Rules, path: seq<Step>, key: Text)
    requires rules.isSecretKey(key)
    ensures ZoneOf(rules, path + [Key(key)]) != Open
  {
    if path != [] {
      assert (path + [Key(key)])[1..] == path[1..] + [Key(key)];
      LastKeySecret(rules, path[1..], key);
    }
  }

  // ---------- flat attributes, as CSV rows give them ----------

  /** The attributes of a CSV record are strings; they are maskable unless a key is forbidden. */
  lemma FlatMaskableIff(rules: Rules, entries: seq<Entry>)
    requires forall i :: 0 <= i < |entries| ==> entries[i].value.String?
    ensures MaskValue(rules, Object(entries), 0).Safe? <==>
              forall i :: 0 <= i < |entries| ==> !Forbidden(entries[i].key)
  {
    forall i | 0 <= i < |entries|
      ensures MaskEntry(rules, entries[i], 0).Safe? <==> !Forbidden(entries[i].key)
    {
    }
  }
}
