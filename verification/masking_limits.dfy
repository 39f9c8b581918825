/** Exactly which values the masker refuses, and exactly which payloads pass the limits of the ingress:
    each is a condition on single paths, but for the number of properties. */
module MaskingLimits {
  import opened AttributeKeys
  import opened CanonicalJson
  import opened CanonicalJsonOrder
  import opened Masking
  import opened MaskingLaws

  predicate EndsInKey(path: seq<Step>) {
    path != [] && path[|path| - 1].Key?
  }

  function LastKey(path: seq<Step>): Text
    requires EndsInKey(path)
  {
    path[|path| - 1].name
  }

  predicate OfPrototype(key: Text) {
    key == Codes("__proto__") || key == Codes("constructor") || key == Codes("prototype")
  }

  lemma ForbiddenIff(key: Text)
    ensures Forbidden(key) <==> OfPrototype(key)
  {
  }

  lemma FoundAt(entries: seq<Entry>, i: nat)
    requires DistinctKeys(entries) && i < |entries|
    ensures FindEntry(entries, entries[i].key) == i
  {
  }

  // ---------- what the masker refuses ----------

  /** At the end of the path stands what the masker refuses: a key of the prototype, even a secret
      one; or, where no secret key hides it, an array or object more than six levels down, an array
      of more than 500 items, or nothing that JSON knows. */
  predicate Refused(rules: Rules, value: Json, depth: nat, path: seq<Step>) {
    Lookup(value, path).At? &&
    var found := Lookup(value, path).value;
    || (EndsInKey(path) && OfPrototype(LastKey(path)) && ZoneOf(rules, path[..|path| - 1]).Open?)
    || (ZoneOf(rules, path).Open?
        && (|| ((found.Array? || found.Object?) && depth + |path| > 6)
            || (found.Array? && |found.items| > 500)
            || found.Undefined?))
  }

  lemma RefusedBelow(rules: Rules, value: Json, child: Json, depth: nat, step: Step, path: seq<Step>)
    requires Lookup(value, [step] + path) == Lookup(child, path)
    requires step.Key? ==> !rules.isSecretKey(step.name)
    ensures Refused(rules, child, depth + 1, path) ==> Refused(rules, value, depth, [step] + path)
    ensures path != [] && Refused(rules, value, depth, [step] + path) ==> Refused(rules, child, depth + 1, path)
  {
    var all := [step] + path;
    assert all[1..] == path;
    if path != [] {
      assert all[..|all| - 1] == [step] + path[..|path| - 1];
      assert all[..|all| - 1][1..] == path[..|path| - 1];
      assert all[|all| - 1] == path[|path| - 1];
    }
  }

  lemma {:induction false} RefusalHasPath(rules: Rules, value: Json, depth: nat) returns (path: seq<Step>)
    requires WellFormed(value) && MaskValue(rules, value, depth).Unsafe?
    ensures Refused(rules, value, depth, path)
    decreases value
  {
    path := [];
    match value {
      case Array(items) =>
        if depth <= 6 && |items| <= 500 {
          var i :| 0 <= i < |items| && MaskValue(rules, items[i], depth + 1).Unsafe?;
          var rest := RefusalHasPath(rules, items[i], depth + 1);
          path := [Index(i)] + rest;
          RefusedBelow(rules, value, items[i], depth, Index(i), rest);
        }
      case Object(entries) =>
        if depth <= 6 {
          var i :| 0 <= i < |entries| && MaskEntry(rules, entries[i], depth).Unsafe?;
          path := RefusedEntryHasPath(rules, value, depth, i);
        }
      case _ =>
    }
  }

  lemma {:induction false} RefusedEntryHasPath(rules: Rules, value: Json, depth: nat, i: nat) returns (path: seq<Step>)
    requires WellFormed(value) && value.Object? && i < |value.entries|
    requires MaskEntry(rules, value.entries[i], depth).Unsafe?
    ensures Refused(rules, value, depth, path)
    decreases value, 0
  {
    var entry := value.entries[i];
    var step := Key(entry.key);
    FoundAt(value.entries, i);
    ForbiddenIff(entry.key);
    if Forbidden(entry.key) {
      path := [step];
      assert path[1..] == [] && path[..0] == [];
    } else {
      var rest := RefusalHasPath(rules, entry.value, depth + 1);
      path := [step] + rest;
      assert path[1..] == rest;
      RefusedBelow(rules, value, entry.value, depth, step, rest);
    }
  }

  lemma {:induction false} SafeHasNoRefusal(rules: Rules, value: Json, depth: nat, path: seq<Step>)
    requires MaskValue(rules, value, depth).Safe?
    ensures !Refused(rules, value, depth, path)
    decreases |path|
  {
    if path != [] && Lookup(value, path).At? {
      assert path == [path[0]] + path[1..];
      match (value, path[0]) {
        case (Array(items), Index(i)) =>
          SafeHasNoRefusal(rules, items[i], depth + 1, path[1..]);
          RefusedBelow(rules, value, items[i], depth, path[0], path[1..]);
        case (Object(entries), Key(name)) =>
          var i := FindEntry(entries, name);
          assert MaskEntry(rules, entries[i], depth).Safe?;
          SafeEntryHasNoRefusal(rules, value, depth, path, entries[i]);
        case _ =>
      }
    }
  }

  lemma {:induction false} SafeEntryHasNoRefusal(rules: Rules, value: Json, depth: nat, path: seq<Step>, entry: Entry)
    requires path != [] && path[0] == Key(entry.key) && MaskEntry(rules, entry, depth).Safe?
    requires Lookup(value, path) == Lookup(entry.value, path[1..])
    ensures !Refused(rules, value, depth, path)
    decreases |path|, 0
  {
    var rest := path[1..];
    assert path == [path[0]] + rest;
    ForbiddenIff(entry.key);
    if rules.isSecretKey(entry.key) {
      if rest != [] { assert path[..|path| - 1][0] == path[0]; }
    } else if entry.value.String? {
      if rest != [] { StringHasNoPaths(entry.value.text, rest); }
    } else {
      SafeHasNoRefusal(rules, entry.value, depth + 1, rest);
      RefusedBelow(rules, value, entry.value, depth, path[0], rest);
    }
  }

  /** A value is refused exactly when something refused stands at one of its paths. */
  lemma MaskableIff(rules: Rules, value: Json)
    requires WellFormed(value)
    ensures MaskValue(rules, value, 0).Safe? <==> forall path :: !Refused(rules, value, 0, path)
  {
    if MaskValue(rules, value, 0).Safe? {
      forall path ensures !Refused(rules, value, 0, path) { SafeHasNoRefusal(rules, value, 0, path); }
    } else {
      var path := RefusalHasPath(rules, value, 0);
    }
  }

  // ---------- what the ingress lets pass ----------

  /** How many properties all objects of a value have together. */
  function Properties(value: Json): nat
    decreases value, 1
  {
    match value
    case Array(items) => PropertiesOfItems(value, items)
    case Object(entries) => PropertiesOfEntries(value, entries)
    case _ => 0
  }

  function PropertiesOfItems(context: Json, items: seq<Json>): nat
    requires forall i :: 0 <= i < |items| ==> items[i] < context
    decreases context, 0, |items|
  {
    if items == [] then 0 else Properties(items[0]) + PropertiesOfItems(context, items[1..])
  }

  function PropertiesOfEntries(context: Json, entries: seq<Entry>): nat
    requires forall i :: 0 <= i < |entries| ==> entries[i].value < context
    decreases context, 0, |entries|
  {
    if entries == [] then 0
    else 1 + Properties(entries[0].value) + PropertiesOfEntries(context, entries[1..])
  }

  /** At the end of the path stands what the ingress refuses: anything more than six levels down, a
      text of more than 10,000 characters, an array of more than 500 items, or a key that does not
      fit the pattern or belongs to the prototype. */
  predicate Excessive(value: Json, depth: nat, path: seq<Step>) {
    Lookup(value, path).At? &&
    var found := Lookup(value, path).value;
    || depth + |path| > 6
    || (found.String? && |found.text| > 10_000)
    || (found.Array? && |found.items| > 500)
    || (EndsInKey(path) && (!SafeCodes(LastKey(path)) || OfPrototype(LastKey(path))))
  }

  ghost predicate Moderate(value: Json, depth: nat) {
    forall path :: !Excessive(value, depth, path)
  }

  lemma ExcessiveBelow(value: Json, child: Json, depth: nat, step: Step, path: seq<Step>)
    requires Lookup(value, [step] + path) == Lookup(child, path)
    ensures Excessive(child, depth + 1, path) ==> Excessive(value, depth, [step] + path)
    ensures path != [] && Excessive(value, depth, [step] + path) ==> Excessive(child, depth + 1, path)
  {
    var all := [step] + path;
    if path != [] { assert all[|all| - 1] == path[|path| - 1]; }
  }

  predicate FitsKey(key: Text) {
    SafeCodes(key) && !Forbidden(key)
  }

  lemma ModerateItem(value: Json, depth: nat, i: nat)
    requires value.Array? && i < |value.items| && Moderate(value, depth)
    ensures Moderate(value.items[i], depth + 1)
  {
    var item, below := value.items[i], depth + 1;
    forall path ensures !Excessive(item, below, path) {
      assert ([Index(i)] + path)[1..] == path;
      ExcessiveBelow(value, value.items[i], depth, Index(i), path);
    }
  }

  lemma ModerateEntry(value: Json, depth: nat, i: nat)
    requires value.Object? && DistinctKeys(value.entries) && i < |value.entries| && Moderate(value, depth)
    ensures FitsKey(value.entries[i].key) && Moderate(value.entries[i].value, depth + 1)
  {
    var entry, below := value.entries[i], depth + 1;
    var step := Key(entry.key);
    FoundAt(value.entries, i);
    forall path ensures !Excessive(entry.value, below, path) {
      assert ([step] + path)[1..] == path;
      ExcessiveBelow(value, entry.value, depth, step, path);
    }
    ForbiddenIff(entry.key);
    assert [step][1..] == [] && Lookup(value, [step]) == Lookup(entry.value, []);
    assert !Excessive(value, depth, [step]) && EndsInKey([step]) && LastKey([step]) == entry.key;
  }

  /** A moderate value passes with its properties counted, as long as they are not too many. */
  lemma {:induction false} ModeratePasses(value: Json, depth: nat, n: nat)
    requires WellFormed(value) && Moderate(value, depth) && n <= 1_000
    ensures Visit(value, depth, n) == if n + Properties(value) <= 1_000 then Count(n + Properties(value)) else Exceeded
    decreases value, 1
  {
    assert !Excessive(value, depth, []);
    match value {
      case Array(items) =>
        forall i | 0 <= i < |items| ensures Moderate(items[i], depth + 1) { ModerateItem(value, depth, i); }
        ModerateItemsPass(value, items, depth, n);
      case Object(entries) =>
        forall i | 0 <= i < |entries| ensures FitsKey(entries[i].key) && Moderate(entries[i].value, depth + 1) {
          ModerateEntry(value, depth, i);
        }
        ModerateEntriesPass(value, entries, depth, n);
      case _ =>
    }
  }

  lemma {:induction false} ModerateItemsPass(context: Json, items: seq<Json>, depth: nat, n: nat)
    requires forall i :: 0 <= i < |items| ==>
                           items[i] < context && WellFormed(items[i]) && Moderate(items[i], depth + 1)
    requires n <= 1_000
    ensures var all := n + PropertiesOfItems(context, items);
            VisitItems(context, items, depth, n) == if all <= 1_000 then Count(all) else Exceeded
    decreases context, 0, |items|
  {
    if items != [] {
      ModeratePasses(items[0], depth + 1, n);
      if n + Properties(items[0]) <= 1_000 {
        ModerateItemsPass(context, items[1..], depth, n + Properties(items[0]));
      }
    }
  }

  lemma {:induction false} ModerateEntriesPass(context: Json, entries: seq<Entry>, depth: nat, n: nat)
    requires forall i :: 0 <= i < |entries| ==>
                           && entries[i].value < context && WellFormed(entries[i].value)
                           && FitsKey(entries[i].key) && Moderate(entries[i].value, depth + 1)
    requires n <= 1_000
    ensures var all := n + PropertiesOfEntries(context, entries);
            VisitEntries(context, entries, depth, n) == if all <= 1_000 then Count(all) else Exceeded
    decreases context, 0, |entries|
  {
    if entries != [] && n + 1 <= 1_000 {
      var m := n + 1;
      ModeratePasses(entries[0].value, depth + 1, m);
      if m + Properties(entries[0].value) <= 1_000 {
        ModerateEntriesPass(context, entries[1..], depth, m + Properties(entries[0].value));
      }
    }
  }

  lemma {:induction false} PassedIsModerate(value: Json, depth: nat, n: nat, path: seq<Step>)
    requires Visit(value, depth, n).Count?
    ensures !Excessive(value, depth, path)
    decreases |path|
  {
    if path != [] && Lookup(value, path).At? {
      var rest := path[1..];
      assert path == [path[0]] + rest;
      match (value, path[0]) {
        case (Array(items), Index(i)) =>
          var m := VisitedItem(value, items, depth, n, i);
          PassedIsModerate(items[i], depth + 1, m, rest);
          ExcessiveBelow(value, items[i], depth, path[0], rest);
          if rest == [] { assert !Excessive(items[i], depth + 1, []); }
        case (Object(entries), Key(name)) =>
          var i := FindEntry(entries, name);
          var m := VisitedEntry(value, entries, depth, n, i);
          VisitedKey(value, entries, depth, n, i);
          ForbiddenIff(entries[i].key);
          PassedIsModerate(entries[i].value, depth + 1, m, rest);
          ExcessiveBelow(value, entries[i].value, depth, path[0], rest);
          if rest == [] { assert !Excessive(entries[i].value, depth + 1, []); }
        case _ =>
      }
    }
  }

  lemma {:induction false} VisitedKey(context: Json, entries: seq<Entry>, depth: nat, n: nat, i: nat)
    requires forall k :: 0 <= k < |entries| ==> entries[k].value < context
    requires i < |entries| && VisitEntries(context, entries, depth, n).Count?
    ensures FitsKey(entries[i].key)
    decreases i
  {
    if i > 0 {
      VisitedKey(context, entries[1..], depth, Visit(entries[0].value, depth + 1, n + 1).properties, i - 1);
    }
  }

  /** A payload is admitted exactly when it has at most 1,000 properties, nothing at any of its paths is
      excessive, and it is one object or 1 to 500 of them. */
  lemma AdmittedIff(payload: Json)
    requires WellFormed(payload)
    ensures Admitted(payload) <==>
              && Properties(payload) <= 1_000
              && Moderate(payload, 0)
              && (payload.Object?
                  || (payload.Array? && 1 <= |payload.items| <= 500
                      && forall i :: 0 <= i < |payload.items| ==> payload.items[i].Object?))
  {
    if Moderate(payload, 0) { ModeratePasses(payload, 0, 0); }
    if WithinLimits(payload) {
      forall path ensures !Excessive(payload, 0, path) { PassedIsModerate(payload, 0, 0, path); }
    }
    if !payload.Array? { assert Records(payload)[0] == payload; }
  }
}
