/** Key order: sorting makes the text depend on the meaning alone, exactly for values none of
    whose objects holds two keys that the comparator calls equal. */
module CanonicalJsonOrder {
  import opened CanonicalJson
  import opened CanonicalJsonLaws

  predicate DistinctKeys(entries: seq<Entry>) {
    forall i, j :: 0 <= i < j < |entries| ==> entries[i].key != entries[j].key
  }

  /** A JavaScript object never has the same own key twice. */
  ghost predicate WellFormed(value: Json) {
    match value
    case Array(items) => forall i :: 0 <= i < |items| ==> WellFormed(items[i])
    case Object(entries) =>
      DistinctKeys(entries) && forall i :: 0 <= i < |entries| ==> WellFormed(entries[i].value)
    case _ => true
  }

  predicate Tied(le: KeyOrder, a: Text, b: Text) {
    le(a, b) && le(b, a)
  }

  /** No object, at any depth, holds two keys that compare as equal. */
  ghost predicate NoTies(le: KeyOrder, value: Json) {
    match value
    case Array(items) => forall i :: 0 <= i < |items| ==> NoTies(le, items[i])
    case Object(entries) =>
      && (forall i, j :: 0 <= i < j < |entries| ==> !Tied(le, entries[i].key, entries[j].key))
      && (forall i :: 0 <= i < |entries| ==> NoTies(le, entries[i].value))
    case _ => true
  }

  function MeaningOf(value: Json): Meaning
    decreases value, 1
  {
    match value
    case Null => MNull
    case Undefined => MNull
    case Infinity(_) => MNull
    case Boolean(flag) => MBoolean(flag)
    case Number(decimal) => MNumber(decimal)
    case String(text) => MString(text)
    case Array(items) => MArray(MeaningItems(value, items))
    case Object(entries) => MObject(MeaningEntries(value, entries))
  }

  function MeaningItems(context: Json, items: seq<Json>): (r: seq<Meaning>)
    requires forall i :: 0 <= i < |items| ==> items[i] < context
    ensures |r| == |items|
    ensures forall i :: 0 <= i < |r| ==> r[i] == MeaningOf(items[i])
    decreases context, 0, |items|
  {
    if items == [] then [] else [MeaningOf(items[0])] + MeaningItems(context, items[1..])
  }

  function MeaningEntries(context: Json, entries: seq<Entry>): map<Text, Meaning>
    requires forall i :: 0 <= i < |entries| ==> entries[i].value < context
    decreases context, 0, |entries|
  {
    if entries == [] then map[]
    else MeaningEntries(context, entries[1..])[entries[0].key := MeaningOf(entries[0].value)]
  }

  predicate HasKey(entries: seq<Entry>, k: Text) {
    exists i :: 0 <= i < |entries| && entries[i].key == k
  }

  lemma {:induction false} FieldsOf(context: Json, entries: seq<Entry>)
    requires forall i :: 0 <= i < |entries| ==> entries[i].value < context
    requires DistinctKeys(entries)
    ensures forall k :: k in MeaningEntries(context, entries) <==> HasKey(entries, k)
    ensures forall i :: 0 <= i < |entries| ==>
                          && entries[i].key in MeaningEntries(context, entries)
                          && MeaningEntries(context, entries)[entries[i].key] == MeaningOf(entries[i].value)
  {
    if entries != [] {
      var rest := entries[1..];
      FieldsOf(context, rest);
      forall k ensures HasKey(entries, k) <==> k == entries[0].key || HasKey(rest, k) {
        if HasKey(rest, k) {
          var i :| 0 <= i < |rest| && rest[i].key == k;
          assert entries[i + 1].key == k;
        }
        if HasKey(entries, k) && k != entries[0].key {
          var i :| 0 <= i < |entries| && entries[i].key == k;
          assert rest[i - 1].key == k;
        }
      }
      forall i | 0 < i < |entries|
        ensures entries[i].key in MeaningEntries(context, entries)
        ensures MeaningEntries(context, entries)[entries[i].key] == MeaningOf(entries[i].value)
      {
        assert rest[i - 1] == entries[i];
      }
    }
  }

  // ---------- sorting ----------

  ghost predicate SortedByKey(le: KeyOrder, entries: seq<Entry>) {
    forall i, j :: 0 <= i < j < |entries| ==> le(entries[i].key, entries[j].key)
  }

  lemma {:induction false} InsertSorted(le: KeyOrder, e: Entry, sorted: seq<Entry>)
    requires WeakOrder(le) && SortedByKey(le, sorted)
    ensures SortedByKey(le, InsertEntry(le, e, sorted))
  {
    if sorted != [] && !le(e.key, sorted[0].key) {
      InsertSorted(le, e, sorted[1..]);
      var r := InsertEntry(le, e, sorted[1..]);
      forall j | 0 <= j < |r| ensures le(sorted[0].key, r[j].key) {
        assert r[j] in r;
        assert r[j] == e || r[j] in sorted[1..];
      }
    }
  }

  lemma {:induction false} InsertDistinct(le: KeyOrder, e: Entry, sorted: seq<Entry>)
    requires DistinctKeys([e] + sorted)
    ensures DistinctKeys(InsertEntry(le, e, sorted))
  {
    if sorted != [] && !le(e.key, sorted[0].key) {
      var rest := sorted[1..];
      forall i, j | 0 <= i < j < |[e] + rest| ensures ([e] + rest)[i].key != ([e] + rest)[j].key {
        assert ([e] + rest)[j] == ([e] + sorted)[j + 1];
        assert i == 0 || ([e] + rest)[i] == ([e] + sorted)[i + 1];
        assert i == 0 ==> ([e] + sorted)[0] == e;
      }
      InsertDistinct(le, e, rest);
      var r := InsertEntry(le, e, rest);
      forall j | 0 <= j < |r| ensures sorted[0].key != r[j].key {
        assert r[j] in r;
        if r[j] == e {
          assert ([e] + sorted)[0].key != ([e] + sorted)[1].key;
        } else {
          var k :| 0 <= k < |rest| && rest[k] == r[j];
          assert ([e] + sorted)[1].key != ([e] + sorted)[k + 2].key;
        }
      }
    }
  }

  lemma {:induction false} SortFacts(le: KeyOrder, entries: seq<Entry>)
    requires DistinctKeys(entries)
    ensures DistinctKeys(SortEntries(le, entries))
    ensures WeakOrder(le) ==> SortedByKey(le, SortEntries(le, entries))
  {
    if entries != [] {
      var sorted := SortEntries(le, entries[1..]);
      SortFacts(le, entries[1..]);
      forall j | 0 <= j < |sorted| ensures entries[0].key != sorted[j].key {
        assert sorted[j] in entries[1..];
        var k :| 0 <= k < |entries[1..]| && entries[1..][k] == sorted[j];
        assert entries[k + 1] == sorted[j];
      }
      InsertDistinct(le, entries[0], sorted);
      if WeakOrder(le) { InsertSorted(le, entries[0], sorted); }
    }
  }

  // ---------- arranging keeps the meaning ----------

  lemma {:induction false} ArrangedEntries(le: KeyOrder, context: Json, entries: seq<Entry>)
    requires forall i :: 0 <= i < |entries| ==> entries[i].value < context
    ensures forall i :: 0 <= i < |entries| ==>
                          ArrangeEntries(le, context, entries)[i] ==
                              Entry(entries[i].key, Arrange(le, entries[i].value))
  {
    if entries != [] {
      ArrangedEntries(le, context, entries[1..]);
      forall i | 0 < i < |entries|
        ensures ArrangeEntries(le, context, entries)[i] == Entry(entries[i].key, Arrange(le, entries[i].value))
      {
        assert entries[i] == entries[1..][i - 1];
      }
    }
  }

  lemma ArrangedItems(le: KeyOrder, context: Json, items: seq<Json>)
    requires forall i :: 0 <= i < |items| ==> items[i] < context
    ensures forall i :: 0 <= i < |items| ==> ArrangeItems(le, context, items)[i] == Arrange(le, items[i])
  {
    forall i | 0 <= i < |items| ensures ArrangeItems(le, context, items)[i] == Arrange(le, items[i]) {
      ArrangedItem(le, context, items, i);
    }
  }

  lemma {:induction false} ArrangedItem(le: KeyOrder, context: Json, items: seq<Json>, i: nat)
    requires i < |items| && forall k :: 0 <= k < |items| ==> items[k] < context
    ensures ArrangeItems(le, context, items)[i] == Arrange(le, items[i])
    decreases i
  {
    if i > 0 { ArrangedItem(le, context, items[1..], i - 1); }
  }

  lemma {:induction false} ArrangeKeepsMeaning(le: KeyOrder, value: Json)
    requires WellFormed(value)
    ensures MeaningOf(Arrange(le, value)) == MeaningOf(value)
    decreases value
  {
    match value {
      case Array(items) =>
        forall i | 0 <= i < |items| ensures MeaningOf(Arrange(le, items[i])) == MeaningOf(items[i]) {
          ArrangeKeepsMeaning(le, items[i]);
        }
        ArrangedItemsMeaning(le, value);
      case Object(entries) =>
        forall i | 0 <= i < |entries|
          ensures MeaningOf(Arrange(le, entries[i].value)) == MeaningOf(entries[i].value)
        {
          ArrangeKeepsMeaning(le, entries[i].value);
        }
        ArrangedEntriesMeaning(le, value);
      case _ =>
    }
  }

  lemma ArrangedItemsMeaning(le: KeyOrder, value: Json)
    requires value.Array?
    requires forall i :: 0 <= i < |value.items| ==> MeaningOf(Arrange(le, value.items[i])) == MeaningOf(value.items[i])
    ensures MeaningOf(Arrange(le, value)) == MeaningOf(value)
  {
    ArrangedItems(le, value, value.items);
    assert MeaningItems(Arrange(le, value), ArrangeItems(le, value, value.items)) == MeaningItems(value, value.items);
  }

  lemma SameFields(cx: Json, cy: Json, xs: seq<Entry>, ys: seq<Entry>)
    requires forall i :: 0 <= i < |xs| ==> xs[i].value < cx
    requires forall i :: 0 <= i < |ys| ==> ys[i].value < cy
    requires DistinctKeys(xs) && DistinctKeys(ys)
    requires forall k :: HasKey(xs, k) <==> HasKey(ys, k)
    requires forall i, j :: 0 <= i < |xs| && 0 <= j < |ys| && xs[i].key == ys[j].key ==>
                              MeaningOf(xs[i].value) == MeaningOf(ys[j].value)
    ensures MeaningEntries(cx, xs) == MeaningEntries(cy, ys)
  {
    FieldsWithin(cx, cy, xs, ys);
    FieldsWithin(cy, cx, ys, xs);
    SameMaps(MeaningEntries(cx, xs), MeaningEntries(cy, ys));
  }

  lemma SameMaps(a: map<Text, Meaning>, b: map<Text, Meaning>)
    requires forall k :: k in a ==> k in b && a[k] == b[k]
    requires forall k :: k in b ==> k in a && b[k] == a[k]
    ensures a == b
  {
  }

  lemma FieldsWithin(cx: Json, cy: Json, xs: seq<Entry>, ys: seq<Entry>)
    requires forall i :: 0 <= i < |xs| ==> xs[i].value < cx
    requires forall i :: 0 <= i < |ys| ==> ys[i].value < cy
    requires DistinctKeys(xs) && DistinctKeys(ys)
    requires forall k :: HasKey(xs, k) <==> HasKey(ys, k)
    requires forall i, j :: 0 <= i < |xs| && 0 <= j < |ys| && xs[i].key == ys[j].key ==>
                              MeaningOf(xs[i].value) == MeaningOf(ys[j].value)
    ensures forall k :: k in MeaningEntries(cx, xs) ==>
                          k in MeaningEntries(cy, ys) && MeaningEntries(cx, xs)[k] == MeaningEntries(cy, ys)[k]
  {
    forall k | k in MeaningEntries(cx, xs)
      ensures k in MeaningEntries(cy, ys) && MeaningEntries(cx, xs)[k] == MeaningEntries(cy, ys)[k]
    {
      FieldsOf(cx, xs);
      assert HasKey(xs, k) && HasKey(ys, k);
      var i :| 0 <= i < |xs| && xs[i].key == k;
      var j :| 0 <= j < |ys| && ys[j].key == k;
      FieldAt(cx, xs, i);
      FieldAt(cy, ys, j);
    }
  }

  lemma FieldAt(context: Json, entries: seq<Entry>, i: nat)
    requires forall i :: 0 <= i < |entries| ==> entries[i].value < context
    requires DistinctKeys(entries) && i < |entries|
    ensures entries[i].key in MeaningEntries(context, entries)
    ensures MeaningEntries(context, entries)[entries[i].key] == MeaningOf(entries[i].value)
  {
    FieldsOf(context, entries);
  }

  lemma ArrangedEntryMeaning(le: KeyOrder, value: Json, sorted: seq<Entry>, i: nat, j: nat)
    requires value.Object? && DistinctKeys(value.entries) && sorted == SortEntries(le, value.entries)
    requires i < |sorted| && j < |value.entries| && sorted[i].key == value.entries[j].key
    ensures sorted[i] == value.entries[j]
  {
    assert sorted[i] in value.entries;
    var n :| 0 <= n < |value.entries| && value.entries[n] == sorted[i];
    assert !(n < j) && !(j < n);
  }

  lemma ArrangedEntriesMeaning(le: KeyOrder, value: Json)
    requires value.Object? && DistinctKeys(value.entries)
    requires forall i :: 0 <= i < |value.entries| ==>
                           MeaningOf(Arrange(le, value.entries[i].value)) == MeaningOf(value.entries[i].value)
    ensures MeaningOf(Arrange(le, value)) == MeaningOf(value)
  {
    var entries, arranged := value.entries, ArrangeEntries(le, value, SortEntries(le, value.entries));
    ArrangedDistinct(le, value);
    forall k ensures HasKey(arranged, k) <==> HasKey(entries, k) {
      SameKeys(le, value, entries, k);
    }
    forall i, j | 0 <= i < |arranged| && 0 <= j < |entries| && arranged[i].key == entries[j].key
      ensures MeaningOf(arranged[i].value) == MeaningOf(entries[j].value)
    {
      ArrangedValue(le, value, i, j);
    }
    SameFields(Object(arranged), value, arranged, entries);
  }

  lemma ArrangedDistinct(le: KeyOrder, value: Json)
    requires value.Object? && DistinctKeys(value.entries)
    ensures DistinctKeys(ArrangeEntries(le, value, SortEntries(le, value.entries)))
  {
    SortFacts(le, value.entries);
    ArrangedEntries(le, value, SortEntries(le, value.entries));
  }

  lemma ArrangedValue(le: KeyOrder, value: Json, i: nat, j: nat)
    requires value.Object? && DistinctKeys(value.entries) && i < |value.entries| && j < |value.entries|
    requires ArrangeEntries(le, value, SortEntries(le, value.entries))[i].key == value.entries[j].key
    ensures ArrangeEntries(le, value, SortEntries(le, value.entries))[i].value == Arrange(le, value.entries[j].value)
  {
    var sorted := SortEntries(le, value.entries);
    ArrangedEntries(le, value, sorted);
    ArrangedEntryMeaning(le, value, sorted, i, j);
  }

  lemma SameKeys(le: KeyOrder, context: Json, entries: seq<Entry>, k: Text)
    requires forall i :: 0 <= i < |entries| ==> entries[i].value < context
    ensures forall i :: 0 <= i < |entries| ==> SortEntries(le, entries)[i].value < context
    ensures HasKey(ArrangeEntries(le, context, SortEntries(le, entries)), k) <==> HasKey(entries, k)
  {
    var sorted := SortEntries(le, entries);
    ArrangedEntries(le, context, sorted);
    if HasKey(entries, k) {
      var i :| 0 <= i < |entries| && entries[i].key == k;
      assert entries[i] in sorted;
      var j :| 0 <= j < |sorted| && sorted[j] == entries[i];
      assert ArrangeEntries(le, context, sorted)[j].key == k;
    }
    if HasKey(ArrangeEntries(le, context, sorted), k) {
      var j :| 0 <= j < |sorted| && ArrangeEntries(le, context, sorted)[j].key == k;
      assert sorted[j] in entries;
    }
  }

  /** Injectivity: equal text is never shared by values that mean different things. */
  lemma SameTextSameMeaning(le: KeyOrder, a: Json, b: Json)
    requires WellFormed(a) && WellFormed(b)
    requires StableStringify(le, a) == StableStringify(le, b)
    ensures MeaningOf(a) == MeaningOf(b)
  {
    assert StableStringify(le, a) + [] == StableStringify(le, b) + [];
    ValuePrefixFree(le, a, b, [], []);
    ArrangeKeepsMeaning(le, a);
    ArrangeKeepsMeaning(le, b);
  }

  // ---------- order invariance ----------

  ghost predicate StrictlySorted(le: KeyOrder, entries: seq<Entry>) {
    forall i, j :: 0 <= i < j < |entries| ==> le(entries[i].key, entries[j].key) && !le(entries[j].key, entries[i].key)
  }

  /** Two strictly sorted lists with the same elements are the same list. */
  lemma {:induction false} StrictlySortedUnique(le: KeyOrder, xs: seq<Entry>, ys: seq<Entry>)
    requires StrictlySorted(le, xs) && StrictlySorted(le, ys)
    requires forall e :: e in xs <==> e in ys
    ensures xs == ys
  {
    assert xs != [] ==> xs[0] in ys;
    assert ys != [] ==> ys[0] in xs;
    if xs != [] {
      var i :| 0 <= i < |ys| && ys[i] == xs[0];
      var j :| 0 <= j < |xs| && xs[j] == ys[0];
      assert xs[0] == ys[0];
      TailElements(le, xs, ys);
      StrictlySortedUnique(le, xs[1..], ys[1..]);
      assert xs == [xs[0]] + xs[1..] && ys == [ys[0]] + ys[1..];
    }
  }

  lemma TailElements(le: KeyOrder, xs: seq<Entry>, ys: seq<Entry>)
    requires StrictlySorted(le, xs) && StrictlySorted(le, ys)
    requires xs != [] && ys != [] && xs[0] == ys[0]
    requires forall e :: e in xs <==> e in ys
    ensures forall e :: e in xs[1..] <==> e in ys[1..]
  {
    forall e ensures e in xs[1..] <==> e in ys[1..] {
      if e in xs[1..] {
        var i :| 0 < i < |xs| && xs[i] == e;
        assert e in ys && e != ys[0];
      }
      if e in ys[1..] {
        var i :| 0 < i < |ys| && ys[i] == e;
        assert e in xs && e != xs[0];
      }
    }
  }

  /** Arranging depends on the meaning alone when no keys tie. */
  lemma {:induction false} SameMeaningSameArrangement(le: KeyOrder, a: Json, b: Json)
    requires WeakOrder(le) && WellFormed(a) && WellFormed(b) && NoTies(le, a)
    requires MeaningOf(a) == MeaningOf(b)
    ensures Arrange(le, a) == Arrange(le, b)
    decreases a
  {
    match a {
      case Array(items) =>
        assert MeaningItems(a, items) == MeaningItems(b, b.items);
        forall i | 0 <= i < |items| ensures Arrange(le, items[i]) == Arrange(le, b.items[i]) {
          assert MeaningItems(a, items)[i] == MeaningItems(b, b.items)[i];
          SameMeaningSameArrangement(le, items[i], b.items[i]);
        }
        ArrangedItems(le, a, items);
        ArrangedItems(le, b, b.items);
        assert ArrangeItems(le, a, items) == ArrangeItems(le, b, b.items);
      case Object(entries) =>
        assert MeaningEntries(a, entries) == MeaningEntries(b, b.entries);
        FieldsOf(a, entries);
        FieldsOf(b, b.entries);
        forall i, j | 0 <= i < |entries| && 0 <= j < |b.entries| && entries[i].key == b.entries[j].key
          ensures Arrange(le, entries[i].value) == Arrange(le, b.entries[j].value)
        {
          SameMeaningSameArrangement(le, entries[i].value, b.entries[j].value);
        }
        SameEntriesSameArrangement(le, a, b);
      case _ =>
    }
  }

  lemma SameEntriesSameArrangement(le: KeyOrder, a: Json, b: Json)
    requires a.Object? && b.Object? && WeakOrder(le)
    requires DistinctKeys(a.entries) && DistinctKeys(b.entries)
    requires forall i, j :: 0 <= i < j < |a.entries| ==> !Tied(le, a.entries[i].key, a.entries[j].key)
    requires forall k :: HasKey(a.entries, k) <==> HasKey(b.entries, k)
    requires forall i, j :: 0 <= i < |a.entries| && 0 <= j < |b.entries| && a.entries[i].key == b.entries[j].key ==>
                              Arrange(le, a.entries[i].value) == Arrange(le, b.entries[j].value)
    ensures Arrange(le, a) == Arrange(le, b)
  {
    var xs := ArrangeEntries(le, a, SortEntries(le, a.entries));
    var ys := ArrangeEntries(le, b, SortEntries(le, b.entries));
    NoTiesCarryOver(le, a.entries, b.entries);
    ArrangedStrictly(le, a);
    ArrangedStrictly(le, b);
    forall e | e in xs ensures e in ys { EntryCarriesOver(le, a, b, e); }
    forall e | e in ys ensures e in xs { EntryCarriesOver(le, b, a, e); }
    StrictlySortedUnique(le, xs, ys);
  }

  lemma NoTiesCarryOver(le: KeyOrder, xs: seq<Entry>, ys: seq<Entry>)
    requires DistinctKeys(xs) && DistinctKeys(ys) && forall k :: HasKey(xs, k) <==> HasKey(ys, k)
    requires forall i, j :: 0 <= i < j < |xs| ==> !Tied(le, xs[i].key, xs[j].key)
    ensures forall i, j :: 0 <= i < j < |ys| ==> !Tied(le, ys[i].key, ys[j].key)
  {
    forall i, j | 0 <= i < j < |ys| ensures !Tied(le, ys[i].key, ys[j].key) {
      assert HasKey(ys, ys[i].key) && HasKey(ys, ys[j].key);
      var n :| 0 <= n < |xs| && xs[n].key == ys[i].key;
      var m :| 0 <= m < |xs| && xs[m].key == ys[j].key;
      assert n < m || m < n;
    }
  }

  lemma EntryCarriesOver(le: KeyOrder, a: Json, b: Json, e: Entry)
    requires a.Object? && b.Object?
    requires forall k :: HasKey(a.entries, k) <==> HasKey(b.entries, k)
    requires forall i, j :: 0 <= i < |a.entries| && 0 <= j < |b.entries| && a.entries[i].key == b.entries[j].key ==>
                              Arrange(le, a.entries[i].value) == Arrange(le, b.entries[j].value)
    requires e in Arrange(le, a).entries
    ensures e in Arrange(le, b).entries
  {
    var n := EntryComesFrom(le, a, e);
    assert HasKey(a.entries, e.key) && HasKey(b.entries, e.key);
    var m :| 0 <= m < |b.entries| && b.entries[m].key == e.key;
    EntryArrives(le, b, m);
  }

  lemma EntryComesFrom(le: KeyOrder, a: Json, e: Entry) returns (n: nat)
    requires a.Object? && e in Arrange(le, a).entries
    ensures n < |a.entries| && e == Entry(a.entries[n].key, Arrange(le, a.entries[n].value))
  {
    var sorted := SortEntries(le, a.entries);
    ArrangedEntries(le, a, sorted);
    var i :| 0 <= i < |sorted| && ArrangeEntries(le, a, sorted)[i] == e;
    assert sorted[i] in a.entries;
    n :| 0 <= n < |a.entries| && a.entries[n] == sorted[i];
  }

  lemma EntryArrives(le: KeyOrder, b: Json, m: nat)
    requires b.Object? && m < |b.entries|
    ensures Entry(b.entries[m].key, Arrange(le, b.entries[m].value)) in Arrange(le, b).entries
  {
    var sorted := SortEntries(le, b.entries);
    ArrangedEntries(le, b, sorted);
    assert b.entries[m] in sorted;
    var j :| 0 <= j < |sorted| && sorted[j] == b.entries[m];
    assert ArrangeEntries(le, b, sorted)[j] in Arrange(le, b).entries;
  }

  lemma ArrangedStrictly(le: KeyOrder, a: Json)
    requires a.Object? && WeakOrder(le) && DistinctKeys(a.entries)
    requires forall i, j :: 0 <= i < j < |a.entries| ==> !Tied(le, a.entries[i].key, a.entries[j].key)
    ensures StrictlySorted(le, Arrange(le, a).entries)
  {
    var sorted := SortEntries(le, a.entries);
    ArrangedEntries(le, a, sorted);
    forall i, j | 0 <= i < j < |sorted|
      ensures le(sorted[i].key, sorted[j].key) && !le(sorted[j].key, sorted[i].key)
    {
      SortedStrictly(le, a.entries, sorted, i, j);
    }
  }

  lemma SortedStrictly(le: KeyOrder, entries: seq<Entry>, sorted: seq<Entry>, i: nat, j: nat)
    requires WeakOrder(le) && DistinctKeys(entries) && sorted == SortEntries(le, entries) && i < j < |sorted|
    requires forall i, j :: 0 <= i < j < |entries| ==> !Tied(le, entries[i].key, entries[j].key)
    ensures le(sorted[i].key, sorted[j].key) && !le(sorted[j].key, sorted[i].key)
  {
    SortFacts(le, entries);
    NeverTied(le, entries, sorted[i], sorted[j]);
  }

  lemma NeverTied(le: KeyOrder, entries: seq<Entry>, e: Entry, f: Entry)
    requires e in entries && f in entries && e.key != f.key
    requires forall i, j :: 0 <= i < j < |entries| ==> !Tied(le, entries[i].key, entries[j].key)
    ensures !Tied(le, e.key, f.key)
  {
    var n :| 0 <= n < |entries| && entries[n] == e;
    var m :| 0 <= m < |entries| && entries[m] == f;
    assert n < m || m < n;
  }

  /** The text depends on the arrangement alone. */
  lemma {:induction false} SameArrangementSameText(le: KeyOrder, a: Json, b: Json)
    requires Arrange(le, a) == Arrange(le, b)
    ensures StableStringify(le, a) == StableStringify(le, b)
    decreases a, 1
  {
    match a {
      case Array(items) => SameItemsSameText(le, a, b, items, b.items);
      case Object(entries) =>
        SameEntriesSameText(le, a, b, SortEntries(le, entries), SortEntries(le, b.entries));
      case _ =>
    }
  }

  lemma {:induction false} SameItemsSameText(le: KeyOrder, ca: Json, cb: Json, xs: seq<Json>, ys: seq<Json>)
    requires forall i :: 0 <= i < |xs| ==> xs[i] < ca
    requires forall i :: 0 <= i < |ys| ==> ys[i] < cb
    requires ArrangeItems(le, ca, xs) == ArrangeItems(le, cb, ys)
    ensures StringifyItems(le, ca, xs) == StringifyItems(le, cb, ys)
    decreases ca, 0, |xs|
  {
    if xs != [] {
      assert ArrangeItems(le, ca, xs)[0] == ArrangeItems(le, cb, ys)[0];
      assert ArrangeItems(le, ca, xs)[1..] == ArrangeItems(le, cb, ys)[1..];
      SameArrangementSameText(le, xs[0], ys[0]);
      SameItemsSameText(le, ca, cb, xs[1..], ys[1..]);
    }
  }

  lemma {:induction false} SameEntriesSameText(le: KeyOrder, ca: Json, cb: Json, xs: seq<Entry>, ys: seq<Entry>)
    requires forall i :: 0 <= i < |xs| ==> xs[i].value < ca
    requires forall i :: 0 <= i < |ys| ==> ys[i].value < cb
    requires ArrangeEntries(le, ca, xs) == ArrangeEntries(le, cb, ys)
    ensures StringifyEntries(le, ca, xs) == StringifyEntries(le, cb, ys)
    decreases ca, 0, |xs|
  {
    if xs != [] {
      assert ArrangeEntries(le, ca, xs)[0] == ArrangeEntries(le, cb, ys)[0];
      assert ArrangeEntries(le, ca, xs)[1..] == ArrangeEntries(le, cb, ys)[1..];
      SameArrangementSameText(le, xs[0].value, ys[0].value);
      SameEntriesSameText(le, ca, cb, xs[1..], ys[1..]);
    }
  }

  /** The canonical text identifies a value exactly up to the order of object keys. */
  lemma SameTextIffSameMeaning(le: KeyOrder, a: Json, b: Json)
    requires WeakOrder(le) && WellFormed(a) && WellFormed(b) && NoTies(le, a)
    ensures StableStringify(le, a) == StableStringify(le, b) <==> MeaningOf(a) == MeaningOf(b)
  {
    if StableStringify(le, a) == StableStringify(le, b) {
      SameTextSameMeaning(le, a, b);
    }
    if MeaningOf(a) == MeaningOf(b) {
      SameMeaningSameArrangement(le, a, b);
      SameArrangementSameText(le, a, b);
    }
  }

  // ---------- a tie always shows in the text of some reordering ----------

  lemma {:induction false} InsertBeforeTied(le: KeyOrder, e: Entry, sorted: seq<Entry>, q: nat)
      returns (p': nat, q': nat)
    requires q < |sorted| && le(e.key, sorted[q].key)
    ensures p' < q' < |InsertEntry(le, e, sorted)|
    ensures InsertEntry(le, e, sorted)[p'] == e && InsertEntry(le, e, sorted)[q'] == sorted[q]
  {
    if le(e.key, sorted[0].key) {
      p', q' := 0, q + 1;
    } else {
      p', q' := InsertBeforeTied(le, e, sorted[1..], q - 1);
      p', q' := p' + 1, q' + 1;
    }
  }

  lemma {:induction false} InsertKeepsOrder(le: KeyOrder, e: Entry, sorted: seq<Entry>, p: nat, q: nat)
    returns (p': nat, q': nat)
    requires p < q < |sorted|
    ensures p' < q' < |InsertEntry(le, e, sorted)|
    ensures InsertEntry(le, e, sorted)[p'] == sorted[p] && InsertEntry(le, e, sorted)[q'] == sorted[q]
  {
    if le(e.key, sorted[0].key) {
      p', q' := p + 1, q + 1;
    } else if p == 0 {
      var r := InsertEntry(le, e, sorted[1..]);
      assert sorted[q] in sorted[1..] by { assert sorted[1..][q - 1] == sorted[q]; }
      assert sorted[q] in r;
      var n :| 0 <= n < |r| && r[n] == sorted[q];
      p', q' := 0, n + 1;
    } else {
      p', q' := InsertKeepsOrder(le, e, sorted[1..], p - 1, q - 1);
      p', q' := p' + 1, q' + 1;
    }
  }

  /** The sort is stable: of two entries whose keys tie, the earlier stays earlier. */
  lemma {:induction false} SortStable(le: KeyOrder, entries: seq<Entry>, i: nat, j: nat) returns (p: nat, q: nat)
    requires i < j < |entries| && le(entries[i].key, entries[j].key)
    ensures p < q < |entries|
    ensures SortEntries(le, entries)[p] == entries[i] && SortEntries(le, entries)[q] == entries[j]
  {
    var sorted := SortEntries(le, entries[1..]);
    if i == 0 {
      assert entries[1..][j - 1] == entries[j];
      assert entries[j] in sorted;
      var n :| 0 <= n < |sorted| && sorted[n] == entries[j];
      p, q := InsertBeforeTied(le, entries[0], sorted, n);
    } else {
      p, q := SortStable(le, entries[1..], i - 1, j - 1);
      p, q := InsertKeepsOrder(le, entries[0], sorted, p, q);
    }
  }

  lemma ArrangedAt(le: KeyOrder, a: Json, n: nat)
    requires a.Object? && n < |a.entries|
    ensures Arrange(le, a).Object? && |Arrange(le, a).entries| == |a.entries|
    ensures Arrange(le, a).entries[n].key == SortEntries(le, a.entries)[n].key
    ensures Arrange(le, a).entries[n].value == Arrange(le, SortEntries(le, a.entries)[n].value)
  {
    ArrangedEntries(le, a, SortEntries(le, a.entries));
  }

  function Swapped(xs: seq<Entry>, i: nat, j: nat): seq<Entry>
    requires i < j < |xs|
  {
    xs[i := xs[j]][j := xs[i]]
  }

  lemma SwapKeepsMeaning(a: Json, i: nat, j: nat)
    requires a.Object? && WellFormed(a) && i < j < |a.entries|
    ensures WellFormed(Object(Swapped(a.entries, i, j)))
    ensures MeaningOf(Object(Swapped(a.entries, i, j))) == MeaningOf(a)
  {
    var xs, ys := a.entries, Swapped(a.entries, i, j);
    forall k ensures HasKey(xs, k) <==> HasKey(ys, k) {
      SwappedKeys(xs, ys, i, j, k);
    }
    SameFields(Object(ys), a, ys, xs);
  }

  lemma SwapShows(le: KeyOrder, a: Json, i: nat, j: nat)
    requires a.Object? && DistinctKeys(a.entries) && i < j < |a.entries|
    requires Tied(le, a.entries[i].key, a.entries[j].key)
    ensures Arrange(le, Object(Swapped(a.entries, i, j))) != Arrange(le, a)
  {
    var xs, ys := a.entries, Swapped(a.entries, i, j);
    var b := Object(ys);
    var p, q := SortStable(le, xs, i, j);
    var n, m := SortStable(le, ys, i, j);
    SortFacts(le, xs);
    ArrangedAt(le, a, n);
    ArrangedAt(le, a, m);
    ArrangedAt(le, b, n);
    ArrangedAt(le, b, m);
  }

  lemma SwappedKeys(xs: seq<Entry>, ys: seq<Entry>, i: nat, j: nat, k: Text)
    requires i < j < |xs| && ys == xs[i := xs[j]][j := xs[i]]
    ensures HasKey(xs, k) <==> HasKey(ys, k)
  {
    if HasKey(xs, k) {
      var n :| 0 <= n < |xs| && xs[n].key == k;
      assert ys[if n == i then j else if n == j then i else n].key == k;
    }
    if HasKey(ys, k) {
      var n :| 0 <= n < |ys| && ys[n].key == k;
      assert xs[if n == i then j else if n == j then i else n].key == k;
    }
  }

  /** A value with a tie somewhere inside has a reordering that is arranged differently. */
  lemma {:induction false} TieShows(le: KeyOrder, a: Json) returns (b: Json)
    requires WellFormed(a) && !NoTies(le, a)
    ensures WellFormed(b) && MeaningOf(b) == MeaningOf(a) && Arrange(le, b) != Arrange(le, a)
    decreases a
  {
    match a {
      case Array(items) =>
        var i :| 0 <= i < |items| && !NoTies(le, items[i]);
        var item := TieShows(le, items[i]);
        b := Array(items[i := item]);
        ItemShows(le, a, i, item);
      case Object(entries) =>
        if i, j :| 0 <= i < j < |entries| && Tied(le, entries[i].key, entries[j].key) {
          b := Object(Swapped(entries, i, j));
          SwapKeepsMeaning(a, i, j);
          SwapShows(le, a, i, j);
        } else {
          var i :| 0 <= i < |entries| && !NoTies(le, entries[i].value);
          var value := TieShows(le, entries[i].value);
          b := Object(entries[i := Entry(entries[i].key, value)]);
          FieldKeepsMeaning(a, i, value);
          FieldShows(le, a, i, value);
        }
    }
  }

  lemma ItemShows(le: KeyOrder, a: Json, i: nat, item: Json)
    requires a.Array? && i < |a.items|
    requires MeaningOf(item) == MeaningOf(a.items[i]) && Arrange(le, item) != Arrange(le, a.items[i])
    ensures MeaningOf(Array(a.items[i := item])) == MeaningOf(a)
    ensures Arrange(le, Array(a.items[i := item])) != Arrange(le, a)
  {
    var b := Array(a.items[i := item]);
    ItemKeepsMeaning(a, i, item);
    ArrangedItem(le, a, a.items, i);
    ArrangedItem(le, b, b.items, i);
    assert ArrangeItems(le, b, b.items)[i] != ArrangeItems(le, a, a.items)[i];
  }

  lemma ItemKeepsMeaning(a: Json, i: nat, item: Json)
    requires a.Array? && i < |a.items| && MeaningOf(item) == MeaningOf(a.items[i])
    ensures MeaningOf(Array(a.items[i := item])) == MeaningOf(a)
  {
    var b := Array(a.items[i := item]);
    var before, after := MeaningItems(a, a.items), MeaningItems(b, b.items);
    forall k | 0 <= k < |before| ensures after[k] == before[k] {
      assert b.items[k] == if k == i then item else a.items[k];
    }
    assert after == before;
  }

  lemma FieldKeepsMeaning(a: Json, i: nat, value: Json)
    requires a.Object? && WellFormed(a) && i < |a.entries| && WellFormed(value)
    requires MeaningOf(value) == MeaningOf(a.entries[i].value)
    ensures WellFormed(Object(a.entries[i := Entry(a.entries[i].key, value)]))
    ensures MeaningOf(Object(a.entries[i := Entry(a.entries[i].key, value)])) == MeaningOf(a)
  {
    var xs := a.entries;
    var ys := xs[i := Entry(xs[i].key, value)];
    forall k ensures HasKey(xs, k) <==> HasKey(ys, k) {
      if HasKey(xs, k) { var n :| 0 <= n < |xs| && xs[n].key == k; assert ys[n].key == k; }
      if HasKey(ys, k) { var n :| 0 <= n < |ys| && ys[n].key == k; assert xs[n].key == k; }
    }
    SameFields(Object(ys), a, ys, xs);
  }

  lemma FieldShows(le: KeyOrder, a: Json, i: nat, value: Json)
    requires a.Object? && DistinctKeys(a.entries) && i < |a.entries|
    requires Arrange(le, value) != Arrange(le, a.entries[i].value)
    ensures Arrange(le, Object(a.entries[i := Entry(a.entries[i].key, value)])) != Arrange(le, a)
  {
    var xs := a.entries;
    var ys := xs[i := Entry(xs[i].key, value)];
    var sa, sb := SortEntries(le, xs), SortEntries(le, ys);
    SortFacts(le, xs);
    assert xs[i] in xs && ys[i] in ys;
    assert xs[i] in sa && ys[i] in sb;
    var p :| 0 <= p < |sa| && sa[p] == xs[i];
    var q :| 0 <= q < |sb| && sb[q] == ys[i];
    ArrangedAt(le, a, q);
    ArrangedAt(le, Object(ys), q);
  }

  /** A number too large for a double, of either sign, is written as null is, alone or under a key. */
  lemma TooLargeIsNull(le: KeyOrder, key: Text, negative: bool)
    ensures StableStringify(le, Infinity(negative)) == StableStringify(le, Null)
    ensures StableStringify(le, Object([Entry(key, Infinity(negative))])) ==
              StableStringify(le, Object([Entry(key, Null)]))
  {
    var a, b := Object([Entry(key, Infinity(negative))]), Object([Entry(key, Null)]);
    ArrangedAt(le, a, 0);
    ArrangedAt(le, b, 0);
    assert SortEntries(le, a.entries)[0] in a.entries && SortEntries(le, b.entries)[0] in b.entries;
    SameArrangementSameText(le, a, b);
  }

  /** Exactly the values without ties have a text that no reordering of keys can change. */
  lemma OrderFreeIffNoTies(le: KeyOrder, a: Json)
    requires WeakOrder(le) && WellFormed(a)
    ensures NoTies(le, a)
       <==> forall b: Json :: WellFormed(b) && MeaningOf(b) == MeaningOf(a) ==>
           StableStringify(le, b) == StableStringify(le, a)
  {
    if NoTies(le, a) {
      forall b: Json | WellFormed(b) && MeaningOf(b) == MeaningOf(a)
        ensures StableStringify(le, b) == StableStringify(le, a)
      {
        SameTextIffSameMeaning(le, a, b);
      }
    } else {
      var b := TieShows(le, a);
      if StableStringify(le, b) == StableStringify(le, a) {
        assert StableStringify(le, b) + [] == StableStringify(le, a) + [];
        ValuePrefixFree(le, b, a, [], []);
      }
    }
  }
}
