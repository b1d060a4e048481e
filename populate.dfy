/**
 * Turning stored documents back into records (`populateRecord`,
 * `populateRecords`, `findById`) and the type-level writers that bypass a
 * record (`updateAll`, `import`).
 */
module RecordFinder {
  import opened PhpValues
  import opened RecordSchema
  import opened RecordConfig
  import opened DocumentStore
  import opened SavePipeline
  import opened MongoRecord

  /** A document as the driver hands it back: its `_id`, when it is set, and the rest. */
  datatype Raw = Raw(id: Option<string>, doc: Document)

  // ------------------------------------------------------------ embedded instances

  /**
   * `setAttributes((array)$value)` on an embedded instance: the entries are
   * visited in order and each one whose key names a property of the
   * instance overwrites it; the others are dropped.
   */
  function Overlay(props: seq<Pair>, entries: seq<Pair>): seq<Pair>
  {
    if |entries| == 0 then props
    else
      var front := Overlay(props, entries[..|entries| - 1]);
      var last := entries[|entries| - 1];
      if HasKey(props, last.key) then SetKey(front, last.key, last.val) else front
  }

  /** The overlay keeps the instance's property keys, in their order. */
  lemma {:induction false} OverlayKeys(props: seq<Pair>, entries: seq<Pair>)
    ensures |Overlay(props, entries)| == |props|
    ensures forall j :: 0 <= j < |props| ==> Overlay(props, entries)[j].key == props[j].key
  {
    if |entries| > 0 {
      OverlayKeys(props, entries[..|entries| - 1]);
      var front := Overlay(props, entries[..|entries| - 1]);
      var last := entries[|entries| - 1];
      if HasKey(props, last.key) {
        var j :| 0 <= j < |props| && props[j].key == last.key;
        assert front[j].key == last.key;
      }
    }
  }

  /** Two entry lists that agree wherever one of them has key `k` look `k` up alike. */
  lemma {:induction false} LookupAgrees(a: seq<Pair>, b: seq<Pair>, k: Key)
    requires |a| == |b|
    requires forall j :: 0 <= j < |a| && (a[j].key == k || b[j].key == k) ==> a[j] == b[j]
    ensures Lookup(a, k) == Lookup(b, k)
  {
    if |a| > 0 {
      LookupAgrees(a[1..], b[1..], k);
    }
  }

  /** Setting one key leaves the lookup of every other key as it was. */
  lemma SetKeyOther(entries: seq<Pair>, k: Key, v: Value, other: Key)
    requires HasKey(entries, k) && other != k
    ensures Lookup(SetKey(entries, k, v), other) == Lookup(entries, other)
  {
    LookupAgrees(SetKey(entries, k, v), entries, other);
  }

  /** A property the sub-document does not mention keeps its fresh value. */
  lemma {:induction false} OverlayUntouched(props: seq<Pair>, entries: seq<Pair>, k: Key)
    requires !HasKey(entries, k)
    ensures Lookup(Overlay(props, entries), k) == Lookup(props, k)
  {
    if |entries| > 0 {
      var init := entries[..|entries| - 1];
      assert !HasKey(init, k) by {
        forall j | 0 <= j < |init| ensures init[j].key != k {
          assert init[j] == entries[j];
        }
      }
      OverlayUntouched(props, init, k);
      var last := entries[|entries| - 1];
      if HasKey(props, last.key) {
        OverlayKeys(props, init);
        var j :| 0 <= j < |props| && props[j].key == last.key;
        assert Overlay(props, init)[j].key == last.key;
        SetKeyOther(Overlay(props, init), last.key, last.val, k);
      }
    }
  }

  /** A property the sub-document sets takes the value of the sub-document's last entry for it. */
  lemma {:induction false} OverlayReads(props: seq<Pair>, entries: seq<Pair>, i: nat)
    requires i < |entries| && HasKey(props, entries[i].key)
    requires forall j :: i < j < |entries| ==> entries[j].key != entries[i].key
    ensures Lookup(Overlay(props, entries), entries[i].key) == Some(entries[i].val)
  {
    var init := entries[..|entries| - 1];
    var last := entries[|entries| - 1];
    var k := entries[i].key;
    OverlayKeys(props, init);
    if i == |entries| - 1 {
      SetKeyThenLookup(Overlay(props, init), k, entries[i].val);
    } else {
      assert init[i] == entries[i];
      OverlayReads(props, init, i);
      if HasKey(props, last.key) {
        var j :| 0 <= j < |props| && props[j].key == last.key;
        assert Overlay(props, init)[j].key == last.key;
        SetKeyOther(Overlay(props, init), last.key, last.val, k);
      }
    }
  }

  // ------------------------------------------------------------ attributes

  /**
   * What one raw field becomes on the found record: a `class` document a
   * fresh instance (or the instance already there) overlaid with the
   * sub-document, an `array` or `object` document the coerced value, any
   * other field the raw value. Kinds are compared case-sensitively.
   */
  function FoundValue(s: Schema, n: string, v: Value): Value
    requires WellFormed(s)
  {
    if n in s.embedded && s.embedded[n] == "class" then
      LowerOfClass();
      var base := if v.VRecord? && v.cls == n then v.props else s.nestedFresh[n];
      VRecord(n, Overlay(base, ToArray(v).entries))
    else if n in s.embedded && s.embedded[n] == "array" then ToArray(v)
    else if n in s.embedded && s.embedded[n] == "object" then ToObject(v)
    else v
  }

  /** A found `class` document is an instance of that class with the fresh instance's properties; `array` and `object` ones are containers. */
  lemma FoundValueShape(s: Schema, n: string, v: Value)
    requires WellFormed(s)
    ensures n in s.embedded && s.embedded[n] == "class" && !v.VRecord? ==>
      (FoundValue(s, n, v).VRecord? && FoundValue(s, n, v).cls == n
       && |FoundValue(s, n, v).props| == |s.nestedFresh[n]|
       && forall j :: 0 <= j < |s.nestedFresh[n]| ==> FoundValue(s, n, v).props[j].key == s.nestedFresh[n][j].key)
    ensures n in s.embedded && s.embedded[n] == "array" ==> FoundValue(s, n, v).VArray?
    ensures n in s.embedded && s.embedded[n] == "object" ==> IsObject(FoundValue(s, n, v))
    ensures !Serialised(s, n) ==> FoundValue(s, n, v) == v
  {
    LowerOfClass();
    if n in s.embedded && s.embedded[n] == "class" && !v.VRecord? {
      OverlayKeys(s.nestedFresh[n], ToArray(v).entries);
    }
  }

  /** The properties of a record straight after `instantiate` and `init`: the constructed ones with the defaults applied again. */
  function Instantiated(s: Schema): map<string, Value>
    requires WellFormed(s)
  {
    WithDefaults(s, Constructed(s))
  }

  /** The properties once the raw fields in `done` have been copied: only names that are properties are taken. */
  function ExpandedOver(s: Schema, fields: map<string, Value>, base: map<string, Value>, done: set<string>): map<string, Value>
    requires WellFormed(s) && done <= fields.Keys
  {
    map n | n in base.Keys + (set f | f in done && f in Props(s)) ::
      if n in done && n in Props(s) then FoundValue(s, n, fields[n]) else base[n]
  }

  function Expanded(s: Schema, fields: map<string, Value>, base: map<string, Value>): map<string, Value>
    requires WellFormed(s)
  {
    ExpandedOver(s, fields, base, fields.Keys)
  }

  lemma ExpandStep(s: Schema, fields: map<string, Value>, base: map<string, Value>, done: set<string>, n: string)
    requires WellFormed(s) && done <= fields.Keys && n in fields && n !in done
    ensures ExpandedOver(s, fields, base, done + {n}) ==
      if n in Props(s) then ExpandedOver(s, fields, base, done)[n := FoundValue(s, n, fields[n])] else ExpandedOver(s, fields, base, done)
  {
  }

  /** The `foreach` of `populateRecord` over the raw fields. */
  method ExpandLoop(s: Schema, fields: map<string, Value>, base: map<string, Value>) returns (a: map<string, Value>)
    requires WellFormed(s)
    ensures a == Expanded(s, fields, base)
  {
    a := base;
    var todo := fields.Keys;
    ghost var done: set<string> := {};
    assert ExpandedOver(s, fields, base, done) == base;
    while todo != {}
      invariant todo + done == fields.Keys && todo !! done
      invariant a == ExpandedOver(s, fields, base, done)
      decreases todo
    {
      var n :| n in todo;
      ExpandStep(s, fields, base, done, n);
      if n in Props(s) {
        a := a[n := FoundValue(s, n, fields[n])];
      }
      todo := todo - {n};
      done := done + {n};
    }
  }

  /** The properties of the record found for a raw document: the copied fields, then the id on the alias. */
  function FoundAttrs(s: Schema, raw: Raw): map<string, Value>
    requires WellFormed(s)
  {
    var a := Expanded(s, raw.doc.fields, Instantiated(s));
    if raw.id.Some? then a[s.primaryKey := VStr(raw.id.value)] else a
  }

  /**
   * A found record holds the raw field of every property the document
   * carries (an embedded one expanded by kind), the id on the primary-key
   * alias, and otherwise what instantiation gave it; names that are not
   * properties are ignored.
   */
  lemma FoundAttrsMeans(s: Schema, raw: Raw, n: string)
    requires WellFormed(s)
    ensures raw.id.Some? && n == s.primaryKey ==> FoundAttrs(s, raw)[n] == VStr(raw.id.value)
    ensures !(raw.id.Some? && n == s.primaryKey) && n in raw.doc.fields && n in Props(s) ==>
      FoundAttrs(s, raw)[n] == FoundValue(s, n, raw.doc.fields[n])
    ensures !(raw.id.Some? && n == s.primaryKey) && !(n in raw.doc.fields && n in Props(s)) ==>
      (n in FoundAttrs(s, raw) <==> n in Instantiated(s)) && (n in Instantiated(s) ==> FoundAttrs(s, raw)[n] == Instantiated(s)[n])
    ensures FoundAttrs(s, raw).Keys <= Props(s)
  {
    ConstructedMeans(s, n);
    assert Constructed(s).Keys <= Props(s);
    WithDefaultsMeans(s, Constructed(s), n);
    forall m | m in Instantiated(s) ensures m in Props(s) {
      WithDefaultsMeans(s, Constructed(s), m);
    }
  }

  // ------------------------------------------------------------ bookkeeping fields

  /** `_config` of the found record: kept from construction when the document has none, null when stored as null. */
  function FoundConfig(raw: Raw): (r: Option<ConfigStore>)
    ensures r.None? <==> raw.doc.config.NullConfig?
  {
    match raw.doc.config
    case NoConfig => Some(map[])
    case NullConfig => None
    case Stored(c) => Some(c)
  }

  /** `_changeLog` of the found record: the stored log, or the empty one from construction. */
  function FoundLog(raw: Raw): seq<ChangeEntry>
  {
    if raw.doc.changeLog.Some? then raw.doc.changeLog.value else []
  }

  /**
   * The state of the record `populateRecord` builds: the found properties
   * and id, the stored config and log, and, after `afterFind`, the tracking
   * baseline and the config defaults. The new flag is never cleared.
   */
  predicate IsFound(r: Record, s: Schema, raw: Raw, callAfterFind: bool)
    requires WellFormed(s)
    reads r
  {
    && r.schema == s && r.attrs == FoundAttrs(s, raw) && r.id == raw.id
    && r.isNew && !r.isDeleted && r.changeLog == FoundLog(raw) && r.errors == map[]
    && r.config == (if callAfterFind && FoundConfig(raw).Some? then Some(ApplyDefaults(FoundConfig(raw).value, s.configOptions)) else FoundConfig(raw))
    && r.initialValues == (if callAfterFind && s.trackChanges then GetAttributes(s, FoundAttrs(s, raw)) else map[])
  }

  // ------------------------------------------------------------ finders

  /**
   * `populateRecord(attributes, callAfterFind)`: nothing for a missing
   * document; otherwise a new record of the prototype's type holding the
   * document. A prototype with a config store has it emptied when the
   * document's `_config` is null.
   */
  method PopulateRecord(proto: Record, raw: Option<Raw>, callAfterFind: bool) returns (rec: Option<Record>)
    requires WellFormed(proto.schema)
    modifies proto
    ensures raw.None? ==> rec.None? && unchanged(proto)
    ensures raw.Some? ==> rec.Some? && fresh(rec.value) && IsFound(rec.value, proto.schema, raw.value, callAfterFind)
    ensures proto.config == (if raw.Some? && old(proto.config).Some? && raw.value.doc.config.NullConfig? then Some(map[]) else old(proto.config))
    ensures proto.attrs == old(proto.attrs) && proto.isNew == old(proto.isNew) && proto.isDeleted == old(proto.isDeleted)
    ensures proto.id == old(proto.id) && proto.changeLog == old(proto.changeLog) && proto.initialValues == old(proto.initialValues)
    ensures proto.errors == old(proto.errors)
  {
    if raw.None? {
      return None;
    }
    var s := proto.schema;
    var doc := raw.value.doc;
    var r := new Record(s);
    r.SetDefaults();
    r.SetDefaults();
    WithDefaultsIdempotent(s, Constructed(s));
    assert r.attrs == Instantiated(s);
    var expanded := ExpandLoop(s, doc.fields, r.attrs);
    r.attrs := expanded;
    r.config := FoundConfig(raw.value);
    r.changeLog := FoundLog(raw.value);
    if raw.value.id.Some? {
      r.SetId(raw.value.id.value);
    }
    assert r.attrs == FoundAttrs(s, raw.value);
    if proto.config.Some? && r.config.None? {
      proto.config := Some(map[]);
    }
    if callAfterFind {
      r.AfterFind();
    }
    rec := Some(r);
  }

  /** `findById(id)`: the stored document with that id as a found record, or nothing. */
  method FindById(proto: Record, db: Store, id: Option<string>) returns (rec: Option<Record>)
    requires WellFormed(proto.schema)
    modifies proto
    ensures rec.Some? <==> id.Some? && id.value in db.docs
    ensures rec.Some? ==> fresh(rec.value) && IsFound(rec.value, proto.schema, Raw(id, db.docs[id.value]), true)
    ensures rec.None? ==> unchanged(proto)
    ensures proto.config == (if rec.Some? && old(proto.config).Some? && db.docs[id.value].config.NullConfig? then Some(map[]) else old(proto.config))
    ensures proto.attrs == old(proto.attrs) && proto.isNew == old(proto.isNew) && proto.isDeleted == old(proto.isDeleted)
    ensures proto.id == old(proto.id) && proto.changeLog == old(proto.changeLog) && proto.initialValues == old(proto.initialValues)
    ensures proto.errors == old(proto.errors)
  {
    var d := db.FindOne(id);
    if d.None? {
      return None;
    }
    rec := PopulateRecord(proto, Some(Raw(id, d.value)), true);
  }

  /** No two entries share a key, as in any PHP array or object. */
  predicate UniqueKeys(entries: seq<Pair>)
  {
    forall i, j :: 0 <= i < j < |entries| ==> entries[i].key != entries[j].key
  }

  /**
   * Finding an inserted document gives the inserted values back: the id on
   * the alias, every plain declared attribute as it was, `array` and
   * `object` documents in their coerced form, every property of a `class`
   * document, and the config store (an empty one when it was null).
   */
  lemma InsertThenFound(s: Schema, attrs: map<string, Value>, config: Option<ConfigStore>, id: string, n: string)
    requires WellFormed(s)
    ensures var found := FoundAttrs(s, Raw(Some(id), InsertDocument(s, attrs, config)));
      && found[s.primaryKey] == VStr(id)
      && (n in s.attributeNames && n !in s.embedded && n != s.primaryKey ==> found[n] == Get(attrs, n))
      && (n in s.embedded && s.embedded[n] == "array" && n != s.primaryKey ==> found[n] == ToArray(Get(attrs, n)))
      && (n in s.embedded && s.embedded[n] == "object" && n != s.primaryKey ==> found[n] == ToObject(Get(attrs, n)))
    ensures FoundConfig(Raw(Some(id), InsertDocument(s, attrs, config))) == (if config.Some? then config else Some(map[]))
    ensures FoundLog(Raw(Some(id), InsertDocument(s, attrs, config))) == []
  {
    var raw := Raw(Some(id), InsertDocument(s, attrs, config));
    FoundAttrsMeans(s, raw, s.primaryKey);
    FoundAttrsMeans(s, raw, n);
    SavedFieldsShape(s, attrs, n);
    InsertDocumentShape(s, attrs, config);
    if n in s.embedded && n != s.primaryKey {
      LowerOfClass();
      CastsRoundTrip(Get(attrs, n));
    }
  }

  /** A `class` document that was saved from an instance comes back with every property of the instance that it declares. */
  lemma InsertThenFoundNested(s: Schema, attrs: map<string, Value>, config: Option<ConfigStore>, id: string, n: string, i: nat)
    requires WellFormed(s) && n in s.embedded && s.embedded[n] == "class" && n != s.primaryKey
    requires n in attrs && attrs[n].VRecord? && UniqueKeys(attrs[n].props)
    requires i < |attrs[n].props| && HasKey(s.nestedFresh[n], attrs[n].props[i].key)
    ensures var found := FoundAttrs(s, Raw(Some(id), InsertDocument(s, attrs, config)))[n];
      found.VRecord? && found.cls == n && Lookup(found.props, attrs[n].props[i].key) == Some(attrs[n].props[i].val)
  {
    var raw := Raw(Some(id), InsertDocument(s, attrs, config));
    LowerOfClass();
    FoundAttrsMeans(s, raw, n);
    SavedFieldsShape(s, attrs, n);
    InsertDocumentShape(s, attrs, config);
    OverlayReads(s.nestedFresh[n], attrs[n].props, i);
  }

  // ------------------------------------------------------------ many records

  /** The documents `populateRecords` turns into records: every one that is not missing, in order. */
  function Present(data: seq<Option<Raw>>): (r: seq<Raw>)
    ensures |r| <= |data|
  {
    if |data| == 0 then []
    else
      var front := Present(data[..|data| - 1]);
      if data[|data| - 1].Some? then front + [data[|data| - 1].value] else front
  }

  /** The result-array key of a found record: its index property in string form. */
  function IndexKey(s: Schema, raw: Raw, index: string): string
    requires WellFormed(s)
  {
    Str(Get(FoundAttrs(s, raw), index))
  }

  /** The result-array keys of the found records, in document order. */
  function KeysOf(s: Schema, raws: seq<Raw>, index: string): (r: seq<string>)
    requires WellFormed(s)
    ensures |r| == |raws|
    ensures forall i :: 0 <= i < |raws| ==> r[i] == IndexKey(s, raws[i], index)
  {
    seq(|raws|, i requires 0 <= i < |raws| => IndexKey(s, raws[i], index))
  }

  /** For each key, the position of its last occurrence (assigning under a key once more replaces the earlier entry). */
  function LastPositions(keys: seq<string>): (r: map<string, nat>)
    ensures forall k :: k in r ==> r[k] < |keys|
  {
    if |keys| == 0 then map[]
    else LastPositions(keys[..|keys| - 1])[keys[|keys| - 1] := |keys| - 1]
  }

  /** Every key occurs, and maps to its last position. */
  lemma {:induction false} LastPositionsMeans(keys: seq<string>, k: string)
    ensures k in LastPositions(keys) <==> k in keys
    ensures k in LastPositions(keys) ==>
      (keys[LastPositions(keys)[k]] == k && forall j :: LastPositions(keys)[k] < j < |keys| ==> keys[j] != k)
  {
    if |keys| > 0 {
      var front := keys[..|keys| - 1];
      LastPositionsMeans(front, k);
      assert keys == front + [keys[|keys| - 1]];
      if k in LastPositions(front) && keys[|keys| - 1] != k {
        var p := LastPositions(front)[k];
        assert keys[p] == front[p];
      }
    }
  }

  function IndexOf(s: Schema, raws: seq<Raw>, index: string): (r: map<string, nat>)
    requires WellFormed(s)
    ensures forall k :: k in r ==> r[k] < |raws|
  {
    LastPositions(KeysOf(s, raws, index))
  }

  /** What `populateRecords` returns: a list in document order, or the records keyed by an index property. */
  datatype RecordSet = Listed(items: seq<Record>) | Indexed(byKey: map<string, Record>)

  /** Whether `populateRecords` empties a set prototype store: when some document's `_config` is null. */
  predicate SomeNullConfig(raws: seq<Raw>)
  {
    exists i :: 0 <= i < |raws| && raws[i].doc.config.NullConfig?
  }

  /** One more document extends the present ones by it when it is not missing. */
  lemma PresentStep(data: seq<Option<Raw>>, i: nat)
    requires i < |data|
    ensures Present(data[..i + 1]) == if data[i].Some? then Present(data[..i]) + [data[i].value] else Present(data[..i])
    ensures SomeNullConfig(Present(data[..i + 1])) <==> SomeNullConfig(Present(data[..i])) || (data[i].Some? && data[i].value.doc.config.NullConfig?)
  {
    assert data[..i + 1][..i] == data[..i];
    var before := Present(data[..i]);
    if data[i].Some? {
      var after := before + [data[i].value];
      if SomeNullConfig(before) {
        var j :| 0 <= j < |before| && before[j].doc.config.NullConfig?;
        assert after[j] == before[j];
      }
      assert after[|before|] == data[i].value;
      if SomeNullConfig(after) {
        var j :| 0 <= j < |after| && after[j].doc.config.NullConfig?;
        if j < |before| {
          assert after[j] == before[j];
        }
      }
    }
  }

  /** The positions after one more document: its key now points at it. */
  lemma IndexOfStep(s: Schema, before: seq<Raw>, raw: Raw, index: string)
    requires WellFormed(s)
    ensures IndexOf(s, before + [raw], index) == IndexOf(s, before, index)[IndexKey(s, raw, index) := |before|]
  {
    var after := before + [raw];
    assert KeysOf(s, after, index)[..|before|] == KeysOf(s, before, index);
  }

  /** The list form of `populateRecords`: the found records in document order. */
  method PopulateList(proto: Record, data: seq<Option<Raw>>, callAfterFind: bool) returns (items: seq<Record>)
    requires WellFormed(proto.schema)
    modifies proto
    ensures |items| == |Present(data)|
    ensures forall i :: 0 <= i < |items| ==> fresh(items[i]) && IsFound(items[i], proto.schema, Present(data)[i], callAfterFind)
    ensures proto.config == (if old(proto.config).Some? && SomeNullConfig(Present(data)) then Some(map[]) else old(proto.config))
    ensures proto.attrs == old(proto.attrs) && proto.isNew == old(proto.isNew) && proto.isDeleted == old(proto.isDeleted)
    ensures proto.id == old(proto.id) && proto.changeLog == old(proto.changeLog) && proto.initialValues == old(proto.initialValues)
    ensures proto.errors == old(proto.errors)
  {
    var s := proto.schema;
    items := [];
    var i := 0;
    while i < |data|
      invariant 0 <= i <= |data|
      invariant |items| == |Present(data[..i])|
      invariant forall j :: 0 <= j < |items| ==> fresh(items[j]) && items[j] != proto && IsFound(items[j], s, Present(data[..i])[j], callAfterFind)
      invariant proto.config == (if old(proto.config).Some? && SomeNullConfig(Present(data[..i])) then Some(map[]) else old(proto.config))
      invariant proto.attrs == old(proto.attrs) && proto.isNew == old(proto.isNew) && proto.isDeleted == old(proto.isDeleted)
      invariant proto.id == old(proto.id) && proto.changeLog == old(proto.changeLog) && proto.initialValues == old(proto.initialValues)
      invariant proto.errors == old(proto.errors)
    {
      items := PopulateOne(proto, data, i, callAfterFind, items, old(proto.config));
      i := i + 1;
    }
    assert data[..|data|] == data;
  }

  /** One step of the list loop: document `i` is found and, when present, its record is appended. */
  method PopulateOne(proto: Record, data: seq<Option<Raw>>, i: nat, callAfterFind: bool, items: seq<Record>,
                     ghost config0: Option<ConfigStore>) returns (items2: seq<Record>)
    requires WellFormed(proto.schema) && i < |data|
    requires |items| == |Present(data[..i])|
    requires forall j :: 0 <= j < |items| ==> items[j] != proto && IsFound(items[j], proto.schema, Present(data[..i])[j], callAfterFind)
    requires proto.config == (if config0.Some? && SomeNullConfig(Present(data[..i])) then Some(map[]) else config0)
    modifies proto
    ensures |items2| == |Present(data[..i + 1])|
    ensures forall j :: 0 <= j < |items2| ==> (j < |items| ==> items2[j] == items[j]) && (j >= |items| ==> fresh(items2[j]))
    ensures forall j :: 0 <= j < |items2| ==> items2[j] != proto && IsFound(items2[j], proto.schema, Present(data[..i + 1])[j], callAfterFind)
    ensures proto.config == (if config0.Some? && SomeNullConfig(Present(data[..i + 1])) then Some(map[]) else config0)
    ensures proto.attrs == old(proto.attrs) && proto.isNew == old(proto.isNew) && proto.isDeleted == old(proto.isDeleted)
    ensures proto.id == old(proto.id) && proto.changeLog == old(proto.changeLog) && proto.initialValues == old(proto.initialValues)
    ensures proto.errors == old(proto.errors)
  {
    PresentStep(data, i);
    var rec := PopulateRecord(proto, data[i], callAfterFind);
    items2 := items;
    if rec.Some? {
      items2 := items + [rec.value];
    }
  }

  /** `$records[key] = $record` in order: each key ends up with the record of its last occurrence. */
  method KeyRecords(items: seq<Record>, keys: seq<string>) returns (byKey: map<string, Record>)
    requires |keys| == |items|
    ensures byKey.Keys == LastPositions(keys).Keys
    ensures forall k :: k in byKey ==> byKey[k] == items[LastPositions(keys)[k]]
  {
    byKey := map[];
    var i := 0;
    while i < |items|
      invariant 0 <= i <= |items|
      invariant byKey.Keys == LastPositions(keys[..i]).Keys
      invariant forall k :: k in byKey ==> LastPositions(keys[..i])[k] < i && byKey[k] == items[LastPositions(keys[..i])[k]]
    {
      assert keys[..i + 1][..i] == keys[..i];
      byKey := byKey[keys[i] := items[i]];
      i := i + 1;
    }
    assert keys[..|keys|] == keys;
  }

  /** The keyed form of `populateRecords`: each record under its index key, a later one replacing an earlier one. */
  method PopulateIndexed(proto: Record, data: seq<Option<Raw>>, callAfterFind: bool, index: string) returns (byKey: map<string, Record>)
    requires WellFormed(proto.schema)
    modifies proto
    ensures byKey.Keys == IndexOf(proto.schema, Present(data), index).Keys
    ensures forall k :: k in byKey ==>
      fresh(byKey[k]) && IsFound(byKey[k], proto.schema, Present(data)[IndexOf(proto.schema, Present(data), index)[k]], callAfterFind)
    ensures proto.config == (if old(proto.config).Some? && SomeNullConfig(Present(data)) then Some(map[]) else old(proto.config))
    ensures proto.attrs == old(proto.attrs) && proto.isNew == old(proto.isNew) && proto.isDeleted == old(proto.isDeleted)
    ensures proto.id == old(proto.id) && proto.changeLog == old(proto.changeLog) && proto.initialValues == old(proto.initialValues)
    ensures proto.errors == old(proto.errors)
  {
    var s := proto.schema;
    var items := PopulateList(proto, data, callAfterFind);
    var keys := seq(|items|, j requires 0 <= j < |items| reads items => Str(Get(items[j].attrs, index)));
    ghost var raws := Present(data);
    assert keys == KeysOf(s, raws, index) by {
      forall j | 0 <= j < |items| ensures keys[j] == IndexKey(s, raws[j], index) {
        assert IsFound(items[j], s, raws[j], callAfterFind);
      }
    }
    byKey := KeyRecords(items, keys);
  }

  /**
   * `populateRecords(data, callAfterFind, index)`: one found record per
   * document that is not missing, in order, or keyed by the index property
   * with a later record replacing an earlier one under the same key.
   */
  method PopulateRecords(proto: Record, data: seq<Option<Raw>>, callAfterFind: bool, index: Option<string>) returns (out: RecordSet)
    requires WellFormed(proto.schema)
    modifies proto
    ensures index.None? ==> (out.Listed? && |out.items| == |Present(data)|
      && forall i :: 0 <= i < |out.items| ==> fresh(out.items[i]) && IsFound(out.items[i], proto.schema, Present(data)[i], callAfterFind))
    ensures index.Some? ==> (out.Indexed? && out.byKey.Keys == IndexOf(proto.schema, Present(data), index.value).Keys
      && forall k :: k in out.byKey ==>
        fresh(out.byKey[k]) && IsFound(out.byKey[k], proto.schema, Present(data)[IndexOf(proto.schema, Present(data), index.value)[k]], callAfterFind))
    ensures proto.config == (if old(proto.config).Some? && SomeNullConfig(Present(data)) then Some(map[]) else old(proto.config))
    ensures proto.attrs == old(proto.attrs) && proto.isNew == old(proto.isNew) && proto.isDeleted == old(proto.isDeleted)
    ensures proto.id == old(proto.id) && proto.changeLog == old(proto.changeLog) && proto.initialValues == old(proto.initialValues)
    ensures proto.errors == old(proto.errors)
  {
    if index.None? {
      var items := PopulateList(proto, data, callAfterFind);
      out := Listed(items);
    } else {
      var byKey := PopulateIndexed(proto, data, callAfterFind, index.value);
      out := Indexed(byKey);
    }
  }

  // ------------------------------------------------------------ writers without a record

  /** The changes `updateAll` keeps: those whose key is a declared attribute. */
  function Permitted(s: Schema, changes: map<string, Value>): (r: map<string, Value>)
    ensures r.Keys == changes.Keys * (set a | a in s.attributeNames)
    ensures forall k :: k in r ==> r[k] == changes[k]
  {
    map k | k in changes && k in s.attributeNames :: changes[k]
  }

  /**
   * `updateAll(filters, changes)`: false and no write for empty changes;
   * otherwise a `$set` of the permitted changes on every document matching
   * the filters, answering the number of matched documents.
   */
  method UpdateAll(s: Schema, db: Store, filters: map<string, Value>, changes: map<string, Value>) returns (r: Option<nat>)
    modifies db
    ensures changes == map[] ==> r.None? && unchanged(db)
    ensures changes != map[] ==> (r == Some(|MatchingIds(old(db.docs), filters, None)|)
      && db.docs.Keys == old(db.docs).Keys
      && forall id :: id in db.docs ==>
        db.docs[id] == if Matches(old(db.docs)[id], filters) then SetPlain(old(db.docs)[id], Permitted(s, changes)) else old(db.docs)[id])
  {
    if changes == map[] {
      return None;
    }
    var kept := changes;
    var todo := changes.Keys;
    while todo != {}
      invariant todo <= changes.Keys
      invariant kept.Keys == (changes.Keys - todo) * (set a | a in s.attributeNames) + todo
      invariant forall k :: k in kept ==> kept[k] == changes[k]
      decreases todo
    {
      var k :| k in todo;
      if k !in s.attributeNames {
        kept := kept - {k};
      }
      todo := todo - {k};
    }
    assert kept == Permitted(s, changes);
    var modified := db.UpdateMany(filters, kept);
    r := Some(modified);
  }

  /**
   * `updateAll` writes only declared attributes: a matching document gains
   * no other field, keeps its `_config` and change log, and reads back every
   * permitted change.
   */
  lemma UpdateAllWritesDeclared(s: Schema, d: Document, changes: map<string, Value>)
    ensures SetPlain(d, Permitted(s, changes)).fields.Keys - d.fields.Keys <= (set a | a in s.attributeNames)
    ensures SetPlain(d, Permitted(s, changes)).config == d.config
    ensures SetPlain(d, Permitted(s, changes)).changeLog == d.changeLog
    ensures forall k :: k in changes && k in s.attributeNames ==> SetPlain(d, Permitted(s, changes)).fields[k] == changes[k]
    ensures forall k :: k in d.fields && k !in s.attributeNames ==> SetPlain(d, Permitted(s, changes)).fields[k] == d.fields[k]
  {
  }

  /** `setAttributes(values)` on a record: every value whose key is a declared attribute is assigned; the rest are dropped. */
  function Assigned(s: Schema, attrs: map<string, Value>, values: map<string, Value>): (r: map<string, Value>)
    ensures r.Keys == attrs.Keys + values.Keys * (set a | a in s.attributeNames)
    ensures forall n :: n in r ==> r[n] == if n in values && n in s.attributeNames then values[n] else attrs[n]
  {
    map n | n in attrs.Keys + values.Keys * (set a | a in s.attributeNames) ::
      if n in values && n in s.attributeNames then values[n] else attrs[n]
  }

  /** Whether `insert` of a new record given these values meets an embedded `class` field that holds no instance. */
  ghost predicate RaisesOnInsert(s: Schema, values: map<string, Value>, now: int, actor: string)
    requires WellFormed(s)
  {
    exists n :: Unreadable(s, Stamp(s, true, Assigned(s, Constructed(s), values), now, actor), n)
  }

  /**
   * What `insert` does with one imported item: the store with the new
   * document; `Refused` when the store keeps nothing, an exception `import`
   * catches; `Raised` when an embedded `class` field holds no instance, where
   * `getAttributes()` on it raises an error that no `catch (\Exception ...)`
   * handler catches.
   */
  datatype InsertOutcome = Inserted(docs: map<string, Document>) | Refused | Raised

  ghost function ImportOne(s: Schema, docs: map<string, Document>, values: map<string, Value>, id: string, now: int, actor: string)
    : InsertOutcome
    requires WellFormed(s)
  {
    var stamped := Stamp(s, true, Assigned(s, Constructed(s), values), now, actor);
    if RaisesOnInsert(s, values, now, actor) then Raised
    else if id in docs then Refused
    else Inserted(docs[id := InsertDocument(s, stamped, Some(map[]))])
  }

  /** Why `import` stopped at an item (counted from 1): a caught failure with `dieOnError`, or an error nothing catches. */
  datatype ImportStop = DiedOnError(item: nat) | Uncaught(item: nat)

  /** The store after `import` has visited `k` items, and where it stopped, if it did. */
  datatype ImportState = ImportState(docs: map<string, Document>, stop: Option<ImportStop>)

  ghost function Imported(s: Schema, docs: map<string, Document>, records: seq<map<string, Value>>, ids: seq<string>,
                          valid: map<string, Value> -> bool, dieOnError: bool, now: int, actor: string, k: nat): ImportState
    requires WellFormed(s) && k <= |records| <= |ids|
  {
    if k == 0 then ImportState(docs, None)
    else
      var prev := Imported(s, docs, records, ids, valid, dieOnError, now, actor, k - 1);
      var values := Assigned(s, Constructed(s), records[k - 1]);
      if prev.stop.Some? || !valid(values) then prev
      else match ImportOne(s, prev.docs, records[k - 1], ids[k - 1], now, actor)
        case Inserted(d) => ImportState(d, None)
        case Raised => ImportState(prev.docs, Some(Uncaught(k)))
        case Refused => if dieOnError then ImportState(prev.docs, Some(DiedOnError(k))) else prev
  }

  /** What one item of `import` reports, and the store after it, when the store before it is `docs`. */
  ghost predicate ItemImported(s: Schema, docs: map<string, Document>, values: map<string, Value>, valid: map<string, Value> -> bool,
                               id: string, now: int, actor: string, r: Result<()>, after: map<string, Document>)
    requires WellFormed(s)
  {
    if !valid(Assigned(s, Constructed(s), values)) then r == Ok(()) && after == docs
    else match ImportOne(s, docs, values, id, now, actor)
      case Inserted(d) => r == Ok(()) && after == d
      case Refused => r == Err(Persistence) && after == docs
      case Raised => r.Err? && r.failure.EmbeddedAttributes? && after == docs
  }

  /** One item of `import`: a new record given the values, inserted when valid; reports what the insert did. */
  method ImportItem(s: Schema, db: Store, values: map<string, Value>, valid: map<string, Value> -> bool,
                    id: string, now: int, actor: string) returns (r: Result<()>)
    requires WellFormed(s)
    modifies db
    ensures ItemImported(s, old(db.docs), values, valid, id, now, actor, r, db.docs)
  {
    var rec := new Record(s);
    rec.attrs := Assigned(s, rec.attrs, values);
    r := Ok(());
    if valid(rec.attrs) {
      ghost var stamped := Stamp(s, true, rec.attrs, now, actor);
      ghost var outcome := ImportOne(s, old(db.docs), values, id, now, actor);
      r := rec.Insert(db, now, actor, id);
      if exists n :: Unreadable(s, stamped, n) {
        assert outcome == Raised;
        assert r.Err? && r.failure.EmbeddedAttributes? && db.docs == old(db.docs);
      } else if id in old(db.docs) {
        assert outcome == Refused;
        assert r == Err(Persistence) && db.docs == old(db.docs);
      } else {
        assert outcome == Inserted(old(db.docs)[id := InsertDocument(s, stamped, Some(map[]))]);
        assert r == Ok(()) && db.docs == outcome.docs;
      }
    }
  }

  /**
   * `import(records, dieOnError)`: each item becomes a new record given its
   * values; a valid one is inserted under the id the store assigns. A caught
   * failure stops the import with "item x of y" when `dieOnError` is set and
   * is skipped otherwise; an embedded `class` field without an instance
   * raises an error that ends the import whatever `dieOnError` says.
   */
  method Import(s: Schema, db: Store, records: seq<map<string, Value>>, dieOnError: bool,
                valid: map<string, Value> -> bool, ids: seq<string>, now: int, actor: string) returns (r: Result<()>)
    requires WellFormed(s) && |ids| == |records|
    modifies db
    ensures var st := Imported(s, old(db.docs), records, ids, valid, dieOnError, now, actor, |records|);
      && db.docs == st.docs
      && (st.stop.None? ==> r == Ok(()))
      && (st.stop.Some? && st.stop.value.DiedOnError? ==> r == Err(ImportFailed(st.stop.value.item, |records|)))
      && (st.stop.Some? && st.stop.value.Uncaught? ==> r.Err? && r.failure.EmbeddedAttributes?)
  {
    var x := 0;
    while x < |records|
      invariant 0 <= x <= |records|
      invariant Imported(s, old(db.docs), records, ids, valid, dieOnError, now, actor, x) == ImportState(db.docs, None)
    {
      ghost var before := db.docs;
      var item := ImportItem(s, db, records[x], valid, ids[x], now, actor);
      ImportedNext(s, old(db.docs), records, ids, valid, dieOnError, now, actor, x, before, item, db.docs);
      if item.Err? && (item.failure.EmbeddedAttributes? || dieOnError) {
        ImportStops(s, old(db.docs), records, ids, valid, dieOnError, now, actor, x + 1, |records|);
        r := if item.failure.EmbeddedAttributes? then item else Err(ImportFailed(x + 1, |records|));
        return;
      }
      x := x + 1;
    }
    r := Ok(());
  }

  /** One visited item moves the import from item `k` to `k + 1` as `ImportItem` reports it. */
  lemma ImportedNext(s: Schema, docs: map<string, Document>, records: seq<map<string, Value>>, ids: seq<string>,
                     valid: map<string, Value> -> bool, dieOnError: bool, now: int, actor: string, k: nat,
                     before: map<string, Document>, item: Result<()>, after: map<string, Document>)
    requires WellFormed(s) && k < |records| <= |ids|
    requires Imported(s, docs, records, ids, valid, dieOnError, now, actor, k) == ImportState(before, None)
    requires ItemImported(s, before, records[k], valid, ids[k], now, actor, item, after)
    ensures Imported(s, docs, records, ids, valid, dieOnError, now, actor, k + 1)
      == ImportState(after, if item.Err? && item.failure.EmbeddedAttributes? then Some(Uncaught(k + 1))
                            else if item.Err? && dieOnError then Some(DiedOnError(k + 1)) else None)
  {
    var one := ImportOne(s, before, records[k], ids[k], now, actor);
    if valid(Assigned(s, Constructed(s), records[k])) {
      match one
      case Inserted(d) => assert item == Ok(()) && after == d;
      case Refused => assert item == Err(Persistence) && after == before;
      case Raised => assert item.Err? && item.failure.EmbeddedAttributes? && after == before;
    }
  }

  /** Once an item has stopped the import, visiting further items changes nothing. */
  lemma {:induction false} ImportStops(s: Schema, docs: map<string, Document>, records: seq<map<string, Value>>, ids: seq<string>,
                                       valid: map<string, Value> -> bool, dieOnError: bool, now: int, actor: string, k: nat, m: nat)
    requires WellFormed(s) && k <= m <= |records| <= |ids|
    requires Imported(s, docs, records, ids, valid, dieOnError, now, actor, k).stop.Some?
    ensures Imported(s, docs, records, ids, valid, dieOnError, now, actor, m) == Imported(s, docs, records, ids, valid, dieOnError, now, actor, k)
    decreases m - k
  {
    if k < m {
      ImportStops(s, docs, records, ids, valid, dieOnError, now, actor, k, m - 1);
      var prev := Imported(s, docs, records, ids, valid, dieOnError, now, actor, m - 1);
      assert prev.stop.Some?;
      assert Imported(s, docs, records, ids, valid, dieOnError, now, actor, m) == prev;
    }
  }

  /** Item `i` (counted from 1) is a valid one whose insert meets an embedded `class` field without an instance. */
  ghost predicate StoppedByRaise(s: Schema, records: seq<map<string, Value>>, valid: map<string, Value> -> bool,
                                 now: int, actor: string, i: nat)
    requires WellFormed(s)
  {
    1 <= i <= |records| && valid(Assigned(s, Constructed(s), records[i - 1])) && RaisesOnInsert(s, records[i - 1], now, actor)
  }

  /**
   * Where the import stops: at a visited item; without `dieOnError` only at
   * an error nothing catches, and such an item is a valid one whose insert
   * meets an embedded `class` field without an instance.
   */
  lemma {:induction false} ImportFailureBounds(s: Schema, docs: map<string, Document>, records: seq<map<string, Value>>, ids: seq<string>,
                                               valid: map<string, Value> -> bool, dieOnError: bool, now: int, actor: string, k: nat)
    requires WellFormed(s) && k <= |records| <= |ids|
    ensures var st := Imported(s, docs, records, ids, valid, dieOnError, now, actor, k);
      && (st.stop.Some? ==> 1 <= st.stop.value.item <= k)
      && (!dieOnError && st.stop.Some? ==> st.stop.value.Uncaught?)
      && (st.stop.Some? && st.stop.value.Uncaught? ==> StoppedByRaise(s, records, valid, now, actor, st.stop.value.item))
  {
    if k > 0 {
      ImportFailureBounds(s, docs, records, ids, valid, dieOnError, now, actor, k - 1);
      var prev := Imported(s, docs, records, ids, valid, dieOnError, now, actor, k - 1);
      var st := Imported(s, docs, records, ids, valid, dieOnError, now, actor, k);
      if prev.stop.Some? || !valid(Assigned(s, Constructed(s), records[k - 1])) {
        assert st == prev;
      } else {
        match ImportOne(s, prev.docs, records[k - 1], ids[k - 1], now, actor)
        case Inserted(d) => assert st.stop.None?;
        case Raised =>
          assert StoppedByRaise(s, records, valid, now, actor, k);
          assert st.stop == Some(Uncaught(k));
        case Refused => assert st.stop.None? || st.stop == Some(DiedOnError(k));
      }
    }
  }

  /** A successful insert adds exactly the new id and keeps every stored document. */
  lemma ImportOneKeeps(s: Schema, docs: map<string, Document>, values: map<string, Value>, id: string, now: int, actor: string)
    requires WellFormed(s) && ImportOne(s, docs, values, id, now, actor).Inserted?
    ensures var d := ImportOne(s, docs, values, id, now, actor).docs;
      && id !in docs && d.Keys == docs.Keys + {id}
      && (forall x :: x in docs ==> d[x] == docs[x])
  {
  }

  /** The first `k` ids. */
  function IdsBefore(ids: seq<string>, k: nat): (r: set<string>)
    requires k <= |ids|
    ensures forall id :: id in r <==> exists i :: 0 <= i < k && ids[i] == id
  {
    if k == 0 then {} else IdsBefore(ids, k - 1) + {ids[k - 1]}
  }

  /** `after` keeps every document of `docs` as it was and adds new ones only under ids in `added`. */
  ghost predicate KeepsStored(docs: map<string, Document>, after: map<string, Document>, added: set<string>)
  {
    && docs.Keys <= after.Keys
    && (forall id :: id in docs ==> after[id] == docs[id])
    && after.Keys <= docs.Keys + added
  }

  /** One visited item leaves the store as it was, or inserts its document. */
  lemma ImportedDocsNext(s: Schema, docs: map<string, Document>, records: seq<map<string, Value>>, ids: seq<string>,
                         valid: map<string, Value> -> bool, dieOnError: bool, now: int, actor: string, k: nat)
    requires WellFormed(s) && 0 < k <= |records| <= |ids|
    ensures var prev := Imported(s, docs, records, ids, valid, dieOnError, now, actor, k - 1);
      var one := ImportOne(s, prev.docs, records[k - 1], ids[k - 1], now, actor);
      var st := Imported(s, docs, records, ids, valid, dieOnError, now, actor, k);
      st.docs == prev.docs || (one.Inserted? && st.docs == one.docs)
  {
  }

  /** Documents already stored are never replaced or removed, and new ones appear only under the given ids. */
  lemma {:induction false} ImportKeepsStored(s: Schema, docs: map<string, Document>, records: seq<map<string, Value>>, ids: seq<string>,
                                             valid: map<string, Value> -> bool, dieOnError: bool, now: int, actor: string, k: nat)
    requires WellFormed(s) && k <= |records| <= |ids|
    ensures KeepsStored(docs, Imported(s, docs, records, ids, valid, dieOnError, now, actor, k).docs, IdsBefore(ids, k))
  {
    if k > 0 {
      ImportKeepsStored(s, docs, records, ids, valid, dieOnError, now, actor, k - 1);
      ImportedDocsNext(s, docs, records, ids, valid, dieOnError, now, actor, k);
      var prev := Imported(s, docs, records, ids, valid, dieOnError, now, actor, k - 1);
      var one := ImportOne(s, prev.docs, records[k - 1], ids[k - 1], now, actor);
      var st := Imported(s, docs, records, ids, valid, dieOnError, now, actor, k);
      if st.docs != prev.docs {
        ImportOneKeeps(s, prev.docs, records[k - 1], ids[k - 1], now, actor);
        KeepsStoredAdds(docs, prev.docs, one.docs, IdsBefore(ids, k - 1), ids[k - 1]);
      }
    }
  }

  /** Keeping the store and then inserting one new id keeps it with that id added. */
  lemma KeepsStoredAdds(docs: map<string, Document>, mid: map<string, Document>, after: map<string, Document>,
                        added: set<string>, id: string)
    requires KeepsStored(docs, mid, added)
    requires id !in mid && after.Keys == mid.Keys + {id} && forall x :: x in mid ==> after[x] == mid[x]
    ensures KeepsStored(docs, after, added + {id})
  {
  }
}
