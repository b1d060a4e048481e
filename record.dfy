/**
 * A Mongo-backed record: its flags, id, attributes, config store and change
 * log, and the operations that change them (construction, `beforeSave`,
 * `insert`, `update`, `force`, `delete`, `refresh`, the config setters,
 * `increment`/`decrement`, `status`/`lock`/`unlock`, the attribute item
 * helpers and `validateUnique`).
 */
module MongoRecord {
  import opened PhpValues
  import opened RecordSchema
  import opened RecordConfig
  import opened DocumentStore
  import opened SavePipeline

  // ------------------------------------------------------------ construction

  /** The properties after `setDefaults` has visited the defaults named in `done`: only names that are properties take one. */
  function DefaultsOver(s: Schema, attrs: map<string, Value>, done: set<string>): map<string, Value>
  {
    map n | n in attrs.Keys + (set d | d in done && d in s.defaults && d in Props(s)) ::
      if n in done && n in s.defaults && n in Props(s) then s.defaults[n] else attrs[n]
  }

  function WithDefaults(s: Schema, attrs: map<string, Value>): map<string, Value>
  {
    DefaultsOver(s, attrs, s.defaults.Keys)
  }

  /** `setDefaults`: a default lands on its property; a default that names no property is ignored. */
  lemma WithDefaultsMeans(s: Schema, attrs: map<string, Value>, n: string)
    ensures n in s.defaults && n in Props(s) ==> n in WithDefaults(s, attrs) && WithDefaults(s, attrs)[n] == s.defaults[n]
    ensures !(n in s.defaults && n in Props(s)) ==>
      (n in WithDefaults(s, attrs) <==> n in attrs) && (n in attrs ==> WithDefaults(s, attrs)[n] == attrs[n])
  {
  }

  /** Applying the defaults twice, as construction does, is the same as applying them once. */
  lemma WithDefaultsIdempotent(s: Schema, attrs: map<string, Value>)
    ensures WithDefaults(s, WithDefaults(s, attrs)) == WithDefaults(s, attrs)
  {
    var once := WithDefaults(s, attrs);
    assert WithDefaults(s, once).Keys == once.Keys;
  }

  /** The embedded kinds `seedEmbeddables` fills (compared case-sensitively). */
  predicate Seeds(s: Schema, n: string)
  {
    n in s.embedded && (s.embedded[n] == "class" || s.embedded[n] == "object" || s.embedded[n] == "array")
  }

  lemma LowerOfClass()
    ensures Lower("class") == "class"
  {
    var l := Lower("class");
    assert l[0] == 'c' && l[1] == 'l' && l[2] == 'a' && l[3] == 's' && l[4] == 's';
  }

  /** The seed of one embedded document: a fresh instance, an empty object or an empty array. */
  function SeedValue(s: Schema, n: string): (v: Value)
    requires WellFormed(s) && Seeds(s, n)
  {
    if s.embedded[n] == "class" then
      LowerOfClass();
      VRecord(n, s.nestedFresh[n])
    else if s.embedded[n] == "object" then VObject([])
    else VArray([])
  }

  function SeedOver(s: Schema, attrs: map<string, Value>, done: set<string>): map<string, Value>
    requires WellFormed(s)
  {
    map n | n in attrs.Keys + (set e | e in done && Seeds(s, e)) ::
      if n in done && Seeds(s, n) then SeedValue(s, n) else attrs[n]
  }

  function Seeded(s: Schema, attrs: map<string, Value>): map<string, Value>
    requires WellFormed(s)
  {
    SeedOver(s, attrs, s.embedded.Keys)
  }

  lemma DefaultsStep(s: Schema, attrs: map<string, Value>, done: set<string>, n: string)
    requires n !in done
    ensures DefaultsOver(s, attrs, done + {n}) ==
      if n in s.defaults && n in Props(s) then DefaultsOver(s, attrs, done)[n := s.defaults[n]] else DefaultsOver(s, attrs, done)
  {
  }

  lemma SeedStep(s: Schema, attrs: map<string, Value>, done: set<string>, n: string)
    requires WellFormed(s) && n !in done
    ensures SeedOver(s, attrs, done + {n}) ==
      if Seeds(s, n) then SeedOver(s, attrs, done)[n := SeedValue(s, n)] else SeedOver(s, attrs, done)
  {
  }

  /** The `foreach` of `setDefaults` over the declared defaults. */
  method DefaultsLoop(s: Schema, attrs: map<string, Value>) returns (a: map<string, Value>)
    ensures a == WithDefaults(s, attrs)
  {
    a := attrs;
    var todo := s.defaults.Keys;
    ghost var done: set<string> := {};
    assert DefaultsOver(s, attrs, done) == attrs;
    while todo != {}
      invariant todo + done == s.defaults.Keys && todo !! done
      invariant a == DefaultsOver(s, attrs, done)
      decreases todo
    {
      var n :| n in todo;
      DefaultsStep(s, attrs, done, n);
      if n in Props(s) {
        a := a[n := s.defaults[n]];
      }
      todo := todo - {n};
      done := done + {n};
    }
  }

  /** The `foreach` of `seedEmbeddables` over the embedded documents. */
  method SeedLoop(s: Schema, attrs: map<string, Value>) returns (a: map<string, Value>)
    requires WellFormed(s)
    ensures a == Seeded(s, attrs)
  {
    a := attrs;
    var todo := s.embedded.Keys;
    ghost var done: set<string> := {};
    assert SeedOver(s, attrs, done) == attrs;
    while todo != {}
      invariant todo + done == s.embedded.Keys && todo !! done
      invariant a == SeedOver(s, attrs, done)
      decreases todo
    {
      var n :| n in todo;
      SeedStep(s, attrs, done, n);
      if Seeds(s, n) {
        a := a[n := SeedValue(s, n)];
      }
      todo := todo - {n};
      done := done + {n};
    }
  }

  /** The properties of a freshly constructed record: the defaults, then the embedded seeds. */
  function Constructed(s: Schema): map<string, Value>
    requires WellFormed(s)
  {
    Seeded(s, WithDefaults(s, map[]))
  }

  /**
   * After construction each embedded document of kind `class`, `object` or
   * `array` holds a fresh instance, an empty object or an empty array, and
   * every other property holds its default or is unset.
   */
  lemma ConstructedMeans(s: Schema, n: string)
    requires WellFormed(s)
    ensures Seeds(s, n) && s.embedded[n] == "class" ==> Constructed(s)[n] == VRecord(n, s.nestedFresh[n])
    ensures Seeds(s, n) && s.embedded[n] == "object" ==> Constructed(s)[n] == VObject([])
    ensures Seeds(s, n) && s.embedded[n] == "array" ==> Constructed(s)[n] == VArray([])
    ensures !Seeds(s, n) && n in s.defaults && n in Props(s) ==> Constructed(s)[n] == s.defaults[n]
    ensures !Seeds(s, n) && !(n in s.defaults && n in Props(s)) ==> n !in Constructed(s)
    ensures Constructed(s).Keys <= Props(s)
  {
    LowerOfClass();
    WithDefaultsMeans(s, map[], n);
  }

  // ------------------------------------------------------------ saving

  /** The change log after `beforeSave`: one more entry exactly when `ChangeFor` yields one. */
  function SavedLog(s: Schema, isNew: bool, baseline: map<string, Value>, attrs: map<string, Value>,
                    log: seq<ChangeEntry>, now: int, actor: string): seq<ChangeEntry>
  {
    match ChangeFor(s, baseline, Stamp(s, isNew, attrs, now, actor), now, actor)
    case None => log
    case Some(e) => log + [e]
  }

  lemma SavedFieldsStep(s: Schema, attrs: map<string, Value>, done: set<string>, n: string)
    requires n !in done
    ensures SavedFieldsOver(s, attrs, done + {n}) ==
      if Serialised(s, n) then SavedFieldsOver(s, attrs, done)[n := EmbeddedValue(s, attrs, n)] else SavedFieldsOver(s, attrs, done)
  {
  }

  /**
   * The attribute snapshot with every embedded document serialised by kind
   * (the loop `insert`, `update` and `force` share); fails on a `class`
   * document whose property holds no instance.
   */
  method SerialiseFields(s: Schema, attrs: map<string, Value>) returns (r: Result<map<string, Value>>)
    ensures r.Err? <==> exists n :: Unreadable(s, attrs, n)
    ensures r.Err? ==> exists n :: Unreadable(s, attrs, n) && r.failure == EmbeddedAttributes(n)
    ensures r.Ok? ==> r.value == SavedFields(s, attrs)
  {
    var fields := GetAttributes(s, attrs);
    var todo := s.embedded.Keys;
    ghost var done: set<string> := {};
    assert SavedFieldsOver(s, attrs, done) == fields;
    while todo != {}
      invariant todo + done == s.embedded.Keys && todo !! done
      invariant fields == SavedFieldsOver(s, attrs, done)
      invariant forall n :: n in done ==> !Unreadable(s, attrs, n)
      decreases todo
    {
      var n :| n in todo;
      SavedFieldsStep(s, attrs, done, n);
      var kind := s.embedded[n];
      var v := Get(attrs, n);
      if kind == "class" {
        if !v.VRecord? {
          assert Unreadable(s, attrs, n);
          return Err(EmbeddedAttributes(n));
        }
        fields := fields[n := VArray(v.props)];
      } else if kind == "array" {
        fields := fields[n := ToArray(v)];
      } else if kind == "object" {
        fields := fields[n := ToObject(v)];
      }
      todo := todo - {n};
      done := done + {n};
    }
    r := Ok(fields);
  }

  /** A save appends at most one entry, and never one when changes are not tracked. */
  lemma SavedLogGrowsByAtMostOne(s: Schema, isNew: bool, baseline: map<string, Value>, attrs: map<string, Value>,
                                 log: seq<ChangeEntry>, now: int, actor: string)
    ensures var l := SavedLog(s, isNew, baseline, attrs, log, now, actor);
      && (|l| == |log| || |l| == |log| + 1)
      && l[..|log|] == log
      && (!s.trackChanges ==> l == log)
  {
  }

  // ------------------------------------------------------------ attribute items

  /** `isAttribute` as written: `in_array` is handed the name as its haystack, so PHP 7 warns and yields null, read as false. */
  function IsAttributeAsWritten(s: Schema, attribute: string): bool
  {
    false
  }

  /** `isAttribute` as intended: the name is a declared attribute. */
  function IsAttribute(s: Schema, attribute: string): bool
  {
    attribute in s.attributeNames
  }

  /** The swapped arguments reject every declared attribute, so the item helpers could only ever return false. */
  lemma IsAttributeRejectsDeclared(s: Schema, attribute: string)
    requires attribute in s.attributeNames
    ensures IsAttribute(s, attribute) && !IsAttributeAsWritten(s, attribute)
  {
  }

  /** Every integer key of the entries is at most their largest. */
  lemma {:induction false} MaxIntKeyBounds(entries: seq<Pair>)
    ensures forall j :: 0 <= j < |entries| && entries[j].key.IntKey? ==> entries[j].key.n <= MaxIntKey(entries)
  {
    if |entries| > 0 {
      MaxIntKeyBounds(entries[..|entries| - 1]);
      forall j | 0 <= j < |entries| && entries[j].key.IntKey?
        ensures entries[j].key.n <= MaxIntKey(entries)
      {
        if j < |entries| - 1 {
          assert entries[..|entries| - 1][j] == entries[j];
        }
      }
    }
  }

  /** `array_push`: the item goes under the next free integer index, at the end. */
  function PushItem(entries: seq<Pair>, item: Value): seq<Pair>
  {
    entries + [Pair(IntKey(NextIndex(entries)), item)]
  }

  /** `array_pop`: the last entry goes. */
  function PopItem(entries: seq<Pair>): seq<Pair>
  {
    if |entries| == 0 then [] else entries[..|entries| - 1]
  }

  /** Pushing keeps every entry, adds one at the end under a key not in use before, and a pop takes it back off. */
  lemma PushItemMeans(entries: seq<Pair>, item: Value)
    ensures |PushItem(entries, item)| == |entries| + 1
    ensures PushItem(entries, item)[..|entries|] == entries
    ensures !HasKey(entries, IntKey(NextIndex(entries)))
    ensures Lookup(PushItem(entries, item), IntKey(NextIndex(entries))) == Some(item)
    ensures PopItem(PushItem(entries, item)) == entries
  {
    MaxIntKeyBounds(entries);
    var k := IntKey(NextIndex(entries));
    forall j | 0 <= j < |entries| ensures entries[j].key != k {
    }
    LookupFound(entries, k);
    LookupAppend(entries, k, Pair(k, item).val);
  }

  // ------------------------------------------------------------ validateUnique

  datatype UniqueError = InvalidValue | InUse

  /**
   * The decision of `validateUnique`: nothing for an empty value when
   * `allowEmpty` is given, an error for an array value, and otherwise an
   * error exactly when other documents already hold the value.
   */
  function UniqueOutcome(allowEmpty: bool, value: Value, matches: nat): (r: Option<UniqueError>)
    ensures allowEmpty && IsEmpty(value) ==> r.None?
    ensures r == Some(InvalidValue) <==> !(allowEmpty && IsEmpty(value)) && value.VArray?
    ensures r == Some(InUse) <==> !(allowEmpty && IsEmpty(value)) && !value.VArray? && matches > 0
  {
    if allowEmpty && IsEmpty(value) then None
    else if value.VArray? then Some(InvalidValue)
    else if matches > 0 then Some(InUse)
    else None
  }

  /** The record's own id is left out of the count only when `objectId()` is not empty (so "" and "0" count it). */
  function UniqueExclusion(objectId: string): (r: Option<string>)
    ensures r.Some? <==> objectId != "" && objectId != "0"
    ensures r.Some? ==> r.value == objectId
  {
    if IsEmpty(VStr(objectId)) then None else Some(objectId)
  }

  /**
   * Whether PHP can interpolate the value into a string. An object or a
   * nested record has no `__toString`, so its conversion raises.
   */
  predicate HasStringForm(v: Value)
  {
    !v.VObject? && !v.VRecord?
  }

  /** The default message, when none is given: the humanised name, the value in quotes, and why it is rejected. */
  function InUseMessage(humanised: string, value: Value): string
  {
    humanised + " '" + Str(value) + "' is already in use and is required to be unique."
  }

  class Record {
    const schema: Schema
    /** CMongoModel's own new flag, the one the save pipeline reads and writes. */
    var isNew: bool
    var isDeleted: bool
    /** `_id`, as its string form. */
    var id: Option<string>
    /** The record's properties: declared attributes, the primary-key alias and the embedded documents. */
    var attrs: map<string, Value>
    var initialValues: map<string, Value>
    var changeLog: seq<ChangeEntry>
    /** `_config`; None when it has been set to null. */
    var config: Option<ConfigStore>
    var errors: map<string, seq<string>>

    /** CNoSqlModel's private new flag: only its constructor assigns it, always true. */
    const baseIsNew: bool

    /** `new static()`: the defaults (applied twice, by the constructor and by `init`) and then the embedded seeds. */
    constructor (s: Schema)
      requires WellFormed(s)
      ensures schema == s && isNew && !isDeleted && id.None? && baseIsNew
      ensures attrs == Constructed(s)
      ensures initialValues == map[] && changeLog == [] && config == Some(map[]) && errors == map[]
    {
      schema := s;
      baseIsNew := true;
      isNew := true;
      isDeleted := false;
      id := None;
      attrs := map[];
      initialValues := map[];
      changeLog := [];
      config := Some(map[]);
      errors := map[];
      new;
      SetDefaults();
      SetDefaults();
      WithDefaultsIdempotent(s, map[]);
      SeedEmbeddables();
    }

    /** `setDefaults`. */
    method SetDefaults()
      modifies this
      ensures attrs == WithDefaults(schema, old(attrs))
      ensures isNew == old(isNew) && isDeleted == old(isDeleted) && id == old(id) && config == old(config)
      ensures initialValues == old(initialValues) && changeLog == old(changeLog) && errors == old(errors)
    {
      attrs := DefaultsLoop(schema, attrs);
    }

    /** `seedEmbeddables`. */
    method SeedEmbeddables()
      requires WellFormed(schema)
      modifies this
      ensures attrs == Seeded(schema, old(attrs))
      ensures isNew == old(isNew) && isDeleted == old(isDeleted) && id == old(id) && config == old(config)
      ensures initialValues == old(initialValues) && changeLog == old(changeLog) && errors == old(errors)
    {
      attrs := SeedLoop(schema, attrs);
    }

    /** `isNewRecord()` as written: it reads CNoSqlModel's private flag, which no save ever clears. */
    function IsNewRecordAsWritten(): bool
      reads this
    {
      baseIsNew
    }

    /** `isNewRecord()` as intended: the flag the save pipeline maintains. */
    function IsNewRecord(): bool
      reads this
    {
      isNew
    }

    /** `objectId()`: the string form of the primary-key alias. */
    function ObjectId(): string
      reads this
    {
      Str(Get(attrs, schema.primaryKey))
    }

    /** `setId`: `_id` and the alias both become the string form of the new id. */
    method SetId(newId: string)
      modifies this
      ensures id == Some(newId) && attrs == old(attrs)[schema.primaryKey := VStr(newId)]
      ensures ObjectId() == newId
      ensures isNew == old(isNew) && isDeleted == old(isDeleted) && config == old(config)
      ensures initialValues == old(initialValues) && changeLog == old(changeLog) && errors == old(errors)
    {
      id := Some(newId);
      attrs := attrs[schema.primaryKey := VStr(newId)];
    }

    /** `changeLog()`. */
    function ChangeLog(): seq<ChangeEntry>
      reads this
    {
      changeLog
    }

    // ---------------------------------------------------------- config

    /** `configValueSet(group, name, value, autoUpdate)`: sets the entry when the store is set, then saves when asked. */
    method ConfigValueSet(db: Store, group: string, name: string, v: Value, autoUpdate: bool, now: int, actor: string)
      returns (r: Result<()>)
      modifies this, db
      ensures old(config).None? ==> (r == Ok(()) && config.None? && unchanged(db)
        && attrs == old(attrs) && changeLog == old(changeLog) && isDeleted == old(isDeleted))
      ensures old(config).Some? && !autoUpdate ==> (r == Ok(()) && unchanged(db)
        && config == Some(ConfigPut(old(config).value, group, name, v))
        && attrs == old(attrs) && changeLog == old(changeLog))
      ensures old(config).Some? ==> config == Some(ConfigPut(old(config).value, group, name, v))
      ensures old(config).Some? && autoUpdate && old(isDeleted) ==> r == Err(InvalidState) && unchanged(db)
      ensures old(config).Some? && autoUpdate && !old(isDeleted) ==> r.Ok? ==>
        db.docs == (if id.Some? && id.value in old(db.docs)
          then old(db.docs)[id.value := SetFields(old(db.docs)[id.value], UpdateDocument(schema, attrs, config, changeLog))]
          else old(db.docs))
      ensures old(config).Some? && autoUpdate ==>
        UpdatedFrom(db, old(attrs), r.Ok?, now, actor) && (old(isDeleted) ==> r == Err(InvalidState))
      ensures isDeleted == old(isDeleted) && id == old(id) && isNew == old(isNew)
      ensures initialValues == old(initialValues) && errors == old(errors)
    {
      r := Ok(());
      if config.Some? {
        config := Some(ConfigPut(config.value, group, name, v));
        if autoUpdate {
          r := Update(db, now, actor);
        }
      }
    }

    /** `configSetDefaults`: every declared option whose entry is missing or loosely null takes its default (or ""). */
    method ConfigSetDefaults()
      modifies this
      ensures old(config).Some? ==> config == Some(ApplyDefaults(old(config).value, schema.configOptions))
      ensures old(config).None? ==> config.None?
      ensures attrs == old(attrs) && isNew == old(isNew) && isDeleted == old(isDeleted) && id == old(id)
      ensures initialValues == old(initialValues) && changeLog == old(changeLog) && errors == old(errors)
    {
      if config.None? {
        return;
      }
      var opts := schema.configOptions;
      var c := config.value;
      var i := 0;
      while i < |opts|
        invariant 0 <= i <= |opts|
        invariant c == ApplyDefaults(old(config).value, opts[..i])
      {
        assert opts[..i + 1][..i] == opts[..i];
        var o := opts[i];
        if o.group !in c || o.name !in c[o.group] || IsLooseNull(c[o.group][o.name]) {
          c := ConfigPut(c, o.group, o.name, DefaultOf(o));
        }
        i := i + 1;
      }
      assert opts[..|opts|] == opts;
      config := Some(c);
    }

    /** `afterFind`: with tracking on the current attributes become the baseline; then the config defaults. */
    method AfterFind()
      modifies this
      ensures initialValues == (if schema.trackChanges then GetAttributes(schema, old(attrs)) else old(initialValues))
      ensures old(config).Some? ==> config == Some(ApplyDefaults(old(config).value, schema.configOptions))
      ensures old(config).None? ==> config.None?
      ensures attrs == old(attrs) && isNew == old(isNew) && isDeleted == old(isDeleted) && id == old(id)
      ensures changeLog == old(changeLog) && errors == old(errors)
    {
      if schema.trackChanges {
        initialValues := GetAttributes(schema, attrs);
      }
      ConfigSetDefaults();
    }

    // ---------------------------------------------------------- saving

    /** `beforeSave`: the timestamps, then (when tracked) one change entry if anything changed. */
    method BeforeSave(now: int, actor: string)
      modifies this
      ensures attrs == Stamp(schema, old(isNew), old(attrs), now, actor)
      ensures changeLog == SavedLog(schema, old(isNew), old(initialValues), old(attrs), old(changeLog), now, actor)
      ensures isNew == old(isNew) && isDeleted == old(isDeleted) && id == old(id) && config == old(config)
      ensures initialValues == old(initialValues) && errors == old(errors)
    {
      attrs := Stamp(schema, isNew, attrs, now, actor);
      var entry := ChangeFor(schema, initialValues, attrs, now, actor);
      if entry.Some? {
        changeLog := changeLog + [entry.value];
      }
    }

    /**
     * `insert`: refused for a deleted record; otherwise `beforeSave`, then the
     * document without the alias and with `_config`. A store that reports
     * nothing inserted raises; on success the id and alias are set and the
     * record is no longer new.
     */
    method Insert(db: Store, now: int, actor: string, newId: string) returns (r: Result<()>)
      modifies this, db
      ensures old(isDeleted) ==> r == Err(InvalidState) && unchanged(this) && unchanged(db)
      ensures !old(isDeleted) ==> changeLog == SavedLog(schema, old(isNew), old(initialValues), old(attrs), old(changeLog), now, actor)
      ensures !old(isDeleted) ==> var stamped := Stamp(schema, old(isNew), old(attrs), now, actor);
        && (r.Err? ==> (r.failure.EmbeddedAttributes? || r.failure == Persistence) && attrs == stamped && isNew == old(isNew) && id == old(id))
        && ((exists n :: Unreadable(schema, stamped, n)) ==> r.Err? && r.failure.EmbeddedAttributes? && unchanged(db))
        && (!(exists n :: Unreadable(schema, stamped, n)) && newId in old(db.docs) ==> r == Err(Persistence) && db.docs == old(db.docs))
        && (!(exists n :: Unreadable(schema, stamped, n)) && newId !in old(db.docs) ==>
            r == Ok(()) && db.docs == old(db.docs)[newId := InsertDocument(schema, stamped, old(config))]
            && id == Some(newId) && attrs == stamped[schema.primaryKey := VStr(newId)] && !isNew)
      ensures r.Ok? ==> ObjectId() == newId && !IsNewRecord()
      ensures isDeleted == old(isDeleted) && config == old(config) && initialValues == old(initialValues) && errors == old(errors)
    {
      if isDeleted {
        return Err(InvalidState);
      }
      BeforeSave(now, actor);
      var fields := SerialiseFields(schema, attrs);
      if fields.Err? {
        return Err(fields.failure);
      }
      var doc := Document(fields.value - {schema.primaryKey}, ConfigField(config), None);
      assert db.docs == old(db.docs);
      var count := db.InsertOne(doc, newId);
      if count == 0 {
        return Err(Persistence);
      }
      id := Some(newId);
      attrs := attrs[schema.primaryKey := VStr(newId)];
      isNew := false;
      r := Ok(());
    }

    /**
     * `update`: refused for a deleted record; otherwise `beforeSave`, then a
     * `$set` of the saved fields (the alias included), `_config` and, when
     * tracked, the change log, on the document with the record's id.
     */
    method Update(db: Store, now: int, actor: string) returns (r: Result<()>)
      modifies this, db
      ensures old(isDeleted) ==> r == Err(InvalidState) && unchanged(this) && unchanged(db)
      ensures !old(isDeleted) ==> (attrs == Stamp(schema, old(isNew), old(attrs), now, actor)
        && changeLog == SavedLog(schema, old(isNew), old(initialValues), old(attrs), old(changeLog), now, actor))
      ensures !old(isDeleted) ==> (r.Err? <==> exists n :: Unreadable(schema, attrs, n))
      ensures r.Err? ==> unchanged(db)
      ensures !old(isDeleted) && r.Ok? ==> db.docs == UpdatedStore(schema, old(db.docs), id, attrs, config, changeLog)
      ensures isNew == old(isNew) && isDeleted == old(isDeleted) && id == old(id) && config == old(config)
      ensures initialValues == old(initialValues) && errors == old(errors)
    {
      if isDeleted {
        return Err(InvalidState);
      }
      BeforeSave(now, actor);
      var fields := SerialiseFields(schema, attrs);
      if fields.Err? {
        return Err(fields.failure);
      }
      var change := Document(fields.value, ConfigField(config), if schema.trackChanges then Some(changeLog) else None);
      db.FindOneAndUpdate(id, change);
      r := Ok(());
    }

    /**
     * `force`: like `update`, but the document (without `_config`) is taken
     * before `beforeSave` runs, so the stamps and the new change entry stay on
     * the record and do not reach the store.
     */
    method Force(db: Store, now: int, actor: string) returns (r: Result<()>)
      modifies this, db
      ensures old(isDeleted) ==> r == Err(InvalidState) && unchanged(this) && unchanged(db)
      ensures !old(isDeleted) ==> (r.Err? <==> exists n :: Unreadable(schema, old(attrs), n))
      ensures r.Err? ==> unchanged(this) && unchanged(db)
      ensures !old(isDeleted) && r.Ok? ==> (attrs == Stamp(schema, old(isNew), old(attrs), now, actor)
        && changeLog == SavedLog(schema, old(isNew), old(initialValues), old(attrs), old(changeLog), now, actor)
        && db.docs == (if id.Some? && id.value in old(db.docs)
          then old(db.docs)[id.value := SetFields(old(db.docs)[id.value], ForceDocument(schema, old(attrs), old(changeLog)))]
          else old(db.docs)))
      ensures isNew == old(isNew) && isDeleted == old(isDeleted) && id == old(id) && config == old(config)
      ensures initialValues == old(initialValues) && errors == old(errors)
    {
      if isDeleted {
        return Err(InvalidState);
      }
      var fields := SerialiseFields(schema, attrs);
      if fields.Err? {
        return Err(fields.failure);
      }
      var change := Document(fields.value, NoConfig, if schema.trackChanges then Some(changeLog) else None);
      BeforeSave(now, actor);
      db.FindOneAndUpdate(id, change);
      r := Ok(());
    }

    /** `delete`: refused for a deleted record; otherwise removes the document with the record's id and marks the record deleted. */
    method Delete(db: Store) returns (r: Result<bool>)
      modifies this, db
      ensures old(isDeleted) ==> r == Err(InvalidState) && unchanged(this) && unchanged(db)
      ensures !old(isDeleted) ==> (r == Ok(true) && isDeleted
        && db.docs == (if id.Some? then old(db.docs) - {id.value} else old(db.docs)))
      ensures isDeleted
      ensures attrs == old(attrs) && isNew == old(isNew) && id == old(id) && config == old(config)
      ensures initialValues == old(initialValues) && changeLog == old(changeLog) && errors == old(errors)
    {
      if isDeleted {
        return Err(InvalidState);
      }
      db.FindOneAndDelete(id);
      isDeleted := true;
      r := Ok(true);
    }

    /** `refresh`: only the deleted-record guard. */
    method Refresh() returns (r: Result<()>)
      ensures r.Err? <==> isDeleted
      ensures r.Err? ==> r.failure == InvalidState
    {
      if isDeleted {
        return Err(InvalidState);
      }
      r := Ok(());
    }

    // ---------------------------------------------------------- counters, status, lock

    /**
     * What one call of `update` leaves behind when the properties were
     * `before` just ahead of it. A deleted record refuses (`ok` false) and
     * keeps them. Otherwise they are stamped and the change log grows as
     * `beforeSave` says; unless an embedded `class` field cannot be read
     * (`ok` false, store untouched), the document with the record's id
     * receives the `$set`.
     */
    twostate predicate UpdatedFrom(db: Store, before: map<string, Value>, ok: bool, now: int, actor: string)
      reads this, db
    {
      if old(isDeleted) then
        !ok && attrs == before && changeLog == old(changeLog) && db.docs == old(db.docs)
      else
        && attrs == Stamp(schema, old(isNew), before, now, actor)
        && changeLog == SavedLog(schema, old(isNew), old(initialValues), before, old(changeLog), now, actor)
        && (ok <==> !exists n :: Unreadable(schema, attrs, n))
        && db.docs == if ok then UpdatedStore(schema, old(db.docs), id, attrs, config, changeLog) else old(db.docs)
    }

    /**
     * `increment(field, cnt)`: when the field is set or declared it becomes
     * `(int)field + (int)cnt` and the record is updated; otherwise nothing
     * happens.
     */
    method Increment(db: Store, field: string, cnt: Value, now: int, actor: string) returns (r: Result<()>)
      modifies this, db
      ensures !SetOrDeclared(schema, old(attrs), field) ==> r == Ok(()) && unchanged(this) && unchanged(db)
      ensures SetOrDeclared(schema, old(attrs), field) ==>
        UpdatedFrom(db, old(attrs)[field := VInt(IntCast(Get(old(attrs), field)) + IntCast(cnt))], r.Ok?, now, actor)
        && (old(isDeleted) ==> r == Err(InvalidState))
      ensures isNew == old(isNew) && isDeleted == old(isDeleted) && id == old(id) && config == old(config)
      ensures initialValues == old(initialValues) && errors == old(errors)
    {
      r := Ok(());
      if SetOrDeclared(schema, attrs, field) {
        attrs := attrs[field := VInt(IntCast(Get(attrs, field)) + IntCast(cnt))];
        r := Update(db, now, actor);
      }
    }

    /** `decrement(field, cnt)`: as `increment`, with `(int)field - (int)cnt`. */
    method Decrement(db: Store, field: string, cnt: Value, now: int, actor: string) returns (r: Result<()>)
      modifies this, db
      ensures !SetOrDeclared(schema, old(attrs), field) ==> r == Ok(()) && unchanged(this) && unchanged(db)
      ensures SetOrDeclared(schema, old(attrs), field) ==>
        UpdatedFrom(db, old(attrs)[field := VInt(IntCast(Get(old(attrs), field)) - IntCast(cnt))], r.Ok?, now, actor)
        && (old(isDeleted) ==> r == Err(InvalidState))
      ensures isNew == old(isNew) && isDeleted == old(isDeleted) && id == old(id) && config == old(config)
      ensures initialValues == old(initialValues) && errors == old(errors)
    {
      r := Ok(());
      if SetOrDeclared(schema, attrs, field) {
        attrs := attrs[field := VInt(IntCast(Get(attrs, field)) - IntCast(cnt))];
        r := Update(db, now, actor);
      }
    }

    /**
     * `status(status, set)`: false without a declared `Status`; with a set
     * `Status`, a non-empty status and `set`, assigns it and updates (true);
     * an empty status reads the current one; otherwise compares loosely.
     */
    method Status(db: Store, status: Value, assign: bool, now: int, actor: string) returns (r: Result<Value>)
      modifies this, db
      ensures "Status" !in schema.attributeNames ==> r == Ok(VBool(false)) && unchanged(this) && unchanged(db)
      ensures "Status" in schema.attributeNames && SetAndAssign(old(attrs), status, assign) ==>
        UpdatedFrom(db, old(attrs)["Status" := status], r.Ok?, now, actor)
        && (old(isDeleted) ==> r == Err(InvalidState)) && (r.Ok? ==> r.value == VBool(true))
      ensures "Status" in schema.attributeNames && !SetAndAssign(old(attrs), status, assign) ==>
        unchanged(this) && unchanged(db)
        && r == Ok(if IsEmpty(status) then Get(old(attrs), "Status") else VBool(LooseEq(Get(old(attrs), "Status"), status)))
      ensures isNew == old(isNew) && isDeleted == old(isDeleted) && id == old(id) && config == old(config)
      ensures initialValues == old(initialValues) && errors == old(errors)
    {
      if "Status" !in schema.attributeNames {
        return Ok(VBool(false));
      }
      if SetAndAssign(attrs, status, assign) {
        attrs := attrs["Status" := status];
        var u := Update(db, now, actor);
        if u.Err? {
          return Err(u.failure);
        }
        return Ok(VBool(true));
      } else if IsEmpty(status) {
        return Ok(Get(attrs, "Status"));
      } else {
        return Ok(VBool(LooseEq(Get(attrs, "Status"), status)));
      }
    }

    /** `lock`: false without a declared `IsLocked`; a set flag not loosely 1 becomes 1 and the record is updated; otherwise null. */
    method Lock(db: Store, now: int, actor: string) returns (r: Result<Value>)
      modifies this, db
      ensures "IsLocked" !in schema.attributeNames ==> r == Ok(VBool(false)) && unchanged(this) && unchanged(db)
      ensures "IsLocked" in schema.attributeNames && !(IsSetProp(old(attrs), "IsLocked") && !LooseEq(old(attrs)["IsLocked"], VInt(1))) ==>
        r == Ok(VNull) && unchanged(this) && unchanged(db)
      ensures "IsLocked" in schema.attributeNames && IsSetProp(old(attrs), "IsLocked") && !LooseEq(old(attrs)["IsLocked"], VInt(1)) ==>
        UpdatedFrom(db, old(attrs)["IsLocked" := VInt(1)], r.Ok?, now, actor)
        && (old(isDeleted) ==> r == Err(InvalidState)) && (r.Ok? ==> r.value == VBool(true))
      ensures isNew == old(isNew) && isDeleted == old(isDeleted) && id == old(id) && config == old(config)
      ensures initialValues == old(initialValues) && errors == old(errors)
    {
      if "IsLocked" !in schema.attributeNames {
        return Ok(VBool(false));
      }
      if IsSetProp(attrs, "IsLocked") && !LooseEq(attrs["IsLocked"], VInt(1)) {
        attrs := attrs["IsLocked" := VInt(1)];
        var u := Update(db, now, actor);
        if u.Err? {
          return Err(u.failure);
        }
        return Ok(VBool(true));
      }
      r := Ok(VNull);
    }

    /** `unlock`: false without a declared `IsLocked`; a set flag becomes 0 and the record is updated; otherwise null. */
    method Unlock(db: Store, now: int, actor: string) returns (r: Result<Value>)
      modifies this, db
      ensures "IsLocked" !in schema.attributeNames ==> r == Ok(VBool(false)) && unchanged(this) && unchanged(db)
      ensures "IsLocked" in schema.attributeNames && !IsSetProp(old(attrs), "IsLocked") ==>
        r == Ok(VNull) && unchanged(this) && unchanged(db)
      ensures "IsLocked" in schema.attributeNames && IsSetProp(old(attrs), "IsLocked") ==>
        UpdatedFrom(db, old(attrs)["IsLocked" := VInt(0)], r.Ok?, now, actor)
        && (old(isDeleted) ==> r == Err(InvalidState)) && (r.Ok? ==> r.value == VBool(true))
      ensures isNew == old(isNew) && isDeleted == old(isDeleted) && id == old(id) && config == old(config)
      ensures initialValues == old(initialValues) && errors == old(errors)
    {
      if "IsLocked" !in schema.attributeNames {
        return Ok(VBool(false));
      }
      if IsSetProp(attrs, "IsLocked") {
        attrs := attrs["IsLocked" := VInt(0)];
        var u := Update(db, now, actor);
        if u.Err? {
          return Err(u.failure);
        }
        return Ok(VBool(true));
      }
      r := Ok(VNull);
    }

    // ---------------------------------------------------------- attribute items

    /**
     * The outcome of an item helper, given what `isAttribute` answered
     * (`accepted`). A rejected name changes nothing. An accepted one first
     * has an empty value replaced by []; the edit then applies unless the
     * value is not an array (or, for an unset, the key is not set), and an
     * applied edit is followed by `update` when `save` is asked for.
     */
    twostate predicate ItemEdited(db: Store, attribute: string, op: ItemOp, accepted: bool, save: bool, new r: Result<bool>, now: int, actor: string)
      reads this, db
    {
      var edit := ApplyItem(op, ListAfterReset(old(attrs), attribute));
      if !accepted then
        r == Ok(false) && attrs == old(attrs) && changeLog == old(changeLog) && db.docs == old(db.docs)
      else if edit.None? then
        r == Ok(false) && attrs == ResetList(old(attrs), attribute) && changeLog == old(changeLog) && db.docs == old(db.docs)
      else if !save then
        r == Ok(true) && attrs == old(attrs)[attribute := VArray(edit.value)] && changeLog == old(changeLog) && db.docs == old(db.docs)
      else
        && UpdatedFrom(db, old(attrs)[attribute := VArray(edit.value)], r.Ok?, now, actor)
        && (old(isDeleted) ==> r == Err(InvalidState)) && (r.Ok? ==> r.value)
    }

    /** The edit shared by the item helpers, with the answer of `isAttribute` given as `accepted`. */
    method EditItem(attribute: string, op: ItemOp, accepted: bool) returns (applied: bool)
      modifies this
      ensures applied <==> accepted && ApplyItem(op, ListAfterReset(old(attrs), attribute)).Some?
      ensures !accepted ==> unchanged(this)
      ensures accepted && !applied ==> attrs == ResetList(old(attrs), attribute)
      ensures applied ==> attrs == old(attrs)[attribute := VArray(ApplyItem(op, ListAfterReset(old(attrs), attribute)).value)]
      ensures isNew == old(isNew) && isDeleted == old(isDeleted) && id == old(id) && config == old(config)
      ensures initialValues == old(initialValues) && changeLog == old(changeLog) && errors == old(errors)
    {
      if !accepted {
        return false;
      }
      attrs := ResetList(attrs, attribute);
      var edit := ApplyItem(op, Get(attrs, attribute));
      if edit.None? {
        return false;
      }
      attrs := attrs[attribute := VArray(edit.value)];
      applied := true;
    }

    /** The tail of the item helpers: false when the edit did not apply; otherwise an update when asked, then true. */
    method FinishItem(db: Store, applied: bool, save: bool, now: int, actor: string) returns (r: Result<bool>)
      modifies this, db
      ensures !applied || !save ==> r == Ok(applied) && unchanged(this) && unchanged(db)
      ensures applied && save ==>
        UpdatedFrom(db, old(attrs), r.Ok?, now, actor)
        && (old(isDeleted) ==> r == Err(InvalidState)) && (r.Ok? ==> r.value)
      ensures isNew == old(isNew) && isDeleted == old(isDeleted) && id == old(id) && config == old(config)
      ensures initialValues == old(initialValues) && errors == old(errors)
    {
      if !applied {
        return Ok(false);
      }
      r := Ok(true);
      if save {
        var u := Update(db, now, actor);
        if u.Err? {
          r := Err(u.failure);
        }
      }
    }

    /** An item helper, with the answer of `isAttribute` given as `accepted`. */
    method EditAttributeItem(db: Store, attribute: string, op: ItemOp, accepted: bool, save: bool, now: int, actor: string)
      returns (r: Result<bool>)
      modifies this, db
      ensures ItemEdited(db, attribute, op, accepted, save, r, now, actor)
      ensures !accepted ==> unchanged(this) && unchanged(db)
      ensures isNew == old(isNew) && isDeleted == old(isDeleted) && id == old(id) && config == old(config)
      ensures initialValues == old(initialValues) && errors == old(errors)
    {
      var applied := EditItem(attribute, op, accepted);
      r := FinishItem(db, applied, save, now, actor);
    }

    /**
     * The item helpers with `isAttribute` as intended: the edit is offered
     * exactly to declared attributes.
     */
    method EditDeclaredItem(db: Store, attribute: string, op: ItemOp, save: bool, now: int, actor: string) returns (r: Result<bool>)
      modifies this, db
      ensures ItemEdited(db, attribute, op, IsAttribute(schema, attribute), save, r, now, actor)
      ensures r == Ok(true) ==> attribute in schema.attributeNames
      ensures isNew == old(isNew) && isDeleted == old(isDeleted) && id == old(id) && config == old(config)
      ensures initialValues == old(initialValues) && errors == old(errors)
    {
      r := EditAttributeItem(db, attribute, op, IsAttribute(schema, attribute), save, now, actor);
    }

    /** `pushAttributeItem`: as written, `isAttribute` rejects every name, so it answers false and changes nothing. */
    method PushAttributeItem(db: Store, attribute: string, item: Value, save: bool, now: int, actor: string) returns (r: Result<bool>)
      modifies this, db
      ensures ItemEdited(db, attribute, Push(item), IsAttributeAsWritten(schema, attribute), save, r, now, actor)
      ensures r == Ok(false) && unchanged(this) && unchanged(db)
    {
      r := EditAttributeItem(db, attribute, Push(item), IsAttributeAsWritten(schema, attribute), save, now, actor);
    }

    /** `popAttributeItem`: answers false and changes nothing, as `pushAttributeItem`. */
    method PopAttributeItem(db: Store, attribute: string, save: bool, now: int, actor: string) returns (r: Result<bool>)
      modifies this, db
      ensures ItemEdited(db, attribute, Pop, IsAttributeAsWritten(schema, attribute), save, r, now, actor)
      ensures r == Ok(false) && unchanged(this) && unchanged(db)
    {
      r := EditAttributeItem(db, attribute, Pop, IsAttributeAsWritten(schema, attribute), save, now, actor);
    }

    /** `setAttributeItem`: answers false and changes nothing, as `pushAttributeItem`. */
    method SetAttributeItem(db: Store, attribute: string, key: Key, item: Value, save: bool, now: int, actor: string) returns (r: Result<bool>)
      modifies this, db
      ensures ItemEdited(db, attribute, Assign(key, item), IsAttributeAsWritten(schema, attribute), save, r, now, actor)
      ensures r == Ok(false) && unchanged(this) && unchanged(db)
    {
      r := EditAttributeItem(db, attribute, Assign(key, item), IsAttributeAsWritten(schema, attribute), save, now, actor);
    }

    /** `unsetAttributeItem`: answers false and changes nothing, as `pushAttributeItem`. */
    method UnsetAttributeItem(db: Store, attribute: string, key: Key, save: bool, now: int, actor: string) returns (r: Result<bool>)
      modifies this, db
      ensures ItemEdited(db, attribute, Unset(key), IsAttributeAsWritten(schema, attribute), save, r, now, actor)
      ensures r == Ok(false) && unchanged(this) && unchanged(db)
    {
      r := EditAttributeItem(db, attribute, Unset(key), IsAttributeAsWritten(schema, attribute), save, now, actor);
    }

    // ---------------------------------------------------------- validation

    /**
     * `validateUnique(attribute, params)`: adds the invalid-value message for
     * an array value, and the in-use message (the given one or the default)
     * when other documents hold the value; `allowEmpty` skips empty values.
     * The default message is built whether or not anything matched, so an
     * object or nested-record value without a given message raises instead.
     */
    method ValidateUnique(db: Store, attribute: string, allowEmpty: bool, message: Option<string>,
                          humanised: string, invalidMessage: string) returns (r: Result<()>)
      modifies this
      ensures var value := Get(attrs, attribute);
        r.Err? <==> !(allowEmpty && IsEmpty(value)) && !value.VArray? && message.None? && !HasStringForm(value)
      ensures r.Err? ==> r.failure == NoStringForm(attribute) && errors == old(errors)
      ensures r.Ok? ==> var value := Get(attrs, attribute);
        var outcome := UniqueOutcome(allowEmpty, value, db.Count(map[attribute := value], UniqueExclusion(ObjectId())));
        errors == match outcome
          case None => old(errors)
          case Some(InvalidValue) => AddError(old(errors), attribute, invalidMessage)
          case Some(InUse) => AddError(old(errors), attribute, if message.Some? then message.value else InUseMessage(humanised, value))
      ensures attrs == old(attrs) && isNew == old(isNew) && isDeleted == old(isDeleted) && id == old(id)
      ensures config == old(config) && changeLog == old(changeLog) && initialValues == old(initialValues)
    {
      r := Ok(());
      var value := Get(attrs, attribute);
      if allowEmpty && IsEmpty(value) {
        return;
      }
      if value.VArray? {
        errors := AddError(errors, attribute, invalidMessage);
        return;
      }
      var matches := db.Count(map[attribute := value], UniqueExclusion(ObjectId()));
      if message.None? && !HasStringForm(value) {
        return Err(NoStringForm(attribute));
      }
      var text := if message.Some? then message.value else InUseMessage(humanised, value);
      if matches > 0 {
        errors := AddError(errors, attribute, text);
      }
    }
  }

  /** `isset($this->n)`. */
  predicate IsSetProp(attrs: map<string, Value>, n: string)
  {
    n in attrs && IsSet(attrs[n])
  }

  /** The first branch of `status`: a set `Status`, a non-empty status, and `set`. */
  predicate SetAndAssign(attrs: map<string, Value>, status: Value, assign: bool)
  {
    IsSetProp(attrs, "Status") && !IsEmpty(status) && assign
  }

  /** The edits of the four item helpers. */
  datatype ItemOp = Push(item: Value) | Pop | Assign(key: Key, val: Value) | Unset(key: Key)

  /** The entries an edit leaves in the attribute, or None when the helper answers false. */
  function ApplyItem(op: ItemOp, v: Value): Option<seq<Pair>>
  {
    match op
    case Push(item) => if v.VArray? then Some(PushItem(v.entries, item)) else None
    case Pop => if v.VArray? then Some(PopItem(v.entries)) else None
    case Assign(key, item) => if v.VArray? then Some(SetKey(v.entries, key, item)) else None
    case Unset(key) => if ItemIsSet(v, key) then Some(RemoveKey(v.entries, key)) else None
  }

  /** `if (empty($this->a)) $this->a = [];` */
  function ResetList(attrs: map<string, Value>, attribute: string): map<string, Value>
  {
    if IsEmpty(Get(attrs, attribute)) then attrs[attribute := VArray([])] else attrs
  }

  /**
   * `isNewRecord()` as written answers true for a record that `insert` has
   * just saved, while the flag the save pipeline maintains says it is no
   * longer new.
   */
  method InsertedStillNewAsWritten(s: Schema, db: Store, now: int, actor: string, newId: string) returns (rec: Record, r: Result<()>)
    requires WellFormed(s) && newId !in db.docs
    requires !(exists n :: Unreadable(s, Stamp(s, true, Constructed(s), now, actor), n))
    modifies db
    ensures r == Ok(()) && rec.IsNewRecordAsWritten() && !rec.IsNewRecord()
  {
    rec := new Record(s);
    r := rec.Insert(db, now, actor, newId);
  }

  /** An item edit on a declared attribute answers true except for a non-empty non-array value, or an unset item to remove. */
  lemma ItemEditApplies(op: ItemOp, attrs: map<string, Value>, attribute: string)
    ensures ApplyItem(op, ListAfterReset(attrs, attribute)).Some? <==>
      if op.Unset? then ItemIsSet(ListAfterReset(attrs, attribute), op.key)
      else IsEmpty(Get(attrs, attribute)) || Get(attrs, attribute).VArray?
    ensures Get(ResetList(attrs, attribute), attribute) == ListAfterReset(attrs, attribute)
  {
  }

  /** The collection after `update`'s `$set` of the saved record on the document with its id; no document, no change. */
  function UpdatedStore(s: Schema, docs: map<string, Document>, id: Option<string>, attrs: map<string, Value>,
                        config: Option<ConfigStore>, log: seq<ChangeEntry>): map<string, Document>
  {
    if id.Some? && id.value in docs then docs[id.value := SetFields(docs[id.value], UpdateDocument(s, attrs, config, log))]
    else docs
  }

  /**
   * After an update the stored document holds each plain declared
   * attribute as the record has it, and every other document is as it was.
   */
  lemma UpdatedStoreHolds(s: Schema, docs: map<string, Document>, id: string, attrs: map<string, Value>,
                          config: Option<ConfigStore>, log: seq<ChangeEntry>, f: string)
    requires id in docs && f in s.attributeNames && !Serialised(s, f)
    ensures UpdatedStore(s, docs, Some(id), attrs, config, log).Keys == docs.Keys
    ensures UpdatedStore(s, docs, Some(id), attrs, config, log)[id].fields[f] == Get(attrs, f)
    ensures forall k :: k in docs && k != id ==> UpdatedStore(s, docs, Some(id), attrs, config, log)[k] == docs[k]
  {
    SavedFieldsShape(s, attrs, f);
  }

  /**
   * The value `increment`, `decrement`, `status`, `lock` or `unlock` puts on
   * a property reaches the store: once the update has run, the stored
   * document holds it, provided it is a plain declared attribute that the
   * stamps do not overwrite.
   */
  lemma AssignedValueStored(s: Schema, docs: map<string, Document>, id: string, isNew: bool, attrs: map<string, Value>,
                            f: string, v: Value, config: Option<ConfigStore>, log: seq<ChangeEntry>, now: int, actor: string)
    requires id in docs && f in s.attributeNames && !Serialised(s, f)
    requires f != "CreationDate" && f != "CreatorID" && f != "LastModified"
    ensures UpdatedStore(s, docs, Some(id), Stamp(s, isNew, attrs[f := v], now, actor), config, log)[id].fields[f] == v
  {
    var stamped := Stamp(s, isNew, attrs[f := v], now, actor);
    UpdatedStoreHolds(s, docs, id, stamped, config, log, f);
    StampFields(s, isNew, attrs[f := v], now, actor);
  }

  /** The attribute's value once the item helpers have replaced an empty one by []. */
  function ListAfterReset(attrs: map<string, Value>, attribute: string): Value
  {
    if IsEmpty(Get(attrs, attribute)) then VArray([]) else Get(attrs, attribute)
  }

  /** `is_array($v) && isset($v[$key])`. */
  predicate ItemIsSet(v: Value, key: Key)
  {
    v.VArray? && Lookup(v.entries, key).Some? && IsSet(Lookup(v.entries, key).value)
  }

  /** `addError`: the message joins the attribute's list. */
  function AddError(errors: map<string, seq<string>>, attribute: string, message: string): (r: map<string, seq<string>>)
    ensures attribute in r && |r[attribute]| >= 1 && r[attribute][|r[attribute]| - 1] == message
    ensures forall a :: a in errors && a != attribute ==> a in r && r[a] == errors[a]
  {
    errors[attribute := (if attribute in errors then errors[attribute] else []) + [message]]
  }
}
