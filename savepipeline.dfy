/**
 * The values the save pipeline computes from a record's state: the attribute
 * snapshot `getAttributes()`, `array_diff_assoc`, the timestamps `beforeSave`
 * stamps, the change-log entry it appends, and the document fields an
 * `insert`/`update`/`force` writes once embedded documents are serialised.
 */
module SavePipeline {
  import opened PhpValues
  import opened RecordSchema
  import opened DocumentStore

  /** The names a record object has properties for: its attributes, the primary-key alias and the embedded documents. */
  function Props(s: Schema): set<string>
  {
    (set n | n in s.attributeNames) + {s.primaryKey} + s.embedded.Keys
  }

  /** Reading a property: a missing one reads as null. */
  function Get(attrs: map<string, Value>, n: string): Value
  {
    if n in attrs then attrs[n] else VNull
  }

  /** `getAttributes()`: name => value for every declared attribute and nothing else. */
  function GetAttributes(s: Schema, attrs: map<string, Value>): map<string, Value>
  {
    map n | n in s.attributeNames :: Get(attrs, n)
  }

  /** `array_diff_assoc(a, b)`: the entries of `a` whose key is missing from `b` or whose value differs from `b`'s as a string. */
  function DiffAssoc(a: map<string, Value>, b: map<string, Value>): (r: map<string, Value>)
    ensures forall k :: k in r <==> k in a && (k !in b || Str(a[k]) != Str(b[k]))
    ensures forall k :: k in r ==> r[k] == a[k]
  {
    map k | k in a && (k !in b || Str(a[k]) != Str(b[k])) :: a[k]
  }

  /** Comparing a snapshot with itself finds no difference. */
  lemma DiffAssocSelf(a: map<string, Value>)
    ensures DiffAssoc(a, a) == map[]
  {
    assert DiffAssoc(a, a).Keys == {};
  }

  /** Entries differ in one direction exactly when they differ in the other, over shared keys. */
  lemma DiffAssocSameKeys(a: map<string, Value>, b: map<string, Value>)
    requires a.Keys == b.Keys
    ensures DiffAssoc(a, b).Keys == DiffAssoc(b, a).Keys
    ensures DiffAssoc(a, b) == map[] <==> forall k :: k in a ==> Str(a[k]) == Str(b[k])
  {
    if DiffAssoc(a, b) == map[] {
      forall k | k in a ensures Str(a[k]) == Str(b[k]) {
        assert k !in DiffAssoc(a, b);
      }
    }
  }

  /** `if (isset($m[$k])) unset($m[$k]);` */
  function DropIfSet(m: map<string, Value>, k: string): (r: map<string, Value>)
    ensures k in r ==> r[k] == VNull
    ensures forall j :: j != k ==> (j in r <==> j in m) && (j in m ==> r[j] == m[j])
  {
    if k in m && IsSet(m[k]) then m - {k} else m
  }

  /** `isset($this->n) || in_array(n, attributeNames())`: a property that is set, or a declared attribute. */
  predicate SetOrDeclared(s: Schema, attrs: map<string, Value>, n: string)
  {
    (n in attrs && IsSet(attrs[n])) || n in s.attributeNames
  }

  /** The attributes after `beforeSave`'s timestamps, for a record whose new flag is `isNew`, at time `now`, by `actor`. */
  function Stamp(s: Schema, isNew: bool, attrs: map<string, Value>, now: int, actor: string): map<string, Value>
  {
    var a1 := if isNew && SetOrDeclared(s, attrs, "CreationDate") && IsEmpty(Get(attrs, "CreationDate"))
      then attrs["CreationDate" := VInt(now)] else attrs;
    var a2 := if isNew && SetOrDeclared(s, attrs, "CreatorID") then a1["CreatorID" := VStr(actor)] else a1;
    if SetOrDeclared(s, attrs, "LastModified") then a2["LastModified" := VInt(now)] else a2
  }

  /**
   * The stamps: `LastModified` on every save, `CreatorID` only for a new
   * record, `CreationDate` only for a new record whose date is empty; every
   * other property keeps its value.
   */
  lemma StampFields(s: Schema, isNew: bool, attrs: map<string, Value>, now: int, actor: string)
    ensures var r := Stamp(s, isNew, attrs, now, actor);
      && (SetOrDeclared(s, attrs, "LastModified") ==> r["LastModified"] == VInt(now))
      && (!SetOrDeclared(s, attrs, "LastModified") ==> Get(r, "LastModified") == Get(attrs, "LastModified"))
      && (isNew && SetOrDeclared(s, attrs, "CreatorID") ==> r["CreatorID"] == VStr(actor))
      && (!isNew ==> Get(r, "CreatorID") == Get(attrs, "CreatorID"))
      && (isNew && SetOrDeclared(s, attrs, "CreationDate") && IsEmpty(Get(attrs, "CreationDate")) ==> r["CreationDate"] == VInt(now))
      && (!isNew || !IsEmpty(Get(attrs, "CreationDate")) ==> Get(r, "CreationDate") == Get(attrs, "CreationDate"))
      && r.Keys <= attrs.Keys + (set n | n in s.attributeNames)
      && forall n :: n in attrs && n != "LastModified" && n != "CreatorID" && n != "CreationDate" ==> r[n] == attrs[n]
  {
  }

  /**
   * The change-log entry `beforeSave` appends when changes are tracked:
   * the old and new values of every attribute whose string form differs
   * from the baseline, without a set `LastModified`; none when nothing is new.
   */
  function ChangeFor(s: Schema, baseline: map<string, Value>, attrs: map<string, Value>, now: int, actor: string): Option<ChangeEntry>
  {
    if !s.trackChanges then None
    else
      var current := GetAttributes(s, attrs);
      var previous := DropIfSet(DiffAssoc(baseline, current), "LastModified");
      var newValues := DropIfSet(DiffAssoc(current, baseline), "LastModified");
      if newValues == map[] then None else Some(ChangeEntry(now, previous, newValues, actor))
  }

  /** An attribute whose current value, other than a set `LastModified`, counts as changed against the baseline. */
  predicate Changed(s: Schema, baseline: map<string, Value>, attrs: map<string, Value>, n: string)
  {
    n in s.attributeNames && (n !in baseline || Str(Get(attrs, n)) != Str(baseline[n]))
      && !(n == "LastModified" && IsSet(Get(attrs, n)))
  }

  /** A baseline entry the current values no longer match (or drop), other than a set baseline `LastModified`. */
  predicate Superseded(s: Schema, baseline: map<string, Value>, attrs: map<string, Value>, n: string)
  {
    n in baseline && (n !in s.attributeNames || Str(Get(attrs, n)) != Str(baseline[n]))
      && !(n == "LastModified" && IsSet(baseline[n]))
  }

  /**
   * An entry is appended exactly when changes are tracked and some attribute
   * changed; it records the current values of exactly the changed attributes,
   * the baseline values of exactly the superseded ones, its date and author,
   * and no set `LastModified` on either side.
   */
  lemma ChangeForMeans(s: Schema, baseline: map<string, Value>, attrs: map<string, Value>, now: int, actor: string)
    ensures var e := ChangeFor(s, baseline, attrs, now, actor);
      && (e.Some? <==> s.trackChanges && exists n :: Changed(s, baseline, attrs, n))
      && (e.Some? ==> (e.value.date == now && e.value.changedBy == actor
            && (forall n :: n in e.value.newValues <==> Changed(s, baseline, attrs, n))
            && (forall n :: n in e.value.newValues ==> e.value.newValues[n] == Get(attrs, n))
            && (forall n :: n in e.value.previous <==> Superseded(s, baseline, attrs, n))
            && (forall n :: n in e.value.previous ==> e.value.previous[n] == baseline[n])
            && ("LastModified" in e.value.newValues ==> e.value.newValues["LastModified"] == VNull)
            && ("LastModified" in e.value.previous ==> e.value.previous["LastModified"] == VNull)))
  {
    if s.trackChanges {
      var current := GetAttributes(s, attrs);
      var previous := DropIfSet(DiffAssoc(baseline, current), "LastModified");
      var newValues := DropIfSet(DiffAssoc(current, baseline), "LastModified");
      forall n ensures n in newValues <==> Changed(s, baseline, attrs, n) {
      }
      forall n ensures n in previous <==> Superseded(s, baseline, attrs, n) {
      }
      if exists n :: Changed(s, baseline, attrs, n) {
        var n :| Changed(s, baseline, attrs, n);
        assert n in newValues;
      }
    }
  }

  /** Once `LastModified` is declared and stamped, it never shows up among the new values of a change entry. */
  lemma StampedSaveOmitsLastModified(s: Schema, isNew: bool, baseline: map<string, Value>, attrs: map<string, Value>, now: int, actor: string)
    requires "LastModified" in s.attributeNames
    ensures var e := ChangeFor(s, baseline, Stamp(s, isNew, attrs, now, actor), now, actor);
      e.Some? ==> "LastModified" !in e.value.newValues
  {
    var stamped := Stamp(s, isNew, attrs, now, actor);
    StampFields(s, isNew, attrs, now, actor);
    ChangeForMeans(s, baseline, stamped, now, actor);
    assert !Changed(s, baseline, stamped, "LastModified");
  }

  /**
   * A baseline without `LastModified` (a record found in a document that had
   * none) leaves it in the previous values, as null: the removal only drops
   * set entries.
   */
  lemma PreviousMayKeepNullLastModified()
    ensures var s := Schema("Note", ["LastModified", "Title"], map[], map[], map[], map[], "id", true, [], []);
      var e := ChangeFor(s, map["LastModified" := VNull, "Title" := VStr("a")], map["LastModified" := VInt(7), "Title" := VStr("b")], 7, "u");
      e.Some? && e.value.previous == map["LastModified" := VNull, "Title" := VStr("a")]
  {
    var s := Schema("Note", ["LastModified", "Title"], map[], map[], map[], map[], "id", true, [], []);
    var baseline := map["LastModified" := VNull, "Title" := VStr("a")];
    var attrs := map["LastModified" := VInt(7), "Title" := VStr("b")];
    var current := GetAttributes(s, attrs);
    assert current == attrs;
    assert Str(VInt(7)) != "" by {
      NatToStringDigits(7);
    }
    var d := DiffAssoc(baseline, current);
    assert d == baseline;
    assert "Title" in DiffAssoc(current, baseline);
  }

  /**
   * The change-log entry as its comment intends: `LastModified` is left out
   * of both sides whatever its value, and the entry is appended only when
   * some other attribute changed.
   */
  function ChangeForIntended(s: Schema, baseline: map<string, Value>, attrs: map<string, Value>, now: int, actor: string): Option<ChangeEntry>
  {
    if !s.trackChanges then None
    else
      var current := GetAttributes(s, attrs);
      var previous := DiffAssoc(baseline, current) - {"LastModified"};
      var newValues := DiffAssoc(current, baseline) - {"LastModified"};
      if newValues == map[] then None else Some(ChangeEntry(now, previous, newValues, actor))
  }

  /**
   * The intended entry never holds `LastModified`, and is the as-written
   * entry without it; the as-written one is appended alone only when its
   * new values hold nothing but a null `LastModified`.
   */
  lemma ChangeForIntendedOmitsLastModified(s: Schema, baseline: map<string, Value>, attrs: map<string, Value>, now: int, actor: string)
    ensures var e := ChangeForIntended(s, baseline, attrs, now, actor);
      var w := ChangeFor(s, baseline, attrs, now, actor);
      && (e.Some? ==> "LastModified" !in e.value.previous && "LastModified" !in e.value.newValues)
      && (e.Some? ==> (w.Some? && e.value.date == w.value.date && e.value.changedBy == w.value.changedBy
            && e.value.previous == w.value.previous - {"LastModified"}
            && e.value.newValues == w.value.newValues - {"LastModified"}))
      && (w.Some? && e.None? ==> w.value.newValues == map["LastModified" := VNull])
  {
    if s.trackChanges {
      var current := GetAttributes(s, attrs);
      var wp := DropIfSet(DiffAssoc(baseline, current), "LastModified");
      var wn := DropIfSet(DiffAssoc(current, baseline), "LastModified");
      var ep := DiffAssoc(baseline, current) - {"LastModified"};
      var en := DiffAssoc(current, baseline) - {"LastModified"};
      assert ep == wp - {"LastModified"};
      assert en == wn - {"LastModified"};
      if wn != map[] && en == map[] {
        forall k | k in wn ensures k == "LastModified" {
          assert k !in en;
        }
        var k :| k in wn;
        assert wn.Keys == {"LastModified"};
      }
    }
  }

  // ------------------------------------------------------------ serialising embedded documents

  /** The embedded kinds the save pipeline serialises (compared case-sensitively). */
  predicate Serialised(s: Schema, n: string)
  {
    n in s.embedded && (s.embedded[n] == "class" || s.embedded[n] == "array" || s.embedded[n] == "object")
  }

  /** A `class` embedded document whose property does not hold an instance has no attributes to read. */
  predicate Unreadable(s: Schema, attrs: map<string, Value>, n: string)
  {
    n in s.embedded && s.embedded[n] == "class" && !Get(attrs, n).VRecord?
  }

  /** The saved form of one embedded document: the instance's attributes, or the property coerced to an array or an object. */
  function EmbeddedValue(s: Schema, attrs: map<string, Value>, n: string): Value
    requires Serialised(s, n)
  {
    var v := Get(attrs, n);
    if s.embedded[n] == "class" then (if v.VRecord? then VArray(v.props) else VNull)
    else if s.embedded[n] == "array" then ToArray(v)
    else ToObject(v)
  }

  /** The fields written for the attributes once the embedded documents in `done` have been serialised. */
  function SavedFieldsOver(s: Schema, attrs: map<string, Value>, done: set<string>): map<string, Value>
  {
    map n | n in (set a | a in s.attributeNames) + (set e | e in done && Serialised(s, e)) ::
      if n in done && Serialised(s, n) then EmbeddedValue(s, attrs, n) else Get(attrs, n)
  }

  /** The fields written for the attributes with every embedded document serialised. */
  function SavedFields(s: Schema, attrs: map<string, Value>): map<string, Value>
  {
    SavedFieldsOver(s, attrs, s.embedded.Keys)
  }

  /**
   * The saved fields hold every declared attribute and every serialised
   * embedded document; an attribute that is not embedded keeps its value, an
   * `array`/`object` one is coerced to that container, a `class` one holds
   * the instance's properties as an array.
   */
  lemma SavedFieldsShape(s: Schema, attrs: map<string, Value>, n: string)
    ensures n in SavedFields(s, attrs) <==> n in s.attributeNames || Serialised(s, n)
    ensures n in s.attributeNames && !Serialised(s, n) ==> SavedFields(s, attrs)[n] == Get(attrs, n)
    ensures Serialised(s, n) && s.embedded[n] == "array" ==> SavedFields(s, attrs)[n].VArray?
    ensures Serialised(s, n) && s.embedded[n] == "object" ==> IsObject(SavedFields(s, attrs)[n])
    ensures Serialised(s, n) && !Unreadable(s, attrs, n) && s.embedded[n] == "class" ==>
      SavedFields(s, attrs)[n] == VArray(Get(attrs, n).props)
  {
  }

  /** The `_config` field written when the config store is set. */
  function ConfigField(config: Option<map<string, map<string, Value>>>): ConfigSlot
  {
    if config.Some? then Stored(config.value) else NoConfig
  }

  /** The document `insert` writes: the saved fields without the primary-key alias, plus `_config`; no change log. */
  function InsertDocument(s: Schema, attrs: map<string, Value>, config: Option<map<string, map<string, Value>>>): (d: Document)
  {
    Document(SavedFields(s, attrs) - {s.primaryKey}, ConfigField(config), None)
  }

  /** The `$set` of `update`: the saved fields (the alias included), `_config` when set, `_changeLog` when tracked. */
  function UpdateDocument(s: Schema, attrs: map<string, Value>, config: Option<map<string, map<string, Value>>>, log: seq<ChangeEntry>): (d: Document)
  {
    Document(SavedFields(s, attrs), ConfigField(config), if s.trackChanges then Some(log) else None)
  }

  /** The `$set` of `force`: like `update`'s but never with `_config`. */
  function ForceDocument(s: Schema, attrs: map<string, Value>, log: seq<ChangeEntry>): (d: Document)
  {
    Document(SavedFields(s, attrs), NoConfig, if s.trackChanges then Some(log) else None)
  }

  /** The inserted document never carries the alias or a change log, and carries `_config` exactly when the store is set. */
  lemma InsertDocumentShape(s: Schema, attrs: map<string, Value>, config: Option<map<string, map<string, Value>>>)
    ensures s.primaryKey !in InsertDocument(s, attrs, config).fields
    ensures InsertDocument(s, attrs, config).changeLog.None?
    ensures InsertDocument(s, attrs, config).config.Stored? <==> config.Some?
    ensures forall n :: n in SavedFields(s, attrs) && n != s.primaryKey ==> InsertDocument(s, attrs, config).fields[n] == SavedFields(s, attrs)[n]
  {
  }
}
