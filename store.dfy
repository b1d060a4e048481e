/**
 * An in-memory stand-in for one MongoDB collection: documents keyed by their
 * `_id`, with the handful of driver calls the record layer makes
 * (`insertOne`, `findOne`, `findOneAndUpdate` with `$set`,
 * `findOneAndDelete`, `updateMany` with `$set`, `count`).
 */
module DocumentStore {
  import opened PhpValues
  import opened RecordConfig

  /** One entry of a record's change log. */
  datatype ChangeEntry = ChangeEntry(
    date: int,
    previous: map<string, Value>,
    newValues: map<string, Value>,
    changedBy: string)

  /** The `_config` field of a stored document: absent, stored as null, or a nested store. */
  datatype ConfigSlot = NoConfig | NullConfig | Stored(store: ConfigStore)

  /**
   * A stored document: its plain fields (without `_id`, which is the key it
   * is stored under), its `_config` field and its `_changeLog` field.
   */
  datatype Document = Document(
    fields: map<string, Value>,
    config: ConfigSlot,
    changeLog: Option<seq<ChangeEntry>>)

  /** `$set`: every field of the change overwrites or adds the field of the same name; nothing is removed. */
  function SetFields(d: Document, change: Document): (r: Document)
    ensures r.fields.Keys == d.fields.Keys + change.fields.Keys
    ensures forall f :: f in change.fields ==> r.fields[f] == change.fields[f]
    ensures forall f :: f in d.fields && f !in change.fields ==> r.fields[f] == d.fields[f]
    ensures r.config == (if change.config.NoConfig? then d.config else change.config)
    ensures r.changeLog == (if change.changeLog.None? then d.changeLog else change.changeLog)
  {
    Document(
      d.fields + change.fields,
      if change.config.NoConfig? then d.config else change.config,
      if change.changeLog.None? then d.changeLog else change.changeLog)
  }

  /** An equality filter on one field; a null value also matches a missing field. */
  predicate FieldMatches(d: Document, field: string, v: Value)
  {
    if field in d.fields then d.fields[field] == v else v == VNull
  }

  predicate Matches(d: Document, filter: map<string, Value>)
  {
    forall f :: f in filter ==> FieldMatches(d, f, filter[f])
  }

  /** `$set` over the plain fields only. */
  function SetPlain(d: Document, changes: map<string, Value>): (r: Document)
    ensures r == SetFields(d, Document(changes, NoConfig, None))
  {
    Document(d.fields + changes, d.config, d.changeLog)
  }

  class Store {
    var docs: map<string, Document>

    constructor ()
      ensures docs == map[]
    {
      docs := map[];
    }

    /**
     * `insertOne`: the driver chooses the new `_id` (passed in here). The
     * inserted count is 0 when that id is already taken, and 1 otherwise.
     */
    method InsertOne(d: Document, newId: string) returns (count: nat)
      modifies this
      ensures newId !in old(docs) ==> count == 1 && docs == old(docs)[newId := d]
      ensures newId in old(docs) ==> count == 0 && docs == old(docs)
    {
      if newId in docs {
        count := 0;
      } else {
        docs := docs[newId := d];
        count := 1;
      }
    }

    /** `findOne(['_id' => ...])`; a missing id (null, turned into a fresh ObjectId) finds nothing. */
    function FindOne(id: Option<string>): (r: Option<Document>)
      reads this
      ensures r.Some? <==> id.Some? && id.value in docs
      ensures r.Some? ==> r.value == docs[id.value]
    {
      if id.Some? && id.value in docs then Some(docs[id.value]) else None
    }

    /** `findOneAndUpdate(['_id' => ...], ['$set' => change])`. */
    method FindOneAndUpdate(id: Option<string>, change: Document)
      modifies this
      ensures id.Some? && id.value in old(docs) ==> docs == old(docs)[id.value := SetFields(old(docs)[id.value], change)]
      ensures !(id.Some? && id.value in old(docs)) ==> docs == old(docs)
    {
      if id.Some? && id.value in docs {
        docs := docs[id.value := SetFields(docs[id.value], change)];
      }
    }

    /** `findOneAndDelete(['_id' => ...])`. */
    method FindOneAndDelete(id: Option<string>)
      modifies this
      ensures id.Some? ==> docs == old(docs) - {id.value}
      ensures id.None? ==> docs == old(docs)
    {
      if id.Some? {
        docs := docs - {id.value};
      }
    }

    /** `updateMany(filter, ['$set' => changes])`: every matching document gets the changes, the others stay. */
    method UpdateMany(filter: map<string, Value>, changes: map<string, Value>) returns (modified: nat)
      modifies this
      ensures docs.Keys == old(docs).Keys
      ensures forall id :: id in docs && Matches(old(docs)[id], filter) ==> docs[id] == SetPlain(old(docs)[id], changes)
      ensures forall id :: id in docs && !Matches(old(docs)[id], filter) ==> docs[id] == old(docs)[id]
      ensures modified == |MatchingIds(old(docs), filter, None)|
    {
      modified := |MatchingIds(docs, filter, None)|;
      docs := map id | id in docs :: if Matches(docs[id], filter) then SetPlain(docs[id], changes) else docs[id];
    }

    /** `count(filter)`, optionally with `'_id' => ['$ne' => exclude]`. */
    function Count(filter: map<string, Value>, exclude: Option<string>): (n: nat)
      reads this
      ensures n > 0 <==> exists id :: id in docs && Matches(docs[id], filter) && exclude != Some(id)
    {
      var s := MatchingIds(docs, filter, exclude);
      assert forall id :: id in docs && Matches(docs[id], filter) && exclude != Some(id) ==> id in s;
      if s == {} then 0
      else
        assert exists id :: id in s;
        |s|
    }
  }

  function MatchingIds(docs: map<string, Document>, filter: map<string, Value>, exclude: Option<string>): set<string>
  {
    set id | id in docs && Matches(docs[id], filter) && exclude != Some(id)
  }

  /** A plain `$set` never touches the stored config or change log, and changed fields read back as set. */
  lemma SetPlainKeepsBookkeeping(d: Document, changes: map<string, Value>)
    ensures SetPlain(d, changes).config == d.config && SetPlain(d, changes).changeLog == d.changeLog
    ensures Matches(SetPlain(d, changes), changes)
  {
  }
}
