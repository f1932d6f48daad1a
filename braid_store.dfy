/**
 * The SQLModel-backed store: `BraidDB` holds the four tables and answers the
 * lookups, `BraidRecord` (with its `BraidFact`, `BraidData` and `BraidModel`
 * kinds) builds provenance and writes it through `add_model`.
 * Every `add_model` call without a session commits at once, so each row is
 * numbered when it is added; the tables are only ever appended to.
 */
module BraidStore {
  import opened Wrappers
  import opened BraidModels

  /** A row handed to `add_model`. */
  datatype Model =
    | RecordRow(record: RecordModel)
    | DependencyRow(dep: DependencyModel)
    | UriRow(uri: UrisModel)
    | TagRow(tag: TagsModel)

  /** The exceptions the store's operations raise. */
  datatype StoreError =
    | IntegrityError          // a (record_id, dependency) primary key that is NULL or already stored
    | NotATagType(shown: string)  // add_tag given a type that is not a BraidTagType
    | FactDependency          // BraidFact.add_dependency
    | NoDatabase              // store() on a record that has no database
    | UnknownTagType(v: int)  // a stored tag_type that BraidTagType rejects

  /** A snapshot of all four tables. */
  datatype Tables = Tables(
    records: seq<RecordModel>,
    dependencies: seq<DependencyModel>,
    uris: seq<UrisModel>,
    tags: seq<TagsModel>)

  predicate HasDependencyKey(rows: seq<DependencyModel>, key: (Option<int>, Option<int>))
  {
    exists i :: 0 <= i < |rows| && DependencyKey(rows[i]) == key
  }

  /**
   * The dependency rows the database refuses: both key columns are primary
   * key columns, which SQLAlchemy declares NOT NULL, and the pair is unique.
   */
  predicate DependencyRefused(rows: seq<DependencyModel>, d: DependencyModel)
  {
    d.recordId.None? || d.dependency.None? || HasDependencyKey(rows, DependencyKey(d))
  }

  /** The first record row carrying `id`: the query `record_id == id`. */
  function FindRecord(rows: seq<RecordModel>, id: int): (r: Option<RecordModel>)
    ensures r.Some? <==> exists i :: 0 <= i < |rows| && rows[i].recordId == Some(id)
    ensures r.Some? ==> r.value in rows && r.value.recordId == Some(id)
  {
    if rows == [] then None
    else if rows[0].recordId == Some(id) then Some(rows[0])
    else
      var r := FindRecord(rows[1..], id);
      assert r.Some? ==> exists i :: 0 <= i < |rows| && rows[i].recordId == Some(id) by {
        if r.Some? {
          var j :| 0 <= j < |rows[1..]| && rows[1..][j].recordId == Some(id);
          assert rows[j + 1] == rows[1..][j];
        }
      }
      assert (exists i :: 0 <= i < |rows| && rows[i].recordId == Some(id)) ==> r.Some? by {
        if exists i :: 0 <= i < |rows| && rows[i].recordId == Some(id) {
          var i :| 0 <= i < |rows| && rows[i].recordId == Some(id);
          assert rows[1..][i - 1] == rows[i];
        }
      }
      r
  }

  function UriStrings(rows: seq<UrisModel>): (r: seq<string>)
    ensures |r| == |rows| && forall i :: 0 <= i < |rows| ==> r[i] == rows[i].uri
  {
    seq(|rows|, i requires 0 <= i < |rows| => rows[i].uri)
  }

  class BraidDB {
    var records: seq<RecordModel>
    var dependencies: seq<DependencyModel>
    var uris: seq<UrisModel>
    var tags: seq<TagsModel>

    /**
     * Rows are numbered from 1 in insertion order, and no two dependency rows
     * share their primary key. Foreign keys are declared but sqlite does not
     * enforce them, so nothing ties uri, tag or dependency rows to records.
     */
    ghost predicate Valid()
      reads this
    {
      && (forall i :: 0 <= i < |records| ==> records[i].recordId == Some(i + 1))
      && (forall i :: 0 <= i < |uris| ==> uris[i].id == Some(i + 1))
      && (forall i :: 0 <= i < |tags| ==> tags[i].id == Some(i + 1))
      && (forall i, j :: 0 <= i < j < |dependencies| ==>
            DependencyKey(dependencies[i]) != DependencyKey(dependencies[j]))
    }

    function Contents(): Tables
      reads this
    {
      Tables(records, dependencies, uris, tags)
    }

    /** A freshly created database: `create()` sets up empty tables. */
    constructor ()
      ensures Valid()
      ensures Contents() == Tables([], [], [], [])
    {
      records, dependencies, uris, tags := [], [], [], [];
    }

    /** `get_record_model_by_id`: the row whose key is `recordId`, if any. */
    function GetRecordModelById(recordId: int): (r: Option<RecordModel>)
      reads this
      ensures r.Some? <==> exists i :: 0 <= i < |records| && records[i].recordId == Some(recordId)
      ensures r.Some? ==> r.value in records && r.value.recordId == Some(recordId)
    {
      FindRecord(records, recordId)
    }

    /** Because ids are assigned in order, record `id` is the `id`-th row. */
    lemma RecordByPosition(recordId: int)
      requires Valid()
      ensures GetRecordModelById(recordId) ==
        if 1 <= recordId <= |records| then Some(records[recordId - 1]) else None
    {
      var r := GetRecordModelById(recordId);
      if r.Some? {
        var i :| 0 <= i < |records| && records[i] == r.value;
        assert records[i].recordId == Some(i + 1);
      }
    }

    /**
     * `add_model` outside a session: the row is committed at once. A new
     * record, uri or tag row receives the next key; a record row that is
     * already stored is left as it is; a dependency pair with a NULL member
     * or already present violates the primary key.
     */
    method AddModel(m: Model) returns (r: Result<Model, StoreError>)
      requires Valid()
      requires m.RecordRow? && m.record.recordId.Some? ==> m.record in records
      requires m.UriRow? ==> m.uri.id.None?
      requires m.TagRow? ==> m.tag.id.None?
      modifies this
      ensures Valid()
      ensures m.RecordRow? && m.record.recordId.None? ==>
        var stored := m.record.(recordId := Some(|old(records)| + 1));
        r == Ok(RecordRow(stored)) && Contents() == old(Contents()).(records := old(records) + [stored])
      ensures m.RecordRow? && m.record.recordId.Some? ==> r == Ok(m) && Contents() == old(Contents())
      ensures m.DependencyRow? && DependencyRefused(old(dependencies), m.dep) ==>
        r == Err(IntegrityError) && Contents() == old(Contents())
      ensures m.DependencyRow? && !DependencyRefused(old(dependencies), m.dep) ==>
        r == Ok(m) && Contents() == old(Contents()).(dependencies := old(dependencies) + [m.dep])
      ensures m.UriRow? ==>
        var stored := m.uri.(id := Some(|old(uris)| + 1));
        r == Ok(UriRow(stored)) && Contents() == old(Contents()).(uris := old(uris) + [stored])
      ensures m.TagRow? ==>
        var stored := m.tag.(id := Some(|old(tags)| + 1));
        r == Ok(TagRow(stored)) && Contents() == old(Contents()).(tags := old(tags) + [stored])
    {
      match m
      case RecordRow(rm) =>
        if rm.recordId.None? {
          var stored := rm.(recordId := Some(|records| + 1));
          records := records + [stored];
          r := Ok(RecordRow(stored));
        } else {
          r := Ok(m);
        }
      case DependencyRow(d) =>
        if d.recordId.None? || d.dependency.None?
           || exists i | 0 <= i < |dependencies| :: DependencyKey(dependencies[i]) == DependencyKey(d) {
          r := Err(IntegrityError);
        } else {
          dependencies := dependencies + [d];
          r := Ok(m);
        }
      case UriRow(u) =>
        var stored := u.(id := Some(|uris| + 1));
        uris := uris + [stored];
        r := Ok(UriRow(stored));
      case TagRow(t) =>
        var stored := t.(id := Some(|tags| + 1));
        tags := tags + [stored];
        r := Ok(TagRow(stored));
    }

    /** The record a dependency row points at; a NULL key matches nothing. */
    function DependencyTarget(dependency: Option<int>): Option<RecordModel>
      reads this
    {
      if dependency.None? then None else GetRecordModelById(dependency.value)
    }

    /**
     * `get_dependencies`: for each dependency row of `recordId`, in row order,
     * the record it points at, or `None` where no such record exists.
     */
    method GetDependencies(recordId: Option<int>) returns (deps: seq<Option<RecordModel>>)
      ensures |deps| == |DependencyRowsOf(dependencies, recordId)|
      ensures forall i :: 0 <= i < |deps| ==>
        deps[i] == DependencyTarget(DependencyRowsOf(dependencies, recordId)[i].dependency)
    {
      var rows := DependencyRowsOf(dependencies, recordId);
      deps := [];
      for i := 0 to |rows|
        invariant |deps| == i
        invariant forall j :: 0 <= j < i ==> deps[j] == DependencyTarget(rows[j].dependency)
      {
        var depRec := if rows[i].dependency.None? then None else GetRecordModelById(rows[i].dependency.value);
        deps := deps + [depRec];
      }
    }

    /**
     * `get_uris`: the URIs attached to a stored record, in row order; an
     * unknown record has none, even where orphan uri rows name its id.
     */
    function GetUris(recordId: int): (r: seq<string>)
      reads this
      ensures GetRecordModelById(recordId).None? ==> r == []
      ensures GetRecordModelById(recordId).Some? ==>
        |r| == |UriRowsOf(uris, Some(recordId))| &&
        forall i :: 0 <= i < |r| ==> r[i] == UriRowsOf(uris, Some(recordId))[i].uri
    {
      if GetRecordModelById(recordId).None? then []
      else UriStrings(UriRowsOf(uris, Some(recordId)))
    }

    /**
     * `get_tags`: the record's tag rows folded into a dictionary, later rows
     * overwriting earlier ones; a row with an unknown kind aborts the call.
     */
    method GetTags(recordId: Option<int>) returns (r: Result<map<string, TagValue>, StoreError>)
      ensures TagsMap(TagRowsOf(tags, recordId)).Ok? ==> r == Ok(TagsMap(TagRowsOf(tags, recordId)).value)
      ensures TagsMap(TagRowsOf(tags, recordId)).Err? ==>
        r == Err(UnknownTagType(TagsMap(TagRowsOf(tags, recordId)).error))
    {
      var m := CollectTags(TagRowsOf(tags, recordId));
      r := if m.Ok? then Ok(m.value) else Err(UnknownTagType(m.error));
    }
  }

  /** The module-level `serial` counter and `make_serial`. */
  class SerialCounter {
    var serial: int

    constructor ()
      ensures serial == 1
    {
      serial := 1;
    }

    /** Returns the current serial and advances the counter by one. */
    method MakeSerial() returns (s: int)
      modifies this
      ensures s == old(serial) && serial == old(serial) + 1
    {
      s := serial;
      serial := serial + 1;
    }
  }

  /** Serials handed out by a fresh counter are 1, 2, 3, ... */
  method FirstSerials() returns (a: int, b: int, c: int)
    ensures a == 1 && b == 2 && c == 3
  {
    var counter := new SerialCounter();
    a := counter.MakeSerial();
    b := counter.MakeSerial();
    c := counter.MakeSerial();
  }

  /** BraidRecord and its subclasses BraidFact, BraidData, BraidModel. */
  datatype RecordKind = Plain | Fact | Data | ModelKind

  /** The `type_` argument of `add_tag`: a tag kind or some other value. */
  datatype TagTypeArg = Tagged(t: TagType) | NotATagTypeArg(shown: string)

  class BraidRecord {
    const db: BraidDB?
    const kind: RecordKind
    const timestamp: Time
    var dependencies: seq<BraidRecord>
    var uris: seq<string>
    var tags: map<string, string>
    var model: RecordModel

    /** A record's model, once numbered, is a row of its database. */
    ghost predicate Valid()
      reads this, db
    {
      db != null ==> db.Valid() && (model.recordId.Some? ==> model in db.records)
    }

    /**
     * Reading `record_id` from `model0` over `records0` gave the current
     * state: a model without an id is stored and numbered, any other is
     * left alone.
     */
    ghost predicate IdReadFrom(records0: seq<RecordModel>, model0: RecordModel)
      requires db != null
      reads this, db
    {
      if model0.recordId.Some? then model == model0 && db.records == records0
      else model == model0.(recordId := Some(|records0| + 1)) && db.records == records0 + [model]
    }

    /**
     * `BraidRecord(db, name, timestamp)`; the subclasses take no timestamp.
     * The clock reading `now` is used when no timestamp is given.
     */
    constructor (db: BraidDB?, kind: RecordKind, name: string, timestamp: Option<Time>, now: Time)
      requires kind != Plain ==> timestamp.None?
      requires db != null ==> db.Valid()
      ensures Valid()
      ensures this.db == db && this.kind == kind
      ensures this.timestamp == if timestamp.Some? then timestamp.value else now
      ensures dependencies == [] && uris == [] && tags == map[]
      ensures model == RecordModel(None, name, this.timestamp)
    {
      this.db := db;
      this.kind := kind;
      dependencies := [];
      uris := [];
      tags := map[];
      this.timestamp := if timestamp.Some? then timestamp.value else now;
      model := RecordModel(None, name, if timestamp.Some? then timestamp.value else now);
    }

    /**
     * The `record_id` property: the first read stores the record when there
     * is a database; later reads return the same id and change nothing.
     */
    method RecordId() returns (id: Option<int>)
      requires Valid()
      modifies this, db
      ensures Valid()
      ensures id == model.recordId
      ensures dependencies == old(dependencies) && uris == old(uris) && tags == old(tags)
      ensures db == null ==> model == old(model) && id == old(model.recordId)
      ensures db != null ==> id.Some? && IdReadFrom(old(db.records), old(model))
      ensures db != null ==> db.dependencies == old(db.dependencies) && db.uris == old(db.uris) && db.tags == old(db.tags)
    {
      if model.recordId.None? && db != null {
        var r := db.AddModel(RecordRow(model));
        if r.Ok? && r.value.RecordRow? {
          model := r.value.record;
        }
      }
      id := model.recordId;
    }

    /**
     * `add_dependency`: a fact refuses; any other record remembers the
     * dependency, reads its own id, and stores the pair (its id, the other
     * record's current id), which fails if either id is missing or the pair
     * is already stored.
     */
    method AddDependency(other: BraidRecord, now: Time) returns (err: Option<StoreError>)
      requires Valid()
      modifies this, db
      ensures Valid()
      ensures kind == Fact ==>
        && err == Some(FactDependency) && model == old(model) && dependencies == old(dependencies)
        && (db != null ==> db.Contents() == old(db.Contents()))
      ensures kind != Fact ==> dependencies == old(dependencies) + [other]
      ensures uris == old(uris) && tags == old(tags)
      ensures kind != Fact && db == null ==> err.None? && model == old(model)
      ensures kind != Fact && db != null ==>
        && IdReadFrom(old(db.records), old(model))
        && db.uris == old(db.uris) && db.tags == old(db.tags)
        && var row := DependencyModel(model.recordId, other.model.recordId, now);
           if DependencyRefused(old(db.dependencies), row)
           then err == Some(IntegrityError) && db.dependencies == old(db.dependencies)
           else err.None? && db.dependencies == old(db.dependencies) + [row]
    {
      if kind == Fact {
        return Some(FactDependency);
      }
      dependencies := dependencies + [other];
      var id := RecordId();
      var row := DependencyModel(id, other.model.recordId, now);
      err := None;
      if db != null {
        var r := db.AddModel(DependencyRow(row));
        if r.Err? {
          err := Some(r.error);
        }
      }
    }

    /** `BraidModel.update`: the model depends on `record`. */
    method Update(record: BraidRecord, now: Time) returns (err: Option<StoreError>)
      requires kind == ModelKind && Valid()
      modifies this, db
      ensures Valid()
      ensures dependencies == old(dependencies) + [record] && uris == old(uris) && tags == old(tags)
      ensures db == null ==> err.None? && model == old(model)
      ensures db != null ==>
        && IdReadFrom(old(db.records), old(model))
        && db.uris == old(db.uris) && db.tags == old(db.tags)
        && var row := DependencyModel(model.recordId, record.model.recordId, now);
           if DependencyRefused(old(db.dependencies), row)
           then err == Some(IntegrityError) && db.dependencies == old(db.dependencies)
           else err.None? && db.dependencies == old(db.dependencies) + [row]
    {
      err := AddDependency(record, now);
    }

    /** `add_uri`: remembers the URI and stores a uri row under the record's id. */
    method AddUri(uri: string)
      requires Valid()
      modifies this, db
      ensures Valid()
      ensures uris == old(uris) + [uri] && dependencies == old(dependencies) && tags == old(tags)
      ensures db == null ==> model == old(model)
      ensures db != null ==>
        && IdReadFrom(old(db.records), old(model))
        && db.dependencies == old(db.dependencies) && db.tags == old(db.tags)
        && db.uris == old(db.uris) + [UrisModel(Some(|old(db.uris)| + 1), model.recordId, uri)]
    {
      uris := uris + [uri];
      var id := RecordId();
      if db != null {
        var r := db.AddModel(UriRow(UrisModel(None, id, uri)));
      }
    }

    /**
     * `add_tag`: a type that is not a tag kind is refused before anything
     * changes; otherwise the key is set (replacing any earlier value) and a
     * tag row is stored under the record's id.
     */
    method AddTag(key: string, value: string, typeArg: TagTypeArg) returns (err: Option<StoreError>)
      requires Valid()
      modifies this, db
      ensures Valid()
      ensures uris == old(uris) && dependencies == old(dependencies)
      ensures typeArg.NotATagTypeArg? ==>
        && err == Some(NotATagType(typeArg.shown)) && tags == old(tags) && model == old(model)
        && (db != null ==> db.Contents() == old(db.Contents()))
      ensures typeArg.Tagged? ==> err.None? && tags == old(tags)[key := value]
      ensures typeArg.Tagged? && db == null ==> model == old(model)
      ensures typeArg.Tagged? && db != null ==>
        && IdReadFrom(old(db.records), old(model))
        && db.dependencies == old(db.dependencies) && db.uris == old(db.uris)
        && db.tags == old(db.tags) +
             [TagsModel(Some(|old(db.tags)| + 1), model.recordId, key, value, TagTypeValue(typeArg.t))]
    {
      if typeArg.NotATagTypeArg? {
        return Some(NotATagType(typeArg.shown));
      }
      tags := tags[key := value];
      var id := RecordId();
      if db != null {
        var r := db.AddModel(TagRow(TagsModel(None, id, key, value, TagTypeValue(typeArg.t))));
      }
      err := None;
    }

    /**
     * `store()` of a fact, data or model record: the record is added (and
     * numbered) once; storing again returns the same id and adds nothing.
     * Without a database the call fails.
     */
    method Store() returns (r: Result<int, StoreError>)
      requires kind != Plain && Valid()
      modifies this, db
      ensures Valid()
      ensures dependencies == old(dependencies) && uris == old(uris) && tags == old(tags)
      ensures db == null ==> r == Err(NoDatabase) && model == old(model)
      ensures db != null ==> r.Ok? && model.recordId == Some(r.value) && IdReadFrom(old(db.records), old(model))
      ensures db != null ==> db.dependencies == old(db.dependencies) && db.uris == old(db.uris) && db.tags == old(db.tags)
    {
      if db == null {
        return Err(NoDatabase);
      }
      var res := db.AddModel(RecordRow(model));
      if res.Ok? && res.value.RecordRow? {
        model := res.value.record;
      }
      r := Ok(model.recordId.value);
    }
  }

  /** Reading `record_id` twice gives the same id, and the second read stores nothing. */
  method RecordIdIsStable(rec: BraidRecord) returns (first: Option<int>, second: Option<int>)
    requires rec.Valid() && rec.db != null
    modifies rec, rec.db
    ensures first == second && first.Some?
    ensures rec.db.records == old(rec.db.records) + (if old(rec.model.recordId).None? then [rec.model] else [])
  {
    first := rec.RecordId();
    var rows := rec.db.records;
    second := rec.RecordId();
    assert rec.db.records == rows;
  }

  /** A dependency added without error is reported by `get_dependencies`. */
  method DependencyIsReported(db: BraidDB, a: BraidRecord, b: BraidRecord, now: Time)
    returns (err: Option<StoreError>, deps: seq<Option<RecordModel>>)
    requires a.db == db && b.db == db && a != b
    requires a.Valid() && b.Valid() && a.kind != Fact && b.model.recordId.Some?
    modifies a, db
    ensures err.None? ==> Some(b.model) in deps
  {
    err := a.AddDependency(b, now);
    deps := db.GetDependencies(a.model.recordId);
    if err.None? {
      var row := DependencyModel(a.model.recordId, b.model.recordId, now);
      assert row == db.dependencies[|db.dependencies| - 1];
      TargetIsReported(db, a.model.recordId, deps, row, b.model);
    }
  }

  /** A stored dependency row of `recordId` shows its target among what `get_dependencies` returns. */
  lemma TargetIsReported(db: BraidDB, recordId: Option<int>, deps: seq<Option<RecordModel>>,
                         row: DependencyModel, target: RecordModel)
    requires db.Valid() && target in db.records && target.recordId.Some?
    requires row in db.dependencies && row.recordId == recordId && row.dependency == target.recordId
    requires |deps| == |DependencyRowsOf(db.dependencies, recordId)|
    requires forall i :: 0 <= i < |deps| ==>
      deps[i] == db.DependencyTarget(DependencyRowsOf(db.dependencies, recordId)[i].dependency)
    ensures Some(target) in deps
  {
    var rows := DependencyRowsOf(db.dependencies, recordId);
    assert row in rows;
    var k :| 0 <= k < |rows| && rows[k] == row;
    db.RecordByPosition(target.recordId.value);
    assert deps[k] == Some(target);
  }

  /** A URI added to a stored record is reported by `get_uris`. */
  method UriIsReported(db: BraidDB, a: BraidRecord, uri: string) returns (uris: seq<string>)
    requires a.db == db && a.Valid()
    modifies a, db
    ensures uri in uris
  {
    a.AddUri(uri);
    uris := db.GetUris(a.model.recordId.value);
    var row := UrisModel(Some(|db.uris|), a.model.recordId, uri);
    assert row == db.uris[|db.uris| - 1];
    var rows := UriRowsOf(db.uris, a.model.recordId);
    assert row in rows;
    var k :| 0 <= k < |rows| && rows[k] == row;
    db.RecordByPosition(a.model.recordId.value);
    assert uris[k] == uri;
  }
}
