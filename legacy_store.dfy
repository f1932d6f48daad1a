/**
 * The older cursor-based store: `BraidDB` sends hand-built SQL text through
 * `BraidSQL`, and `BraidRecord` writes its rows with `insert`. The database
 * keeps the commands it was sent, in order, next to the rows they produced.
 */
module LegacyStore {
  import opened Wrappers
  import opened Text
  import opened SqlText
  import opened BraidModels
  import BraidStore

  /** What the legacy operations raise. */
  datatype LegacyError =
    | NoSuchColumnNone          // `str(None)` unquoted in a values tuple: sqlite reads an unknown column
    | QuoteInValue              // a quoted value contains `'`, which `q` does not escape
    | NoDatabase                // the record was created without a database
    | FactDependency            // BraidFact.add_dependency
    | NotATagType(shown: string)
    | UnknownTagType(v: int)

  /** A row of the legacy `records` table: the name and time as inserted. */
  datatype RecordRow = RecordRow(name: string, time: string)

  /** A row of the legacy `dependencies` table. */
  datatype DependencyRow = DependencyRow(recordId: int, dependency: int)

  /** `str(x)` of an optional record id. */
  function IdText(id: Option<nat>): (s: string)
    ensures id.None? <==> s == "None"
    ensures id.Some? ==> AllDigits(s) && DecimalValue(s) == id.value
  {
    match id
    case None => "None"
    case Some(n) =>
      DecimalRoundTrip(n);
      NatToDecimal(n)
  }

  /** `str(name)`, with Python's rendering of a missing name. */
  function NameText(name: Option<string>): string
  {
    if name.Some? then name.value else "None"
  }

  /** `str(t.value)`: the stored kind written as its one decimal digit. */
  function TagTypeText(t: TagType): (s: string)
    ensures |s| == 1 && AllDigits(s) && DecimalValue(s) == TagTypeValue(t)
  {
    match t
    case NONE => "0"
    case STRING => "1"
    case INTEGER => "2"
    case FLOAT => "3"
  }

  /** The digit is exactly what `str` prints for the kind's value. */
  lemma TagTypeTextIsStr(t: TagType)
    ensures TagTypeText(t) == IntToDecimal(TagTypeValue(t))
  {
    var v := TagTypeValue(t);
    assert NatToDecimal(v) == [DigitChar(v)];
  }

  /** Text that `q` can quote without changing how sqlite reads it. */
  predicate Quotable(s: string)
  {
    '\'' !in s
  }

  /** Digits are one tuple element to SQL. */
  lemma DigitsAreField(s: string)
    requires AllDigits(s)
    ensures Field(s)
  {
  }

  /** The column names of the tags table are single words SQL reads as one element each. */
  lemma TagColumnsAreFields()
    ensures forall n :: n in TagColumns() ==> ' ' !in n && Field(n)
  {
  }

  /** The columns `add_tag` names, in order. */
  function TagColumns(): seq<string> { ["record_id", "key", "value", "type"] }

  /** What `add_tag` sends for a stored record and quote-free key and value reads back as the row it means. */
  lemma TagInsertReadsBack(recordId: nat, key: string, value: string, t: TagType)
    requires Quotable(key) && Quotable(value)
    ensures var values := [IdText(Some(recordId)), Q(key), Q(value), TagTypeText(t)];
      ParseInsert(InsertCommand("tags", TagColumns(), values)) == Some(InsertParts("tags", TagColumns(), values))
  {
    var values := [IdText(Some(recordId)), Q(key), Q(value), TagTypeText(t)];
    DigitsAreField(values[0]);
    QuotedField(key);
    QuotedField(value);
    DigitsAreField(values[3]);
    TagColumnsAreFields();
    InsertRoundTrip("tags", TagColumns(), values);
  }

  /** The column list of `get_tags` holds no word `from`: it has no letter `f`. */
  lemma TagSelectColumns()
    ensures "from" !in Split("key, value, type", ' ')
  {
    var what := "key, value, type";
    assert forall i :: 0 <= i < |what| ==> what[i] != 'f';
    SplitPartsWithout(what, ' ', 'f');
  }

  /** The query `get_tags` sends reads back as the tags table, its three columns and the record condition. */
  lemma TagsSelectReadsBack(recordId: int)
    ensures var cond := Some("record_id=" + IntToDecimal(recordId));
      ParseSelect(SelectCommand("tags", "key, value, type", cond)) == Some(SelectParts("tags", "key, value, type", cond))
  {
    TagSelectColumns();
    SelectRoundTrip("tags", "key, value, type", Some("record_id=" + IntToDecimal(recordId)));
  }

  /** Rows of `dependencies` whose `record_id` is `id`, in row order. */
  function DependencyRowsFor(rows: seq<DependencyRow>, id: int): (r: seq<DependencyRow>)
    ensures |r| <= |rows|
    ensures forall d :: d in r <==> d in rows && d.recordId == id
  {
    if rows == [] then []
    else DependencyRowsFor(rows[..|rows| - 1], id)
         + (if rows[|rows| - 1].recordId == id then [rows[|rows| - 1]] else [])
  }

  /** Uri rows numbered `1, 2, ...` in order, each owned by a record. */
  predicate UrisNumbered(rows: seq<UrisModel>)
  {
    forall i :: 0 <= i < |rows| ==> rows[i].id == Some(i + 1) && rows[i].recordId.Some?
  }

  /** Tag rows numbered `1, 2, ...` in order, each owned by a record. */
  predicate TagsNumbered(rows: seq<TagsModel>)
  {
    forall i :: 0 <= i < |rows| ==> rows[i].id == Some(i + 1) && rows[i].recordId.Some?
  }

  /** Appending the row that gets the next id keeps the uri rows numbered. */
  lemma UrisNumberedAppend(rows: seq<UrisModel>, u: UrisModel)
    requires UrisNumbered(rows) && u.id == Some(|rows| + 1) && u.recordId.Some?
    ensures UrisNumbered(rows + [u])
  {
    forall i | 0 <= i < |rows| + 1 ensures (rows + [u])[i].id == Some(i + 1) && (rows + [u])[i].recordId.Some? {
      if i < |rows| {
        assert (rows + [u])[i] == rows[i];
      }
    }
  }

  /** Appending the row that gets the next id keeps the tag rows numbered. */
  lemma TagsNumberedAppend(rows: seq<TagsModel>, t: TagsModel)
    requires TagsNumbered(rows) && t.id == Some(|rows| + 1) && t.recordId.Some?
    ensures TagsNumbered(rows + [t])
  {
    forall i | 0 <= i < |rows| + 1 ensures (rows + [t])[i].id == Some(i + 1) && (rows + [t])[i].recordId.Some? {
      if i < |rows| {
        assert (rows + [t])[i] == rows[i];
      }
    }
  }

  class LegacyDB {
    /** Every command handed to the cursor, including any sqlite refused. */
    var issued: seq<string>
    var records: seq<RecordRow>
    var dependencies: seq<DependencyRow>
    var uris: seq<UrisModel>
    var tags: seq<TagsModel>

    /** Uri and tag rows carry their row id (`lastrowid`) and an owning record id. */
    ghost predicate Valid()
      reads this
    {
      UrisNumbered(uris) && TagsNumbered(tags)
    }

    /** A connected database whose tables have been created. */
    constructor ()
      ensures Valid()
      ensures issued == [] && records == [] && dependencies == [] && uris == [] && tags == []
    {
      issued, records, dependencies, uris, tags := [], [], [], [], [];
    }

    /** `insert("records", ["name", "time"], qA(name, time))`; returns `lastrowid`. */
    method InsertRecord(name: string, time: string) returns (r: Result<nat, LegacyError>)
      requires Valid()
      modifies this
      ensures Valid()
      ensures issued == old(issued) + [InsertCommand("records", ["name", "time"], QuoteEach([name, time]))]
      ensures dependencies == old(dependencies) && uris == old(uris) && tags == old(tags)
      ensures Quotable(name) && Quotable(time) ==>
        r == Ok(|old(records)| + 1) && records == old(records) + [RecordRow(name, time)]
      ensures !(Quotable(name) && Quotable(time)) ==> r == Err(QuoteInValue) && records == old(records)
    {
      issued := issued + [InsertCommand("records", ["name", "time"], QuoteEach([name, time]))];
      if !(Quotable(name) && Quotable(time)) {
        return Err(QuoteInValue);
      }
      r := Ok(|records| + 1);
      records := records + [RecordRow(name, time)];
    }

    /** `insert("dependencies", ["record_id", "dependency"], [str(id), str(dep)])`. */
    method InsertDependency(recordId: Option<nat>, dependency: Option<nat>) returns (r: Result<nat, LegacyError>)
      requires Valid()
      modifies this
      ensures Valid()
      ensures issued == old(issued) +
        [InsertCommand("dependencies", ["record_id", "dependency"], [IdText(recordId), IdText(dependency)])]
      ensures records == old(records) && uris == old(uris) && tags == old(tags)
      ensures recordId.Some? && dependency.Some? ==>
        && r == Ok(|old(dependencies)| + 1)
        && dependencies == old(dependencies) + [DependencyRow(recordId.value, dependency.value)]
      ensures recordId.None? || dependency.None? ==> r == Err(NoSuchColumnNone) && dependencies == old(dependencies)
    {
      issued := issued + [InsertCommand("dependencies", ["record_id", "dependency"], [IdText(recordId), IdText(dependency)])];
      if recordId.None? || dependency.None? {
        return Err(NoSuchColumnNone);
      }
      r := Ok(|dependencies| + 1);
      dependencies := dependencies + [DependencyRow(recordId.value, dependency.value)];
    }

    /** `insert("uris", ["record_id", "uri"], [str(id), q(uri)])`. */
    method InsertUri(recordId: Option<nat>, uri: string) returns (r: Result<nat, LegacyError>)
      requires Valid()
      modifies this
      ensures Valid()
      ensures issued == old(issued) + [InsertCommand("uris", ["record_id", "uri"], [IdText(recordId), Q(uri)])]
      ensures records == old(records) && dependencies == old(dependencies) && tags == old(tags)
      ensures recordId.None? ==> r == Err(NoSuchColumnNone) && uris == old(uris)
      ensures recordId.Some? && !Quotable(uri) ==> r == Err(QuoteInValue) && uris == old(uris)
      ensures recordId.Some? && Quotable(uri) ==>
        && r == Ok(|old(uris)| + 1)
        && uris == old(uris) + [UrisModel(Some(|old(uris)| + 1), Some(recordId.value), uri)]
    {
      issued := issued + [InsertCommand("uris", ["record_id", "uri"], [IdText(recordId), Q(uri)])];
      if recordId.None? {
        return Err(NoSuchColumnNone);
      }
      if !Quotable(uri) {
        return Err(QuoteInValue);
      }
      var row := UrisModel(Some(|uris| + 1), Some(recordId.value), uri);
      UrisNumberedAppend(uris, row);
      r := Ok(|uris| + 1);
      uris := uris + [row];
    }

    /** `insert("tags", ["record_id", "key", "value", "type"], [str(id), q(key), q(value), str(t)])`. */
    method InsertTag(recordId: Option<nat>, key: string, value: string, t: TagType) returns (r: Result<nat, LegacyError>)
      requires Valid()
      modifies this
      ensures Valid()
      ensures issued == old(issued) + [InsertCommand("tags", ["record_id", "key", "value", "type"],
        [IdText(recordId), Q(key), Q(value), TagTypeText(t)])]
      ensures records == old(records) && dependencies == old(dependencies) && uris == old(uris)
      ensures recordId.None? ==> r == Err(NoSuchColumnNone) && tags == old(tags)
      ensures recordId.Some? && !(Quotable(key) && Quotable(value)) ==> r == Err(QuoteInValue) && tags == old(tags)
      ensures recordId.Some? && Quotable(key) && Quotable(value) ==>
        && r == Ok(|old(tags)| + 1)
        && tags == old(tags) + [TagsModel(Some(|old(tags)| + 1), Some(recordId.value), key, value, TagTypeValue(t))]
    {
      var command := InsertCommand("tags", ["record_id", "key", "value", "type"],
        [IdText(recordId), Q(key), Q(value), TagTypeText(t)]);
      if recordId.None? {
        r := Err(NoSuchColumnNone);
      } else if !(Quotable(key) && Quotable(value)) {
        r := Err(QuoteInValue);
      } else {
        var row := TagsModel(Some(|tags| + 1), Some(recordId.value), key, value, TagTypeValue(t));
        TagsNumberedAppend(tags, row);
        r := Ok(|tags| + 1);
        tags := tags + [row];
      }
      issued := issued + [command];
    }

    /**
     * `get_dependencies`: issues the select, then fetches rows until the
     * cursor is exhausted, collecting the dependency ids in row order.
     */
    method GetDependencies(recordId: int) returns (deps: seq<int>)
      modifies this
      ensures issued == old(issued) + [SelectCommand("dependencies", "dependency", Some("record_id=" + IntToDecimal(recordId)))]
      ensures records == old(records) && dependencies == old(dependencies) && uris == old(uris) && tags == old(tags)
      ensures |deps| == |DependencyRowsFor(dependencies, recordId)|
      ensures forall i :: 0 <= i < |deps| ==> deps[i] == DependencyRowsFor(dependencies, recordId)[i].dependency
    {
      issued := issued + [SelectCommand("dependencies", "dependency", Some("record_id=" + IntToDecimal(recordId)))];
      var cursor := DependencyRowsFor(dependencies, recordId);
      deps := [];
      var k := 0;
      while k < |cursor|
        invariant 0 <= k <= |cursor| && |deps| == k
        invariant forall i :: 0 <= i < k ==> deps[i] == cursor[i].dependency
      {
        deps := deps + [cursor[k].dependency];
        k := k + 1;
      }
    }

    /** `get_uris`: the URIs of the record's uri rows, in row order. */
    method GetUris(recordId: int) returns (result: seq<string>)
      modifies this
      ensures issued == old(issued) + [SelectCommand("uris", "uri", Some("record_id=" + IntToDecimal(recordId)))]
      ensures records == old(records) && dependencies == old(dependencies) && uris == old(uris) && tags == old(tags)
      ensures |result| == |UriRowsOf(uris, Some(recordId))|
      ensures forall i :: 0 <= i < |result| ==> result[i] == UriRowsOf(uris, Some(recordId))[i].uri
    {
      issued := issued + [SelectCommand("uris", "uri", Some("record_id=" + IntToDecimal(recordId)))];
      var cursor := UriRowsOf(uris, Some(recordId));
      result := [];
      var k := 0;
      while k < |cursor|
        invariant 0 <= k <= |cursor| && |result| == k
        invariant forall i :: 0 <= i < k ==> result[i] == cursor[i].uri
      {
        result := result + [cursor[k].uri];
        k := k + 1;
      }
    }

    /**
     * `get_tags`: folds the record's tag rows into a dictionary, later rows
     * overwriting earlier ones; an unknown stored kind raises.
     */
    method GetTags(recordId: int) returns (r: Result<map<string, TagValue>, LegacyError>)
      modifies this
      ensures issued == old(issued) + [SelectCommand("tags", "key, value, type", Some("record_id=" + IntToDecimal(recordId)))]
      ensures records == old(records) && dependencies == old(dependencies) && uris == old(uris) && tags == old(tags)
      ensures TagsMap(TagRowsOf(tags, Some(recordId))).Ok? ==> r == Ok(TagsMap(TagRowsOf(tags, Some(recordId))).value)
      ensures TagsMap(TagRowsOf(tags, Some(recordId))).Err? ==>
        r == Err(UnknownTagType(TagsMap(TagRowsOf(tags, Some(recordId))).error))
    {
      issued := issued + [SelectCommand("tags", "key, value, type", Some("record_id=" + IntToDecimal(recordId)))];
      var m := CollectTags(TagRowsOf(tags, Some(recordId)));
      r := if m.Ok? then Ok(m.value) else Err(UnknownTagType(m.error));
    }
  }

  class LegacyRecord {
    const db: LegacyDB?
    const kind: BraidStore.RecordKind
    const serial: int
    const name: Option<string>
    /** The record's timestamp as `strftime` renders it. */
    const stamp: string
    /** `None` until `store()`; then the `lastrowid` of the insert. */
    var recordId: Option<nat>
    var dependencies: seq<LegacyRecord>
    var uris: seq<string>
    var tags: map<string, string>

    /** Each new record takes the next serial from the module counter. */
    constructor (counter: BraidStore.SerialCounter, db: LegacyDB?, kind: BraidStore.RecordKind,
                 name: Option<string>, stamp: string)
      modifies counter
      ensures serial == old(counter.serial) && counter.serial == old(counter.serial) + 1
      ensures this.db == db && this.kind == kind && this.name == name && this.stamp == stamp
      ensures recordId.None? && dependencies == [] && uris == [] && tags == map[]
    {
      var s := counter.MakeSerial();
      serial := s;
      this.db := db;
      this.kind := kind;
      this.name := name;
      this.stamp := stamp;
      recordId := None;
      dependencies := [];
      uris := [];
      tags := map[];
    }

    /**
     * `add_dependency`: a fact refuses; otherwise the record is remembered
     * and the pair of ids is inserted, which fails while either record is
     * not yet stored.
     */
    method AddDependency(other: LegacyRecord) returns (r: Result<nat, LegacyError>)
      requires db != null ==> db.Valid()
      modifies this, db
      ensures db != null ==> db.Valid()
      ensures recordId == old(recordId) && uris == old(uris) && tags == old(tags)
      ensures db != null ==> db.records == old(db.records) && db.uris == old(db.uris) && db.tags == old(db.tags)
      ensures kind == BraidStore.Fact ==>
        && r == Err(FactDependency) && dependencies == old(dependencies)
        && (db != null ==> db.issued == old(db.issued) && db.dependencies == old(db.dependencies))
      ensures kind != BraidStore.Fact ==> dependencies == old(dependencies) + [other]
      ensures kind != BraidStore.Fact && db == null ==> r == Err(NoDatabase)
      ensures kind != BraidStore.Fact && db != null ==>
        && db.issued == old(db.issued) +
             [InsertCommand("dependencies", ["record_id", "dependency"], [IdText(recordId), IdText(other.recordId)])]
        && (recordId.Some? && other.recordId.Some? <==> r.Ok?)
        && (r.Ok? ==> db.dependencies == old(db.dependencies) + [DependencyRow(recordId.value, other.recordId.value)])
        && (r.Err? ==> r == Err(NoSuchColumnNone) && db.dependencies == old(db.dependencies))
    {
      if kind == BraidStore.Fact {
        return Err(FactDependency);
      }
      dependencies := dependencies + [other];
      if db == null {
        return Err(NoDatabase);
      }
      r := db.InsertDependency(recordId, other.recordId);
    }

    /** `BraidModel.update`: the legacy model depends on `record`. */
    method Update(record: LegacyRecord) returns (r: Result<nat, LegacyError>)
      requires kind == BraidStore.ModelKind && (db != null ==> db.Valid())
      modifies this, db
      ensures db != null ==> db.Valid()
      ensures dependencies == old(dependencies) + [record] && recordId == old(recordId)
      ensures uris == old(uris) && tags == old(tags)
      ensures db == null ==> r == Err(NoDatabase)
      ensures db != null ==>
        && db.issued == old(db.issued) +
             [InsertCommand("dependencies", ["record_id", "dependency"], [IdText(recordId), IdText(record.recordId)])]
        && db.records == old(db.records) && db.uris == old(db.uris) && db.tags == old(db.tags)
        && (recordId.Some? && record.recordId.Some? <==> r.Ok?)
        && (r.Ok? ==> db.dependencies == old(db.dependencies) + [DependencyRow(recordId.value, record.recordId.value)])
        && (r.Err? ==> r == Err(NoSuchColumnNone) && db.dependencies == old(db.dependencies))
    {
      r := AddDependency(record);
    }

    /** `add_uri`: remembers the URI and inserts a uri row under the record's id. */
    method AddUri(uri: string) returns (r: Result<nat, LegacyError>)
      requires db != null ==> db.Valid()
      modifies this, db
      ensures db != null ==> db.Valid()
      ensures uris == old(uris) + [uri] && recordId == old(recordId)
      ensures dependencies == old(dependencies) && tags == old(tags)
      ensures db == null ==> r == Err(NoDatabase)
      ensures db != null ==>
        && db.issued == old(db.issued) + [InsertCommand("uris", ["record_id", "uri"], [IdText(recordId), Q(uri)])]
        && db.records == old(db.records) && db.dependencies == old(db.dependencies) && db.tags == old(db.tags)
        && (recordId.None? ==> r == Err(NoSuchColumnNone) && db.uris == old(db.uris))
        && (recordId.Some? && !Quotable(uri) ==> r == Err(QuoteInValue) && db.uris == old(db.uris))
        && (recordId.Some? && Quotable(uri) ==>
              && r == Ok(|old(db.uris)| + 1)
              && db.uris == old(db.uris) + [UrisModel(Some(|old(db.uris)| + 1), Some(recordId.value), uri)])
    {
      uris := uris + [uri];
      if db == null {
        return Err(NoDatabase);
      }
      r := db.InsertUri(recordId, uri);
    }

    /**
     * `add_tag`: a type that is not a tag kind is refused before anything
     * is inserted; otherwise the key is set and exactly one tags insert is
     * issued.
     */
    method AddTag(key: string, value: string, typeArg: BraidStore.TagTypeArg) returns (r: Result<nat, LegacyError>)
      requires db != null ==> db.Valid()
      modifies this, db
      ensures db != null ==> db.Valid()
      ensures uris == old(uris) && dependencies == old(dependencies) && recordId == old(recordId)
      ensures typeArg.NotATagTypeArg? ==>
        && r == Err(NotATagType(typeArg.shown)) && tags == old(tags)
        && (db != null ==> db.issued == old(db.issued) && db.tags == old(db.tags))
      ensures db != null ==> db.records == old(db.records) && db.dependencies == old(db.dependencies) && db.uris == old(db.uris)
      ensures typeArg.Tagged? ==> tags == old(tags)[key := value]
      ensures typeArg.Tagged? && db == null ==> r == Err(NoDatabase)
      ensures typeArg.Tagged? && db != null ==>
        && db.issued == old(db.issued) + [InsertCommand("tags", ["record_id", "key", "value", "type"],
             [IdText(recordId), Q(key), Q(value), TagTypeText(typeArg.t)])]
        && (recordId.None? ==> r == Err(NoSuchColumnNone) && db.tags == old(db.tags))
        && (recordId.Some? && !(Quotable(key) && Quotable(value)) ==> r == Err(QuoteInValue) && db.tags == old(db.tags))
        && (recordId.Some? && Quotable(key) && Quotable(value) ==>
              && r == Ok(|old(db.tags)| + 1)
              && db.tags == old(db.tags) + [TagsModel(Some(r.value), recordId, key, value, TagTypeValue(typeArg.t))])
    {
      if typeArg.NotATagTypeArg? {
        return Err(NotATagType(typeArg.shown));
      }
      tags := tags[key := value];
      if db == null {
        return Err(NoDatabase);
      }
      r := db.InsertTag(recordId, key, value, typeArg.t);
    }

    /**
     * `store()` of a fact, data or model record: inserts a records row and
     * takes its row id as the record id. Every call inserts a new row.
     */
    method Store() returns (r: Result<nat, LegacyError>)
      requires kind != BraidStore.Plain && (db != null ==> db.Valid())
      modifies this, db
      ensures db != null ==> db.Valid()
      ensures dependencies == old(dependencies) && uris == old(uris) && tags == old(tags)
      ensures db == null ==> r == Err(NoDatabase) && recordId == old(recordId)
      ensures db != null ==>
        && db.issued == old(db.issued) + [InsertCommand("records", ["name", "time"], QuoteEach([NameText(name), stamp]))]
        && (Quotable(NameText(name)) && Quotable(stamp) ==>
              && r == Ok(|old(db.records)| + 1) && recordId == Some(r.value)
              && db.records == old(db.records) + [RecordRow(NameText(name), stamp)])
        && db.dependencies == old(db.dependencies) && db.uris == old(db.uris) && db.tags == old(db.tags)
        && (!(Quotable(NameText(name)) && Quotable(stamp)) ==>
              r == Err(QuoteInValue) && recordId == old(recordId) && db.records == old(db.records))
    {
      if db == null {
        return Err(NoDatabase);
      }
      r := db.InsertRecord(NameText(name), stamp);
      if r.Ok? {
        recordId := Some(r.value);
      }
    }
  }

  /** Records created one after another from the same counter get increasing serials. */
  method SerialsIncrease(counter: BraidStore.SerialCounter, db: LegacyDB?)
    returns (first: LegacyRecord, second: LegacyRecord)
    modifies counter
    ensures first.serial < second.serial && second.serial == first.serial + 1
  {
    first := new LegacyRecord(counter, db, BraidStore.Data, None, "");
    second := new LegacyRecord(counter, db, BraidStore.Data, None, "");
  }

  /** Unlike the newer store, storing a legacy record twice inserts two rows and renumbers it. */
  method StoreTwiceInsertsTwice(rec: LegacyRecord) returns (a: Result<nat, LegacyError>, b: Result<nat, LegacyError>)
    requires rec.db != null && rec.db.Valid() && rec.kind != BraidStore.Plain
    requires Quotable(NameText(rec.name)) && Quotable(rec.stamp)
    modifies rec, rec.db
    ensures a.Ok? && b.Ok? && b.value == a.value + 1
    ensures |rec.db.records| == |old(rec.db.records)| + 2
  {
    a := rec.Store();
    b := rec.Store();
  }

  /** A dependency whose target was never stored is refused by sqlite. */
  method UnstoredDependencyFails(rec: LegacyRecord, other: LegacyRecord) returns (r: Result<nat, LegacyError>)
    requires rec.db != null && rec.db.Valid() && rec.kind != BraidStore.Fact
    requires other.recordId.None?
    modifies rec, rec.db
    ensures r == Err(NoSuchColumnNone)
  {
    r := rec.AddDependency(other);
  }
}
