/**
 * Row shapes of the provenance tables (records, dependencies, uris, tags),
 * the tag kinds, and the row filters and last-row-wins tag map that both
 * generations of the store compute from those rows.
 */
module BraidModels {
  import opened Wrappers

  /** A point in time; clocks are outside the model and supply these. */
  type Time = int

  /** `BraidTagType`: the four tag kinds, stored as 0..3. */
  datatype TagType = NONE | STRING | INTEGER | FLOAT

  function TagTypeValue(t: TagType): int
  {
    match t
    case NONE => 0
    case STRING => 1
    case INTEGER => 2
    case FLOAT => 3
  }

  /** `BraidTagType(v)`: `None` where Python raises `ValueError`. */
  function TagTypeOf(v: int): (r: Option<TagType>)
    ensures r.Some? <==> 0 <= v <= 3
    ensures r.Some? ==> TagTypeValue(r.value) == v
  {
    if v == 0 then Some(NONE)
    else if v == 1 then Some(STRING)
    else if v == 2 then Some(INTEGER)
    else if v == 3 then Some(FLOAT)
    else None
  }

  /** The stored integer names its kind back: the enumeration is unique. */
  lemma TagTypeRoundTrip(t: TagType)
    ensures TagTypeOf(TagTypeValue(t)) == Some(t)
  {
  }

  /** A `records` row; `recordId` stays `None` until the store assigns it. */
  datatype RecordModel = RecordModel(recordId: Option<int>, name: string, time: Time)

  /** A `dependencies` row: `recordId` depends on `dependency`; the pair is the primary key. */
  datatype DependencyModel = DependencyModel(recordId: Option<int>, dependency: Option<int>, time: Time)

  /** A `uris` row with its own id; a record may own any number of them. */
  datatype UrisModel = UrisModel(id: Option<int>, recordId: Option<int>, uri: string)

  /** A `tags` row with its own id; nothing makes `key` unique per record. */
  datatype TagsModel = TagsModel(id: Option<int>, recordId: Option<int>, key: string, value: string, tagType: int)

  /** The value and kind `get_tags` reports for a key. */
  datatype TagValue = TagValue(value: string, typ: TagType)

  function DependencyKey(d: DependencyModel): (Option<int>, Option<int>)
  {
    (d.recordId, d.dependency)
  }

  /** The `uri` property of a record: its first URI row, if any. */
  function FirstUri(uris: seq<UrisModel>): (r: Option<UrisModel>)
    ensures r.None? <==> uris == []
    ensures r.Some? ==> r.value == uris[0]
  {
    if |uris| > 0 then Some(uris[0]) else None
  }

  /** Rows of `dependencies` whose `record_id` is `id`, in row order. */
  function DependencyRowsOf(rows: seq<DependencyModel>, id: Option<int>): (r: seq<DependencyModel>)
    ensures |r| <= |rows|
    ensures forall d :: d in r <==> d in rows && d.recordId == id
  {
    if rows == [] then []
    else DependencyRowsOf(rows[..|rows| - 1], id)
         + (if rows[|rows| - 1].recordId == id then [rows[|rows| - 1]] else [])
  }

  /** Rows of `uris` whose `record_id` is `id`, in row order. */
  function UriRowsOf(rows: seq<UrisModel>, id: Option<int>): (r: seq<UrisModel>)
    ensures |r| <= |rows|
    ensures forall u :: u in r <==> u in rows && u.recordId == id
  {
    if rows == [] then []
    else UriRowsOf(rows[..|rows| - 1], id)
         + (if rows[|rows| - 1].recordId == id then [rows[|rows| - 1]] else [])
  }

  /** Rows of `tags` whose `record_id` is `id`, in row order. */
  function TagRowsOf(rows: seq<TagsModel>, id: Option<int>): (r: seq<TagsModel>)
    ensures |r| <= |rows|
    ensures forall t :: t in r <==> t in rows && t.recordId == id
  {
    if rows == [] then []
    else TagRowsOf(rows[..|rows| - 1], id)
         + (if rows[|rows| - 1].recordId == id then [rows[|rows| - 1]] else [])
  }

  /**
   * The dictionary `get_tags` builds from tag rows taken in order: each row
   * overwrites its key. `Err(t)` carries the first stored kind `t` that is
   * not a `BraidTagType` value, where the conversion raises.
   */
  function TagsMap(rows: seq<TagsModel>): Result<map<string, TagValue>, int>
  {
    if rows == [] then Ok(map[])
    else
      match TagsMap(rows[..|rows| - 1])
      case Err(t) => Err(t)
      case Ok(m) =>
        var last := rows[|rows| - 1];
        match TagTypeOf(last.tagType)
        case None => Err(last.tagType)
        case Some(typ) => Ok(m[last.key := TagValue(last.value, typ)])
  }

  predicate KnownTagTypes(rows: seq<TagsModel>)
  {
    forall i :: 0 <= i < |rows| ==> 0 <= rows[i].tagType <= 3
  }

  /** Later rows win: last row of a key. */
  predicate IsLastOfKey(rows: seq<TagsModel>, i: int)
  {
    0 <= i < |rows| && forall j :: i < j < |rows| ==> rows[j].key != rows[i].key
  }

  /** `get_tags` succeeds exactly when every row's kind is a known tag kind. */
  lemma {:induction false} TagsMapOkIff(rows: seq<TagsModel>)
    ensures TagsMap(rows).Ok? <==> KnownTagTypes(rows)
  {
    if rows != [] {
      var init := rows[..|rows| - 1];
      var last := rows[|rows| - 1];
      TagsMapOkIff(init);
      if KnownTagTypes(init) && 0 <= last.tagType <= 3 {
        forall i | 0 <= i < |rows| ensures 0 <= rows[i].tagType <= 3 {
          if i < |init| { assert rows[i] == init[i]; }
        }
      }
      if KnownTagTypes(rows) {
        forall i | 0 <= i < |init| ensures 0 <= init[i].tagType <= 3 {
          assert init[i] == rows[i];
        }
      }
    }
  }

  /** On success the dictionary holds exactly the keys that occur in the rows. */
  lemma {:induction false} TagsMapKeys(rows: seq<TagsModel>)
    requires TagsMap(rows).Ok?
    ensures forall k :: k in TagsMap(rows).value <==> exists i :: 0 <= i < |rows| && rows[i].key == k
  {
    if rows != [] {
      var init := rows[..|rows| - 1];
      var last := rows[|rows| - 1];
      TagsMapKeys(init);
      var m := TagsMap(rows).value;
      var m0 := TagsMap(init).value;
      assert m.Keys == m0.Keys + {last.key};
      forall k ensures k in m <==> exists i :: 0 <= i < |rows| && rows[i].key == k {
        if k in m && k != last.key {
          var i :| 0 <= i < |init| && init[i].key == k;
          assert rows[i] == init[i];
        }
        if k in m && k == last.key {
          assert rows[|rows| - 1].key == k;
        }
        if exists i :: 0 <= i < |rows| && rows[i].key == k {
          var i :| 0 <= i < |rows| && rows[i].key == k;
          if i < |init| { assert init[i] == rows[i]; }
        }
      }
    }
  }

  /** On success each key maps to the value and kind of the last row carrying it. */
  lemma {:induction false} TagsMapLastRowWins(rows: seq<TagsModel>, i: int)
    requires TagsMap(rows).Ok?
    requires IsLastOfKey(rows, i)
    ensures rows[i].key in TagsMap(rows).value && TagTypeOf(rows[i].tagType).Some?
    ensures TagsMap(rows).value[rows[i].key] == TagValue(rows[i].value, TagTypeOf(rows[i].tagType).value)
  {
    var init := rows[..|rows| - 1];
    var last := rows[|rows| - 1];
    TagsMapOkIff(rows);
    if i < |init| {
      assert rows[i] == init[i];
      assert IsLastOfKey(init, i) by {
        forall j | i < j < |init| ensures init[j].key != init[i].key {
          assert init[j] == rows[j];
        }
      }
      TagsMapLastRowWins(init, i);
      assert rows[i].key != last.key;
    }
  }

  /** The prefix of the rows on which `TagsMap` fails already decides the whole. */
  lemma {:induction false} TagsMapErrorSticks(rows: seq<TagsModel>, k: nat)
    requires k <= |rows|
    requires TagsMap(rows[..k]).Err?
    ensures TagsMap(rows) == TagsMap(rows[..k])
    decreases |rows| - k
  {
    if k < |rows| {
      assert rows[..k + 1][..k] == rows[..k];
      TagsMapErrorSticks(rows, k + 1);
    } else {
      assert rows[..k] == rows;
    }
  }

  /**
   * The `get_tags` loop shared by both stores: rows read in order into a
   * dictionary, each overwriting its key, stopping at the first unknown kind.
   */
  method CollectTags(rows: seq<TagsModel>) returns (r: Result<map<string, TagValue>, int>)
    ensures r == TagsMap(rows)
  {
    var m: map<string, TagValue> := map[];
    for i := 0 to |rows|
      invariant TagsMap(rows[..i]) == Ok(m)
    {
      assert rows[..i + 1][..i] == rows[..i];
      var t := TagTypeOf(rows[i].tagType);
      if t.None? {
        TagsMapErrorSticks(rows, i + 1);
        return Err(rows[i].tagType);
      }
      m := m[rows[i].key := TagValue(rows[i].value, t.value)];
    }
    assert rows[..|rows|] == rows;
    r := Ok(m);
  }
}
