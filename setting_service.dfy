/** The settings table and backend/app/services/setting_service.py: the
    root-directory upsert and lookup, and the full listing. */
module SettingService {
  import opened Common

  datatype Setting = Setting(id: int, key: string, value: string)

  const RootKey: string := "root_directory"

  /** Positive ids in insertion order and a unique key column. */
  predicate SettingsValid(rows: seq<Setting>)
  {
    && (forall i, j :: 0 <= i < j < |rows| ==> rows[i].id < rows[j].id && rows[i].key != rows[j].key)
    && (forall i :: 0 <= i < |rows| ==> rows[i].id > 0)
  }

  function RowWithKey(rows: seq<Setting>, key: string): int
  {
    IndexWhere(rows, (s: Setting) => s.key == key)
  }

  /** query(Setting).filter(key == k).first(): the value, or None. */
  function ValueOf(rows: seq<Setting>, key: string): (r: Option<string>)
    ensures r.None? <==> forall k :: 0 <= k < |rows| ==> rows[k].key != key
    ensures r.Some? ==> exists k :: 0 <= k < |rows| && rows[k] == Setting(rows[k].id, key, r.value)
  {
    var i := RowWithKey(rows, key);
    if i == -1 then None else Some(rows[i].value)
  }

  /** The upsert: the existing row takes the value in place, or a new row
      with the next id is added. */
  function Upsert(rows: seq<Setting>, key: string, value: string): seq<Setting>
  {
    var i := RowWithKey(rows, key);
    if i != -1 then rows[i := rows[i].(value := value)]
    else rows + [Setting(if |rows| == 0 then 1 else rows[|rows| - 1].id + 1, key, value)]
  }

  /** Reading a key back after setting it gives the value set. */
  lemma UpsertThenValue(rows: seq<Setting>, key: string, value: string)
    ensures ValueOf(Upsert(rows, key, value), key) == Some(value)
  {
    var r := Upsert(rows, key, value);
    var i := RowWithKey(rows, key);
    if i == -1 {
      assert r[|rows|].key == key;
      assert forall k :: 0 <= k < |rows| ==> r[k].key != key;
      IndexWhereIs(r, (s: Setting) => s.key == key, |rows|);
    } else {
      assert r[i].key == key && forall k :: 0 <= k < i ==> r[k] == rows[k];
      IndexWhereIs(r, (s: Setting) => s.key == key, i);
    }
  }

  /** Other keys keep their values. */
  lemma UpsertKeepsOthers(rows: seq<Setting>, key: string, value: string, other: string)
    requires other != key
    ensures ValueOf(Upsert(rows, key, value), other) == ValueOf(rows, other)
  {
    var r := Upsert(rows, key, value);
    var i := RowWithKey(rows, key);
    var j := RowWithKey(rows, other);
    if i == -1 {
      assert forall k :: 0 <= k < |rows| ==> r[k] == rows[k];
      if j == -1 {
        assert r[|rows|].key != other;
      }
      assert RowWithKey(r, other) == j;
    } else {
      assert forall k :: 0 <= k < |rows| ==> r[k].key == rows[k].key;
      assert RowWithKey(r, other) == j;
      assert j != -1 ==> j != i;
    }
  }

  /** The upsert keeps the table valid, so the key is never stored twice. */
  lemma UpsertKeepsValid(rows: seq<Setting>, key: string, value: string)
    requires SettingsValid(rows)
    ensures SettingsValid(Upsert(rows, key, value))
    ensures |Upsert(rows, key, value)| == |rows| + (if ValueOf(rows, key).None? then 1 else 0)
  {
  }

  /** Setting the same value twice is setting it once. */
  lemma UpsertIdempotent(rows: seq<Setting>, key: string, value: string)
    ensures Upsert(Upsert(rows, key, value), key, value) == Upsert(rows, key, value)
  {
    var r := Upsert(rows, key, value);
    var i := RowWithKey(rows, key);
    if i == -1 {
      assert r[|rows|].key == key;
      assert forall k :: 0 <= k < |rows| ==> r[k].key != key;
      IndexWhereIs(r, (s: Setting) => s.key == key, |rows|);
    } else {
      assert r[i].key == key && forall k :: 0 <= k < i ==> r[k] == rows[k];
      IndexWhereIs(r, (s: Setting) => s.key == key, i);
    }
  }

  class SettingsTable {
    var rows: seq<Setting>

    ghost predicate Valid()
      reads this
    {
      SettingsValid(rows)
    }

    constructor ()
      ensures Valid() && rows == []
    {
      rows := [];
    }

    /** set_root_directory. */
    method SetRootDirectory(path: string)
      requires Valid()
      modifies this
      ensures Valid()
      ensures rows == Upsert(old(rows), RootKey, path)
    {
      UpsertKeepsValid(rows, RootKey, path);
      var i := RowWithKey(rows, RootKey);
      if i != -1 {
        rows := rows[i := rows[i].(value := path)];
      } else {
        rows := rows + [Setting(if |rows| == 0 then 1 else rows[|rows| - 1].id + 1, RootKey, path)];
      }
    }

    /** get_root_directory: None when the row is absent. */
    method GetRootDirectory() returns (r: Option<string>)
      ensures r == ValueOf(rows, RootKey)
    {
      var i := RowWithKey(rows, RootKey);
      r := if i == -1 then None else Some(rows[i].value);
    }

    /** get_all_settings: one (key, value) pair per row, in table order. */
    method AllSettings() returns (r: seq<(string, string)>)
      ensures |r| == |rows|
      ensures forall k :: 0 <= k < |r| ==> r[k] == (rows[k].key, rows[k].value)
    {
      r := [];
      var k := 0;
      while k < |rows|
        invariant 0 <= k <= |rows| && |r| == k
        invariant forall j :: 0 <= j < k ==> r[j] == (rows[j].key, rows[j].value)
      {
        r := r + [(rows[k].key, rows[k].value)];
        k := k + 1;
      }
    }
  }
}
