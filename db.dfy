/**
 * The preference store: an IndexedDB database `FortranInjectorDB` at
 * version 1 holding one object store, `preferences`, whose key path is
 * `key`. Rows are `{key, value, timestamp}`; the store is an upsert-only
 * key-value table with exact-key lookup, full scan and clear.
 *
 * The database as it lives in the browser's storage is `IndexedStore`;
 * `PreferenceDB` is the service object, whose `db` field is the open
 * handle (null until `Init` succeeds).
 */
module PreferenceStore {
  import opened Results
  import opened JsValues

  /** One row of the `preferences` object store. */
  datatype Record = Record(key: string, value: Value, timestamp: int)

  datatype StoreError =
    | NotInitialized           // thrown before any request when the handle is null
    | Backend(detail: string)  // the request's `onerror`
    | VersionError             // `open` asked for a version below the stored one

  const DB_NAME: string := "FortranInjectorDB"
  const DB_VERSION: nat := 1
  const STORE_NAME: string := "preferences"

  /** The one key a plain object literal will not take as its own: assigning to it
      goes to the accessor every object inherits, which for the values stored here
      (strings, numbers, booleans, `null`) adds no key. */
  const PROTO_KEY: string := "__proto__"

  // The preference key registry.
  const WORKSPACE_PATH: string := "workspacePath"
  const OUTPUT_PATH: string := "outputPath"
  const THEME_MODE: string := "themeMode"
  const FUNCTION_NAME: string := "lastFunctionName"

  function PreferenceKeys(): (keys: seq<string>)
    ensures |keys| == 4
    ensures forall i, j :: 0 <= i < j < |keys| ==> keys[i] != keys[j]
    ensures keys == [WORKSPACE_PATH, OUTPUT_PATH, THEME_MODE, FUNCTION_NAME]
  {
    [WORKSPACE_PATH, OUTPUT_PATH, THEME_MODE, FUNCTION_NAME]
  }

  /** The key path `key` is the primary key: each row sits under its own key. */
  ghost predicate WellKeyed(records: map<string, Record>) {
    forall k :: k in records ==> records[k].key == k
  }

  /** What `getPreference(key)` resolves to: `request.result?.value || null`. */
  function Lookup(records: map<string, Record>, key: string): (v: Value)
    ensures v == Null || (key in records && v == records[key].value)
    ensures Truthy(v) <==> key in records && Truthy(records[key].value)
    ensures !Truthy(v) ==> v == Null
  {
    if key in records && Truthy(records[key].value) then records[key].value else Null
  }

  /** `put({key, value, timestamp})`: the row for `key` is replaced, every other row stays. */
  function Upsert(records: map<string, Record>, key: string, value: Value, now: int): (r: map<string, Record>)
    ensures r.Keys == records.Keys + {key}
    ensures r[key] == Record(key, value, now)
    ensures forall k :: k in records && k != key ==> r[k] == records[k]
  {
    records[key := Record(key, value, now)]
  }

  /** A write a caller can issue: `setPreference` or `clearPreferences`. */
  datatype Write = Put(key: string, value: Value, at: int) | ClearAll

  function Apply(records: map<string, Record>, w: Write): map<string, Record> {
    match w
    case Put(k, v, t) => Upsert(records, k, v, t)
    case ClearAll => map[]
  }

  /** The table after a sequence of successful writes, oldest first. */
  function Replay(records: map<string, Record>, ws: seq<Write>): map<string, Record>
    decreases |ws|
  {
    if ws == [] then records else Replay(Apply(records, ws[0]), ws[1..])
  }

  /** The most recent write in `ws` that affects `key`: a `Put` of `key` or a `ClearAll`. */
  function LastTouch(ws: seq<Write>, key: string): (w: Option<Write>)
    ensures w.Some? ==> w.value in ws && (w.value.Put? ==> w.value.key == key)
    decreases |ws|
  {
    if ws == [] then None
    else
      var last := ws[|ws| - 1];
      if last.ClearAll? || last.key == key then Some(last) else LastTouch(ws[..|ws| - 1], key)
  }

  lemma {:induction false} ReplaySnoc(records: map<string, Record>, ws: seq<Write>, w: Write)
    ensures Replay(records, ws + [w]) == Apply(Replay(records, ws), w)
    decreases |ws|
  {
    if ws == [] {
      assert [w][1..] == [];
    } else {
      assert (ws + [w])[1..] == ws[1..] + [w];
      ReplaySnoc(Apply(records, ws[0]), ws[1..], w);
    }
  }

  /** Last write wins, key by key: after a sequence of writes the row for `key` is
      the one the most recent `Put` of `key` left, gone if a `ClearAll` came later,
      and the original row if nothing touched `key`. */
  lemma {:induction false} LastWriteWins(records: map<string, Record>, ws: seq<Write>, key: string)
    ensures var r := Replay(records, ws);
      match LastTouch(ws, key)
      case None => (key in r <==> key in records) && (key in records ==> r[key] == records[key])
      case Some(w) =>
        if w.ClearAll? then key !in r else key in r && r[key] == Record(key, w.value, w.at)
    decreases |ws|
  {
    if ws != [] {
      var init, last := ws[..|ws| - 1], ws[|ws| - 1];
      assert ws == init + [last];
      ReplaySnoc(records, init, last);
      if !(last.ClearAll? || last.key == key) {
        LastWriteWins(records, init, key);
      }
    }
  }

  /** Read-your-write, with the `|| null` quirk: the value
      read back after a write is the value written when it is truthy, `null` otherwise. */
  lemma ReadAfterWrite(records: map<string, Record>, ws: seq<Write>, key: string, value: Value, at: int)
    ensures Lookup(Replay(records, ws + [Put(key, value, at)]), key) == if Truthy(value) then value else Null
  {
    LastWriteWins(records, ws + [Put(key, value, at)], key);
  }

  /** Overwrite: `set(k, v1)`, `set(k, v2)`, `get(k)` sees `v2`, and the table holds one row for `k`. */
  lemma Overwrite(records: map<string, Record>, key: string, v1: Value, t1: int, v2: Value, t2: int)
    ensures var r := Replay(records, [Put(key, v1, t1), Put(key, v2, t2)]);
      key in r && r[key] == Record(key, v2, t2) && r.Keys == records.Keys + {key}
      && Lookup(r, key) == if Truthy(v2) then v2 else Null
  {
    var ws := [Put(key, v1, t1), Put(key, v2, t2)];
    var once := Upsert(records, key, v1, t1);
    assert ws[1..] == [Put(key, v2, t2)] && ws[1..][1..] == [];
    calc {
      Replay(records, ws);
      Replay(once, [Put(key, v2, t2)]);
      Replay(Upsert(once, key, v2, t2), []);
    }
  }

  /** Writing one key leaves what every other key reads unchanged. */
  lemma IndependentKeys(records: map<string, Record>, a: string, b: string, value: Value, at: int)
    requires a != b
    ensures Lookup(Upsert(records, a, value, at), b) == Lookup(records, b)
  {
  }

  /** After a clear every key reads as `null`, whatever came before it. */
  lemma ClearIsTotal(records: map<string, Record>, ws: seq<Write>, key: string)
    ensures Replay(records, ws + [ClearAll]) == map[]
    ensures Lookup(Replay(records, ws + [ClearAll]), key) == Null
  {
    ReplaySnoc(records, ws, ClearAll);
  }

  /** The database `FortranInjectorDB` as it persists in the browser between runs. */
  class IndexedStore {
    var version: nat                   // 0 while the database has never been opened
    var hasStore: bool                 // objectStoreNames contains `preferences`
    var hasKeyIndex: bool              // the unique index `key` on that store
    var records: map<string, Record>   // the rows of `preferences`, by primary key

    ghost predicate Valid()
      reads this
    {
      && WellKeyed(records)
      && hasKeyIndex == hasStore
      && (!hasStore ==> records == map[])
      && (version >= DB_VERSION ==> hasStore)
    }

    /** A browser profile in which the database does not exist yet. */
    constructor ()
      ensures Valid()
      ensures version == 0 && !hasStore && !hasKeyIndex && records == map[]
    {
      version, hasStore, hasKeyIndex, records := 0, false, false, map[];
    }
  }

  /** The `onupgradeneeded` handler: creates the store and its index only when the
      store is missing, so the rows of an existing store survive. */
  method UpgradeNeeded(storage: IndexedStore)
    requires storage.Valid()
    modifies storage
    ensures storage.hasStore && storage.hasKeyIndex
    ensures storage.records == old(storage.records)
    ensures storage.version == old(storage.version)
    ensures storage.Valid()
  {
    if !storage.hasStore {
      storage.hasStore := true;
      storage.hasKeyIndex := true;
    }
  }

  class PreferenceDB {
    const dbName: string
    const version: nat
    var db: IndexedStore?

    ghost predicate Valid()
      reads this, db
    {
      && dbName == DB_NAME && version == DB_VERSION
      && (db != null ==> db.Valid() && db.version == version && db.hasStore)
    }

    constructor ()
      ensures Valid() && db == null
    {
      dbName, version, db := DB_NAME, DB_VERSION, null;
    }

    /** `indexedDB.open(dbName, version)`: on success the handle is set; an upgrade runs
        first when the stored version is below ours. `fault` is the request's error. */
    method Init(storage: IndexedStore, fault: Option<string>) returns (r: Result<(), StoreError>)
      requires Valid() && storage.Valid()
      modifies this, storage
      ensures Valid() && storage.Valid()
      ensures fault.Some? ==> r == Err(Backend(fault.value)) && db == old(db) && unchanged(storage)
      ensures fault.None? && old(storage.version) > version ==>
                r == Err(VersionError) && db == old(db) && unchanged(storage)
      ensures fault.None? && old(storage.version) <= version ==>
                r == Ok(()) && db == storage && storage.version == version
      ensures storage.records == old(storage.records)
    {
      if fault.Some? {
        return Err(Backend(fault.value));
      }
      if storage.version > version {
        return Err(VersionError);
      }
      if storage.version < version {
        UpgradeNeeded(storage);
        storage.version := version;
      }
      db := storage;
      r := Ok(());
    }

    /** `setPreference(key, value)` at time `now`; `fault` is the `put` request's error. */
    method SetPreference(key: string, value: Value, now: int, fault: Option<string>)
      returns (r: Result<(), StoreError>)
      requires Valid()
      modifies db
      ensures Valid()
      ensures db == null ==> r == Err(NotInitialized)
      ensures db != null && fault.Some? ==> r == Err(Backend(fault.value)) && unchanged(db)
      ensures db != null && fault.None? ==>
                r == Ok(()) && db.records == Upsert(old(db.records), key, value, now)
                && db.version == old(db.version) && db.hasStore == old(db.hasStore)
                && db.hasKeyIndex == old(db.hasKeyIndex)
    {
      if db == null {
        return Err(NotInitialized);
      }
      if fault.Some? {
        return Err(Backend(fault.value));
      }
      db.records := db.records[key := Record(key, value, now)];
      r := Ok(());
    }

    /** `getPreference(key)`: the stored value when truthy, `null` otherwise. */
    method GetPreference(key: string, fault: Option<string>) returns (r: Result<Value, StoreError>)
      requires Valid()
      ensures db == null ==> r == Err(NotInitialized)
      ensures db != null && fault.Some? ==> r == Err(Backend(fault.value))
      ensures db != null && fault.None? ==> r == Ok(Lookup(db.records, key))
    {
      if db == null {
        return Err(NotInitialized);
      }
      if fault.Some? {
        return Err(Backend(fault.value));
      }
      var found: Option<Record> := if key in db.records then Some(db.records[key]) else None;
      if found.Some? && Truthy(found.value.value) {
        r := Ok(found.value.value);
      } else {
        r := Ok(Null);
      }
    }

    /** `getAllPreferences()`: every row folded into a plain-object key-to-value
        dictionary, which drops a row keyed `__proto__`. */
    method GetAllPreferences(fault: Option<string>) returns (r: Result<map<string, Value>, StoreError>)
      requires Valid()
      ensures db == null ==> r == Err(NotInitialized)
      ensures db != null && fault.Some? ==> r == Err(Backend(fault.value))
      ensures db != null && fault.None? ==>
                r.Ok? && r.value.Keys == db.records.Keys - {PROTO_KEY}
                && forall k :: k in r.value ==> r.value[k] == db.records[k].value
    {
      if db == null {
        return Err(NotInitialized);
      }
      if fault.Some? {
        return Err(Backend(fault.value));
      }
      var preferences: map<string, Value> := map[];
      var pending := db.records.Keys;
      while pending != {}
        invariant pending <= db.records.Keys
        invariant preferences.Keys == db.records.Keys - pending - {PROTO_KEY}
        invariant forall k :: k in preferences ==> preferences[k] == db.records[k].value
        decreases pending
      {
        var k :| k in pending;
        var item := db.records[k];
        if item.key != PROTO_KEY {
          preferences := preferences[item.key := item.value];
        }
        pending := pending - {k};
      }
      r := Ok(preferences);
    }

    /** `clearPreferences()`: every row goes; the handle stays open. */
    method ClearPreferences(fault: Option<string>) returns (r: Result<(), StoreError>)
      requires Valid()
      modifies db
      ensures Valid()
      ensures db == null ==> r == Err(NotInitialized)
      ensures db != null && fault.Some? ==> r == Err(Backend(fault.value)) && unchanged(db)
      ensures db != null && fault.None? ==>
                r == Ok(()) && db.records == map[]
                && db.version == old(db.version) && db.hasStore == old(db.hasStore)
                && db.hasKeyIndex == old(db.hasKeyIndex)
    {
      if db == null {
        return Err(NotInitialized);
      }
      if fault.Some? {
        return Err(Backend(fault.value));
      }
      db.records := map[];
      r := Ok(());
    }
  }
}
