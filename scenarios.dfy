/**
 * Whole runs of the application against a fresh browser profile, told
 * through the store's and the session's contracts alone: what a user
 * saves in one run is what the next run restores.
 */
module Scenarios {
  import opened Results
  import opened JsText
  import opened JsValues
  import opened PreferenceStore
  import opened Theme
  import opened Renderer

  /** A profile in which one run saved the workspace path `/repo` and the dark mode. */
  method SavedProfile() returns (storage: IndexedStore)
    ensures fresh(storage) && storage.Valid() && storage.version == DB_VERSION
    ensures storage.records.Keys == {WORKSPACE_PATH, THEME_MODE}
    ensures storage.records[WORKSPACE_PATH].value == Str("/repo")
    ensures storage.records[THEME_MODE].value == Str("dark")
  {
    storage := new IndexedStore();
    var first := new PreferenceDB();
    var _ := first.Init(storage, None);
    var _ := first.SetPreference(WORKSPACE_PATH, Str("/repo"), 1, None);
    var _ := first.SetPreference(THEME_MODE, Str("dark"), 2, None);
  }

  /** After a restart the scan returns exactly the two preferences written before it. */
  method RestartReadsBackWrites() returns (all: Result<map<string, Value>, StoreError>)
    ensures all == Ok(map[WORKSPACE_PATH := Str("/repo"), THEME_MODE := Str("dark")])
  {
    var storage := SavedProfile();
    var second := new PreferenceDB();
    var _ := second.Init(storage, None);
    all := second.GetAllPreferences(None);
    assert all.value == map[WORKSPACE_PATH := Str("/repo"), THEME_MODE := Str("dark")];
  }

  /** A restarted page restores the saved path into its field and, from the light
      start, one toggle turns the theme dark. */
  method RestartRestoresSavedPreferences() returns (workspace: string, dark: bool, ghost calls: nat)
    ensures workspace == "/repo"
    ensures dark
    ensures calls == 1
  {
    var storage := SavedProfile();
    var session := NewSession();
    ghost var before := session.theme.toggleCalls;
    session.InitializeApp(storage, None, {}, None);
    workspace := session.inputs.workspacePath;
    dark := session.theme.dark;
    calls := session.theme.toggleCalls - before;
  }

  /** A workspace path typed in one run comes back trimmed in the next; typed blank,
      it is saved as `''`, reads back as `null`, and the field stays empty. */
  method EditedPathSurvivesRestart(typed: string) returns (restored: string)
    ensures restored == Trim(typed)
  {
    var storage := new IndexedStore();
    var session := NewSession();
    session.InitializeApp(storage, None, {}, None);
    session.inputs := session.inputs.(workspacePath := typed);
    session.OnFieldEdited(WorkspacePathField, 1, None);

    var next := NewSession();
    next.InitializeApp(storage, None, {}, None);
    SavedFieldRestores(map[], WorkspacePathField, typed, 1, Inputs("", "", ""));
    restored := next.inputs.workspacePath;
  }

  /** A freshly loaded page: a closed store, empty fields, a light theme. */
  method NewSession() returns (session: Session)
    ensures fresh(session) && fresh(session.store) && fresh(session.theme)
    ensures session.Valid() && session.store.db == null && !session.theme.dark
    ensures session.inputs == Inputs("", "", "")
  {
    var db := new PreferenceDB();
    var theme := new NativeTheme(false);
    session := new Session(db, theme);
  }

  /** After a clear, any key reads back as `null` and the scan is empty. */
  method ClearForgetsEverything(key: string, value: Value)
    returns (got: Result<Value, StoreError>, all: Result<map<string, Value>, StoreError>)
    ensures got == Ok(Null)
    ensures all == Ok(map[])
  {
    var storage := new IndexedStore();
    var db := new PreferenceDB();
    var _ := db.Init(storage, None);
    var _ := db.SetPreference(key, value, 1, None);
    var _ := db.ClearPreferences(None);
    got := db.GetPreference(key, None);
    all := db.GetAllPreferences(None);
  }

  /** A row keyed `__proto__` is stored and reads back by key, but the scan's plain
      object does not take it as a key. */
  method ProtoKeyMissingFromScan() returns (got: Result<Value, StoreError>,
                                           all: Result<map<string, Value>, StoreError>)
    ensures got == Ok(Str("x"))
    ensures all == Ok(map[])
  {
    var storage := new IndexedStore();
    var db := new PreferenceDB();
    var _ := db.Init(storage, None);
    var _ := db.SetPreference(PROTO_KEY, Str("x"), 1, None);
    got := db.GetPreference(PROTO_KEY, None);
    all := db.GetAllPreferences(None);
  }

  /** Before `init`, every operation fails with "Database not initialized". */
  method UninitialisedStoreRefuses(key: string, value: Value)
    returns (written: Result<(), StoreError>, got: Result<Value, StoreError>,
             all: Result<map<string, Value>, StoreError>, cleared: Result<(), StoreError>)
    ensures written == Err(NotInitialized) && got == Err(NotInitialized)
    ensures all == Err(NotInitialized) && cleared == Err(NotInitialized)
  {
    var db := new PreferenceDB();
    written := db.SetPreference(key, value, 1, None);
    got := db.GetPreference(key, None);
    all := db.GetAllPreferences(None);
    cleared := db.ClearPreferences(None);
  }
}
