/**
 * The renderer's decision logic: restoring saved preferences into the
 * input fields and the theme at start-up, saving each field as it is
 * edited, validating and defaulting a search, building the CSV export
 * request, and choosing status and tag classes.
 *
 * The DOM is abstracted to a `Session`: the three input values, the
 * status line, whether the export section shows, the last results and
 * function name, and the requests sent to the main process.
 */
module Renderer {
  import opened Results
  import opened JsText
  import opened JsValues
  import opened PreferenceStore
  import opened Theme

  /** The values of the three text inputs. */
  datatype Inputs = Inputs(functionName: string, workspacePath: string, outputPath: string)

  /** Which input an edit came from. */
  datatype Field = FunctionNameField | WorkspacePathField | OutputPathField

  /** The status line: its text and its Bulma class. */
  datatype Status = Status(message: string, cls: string)

  /** One function call the main process found. */
  datatype SearchResult = SearchResult(
    fileName: string, lineNumber: int, functionCall: string, parameters: seq<string>, status: string)

  /** A request the renderer sends to the main process. */
  datatype Request =
    | SearchAndInject(functionName: string, workspacePath: string)
    | ExportToCsv(results: seq<SearchResult>, outputPath: string, fileName: string)

  /** The UTC fields of a `Date`; `month` is `getUTCMonth()`, counted from 0. */
  datatype UtcTime = UtcTime(year: int, month: nat, day: nat, hours: nat, minutes: nat)

  predicate IsUtcFields(t: UtcTime) {
    t.month < 12 && 1 <= t.day <= 31 && t.hours < 24 && t.minutes < 60
  }

  /** The preference key each input is saved under. */
  function KeyOf(field: Field): (key: string)
    ensures key in PreferenceKeys() && key != THEME_MODE
  {
    match field
    case FunctionNameField => FUNCTION_NAME
    case WorkspacePathField => WORKSPACE_PATH
    case OutputPathField => OUTPUT_PATH
  }

  lemma KeyOfInjective(f: Field, g: Field)
    requires KeyOf(f) == KeyOf(g)
    ensures f == g
  {
  }

  function ValueOf(inputs: Inputs, field: Field): string {
    match field
    case FunctionNameField => inputs.functionName
    case WorkspacePathField => inputs.workspacePath
    case OutputPathField => inputs.outputPath
  }

  /** The table after `savePreference(key, value)` at time `now`, which swallows errors:
      written when the store is open and the write does not fail, untouched otherwise. */
  ghost function AfterSave(open: bool, records: map<string, Record>, key: string, value: string,
                           now: int, fault: Option<string>): (r: map<string, Record>)
    ensures open && fault.None? ==> Lookup(r, key) == if value != "" then Str(value) else Null
    ensures !(open && fault.None?) ==> r == records
    ensures forall k :: k != key ==> Lookup(r, k) == Lookup(records, k)
  {
    if open && fault.None? then Upsert(records, key, Str(value), now) else records
  }

  /** The error a read of `key` meets: reads of the keys in `faulty` reject. */
  function ReadFault(faulty: set<string>, key: string): (f: Option<string>)
    ensures f.Some? <==> key in faulty
  {
    if key in faulty then Some("read of " + key + " failed") else None
  }

  /** The order in which restoration reads the registry keys. */
  const READ_ORDER: seq<string> := [WORKSPACE_PATH, OUTPUT_PATH, FUNCTION_NAME, THEME_MODE]

  /** How many of the four restoring reads succeed. They run in `READ_ORDER` inside one
      `try`, so the first failure (or a closed store) ends them: `n` is the position of
      the first read that fails. */
  function ReadsCompleted(open: bool, faulty: set<string>): (n: nat)
    ensures n <= 4
    ensures n > 0 ==> open
    ensures forall i :: 0 <= i < n ==> READ_ORDER[i] !in faulty
    ensures open && n < 4 ==> READ_ORDER[n] in faulty
  {
    if !open || WORKSPACE_PATH in faulty then 0
    else if OUTPUT_PATH in faulty then 1
    else if FUNCTION_NAME in faulty then 2
    else if THEME_MODE in faulty then 3
    else 4
  }

  /** A restored field takes the saved value only when it is truthy. */
  function Restored(current: string, saved: Value): (r: string)
    ensures Truthy(saved) ==> r == ToJsString(saved) && r != ""
    ensures !Truthy(saved) ==> r == current
  {
    if Truthy(saved) then ToJsString(saved) else current
  }

  function WithField(inputs: Inputs, field: Field, value: string): (r: Inputs)
    ensures ValueOf(r, field) == value
    ensures forall g :: g != field ==> ValueOf(r, g) == ValueOf(inputs, g)
  {
    match field
    case FunctionNameField => inputs.(functionName := value)
    case WorkspacePathField => inputs.(workspacePath := value)
    case OutputPathField => inputs.(outputPath := value)
  }

  /** One field restored from the value its key reads back. */
  function RestoreOne(records: map<string, Record>, inputs: Inputs, field: Field): (r: Inputs)
    ensures ValueOf(r, field) == Restored(ValueOf(inputs, field), Lookup(records, KeyOf(field)))
    ensures forall g :: g != field ==> ValueOf(r, g) == ValueOf(inputs, g)
  {
    WithField(inputs, field, Restored(ValueOf(inputs, field), Lookup(records, KeyOf(field))))
  }

  /** The inputs after restoration from `records` when `n` reads succeed. */
  function RestoredInputs(records: map<string, Record>, n: nat, before: Inputs): (after: Inputs)
    ensures n >= 3 ==> after == Inputs(Restored(before.functionName, Lookup(records, FUNCTION_NAME)),
                                       Restored(before.workspacePath, Lookup(records, WORKSPACE_PATH)),
                                       Restored(before.outputPath, Lookup(records, OUTPUT_PATH)))
    ensures n == 0 ==> after == before
  {
    var afterWorkspace := if n >= 1 then RestoreOne(records, before, WorkspacePathField) else before;
    var afterOutput := if n >= 2 then RestoreOne(records, afterWorkspace, OutputPathField) else afterWorkspace;
    if n >= 3 then RestoreOne(records, afterOutput, FunctionNameField) else afterOutput
  }

  /** The theme is driven only when the saved mode is truthy and not `'system'`. */
  predicate ThemeApplies(mode: Value)
    ensures !ThemeApplies(mode) <==> mode in {Null, Bool(false), Num(0), Str(""), SYSTEM}
  {
    Truthy(mode) && mode != SYSTEM
  }

  /** How many toggle requests restoration issues. */
  function RestoreToggles(records: map<string, Record>, n: nat, toggleFault: Option<nat>): (k: nat)
    ensures k <= 2
    ensures n < 4 ==> k == 0
    ensures !ThemeApplies(Lookup(records, THEME_MODE)) ==> k == 0
  {
    var mode := Lookup(records, THEME_MODE);
    if n == 4 && ThemeApplies(mode) then IssuedToggles(mode, toggleFault) else 0
  }

  /** The theme after restoration, from `dark`. */
  function RestoredDark(records: map<string, Record>, n: nat, dark: bool, toggleFault: Option<nat>): (r: bool)
    ensures n < 4 ==> r == dark
    ensures toggleFault.None? ==> r == FlipN(dark, RestoreToggles(records, n, toggleFault))
  {
    var mode := Lookup(records, THEME_MODE);
    if n == 4 && ThemeApplies(mode) then FlipN(dark, EffectiveFlips(mode, toggleFault)) else dark
  }

  /** `showStatus` class for a status update from the main process. */
  function StatusClass(kind: string): (c: string)
    ensures c == "is-success" <==> kind == "success"
    ensures c == "is-danger" <==> kind == "error"
    ensures c == "is-info" <==> kind != "success" && kind != "error"
  {
    if kind == "success" then "is-success" else if kind == "error" then "is-danger" else "is-info"
  }

  /** The tag class of a result's status text: "Injected" wins over "exists". */
  function TagClass(status: string): (c: string)
    ensures c in {"is-success", "is-warning", "is-info"}
    ensures c == "is-success" <==> exists i :: OccursAt(status, "Injected", i)
    ensures c == "is-warning" <==>
              (forall i :: !OccursAt(status, "Injected", i)) && exists j :: OccursAt(status, "exists", j)
  {
    ContainsIff(status, "Injected");
    ContainsIff(status, "exists");
    if Contains(status, "Injected") then "is-success"
    else if Contains(status, "exists") then "is-warning"
    else "is-info"
  }

  /** A directory field as a request uses it: trimmed, or `'.'` (the working directory) when
      that leaves nothing; both the search and the export default this way. */
  function DirectoryOrDot(field: string): (dir: string)
    ensures dir != ""
    ensures Trim(field) != "" ==> dir == Trim(field)
    ensures Trim(field) == "" ==> dir == "."
  {
    var t := Trim(field);
    if t != "" then t else "."
  }

  function TwoDigitString(n: nat): string {
    PadStart2(NatToString(n))
  }

  /** `${year}${month}${day}` with `month = getUTCMonth() + 1`. */
  function DateStamp(t: UtcTime): string {
    IntToString(t.year) + TwoDigitString(t.month + 1) + TwoDigitString(t.day)
  }

  /** `${hours}${minutes}`. */
  function TimeStamp(t: UtcTime): string {
    TwoDigitString(t.hours) + TwoDigitString(t.minutes)
  }

  /** The export file name: `<function name>_<date>_<time>.csv`. */
  function CsvFileName(functionName: string, t: UtcTime): (r: string)
    ensures |r| > |functionName| + 4
    ensures r[..|functionName| + 1] == functionName + "_"
    ensures r[|r| - 4..] == ".csv"
  {
    functionName + "_" + DateStamp(t) + "_" + TimeStamp(t) + ".csv"
  }

  /** The part of the file name after the year. */
  function StampTail(t: UtcTime): string {
    TwoDigitString(t.month + 1) + TwoDigitString(t.day) + "_" + TimeStamp(t) + ".csv"
  }

  /** The export file name is the function name, `_`, the year in decimal, then the
      rest of the stamp. */
  lemma CsvFileNameLayout(name: string, t: UtcTime)
    ensures CsvFileName(name, t) == (name + "_") + (IntToString(t.year) + StampTail(t))
  {
  }

  /** The rest of the stamp is month (1 to 12), day, `_`, hours and minutes, each as
      two zero-padded digits, then `.csv`: 13 characters. */
  lemma StampTailDigits(t: UtcTime)
    requires IsUtcFields(t)
    ensures StampTail(t) == Digits2(t.month + 1) + Digits2(t.day) + "_" + Digits2(t.hours) + Digits2(t.minutes) + ".csv"
    ensures |StampTail(t)| == 13
  {
    TwoDigits(t.month + 1);
    TwoDigits(t.day);
    TimeStampDigits(t);
    StampShape(Digits2(t.month + 1), Digits2(t.day), Digits2(t.hours), Digits2(t.minutes));
  }

  lemma TimeStampDigits(t: UtcTime)
    requires IsUtcFields(t)
    ensures TimeStamp(t) == Digits2(t.hours) + Digits2(t.minutes)
  {
    TwoDigits(t.hours);
    TwoDigits(t.minutes);
  }

  /** Regrouping the pieces of the stamp tail, each of two characters. */
  lemma StampShape(mo: string, d: string, h: string, mi: string)
    requires |mo| == 2 && |d| == 2 && |h| == 2 && |mi| == 2
    ensures mo + d + "_" + (h + mi) + ".csv" == mo + d + "_" + h + mi + ".csv"
    ensures |mo + d + "_" + h + mi + ".csv"| == 13
  {
    assert mo + d + "_" + (h + mi) == mo + d + "_" + h + mi;
  }

  lemma SplitEqual(a1: string, b1: string, a2: string, b2: string)
    requires a1 + b1 == a2 + b2 && |a1| == |a2|
    ensures a1 == a2 && b1 == b2
  {
    assert a1 == (a1 + b1)[..|a1|] && a2 == (a2 + b2)[..|a2|];
    assert b1 == (a1 + b1)[|a1|..] && b2 == (a2 + b2)[|a2|..];
  }

  lemma Digits2Injective(a: nat, b: nat)
    requires a < 100 && b < 100 && Digits2(a) == Digits2(b)
    ensures a == b
  {
    assert Digits2(a)[0] == Digits2(b)[0] && Digits2(a)[1] == Digits2(b)[1];
    DigitCharInjective(a / 10, b / 10);
    DigitCharInjective(a % 10, b % 10);
  }

  lemma DigitCharInjective(a: nat, b: nat)
    requires a < 10 && b < 10 && DigitChar(a) == DigitChar(b)
    ensures a == b
  {
  }

  lemma StampTailInjective(t1: UtcTime, t2: UtcTime)
    requires IsUtcFields(t1) && IsUtcFields(t2) && StampTail(t1) == StampTail(t2)
    ensures t1.month == t2.month && t1.day == t2.day && t1.hours == t2.hours && t1.minutes == t2.minutes
  {
    StampTailDigits(t1);
    StampTailDigits(t2);
    var mo1, d1, h1, mi1 := Digits2(t1.month + 1), Digits2(t1.day), Digits2(t1.hours), Digits2(t1.minutes);
    var mo2, d2, h2, mi2 := Digits2(t2.month + 1), Digits2(t2.day), Digits2(t2.hours), Digits2(t2.minutes);
    SplitEqual(mo1 + d1 + "_" + h1 + mi1, ".csv", mo2 + d2 + "_" + h2 + mi2, ".csv");
    SplitEqual(mo1 + d1 + "_" + h1, mi1, mo2 + d2 + "_" + h2, mi2);
    SplitEqual(mo1 + d1 + "_", h1, mo2 + d2 + "_", h2);
    SplitEqual(mo1 + d1, "_", mo2 + d2, "_");
    SplitEqual(mo1, d1, mo2, d2);
    Digits2Injective(t1.month + 1, t2.month + 1);
    Digits2Injective(t1.day, t2.day);
    Digits2Injective(t1.hours, t2.hours);
    Digits2Injective(t1.minutes, t2.minutes);
  }

  /** Two exports of one function get the same file name only in the same UTC minute. */
  lemma CsvFileNameInjective(name: string, t1: UtcTime, t2: UtcTime)
    requires IsUtcFields(t1) && IsUtcFields(t2)
    requires CsvFileName(name, t1) == CsvFileName(name, t2)
    ensures t1 == t2
  {
    CsvFileNameLayout(name, t1);
    CsvFileNameLayout(name, t2);
    StampTailDigits(t1);
    StampTailDigits(t2);
    var y1, y2 := IntToString(t1.year), IntToString(t2.year);
    SplitEqual(name + "_", y1 + StampTail(t1), name + "_", y2 + StampTail(t2));
    SplitEqual(y1, StampTail(t1), y2, StampTail(t2));
    IntToStringInjective(t1.year, t2.year);
    StampTailInjective(t1, t2);
  }

  /** The renderer's state: the inputs, the status line, the results shown and the
      requests it has sent, over the shared store and the main process's theme. */
  class Session {
    const store: PreferenceDB
    const theme: NativeTheme
    var inputs: Inputs
    var status: Option<Status>
    var exportVisible: bool
    var currentSearchResults: seq<SearchResult>
    var currentFunctionName: string
    var requests: seq<Request>

    ghost predicate Valid()
      reads this, store, store.db
    {
      store.Valid()
    }

    constructor (store: PreferenceDB, theme: NativeTheme)
      requires store.Valid()
      ensures Valid() && this.store == store && this.theme == theme
      ensures inputs == Inputs("", "", "") && status == None && !exportVisible
      ensures currentSearchResults == [] && currentFunctionName == "" && requests == []
    {
      this.store := store;
      this.theme := theme;
      inputs := Inputs("", "", "");
      status := None;
      exportVisible := false;
      currentSearchResults := [];
      currentFunctionName := "";
      requests := [];
    }

    /** `savePreference(key, value)`: a store error is caught and dropped. */
    method SavePreference(key: string, value: string, now: int, fault: Option<string>)
      requires Valid()
      modifies store.db
      ensures Valid()
      ensures store.db != null ==>
                store.db.records == AfterSave(true, old(store.db.records), key, value, now, fault)
    {
      var _ := store.SetPreference(key, Str(value), now, fault);
    }

    /** The `input` and `change` listeners of each field: save its trimmed value
        (`value || ''` leaves a string as it is) under the field's key. */
    method OnFieldEdited(field: Field, now: int, fault: Option<string>)
      requires Valid()
      modifies store.db
      ensures Valid()
      ensures store.db != null ==>
                store.db.records == AfterSave(true, old(store.db.records), KeyOf(field),
                                              Trim(ValueOf(inputs, field)), now, fault)
    {
      var value := Trim(ValueOf(inputs, field));
      SavePreference(KeyOf(field), value, now, fault);
    }

    /** `saveThemePreference(themeMode)`, called by the page's theme switcher. */
    method SaveThemePreference(themeMode: string, now: int, fault: Option<string>)
      requires Valid()
      modifies store.db
      ensures Valid()
      ensures store.db != null ==>
                store.db.records == AfterSave(true, old(store.db.records), THEME_MODE, themeMode, now, fault)
    {
      SavePreference(THEME_MODE, themeMode, now, fault);
    }

    /** The workspace directory dialog's answer: a truthy path fills the field and is
        saved as chosen, untrimmed. */
    method HandleBrowse(selected: Option<string>, now: int, fault: Option<string>)
      requires Valid()
      modifies this`inputs, store.db
      ensures Valid()
      ensures selected.Some? && selected.value != "" ==>
                && inputs == old(inputs).(workspacePath := selected.value)
                && (store.db != null ==>
                      store.db.records == AfterSave(true, old(store.db.records), WORKSPACE_PATH,
                                                    selected.value, now, fault))
      ensures !(selected.Some? && selected.value != "") ==>
                inputs == old(inputs) && (store.db != null ==> store.db.records == old(store.db.records))
    {
      if selected.Some? && selected.value != "" {
        inputs := inputs.(workspacePath := selected.value);
        SavePreference(WORKSPACE_PATH, selected.value, now, fault);
      }
    }

    /** The output directory dialog's answer, saved the same way under the output key. */
    method HandleBrowseOutput(selected: Option<string>, now: int, fault: Option<string>)
      requires Valid()
      modifies this`inputs, store.db
      ensures Valid()
      ensures selected.Some? && selected.value != "" ==>
                && inputs == old(inputs).(outputPath := selected.value)
                && (store.db != null ==>
                      store.db.records == AfterSave(true, old(store.db.records), OUTPUT_PATH,
                                                    selected.value, now, fault))
      ensures !(selected.Some? && selected.value != "") ==>
                inputs == old(inputs) && (store.db != null ==> store.db.records == old(store.db.records))
    {
      if selected.Some? && selected.value != "" {
        inputs := inputs.(outputPath := selected.value);
        SavePreference(OUTPUT_PATH, selected.value, now, fault);
      }
    }

    /** One `getPreference` and `if (saved) input.value = saved` step of restoration;
        `ok` is false when the read throws or rejects. */
    method RestoreField(field: Field, faulty: set<string>) returns (ok: bool)
      requires Valid()
      modifies this`inputs
      ensures ok <==> store.db != null && KeyOf(field) !in faulty
      ensures ok ==> inputs == RestoreOne(store.db.records, old(inputs), field)
      ensures !ok ==> inputs == old(inputs)
    {
      var saved := store.GetPreference(KeyOf(field), ReadFault(faulty, KeyOf(field)));
      if saved.Err? {
        return false;
      }
      if Truthy(saved.value) {
        inputs := WithField(inputs, field, ToJsString(saved.value));
      }
      ok := true;
    }

    /** `loadSavedPreferences`: read the four keys in order and copy truthy values into
        the fields; then, unless the theme mode is falsy or `'system'`, run the deferred
        theme callback. A failing read is caught and ends the whole routine. */
    method LoadSavedPreferences(faulty: set<string>, toggleFault: Option<nat>)
      requires Valid()
      modifies this`inputs, theme
      ensures Valid()
      ensures var n := ReadsCompleted(store.db != null, faulty);
        var records := if store.db != null then store.db.records else map[];
        && inputs == RestoredInputs(records, n, old(inputs))
        && theme.dark == RestoredDark(records, n, old(theme.dark), toggleFault)
        && theme.toggleCalls == old(theme.toggleCalls) + RestoreToggles(records, n, toggleFault)
    {
      var count := RestoreFields(faulty);
      if count == 3 {
        RestoreTheme(faulty, toggleFault);
      }
    }

    /** The three field reads of restoration; `count` of them succeed. */
    method RestoreFields(faulty: set<string>) returns (count: nat)
      requires Valid()
      modifies this`inputs
      ensures var n := ReadsCompleted(store.db != null, faulty);
        count == if n < 3 then n else 3
      ensures inputs == RestoredInputs(if store.db != null then store.db.records else map[], count, old(inputs))
    {
      ghost var records := if store.db != null then store.db.records else map[];
      ghost var before := inputs;
      var ok := RestoreField(WorkspacePathField, faulty);
      if !ok {
        return 0;
      }
      ok := RestoreField(OutputPathField, faulty);
      if !ok {
        assert inputs == RestoredInputs(records, 1, before);
        return 1;
      }
      ok := RestoreField(FunctionNameField, faulty);
      if !ok {
        assert inputs == RestoredInputs(records, 2, before);
        return 2;
      }
      return 3;
    }

    /** The theme read of restoration, once the three field reads have succeeded, and
        the deferred callback it schedules. */
    method RestoreTheme(faulty: set<string>, toggleFault: Option<nat>)
      requires Valid() && store.db != null
      modifies theme
      ensures var n := if THEME_MODE in faulty then 3 else 4;
        && theme.dark == RestoredDark(store.db.records, n, old(theme.dark), toggleFault)
        && theme.toggleCalls == old(theme.toggleCalls) + RestoreToggles(store.db.records, n, toggleFault)
    {
      var mode := store.GetPreference(THEME_MODE, ReadFault(faulty, THEME_MODE));
      if mode.Err? {
        return;
      }
      if Truthy(mode.value) && mode.value != SYSTEM {
        ApplySavedTheme(theme, mode.value, toggleFault);
      }
    }

    /** `initializeApp`: open the store and, when that succeeds, restore; every error
        is caught. */
    method InitializeApp(storage: IndexedStore, openFault: Option<string>, faulty: set<string>,
                         toggleFault: Option<nat>)
      requires Valid() && storage.Valid()
      modifies store, storage, this`inputs, theme
      ensures Valid() && storage.Valid()
      ensures storage.records == old(storage.records)
      ensures var isOpen := openFault.None? && old(storage.version) <= DB_VERSION;
        var n := if isOpen then ReadsCompleted(true, faulty) else 0;
        && store.db == (if isOpen then storage else old(store.db))
        && inputs == RestoredInputs(storage.records, n, old(inputs))
        && theme.dark == RestoredDark(storage.records, n, old(theme.dark), toggleFault)
        && theme.toggleCalls == old(theme.toggleCalls) + RestoreToggles(storage.records, n, toggleFault)
    {
      var r := store.Init(storage, openFault);
      if r.Ok? {
        LoadSavedPreferences(faulty, toggleFault);
      }
    }

    method ShowStatus(message: string, cls: string)
      modifies this`status
      ensures status == Some(Status(message, cls))
    {
      status := Some(Status(message, cls));
    }

    /** `handleSearch`: an empty trimmed function name is refused. Otherwise the search
        goes out with the trimmed workspace path, or `'.'` when that is empty; only in
        that case is the field itself rewritten, to `'.'`. */
    method HandleSearch()
      modifies this`inputs, this`status, this`currentFunctionName, this`requests
      ensures Trim(old(inputs).functionName) == "" ==>
                && status == Some(Status("Please enter a function name", "is-danger"))
                && inputs == old(inputs) && currentFunctionName == old(currentFunctionName)
                && requests == old(requests)
      ensures Trim(old(inputs).functionName) != "" ==>
                && status == Some(Status("Searching for function calls...", "is-info"))
                && inputs == (if Trim(old(inputs).workspacePath) == "" then old(inputs).(workspacePath := ".")
                              else old(inputs))
                && currentFunctionName == Trim(old(inputs).functionName)
                && requests == old(requests) + [SearchAndInject(Trim(old(inputs).functionName),
                                                                DirectoryOrDot(old(inputs).workspacePath))]
    {
      var functionName := Trim(inputs.functionName);
      if functionName == "" {
        status := Some(Status("Please enter a function name", "is-danger"));
        return;
      }
      AcceptSearch(functionName);
    }

    /** The accepted branch of `handleSearch`, for the trimmed function name. */
    method AcceptSearch(functionName: string)
      modifies this`inputs, this`status, this`currentFunctionName, this`requests
      ensures status == Some(Status("Searching for function calls...", "is-info"))
      ensures inputs == if Trim(old(inputs).workspacePath) == "" then old(inputs).(workspacePath := ".")
                        else old(inputs)
      ensures currentFunctionName == functionName
      ensures requests == old(requests) + [SearchAndInject(functionName, DirectoryOrDot(old(inputs).workspacePath))]
    {
      var workspacePath := DirectoryOrDot(inputs.workspacePath);
      DefaultWorkspaceField();
      StartSearch(functionName, workspacePath);
    }

    /** A workspace field that trims to `''` is set to `'.'`; any other value, padding
        included, stays as typed. */
    method DefaultWorkspaceField()
      modifies this`inputs
      ensures inputs == if Trim(old(inputs).workspacePath) == "" then old(inputs).(workspacePath := ".")
                        else old(inputs)
    {
      if Trim(inputs.workspacePath) == "" {
        inputs := inputs.(workspacePath := ".");
      }
    }

    /** The accepted half of `handleSearch`: announce the search, keep the function
        name for the export and send the request. */
    method StartSearch(functionName: string, workspacePath: string)
      modifies this`status, this`currentFunctionName, this`requests
      ensures status == Some(Status("Searching for function calls...", "is-info"))
      ensures currentFunctionName == functionName
      ensures requests == old(requests) + [SearchAndInject(functionName, workspacePath)]
    {
      status := Some(Status("Searching for function calls...", "is-info"));
      currentFunctionName := functionName;
      requests := requests + [SearchAndInject(functionName, workspacePath)];
    }

    /** `handleExportCsv` at UTC time `now`: refused without results; otherwise asks for
        the results in the export directory under the timestamped file name. */
    method HandleExportCsv(now: UtcTime)
      modifies this`status, this`requests
      ensures |currentSearchResults| == 0 ==>
                status == Some(Status("No results to export", "is-danger")) && requests == old(requests)
      ensures |currentSearchResults| > 0 ==>
                status == old(status)
                && requests == old(requests) + [ExportToCsv(currentSearchResults,
                                                            DirectoryOrDot(inputs.outputPath),
                                                            CsvFileName(currentFunctionName, now))]
    {
      if |currentSearchResults| == 0 {
        ShowStatus("No results to export", "is-danger");
        return;
      }
      var outputPath := DirectoryOrDot(inputs.outputPath);
      var filename := CsvFileName(currentFunctionName, now);
      requests := requests + [ExportToCsv(currentSearchResults, outputPath, filename)];
    }

    /** `displayResults`: keep the results for export; show the export section only
        when there are some. */
    method DisplayResults(results: seq<SearchResult>)
      modifies this`currentSearchResults, this`exportVisible
      ensures currentSearchResults == results
      ensures exportVisible <==> |results| > 0
    {
      currentSearchResults := results;
      exportVisible := |results| > 0;
    }

    /** The main process's status updates. */
    method OnStatusUpdate(message: string, kind: string)
      modifies this`status
      ensures status == Some(Status(message, StatusClass(kind)))
    {
      ShowStatus(message, StatusClass(kind));
    }

    /** The end of a CSV export. */
    method OnCsvExportComplete(success: bool, message: string)
      modifies this`status
      ensures success ==> status == Some(Status("CSV exported successfully: " + message, "is-success"))
      ensures !success ==> status == Some(Status("CSV export failed: " + message, "is-danger"))
    {
      if success {
        ShowStatus("CSV exported successfully: " + message, "is-success");
      } else {
        ShowStatus("CSV export failed: " + message, "is-danger");
      }
    }
  }

  /** With the three field reads done, each field holds what its own key restored. */
  lemma RestoredFieldValue(records: map<string, Record>, n: nat, before: Inputs, field: Field)
    requires n >= 3
    ensures ValueOf(RestoredInputs(records, n, before), field)
              == Restored(ValueOf(before, field), Lookup(records, KeyOf(field)))
  {
  }

  /** A field that was saved restores to its trimmed value; saved empty, it reads back
      as `null` and the field keeps what it held. */
  lemma SavedFieldRestores(records: map<string, Record>, field: Field, typed: string, at: int, before: Inputs)
    ensures var saved := Upsert(records, KeyOf(field), Str(Trim(typed)), at);
      ValueOf(RestoredInputs(saved, 4, before), field)
        == if Trim(typed) != "" then Trim(typed) else ValueOf(before, field)
  {
    var saved := Upsert(records, KeyOf(field), Str(Trim(typed)), at);
    assert Lookup(saved, KeyOf(field)) == if Trim(typed) != "" then Str(Trim(typed)) else Null;
    RestoredFieldValue(saved, 4, before, field);
  }

  /** Restoring the fields twice from the same table is the same as once. */
  lemma RestoreInputsIdempotent(records: map<string, Record>, n: nat, before: Inputs)
    ensures RestoredInputs(records, n, RestoredInputs(records, n, before)) == RestoredInputs(records, n, before)
  {
  }

  /** Restoration with every read succeeding issues exactly one toggle for `'dark'`,
      two for `'light'` and none for `'system'`, an absent key or any other value. */
  lemma RestorationToggleCount(records: map<string, Record>)
    ensures RestoreToggles(records, 4, None) == ToggleCount(Lookup(records, THEME_MODE))
  {
  }

  /** From the assumed light start, restoration leaves the theme as saved. */
  lemma RestorationReachesSavedTheme(records: map<string, Record>)
    requires Lookup(records, THEME_MODE) in {DARK, LIGHT}
    ensures RestoredDark(records, 4, false, None) == (Lookup(records, THEME_MODE) == DARK)
  {
    RestoresSavedModeFromLight(Lookup(records, THEME_MODE));
  }

  /** Unlike the fields, theme restoration is not idempotent: run twice with `'dark'`
      saved, it ends light. */
  lemma ThemeRestorationNotIdempotent(records: map<string, Record>)
    requires Lookup(records, THEME_MODE) == DARK
    ensures RestoredDark(records, 4, RestoredDark(records, 4, false, None), None) == false
  {
    FlipNParity(false, 1);
    FlipNParity(true, 1);
  }

  /** The position of a field's read in `READ_ORDER`. */
  function Pos(field: Field): (i: nat)
    ensures i < 3 && READ_ORDER[i] == KeyOf(field)
  {
    match field
    case WorkspacePathField => 0
    case OutputPathField => 1
    case FunctionNameField => 2
  }

  /** A failing read ends restoration: a field is restored exactly when its read comes
      before the first failing one, and the theme is left alone unless all four reads
      succeed. */
  lemma FailingReadStopsRestoration(records: map<string, Record>, faulty: set<string>, before: Inputs,
                                    dark: bool, toggleFault: Option<nat>)
    ensures var n := ReadsCompleted(true, faulty);
      forall f :: ValueOf(RestoredInputs(records, n, before), f)
                    == if Pos(f) < n then Restored(ValueOf(before, f), Lookup(records, KeyOf(f)))
                       else ValueOf(before, f)
    ensures var n := ReadsCompleted(true, faulty);
      n < 4 ==> RestoredDark(records, n, dark, toggleFault) == dark
                && RestoreToggles(records, n, toggleFault) == 0
  {
  }
}
