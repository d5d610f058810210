# Fortran Injector: preference store and renderer logic

This project models two parts of the Fortran Injector desktop application.

The first is the preference store `PreferenceDB`. It keeps one IndexedDB
database, `FortranInjectorDB` at version 1, holding one object store,
`preferences`, whose primary key is `key`. Rows are `{key, value, timestamp}`.
The service offers `init`, upsert (`setPreference`), exact-key lookup
(`getPreference`, which answers `null` for any falsy value), a full scan
(`getAllPreferences`) and `clearPreferences`. Every operation refuses with
"Database not initialized" until `init` has set the handle. There is also the
registry of the four preference keys.

The second is the renderer's decision logic:

- restoring the saved workspace path, output path and function name into the
  input fields at start-up, and driving the main process's flip-only theme
  toggle to the saved mode;
- saving each field, trimmed, as it is edited;
- refusing a search without a function name and defaulting an empty workspace
  path to `'.'`;
- building the CSV export request and its timestamped file name;
- mapping status kinds and result texts to Bulma classes.

## Model structure

| file | module | contents |
|---|---|---|
| `results.dfy` | `Results` | `Option` and `Result` |
| `jstext.dfy` | `JsText` | `String.prototype.trim`, `String(n)`, `padStart(2, '0')` and `includes`, each with the facts the rest relies on |
| `jsvalues.dfy` | `JsValues` | the values a preference may hold, JavaScript truthiness, and `String(v)` |
| `db.dfy` | `PreferenceStore` | the stored database (`IndexedStore`, which persists across restarts), the service object (`PreferenceDB`, whose `db` field is the handle), and the store laws over a sequence of writes |
| `theme.dfy` | `Theme` | the main process's theme as a class with a flip-only method, the toggle counts, and the deferred callback that applies a saved mode |
| `renderer.dfy` | `Renderer` | the `Session` class (the inputs, status line, shown results and requests sent to the main process), the restoration specification, the save, search and export handlers, the filename builder and the class mappings |
| `scenarios.dfy` | `Scenarios` | whole runs over fresh objects: save, restart and restore; a `__proto__` row; clear; use before `init` |

Store failures are modelled explicitly:

- A backend failure of one request is a `fault: Option<string>` parameter of the
  store method.
- A read failure during restoration is a set of keys whose reads reject.
- A rejected toggle is the index of the toggle request that rejects.

The restoration specification has two parts:

- `ReadsCompleted` gives how many of the four reads succeed before the first
  failure.
- `RestoredInputs`, `RestoreToggles` and `RestoredDark` give the fields, the
  number of toggle requests and the final theme after that many reads.

Restoration assumes the theme starts light. The model proves what that assumption costs:

- From a dark start, restoring `'dark'` ends light (`Theme.RestoreFromDarkStart`).
- Restoring twice with `'dark'` saved ends light (`Renderer.ThemeRestorationNotIdempotent`).

Restoration does not isolate errors per key. The code wraps all four reads in
one `try`, so a failing read skips every later one (`Renderer.ReadsCompleted`,
`Renderer.FailingReadStopsRestoration`).

## Model

| member | source | states |
|---|---|---|
| PreferenceStore.PreferenceKeys | src/db.ts:89-94 | the registry holds exactly the four keys `workspacePath`, `outputPath`, `themeMode`, `lastFunctionName`, and they are pairwise distinct |
| PreferenceStore.Lookup | src/db.ts:51 | a read answers the stored value when it is truthy and `null` otherwise, with no other possible answer; it is truthy exactly when the key is stored with a truthy value |
| PreferenceStore.Upsert | src/db.ts:22-35 | a `put` under key path `key` leaves exactly one row for the key, holding the new value and time, adds the key to the key set and leaves every other row unchanged |
| PreferenceStore.LastWriteWins | src/db.ts:22-35 | after any sequence of writes, a key's row is the one its most recent `put` left; it is gone if a clear came later, and it is the original row if nothing touched the key |
| PreferenceStore.ReadAfterWrite | src/db.ts:35-51 | whatever came before, a read after `set(k, v)` returns `v` when `v` is truthy and `null` otherwise |
| PreferenceStore.Overwrite | src/db.ts:22-51 | `set(k, v1)` then `set(k, v2)` leaves one row for `k` holding `v2`, and `get(k)` sees `v2` (or `null` when `v2` is falsy), never `v1` |
| PreferenceStore.IndependentKeys | src/db.ts:35-51 | writing one key does not change what any other key reads |
| PreferenceStore.ClearIsTotal | src/db.ts:80 | after a clear the table is empty and every key reads as `null`, whatever writes came before |
| PreferenceStore.UpgradeNeeded | src/db.ts:17-25 | the upgrade handler creates the `preferences` store and its `key` index only when the store is absent, so the rows of an existing store survive unchanged |
| PreferenceStore.IndexedStore.constructor | src/db.ts:9-25 | a browser profile without the database has version 0, no `preferences` store, no `key` index and no rows, so the first open runs the upgrade |
| PreferenceStore.PreferenceDB.constructor | src/db.ts:2-5 | a new service has name `FortranInjectorDB`, version 1 and a null handle |
| PreferenceStore.PreferenceDB.Init | src/db.ts:7-27 | a failed open rejects with the request's error and leaves the handle; an open below the stored version rejects; otherwise the handle is set, the stored version becomes 1 after any upgrade, and no row is lost |
| PreferenceStore.PreferenceDB.SetPreference | src/db.ts:29-40 | refuses with "not initialized" on a null handle; a failed request rejects and changes nothing; otherwise the rows become the upsert of the old rows and nothing else in the database changes |
| PreferenceStore.PreferenceDB.GetPreference | src/db.ts:42-53 | refuses with "not initialized" on a null handle; a failed request rejects; otherwise the result is `Lookup` of the rows |
| PreferenceStore.PreferenceDB.GetAllPreferences | src/db.ts:55-72 | refuses with "not initialized" on a null handle; a failed request rejects; otherwise the dictionary has exactly the stored keys except `__proto__`, each mapped to its stored value, with no timestamps: assigning `__proto__` on a plain object goes to the inherited accessor and adds no key |
| PreferenceStore.PreferenceDB.ClearPreferences | src/db.ts:74-85 | refuses with "not initialized" on a null handle; a failed request rejects and changes nothing; otherwise every row goes and the handle stays open |
| JsText.Trim | src/renderer.ts:60 | `trim()` leaves no whitespace or line terminator at either end and never lengthens its input |
| JsText.TrimSplits | src/renderer.ts:60 | the input is a whitespace prefix, then the trimmed string, then a whitespace suffix |
| JsText.TrimUnique | src/renderer.ts:60 | any split of a string into whitespace, a middle without whitespace at its ends, and whitespace trims to that middle |
| JsText.TrimEmptyIff | src/renderer.ts:60-61 | a value trims to `''` exactly when it is all whitespace |
| JsText.TrimIdempotent | src/renderer.ts:60 | trimming twice is trimming once |
| JsText.NatToString | src/renderer.ts:216-220 | `String(n)` for a non-negative integer is a non-empty run of decimal digits without a leading zero |
| JsText.DecimalRoundTrip | src/renderer.ts:216-220 | reading back the digits of `String(n)` gives `n` |
| JsText.IntToString | src/renderer.ts:216 | `String(year)` starts with `-` exactly when the year is negative |
| JsText.IntToStringInjective | src/renderer.ts:216 | distinct years print differently |
| JsText.PadStart2 | src/renderer.ts:217-220 | `padStart(2, '0')` leaves strings of two or more characters alone and left-fills shorter ones with zeros to length two |
| JsText.TwoDigits | src/renderer.ts:217-220 | for `n < 100`, `String(n).padStart(2, '0')` is `Digits2(n)`, the tens digit followed by the units digit |
| JsText.ContainsIff | src/renderer.ts:260 | `includes(sub)` holds exactly when `sub` occurs at some position |
| JsValues.Truthy | src/db.ts:51 | a value is falsy exactly when it is `null`, `false`, `0` or `''` |
| JsValues.ToJsString | src/renderer.ts:111 | `String(v)`: a string stays itself, and a truthy value never prints as `''` |
| Theme.NativeTheme.ToggleDarkMode | src/preload.ts:12 | a toggle flips the theme and resolves to the new state; a rejected toggle leaves it as it was |
| Theme.ToggleCount | src/renderer.ts:133-140 | the saved mode `'dark'` needs exactly one toggle, `'light'` exactly two, and anything else none |
| Theme.FlipNParity | src/renderer.ts:133-139 | only the parity of the number of toggles decides the final theme |
| Theme.EvenTogglesIdentity | src/renderer.ts:136-139 | two toggles, or any even number, are the identity on every starting state |
| Theme.RestoresSavedModeFromLight | src/renderer.ts:133-139 | from a light start, the toggles for `'dark'` or `'light'` leave the theme equal to the saved mode |
| Theme.RestoreFromDarkStart | src/renderer.ts:133-139 | from a dark start, restoring `'dark'` ends light, and restoring `'light'` ends dark, where it began |
| Theme.FlipN | src/renderer.ts:133-139 | flipping two more times returns to the same theme |
| Theme.FirstRejectionKeepsTheme | src/renderer.ts:132-143 | when the first toggle request rejects, the theme is left as it was, and exactly one request was issued if the saved mode needs any |
| Theme.HalfRestoredLight | src/renderer.ts:134-143 | with `'light'` saved and the second toggle rejecting, both requests are issued but the theme ends flipped once: from the light start, dark |
| Theme.LateRejectionIsHarmless | src/renderer.ts:132-143 | a rejection index past the requests the saved mode needs changes neither the requests issued nor the final theme |
| Theme.ApplySavedTheme | src/renderer.ts:131-144 | the deferred callback issues `IssuedToggles` requests, and the theme ends `EffectiveFlips` flips from where it started |
| Renderer.KeyOf | src/renderer.ts:59-94 | each input saves under its own registry key, never under the theme key |
| Renderer.KeyOfInjective | src/renderer.ts:59-94 | distinct inputs save under distinct keys |
| Renderer.ReadsCompleted | src/renderer.ts:107-148 | reads run in the order workspace, output, function name, theme inside one `try`; the count is at most four, is zero unless the store is open, covers only reads that succeed, and stops at the first failing read |
| Renderer.Restored | src/renderer.ts:110-124 | a field takes the saved value, as a string, only when that value is truthy, and otherwise keeps what it held |
| Renderer.WithField | src/renderer.ts:111-123 | setting one input leaves the other two as they were |
| Renderer.RestoredInputs | src/renderer.ts:109-124 | once the three field reads succeed, each field is restored from its own key; with none done, the fields are as before |
| Renderer.RestoredFieldValue | src/renderer.ts:109-124 | after the field reads, every field holds what its own key restored, independent of the other two |
| Renderer.SavedFieldRestores | src/renderer.ts:59-124 | a field saved from typed text restores its trimmed text; typed blank, it reads back as `null` and the field keeps its value |
| Renderer.RestoreInputsIdempotent | src/renderer.ts:109-124 | restoring the fields twice from the same table is the same as once |
| Renderer.RestorationToggleCount | src/renderer.ts:127-140 | with every read succeeding, restoration issues one toggle for `'dark'`, two for `'light'` and none for `'system'`, an absent key, or any other value |
| Renderer.RestorationReachesSavedTheme | src/renderer.ts:127-140 | from the assumed light start, restoration leaves the theme as saved |
| Renderer.ThemeRestorationNotIdempotent | src/renderer.ts:127-140 | with `'dark'` saved, restoring twice ends light |
| Renderer.Pos | src/renderer.ts:107-127 | each field's read is one of the first three of the four reads, the one that reads the field's own key, so the theme read comes last |
| Renderer.FailingReadStopsRestoration | src/renderer.ts:107-148 | for whichever read fails first, exactly the fields read before it are restored and every later field keeps its value; with the theme read not reached or failing, no toggle is issued and the theme is untouched |
| Renderer.RestoreOne | src/renderer.ts:109-124 | restoring one field sets it from its own key's read value as `Restored` gives and leaves the other two fields as they were |
| Renderer.ThemeApplies | src/renderer.ts:128 | the saved theme is applied exactly when it is not `null`, `false`, `0`, `''` or `'system'` |
| Renderer.RestoreToggles | src/renderer.ts:127-145 | restoration issues at most two toggle requests, none unless all four reads succeed, and none when the saved theme is not applied |
| Renderer.RestoredDark | src/renderer.ts:127-145 | the theme is unchanged unless all four reads succeed; with no rejected toggle it is flipped once per toggle request |
| Renderer.AfterSave | src/renderer.ts:151-157 | a successful save makes the key read back as the saved string (or `null` when it is `''`); a closed store or a failed write leaves the rows; other keys read as before |
| Renderer.StatusClass | src/renderer.ts:277-279 | `success` maps to `is-success`, `error` to `is-danger`, and anything else to `is-info`, each in both directions |
| Renderer.TagClass | src/renderer.ts:260 | the tag is `is-success` exactly when the status contains "Injected"; it is `is-warning` exactly when it lacks "Injected" and contains "exists"; otherwise it is `is-info` |
| Renderer.DirectoryOrDot | src/renderer.ts:181-192 | a directory field as the request uses it is never empty: it is the trimmed field, or `'.'` when that is empty |
| Renderer.CsvFileName | src/renderer.ts:222-224 | the export file name starts with the function name and `_`, ends with `.csv`, and is longer than the name and `.csv` together |
| Renderer.CsvFileNameLayout | src/renderer.ts:222-224 | the export file name is the function name, `_`, the year, then the rest of the stamp |
| Renderer.StampTailDigits | src/renderer.ts:216-224 | after the year come the month (counted from 1), the day, `_`, the hours and the minutes, each as two zero-padded digits, then `.csv`: 13 characters |
| Renderer.Digits2Injective | src/renderer.ts:217-220 | distinct numbers below 100 pad to distinct digit pairs |
| Renderer.StampTailInjective | src/renderer.ts:216-224 | the rest of the stamp determines the month, day, hours and minutes |
| Renderer.CsvFileNameInjective | src/renderer.ts:212-224 | two exports of one function get the same file name only in the same UTC minute |
| Renderer.Session.constructor | src/renderer.ts:44-48 | a page starts with empty fields, no status, no results, an empty function name and no requests, over the shared store |
| Renderer.Session.SavePreference | src/renderer.ts:151-157 | a save writes the value as a string when the store is open and the write succeeds, and otherwise leaves the rows; no error escapes |
| Renderer.Session.OnFieldEdited | src/renderer.ts:59-94 | an `input` or `change` event saves the field's trimmed value under the field's key |
| Renderer.Session.SaveThemePreference | src/renderer.ts:314-317 | the theme switcher's choice is saved under `themeMode` |
| Renderer.Session.HandleBrowse | src/renderer.ts:159-167 | a truthy dialog answer fills the workspace field and is saved untrimmed; no answer changes nothing |
| Renderer.Session.HandleBrowseOutput | src/renderer.ts:169-177 | a truthy dialog answer fills the output field and is saved untrimmed; no answer changes nothing |
| Renderer.Session.RestoreField | src/renderer.ts:108-124 | one restoring read succeeds exactly when the store is open and the key's read does not fail; on success the field is restored from the read value, and otherwise left |
| Renderer.Session.RestoreFields | src/renderer.ts:108-124 | the three field reads complete as far as `ReadsCompleted` allows, and the fields become `RestoredInputs` of that count |
| Renderer.Session.RestoreTheme | src/renderer.ts:126-145 | the theme read and the deferred callback drive the theme to `RestoredDark` with `RestoreToggles` requests |
| Renderer.Session.LoadSavedPreferences | src/renderer.ts:106-149 | restoration leaves the fields, the theme and the number of toggle requests as the restoration specification gives for the number of reads that succeed |
| Renderer.Session.InitializeApp | src/renderer.ts:97-104 | restoration runs exactly when the store opens; a failed open skips it, no error escapes, and no saved row is lost |
| Renderer.Session.ShowStatus | src/renderer.ts:230-234 | the status line shows the message with the given class |
| Renderer.Session.HandleSearch | src/renderer.ts:179-204 | an empty trimmed function name sets the danger status and sends nothing; otherwise the trimmed name and the trimmed path (or `'.'`) are sent and the name is kept for export; the workspace field is rewritten only when its trimmed value is empty, and then to `'.'`; a padded path stays as typed |
| Renderer.Session.AcceptSearch | src/renderer.ts:188-203 | an accepted search shows "Searching for function calls...", keeps the name, sends it with the trimmed path or `'.'`, and writes `'.'` into the workspace field only when that trims to `''` |
| Renderer.Session.DefaultWorkspaceField | src/renderer.ts:188-192 | a workspace field that trims to `''` becomes `'.'`; any other value, padding included, stays as typed, and the other fields are untouched |
| Renderer.Session.StartSearch | src/renderer.ts:194-203 | an accepted search shows "Searching for function calls...", keeps the function name and sends exactly one search request, for the given name and directory; it changes no input field |
| Renderer.Session.HandleExportCsv | src/renderer.ts:206-228 | with no results the danger status is set and nothing is sent; otherwise the results are sent for the trimmed output directory (or `'.'`) under `CsvFileName` of the time |
| Renderer.Session.DisplayResults | src/renderer.ts:236-247 | the results are kept for export, and the export section shows exactly when there are some |
| Renderer.Session.OnStatusUpdate | src/renderer.ts:277-279 | a status update is shown with the class `StatusClass` gives |
| Renderer.Session.OnCsvExportComplete | src/renderer.ts:282-288 | a finished export shows a success or a failure status with the main process's message |
| Scenarios.SavedProfile | src/db.ts:29-40 | after an open and two writes, the stored database holds exactly those two rows |
| Scenarios.RestartReadsBackWrites | src/db.ts:55-72 | after a restart, the scan returns exactly the two preferences saved before it |
| Scenarios.RestartRestoresSavedPreferences | src/renderer.ts:97-149 | a restarted page restores the saved workspace path, and exactly one toggle request, from the light start, makes the theme dark |
| Scenarios.EditedPathSurvivesRestart | src/renderer.ts:65-124 | a workspace path typed in one run comes back trimmed in the next; typed blank, the field stays empty |
| Scenarios.NewSession | src/renderer.ts:44-48 | a freshly loaded page has a closed store, empty fields and a light theme |
| Scenarios.ProtoKeyMissingFromScan | src/db.ts:42-72 | a row saved under `__proto__` reads back by key, but the scan returns an empty dictionary |
| Scenarios.ClearForgetsEverything | src/db.ts:74-85 | after a clear, a key reads back as `null` and the scan is empty |
| Scenarios.UninitialisedStoreRefuses | src/db.ts:30-75 | before `init`, a write, a read, a scan and a clear all fail with "Database not initialized" |

## Left out

- The IndexedDB request and transaction callbacks and the Promise wrapping are not modelled. Each store operation is one atomic step, with the request's outcome given as a parameter.
- `VersionError` on opening below the stored version comes from IndexedDB's own semantics rather than from the code.
- The `onblocked` event of `indexedDB.open` is not modelled.
- `Date.now()` for the row timestamp is the parameter `now`. `new Date()` for the export is the parameter `UtcTime`, with its UTC fields given directly.
- The 500 ms `setTimeout` that defers the theme callback is not modelled. The callback runs at the end of restoration, so no other event can come between the reads and the toggles.
- `savePreference` calls from the input handlers are not awaited in the source. The model completes each one before the next event, so it has no interleaving of saves.
- The DOM is not modelled: element lookup, `innerHTML` rendering of the result boxes, and styles. The session keeps the input values, the status line and whether the export section shows.
- All logging is left out, and so is the `debugDatabase` helper, which only logs.
- The main process is not modelled: the search and inject, the CSV writing and the directory dialogs. The renderer's calls to it are recorded as `Request` values, and the dialogs' answers are parameters.
- The theme's `setSystemTheme`, `getThemeInfo` and `cycleTheme` channels are not modelled, because the renderer never calls them.
- `src/preload.ts` (the IPC bridge) and `src/types.d.ts` (declarations) are not modelled.
- JsValues.Value: numbers are integers only; floating point, `NaN` and object or array values are not modelled. `String(v)` is modelled for those values only, in plain decimal: JavaScript writes numbers of 10^21 and above in exponent form, and integers above 2^53 are not exact. The renderer never stores numbers, and the years it prints are bounded by `Date`, so neither case arises.
- JsValues.ToJsString: the model stores a string assigned to a text input's `value` unchanged. The browser's value sanitization strips CR and LF there. So for a value with a line break, such as a directory dialog's answer or a saved value being restored, the source's field loses the line break while the model's field keeps it; the saved row keeps it in both. Typed values come from the input itself and hold no line breaks.
- JsText.Trim: it works on code points, whereas JavaScript strings are UTF-16 code units; the trimmed whitespace characters are all in the Basic Multilingual Plane, so trimming is the same.
- Theme.NativeTheme.ToggleDarkMode: the main process's `dark-mode:toggle` handler is not part of this model. The toggle is taken to flip the theme and resolve to the new state, as its `Promise<boolean>` type suggests.
