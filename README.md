# RFP records: the client-side record workflow in Dafny

This project models the two screens of the RFP web client that change state:

- The **form** (`RFPForm`) creates a record when it is mounted without an identifier. With an identifier from the URL it edits that record and can delete it.
- The **list** (`RFPList`) holds a snapshot of every record. Deleting takes two steps: the row's Delete button, then Confirm in the dialog. After a delete the list is re-read from the store in full.

Both screens talk to a remote `/rfps` collection. It is modelled as an abstract store: a table of records plus a log of every request the client sent. A request either reaches the server or fails. Each store call takes an `Outcome` argument, so both branches of every handler are verified.

Files:

- `records.dfy` (module `Records`): the record, its fields, requests, outcomes and responses.
- `js_text.dfy` (module `JsText`): `String.prototype.trim`, which the form's validation uses.
- `store.dfy` (module `Store`): what each request does to the table (`Apply`) and what it answers (`Respond`), with lemmas relating requests. The class `RecordStore` holds the table and the request log.
- `rfp_form.dfy` (module `RfpForm`): class `FormController`. Its fields are the form's state, and its methods are the form's handlers.
- `rfp_list.dfy` (module `RfpList`): class `ListController`, with the list's state and handlers.

Each handler is one atomic step, given how its store calls end. "Exactly one call" and "no call" are stated as the store's request log growing by one request, or not at all. Navigation is the `navigatedTo` field. The 2-second timer that follows a successful save is the `navigateScheduled` flag.

In these cases the code behaves as follows, and the model follows it:

- After a failed delete, the list neither shows the toast nor refetches. The awaited call throws first.
- The form navigates to the list only after a successful delete. A failed delete shows an error and stays on the form.
- A failed prefetch in edit mode is only logged. The form keeps its blank fields, and nothing on screen tells the failure apart from a slow load.
- The server reports a missing record only for a read by identifier. Update and delete of a missing record succeed and change nothing.
- On create the server replaces `date_submitted` with its own clock, so the date the client sends does not reach the stored record. The body must still decode, though, and that includes the date (see "## Left out").

The form test expects a POST body with `misc_data: null` and no `date_submitted`. The code sends the form's initial `""` and a defaulted date, and `RfpForm.CreateFlow` follows the code. The list test expects a DELETE after the row's Delete button alone. The code also needs Confirm, and `RfpList.DeleteFirstOfTwo` follows the code.

## Model

| member | source | states |
|---|---|---|
| JsText.TrimStart | web/src/components/RFPForm.tsx:66 | trimming the start never lengthens the string |
| JsText.TrimEnd | web/src/components/RFPForm.tsx:66 | trimming the end never lengthens the string |
| JsText.Trim | web/src/components/RFPForm.tsx:66 | `trim()` never lengthens the string |
| JsText.TrimStartKeepsSuffix | web/src/components/RFPForm.tsx:66 | the start trim keeps a suffix; everything it drops is whitespace; what it keeps does not start with whitespace |
| JsText.TrimEndKeepsPrefix | web/src/components/RFPForm.tsx:66 | the end trim keeps a prefix; everything it drops is whitespace; what it keeps does not end with whitespace |
| JsText.TrimmedEnds | web/src/components/RFPForm.tsx:66 | `trim()` is the contiguous part of the string between its leading and trailing whitespace: every character before it and after it is whitespace, and neither end of a non-empty result is whitespace |
| JsText.BlankIffAllWhitespace | web/src/components/RFPForm.tsx:66 | `trim() === ""` holds exactly when every character is whitespace |
| Store.Find | server/src/main2.go:145-153 | a read by identifier finds a row exactly when a row with that identifier is stored, and the row it finds is stored and has that identifier |
| Store.Replace | server/src/main2.go:179-185 | an update replaces every field of the rows with the identifier and leaves every other row, the identifiers and the order unchanged |
| Store.Remove | server/src/main2.go:197-204 | after a delete, exactly the rows with other identifiers remain, and identifiers stay unique |
| Store.Apply | server/src/main2.go:78-205 | reads and failed calls leave the table unchanged; every request keeps identifiers unique and below the next one to be assigned |
| Store.Respond | server/src/main2.go:104-205 | a response is an error exactly when the call failed (transport error) or a read names a missing identifier (not found); a delivered list answers with the whole table; a found record is stored under the requested identifier |
| Store.FindUnique | server/src/main2.go:145-146 | in a table with one row per identifier, reading a row's identifier returns that row |
| Store.CreateThenGet | server/src/main2.go:87-105 | a create answers with a fresh identifier, the submitted fields and the server's clock as the date, and reading that identifier afterwards returns exactly that record |
| Store.FindAfterReplace | server/src/main2.go:179-185 | after an update, a stored identifier reads back as exactly the new fields, and a missing one is still missing |
| Store.UpdateThenGet | server/src/main2.go:160-189 | after a delivered update, a read of the identifier returns the record with the new fields, or not found if it was never stored |
| Store.DeleteThenGet | server/src/main2.go:192-205 | after a delivered delete, a read of the identifier is not found |
| Store.RemoveTwice | server/src/main2.go:197-204 | deleting an identifier twice leaves the same rows as deleting it once |
| Store.DeleteIdempotent | server/src/main2.go:192-205 | a second delivered delete of the same identifier leaves the table as the first left it |
| Store.FindOtherAfterReplace | server/src/main2.go:180-181 | updating one identifier does not change what any other identifier reads |
| Store.FindOtherAfterRemove | server/src/main2.go:198 | deleting one identifier does not change what any other identifier reads |
| Store.MutationIsolated | server/src/main2.go:160-205 | no delivered update or delete changes what another identifier reads |
| Store.ListBodyAsWritten | server/src/main2.go:119-134 | as written, the list body is `null` exactly when the table is empty, and otherwise is the rows |
| Store.EmptyTableListsAsNull | server/src/main2.go:119-134 | for an empty table the server as written sends `null`, where the corrected store answers with an empty list |
| Store.RecordStore.constructor | server/src/main2.go:37-59 | the store starts from a valid table with an empty request log |
| Store.RecordStore.Send | server/src/main2.go:216-220 | one request is logged; the table becomes `Apply` of the old table, and the answer is `Respond` of the old table |
| RfpForm.Payload | web/src/components/RFPForm.tsx:78-83 | the save body carries exactly the form's carrier name, count and misc value; its date is the form's date when that is non-empty and the submit-time clock otherwise, so it is never empty |
| RfpForm.SaveRequest | web/src/components/RFPForm.tsx:86-90 | the save is a PUT to the form's identifier exactly in edit mode, otherwise a POST, with the given body either way |
| RfpForm.AcceptedPayloadWellFormed | web/src/components/RFPForm.tsx:66-83 | every body that passes the validation gate has a carrier name with a character that is not whitespace, a count of at least 0, and a non-empty date |
| RfpForm.NonBlankName | web/src/components/RFPForm.tsx:66 | a name with any character that is not whitespace passes the carrier-name check |
| RfpForm.FormController.constructor | web/src/components/RFPForm.tsx:30-39 | the mode is fixed by the URL's identifier; fields start as "", 0, "", ""; no error, no success, dialog closed, no navigation |
| RfpForm.FormController.Mount | web/src/components/RFPForm.tsx:41-59 | in edit mode, exactly one GET of the identifier: on success the four fields become the fetched record's, on failure nothing changes; in create mode, no call |
| RfpForm.FormController.SetCarrierName | web/src/components/RFPForm.tsx:122 | only the carrier name changes, to the typed value |
| RfpForm.FormController.SetEmployeeCount | web/src/components/RFPForm.tsx:130 | only the count changes, to the typed value |
| RfpForm.FormController.SetMiscData | web/src/components/RFPForm.tsx:140 | only the misc value changes, to the typed value |
| RfpForm.FormController.SetDateSubmitted | web/src/components/RFPForm.tsx:148 | only the date changes, to the typed value |
| RfpForm.FormController.Submit | web/src/components/RFPForm.tsx:62-98 | blank name: name error, count unchanged, no call. Otherwise a negative count gives the count error, resets the count to 0, no call. Otherwise exactly one save of the current fields in the current mode. Name, misc and date never change |
| RfpForm.FormController.Save | web/src/components/RFPForm.tsx:77-97 | one PUT or POST of the current fields; on success, success is set and navigation to "/" is scheduled; on failure, the save error is set and success is unchanged |
| RfpForm.FormController.NavigationTimerFires | web/src/components/RFPForm.tsx:93 | the scheduled timer navigates to "/" |
| RfpForm.FormController.Cancel | web/src/components/RFPForm.tsx:162 | Cancel navigates to "/" and makes no call |
| RfpForm.FormController.OpenDeleteDialog | web/src/components/RFPForm.tsx:166-176 | the Delete button exists only in edit mode and only opens the dialog |
| RfpForm.FormController.CloseDeleteDialog | web/src/components/RFPForm.tsx:193-207 | declining or closing the dialog closes it and makes no call |
| RfpForm.FormController.HandleDelete | web/src/components/RFPForm.tsx:101-111 | exactly one DELETE of the form's own identifier. The dialog always closes. Success navigates to "/"; failure sets the delete error and does not navigate. Fields unchanged |
| RfpForm.FormController.DismissError | web/src/components/RFPForm.tsx:179-185 | dismissing the error notification clears the error |
| RfpForm.FormController.DismissSuccess | web/src/components/RFPForm.tsx:186-192 | dismissing the success notification clears the success flag |
| RfpForm.CreateFlow | web/src/components/RFPForm.tsx:62-93 | create mode with "Carrier X" and 300: exactly one POST, carrying those values, the initial misc value and the submit-time clock; the store then holds one record, dated by the server |
| RfpForm.BlankNameFirst | web/src/components/RFPForm.tsx:66-75 | a blank name with a negative count gives the name error, does not reset the count, and makes no call |
| RfpList.ListController.constructor | web/src/components/RFPList.tsx:37-40 | empty snapshot, dialog closed, nothing selected, toast closed |
| RfpList.ListController.FetchAll | web/src/components/RFPList.tsx:43-51 | one GET of the collection; when delivered, the snapshot is replaced wholesale by the store's rows (an empty table gives the corrected empty list of "## Findings"); on failure it is unchanged |
| RfpList.ListController.ClickDelete | web/src/components/RFPList.tsx:84-92 | a row's Delete button opens the dialog, selects that row, and makes no call |
| RfpList.ListController.CloseDialog | web/src/components/RFPList.tsx:106-123 | Cancel or closing the dialog closes it, makes no call, and keeps the snapshot |
| RfpList.ListController.DeleteRecord | web/src/components/RFPList.tsx:54-58 | one DELETE. If delivered, the toast opens and the whole list is re-read, so the snapshot is the store's rows with no local removal (an empty table gives the corrected empty list). If it fails, there is no toast and no refetch |
| RfpList.ListController.Confirm | web/src/components/RFPList.tsx:124-128 | exactly one DELETE, for the selected record's identifier; the dialog closes whatever the outcome; after a delivered delete and refetch the snapshot is the old rows without that identifier, and no shown row has it (an empty result is the corrected empty list) |
| RfpList.ListController.CloseToast | web/src/components/RFPList.tsx:97-102 | dismissing the toast closes it |
| RfpList.DeleteFirstOfTwo | web/src/components/RFPList.tsx:84-128 | the list shows Carrier A and Carrier B. Delete on A alone makes no call. Confirm makes one DELETE of A's identifier and one refetch. Afterwards only Carrier B is shown |

`ListController.Valid` (the dialog is open only with a record selected) is kept by every list handler. `FormController.Valid` (the delete dialog is open only in edit mode) is kept by every form handler. So the form's store delete can only target the form's own identifier, and the list's only the selected row's.

## Left out

- HTTP, JSON (de)serialisation, SQL, CORS and routing in the server are out of scope. They are summarised by `Store.Apply` and `Store.Respond`. A call that fails is assumed to have changed nothing on the server.
- Store identifiers are consecutive numbers standing in for UUIDs. Only their freshness and uniqueness are modelled.
- `misc_data` is opaque (`Misc`). `Number(...)` parsing of the count field, including NaN, is not modelled: the count is an integer.
- The submit-time clock (`new Date().toISOString()`) is the `now` parameter. The server's clock is carried by `Delivered(serverTime)`.
- Asynchrony is not modelled:
  - Confirm closes the list dialog before the delete resolves.
  - The refetch is not awaited.
  - Two submits can overlap.
  - A response can arrive after the screen was left.
  - Every handler is one atomic step.
  - Two pending navigation timers are one flag.
- Rendering, the snackbars' auto-hide timers, the detail screen (its date formatting depends on locale) and the application's routes are left out.
- RfpList.ListController.FetchAll: proved against the corrected list body (`Store.Respond`), in which an empty table is listed as `[]`. As written, the server sends `null` for an empty table. The screen stores that `null` and its render then throws. `Store.ListBodyAsWritten` captures this, and "## Findings" records it.
- RfpList.ListController.DeleteRecord: like `FetchAll`, its refetch is proved against the corrected empty-list body. Deleting the last row would leave the screen with `null` as written.
- RfpList.ListController.Confirm: like `FetchAll`, its refetch is proved against the corrected empty-list body. Confirming the delete of the last row would leave the screen with `null` as written.
- RfpForm.FormController.Submit: models `handleSubmit` once the browser's own form validation has passed or been bypassed. The name and count inputs are `required` and the count has `min` 0 (web/src/components/RFPForm.tsx:124, 132-135). In a browser, an empty name or a negative count therefore stops the submit event before the handler runs. The count branch, and the `RfpForm.BlankNameFirst` scenario (whose count is -5), are reached only when that validation is bypassed. The name branch is still reached in a browser by a name made only of whitespace, which `required` lets through.
- The server's decoding of the request body is folded into `Failed`. A POST or PUT body must decode into the server's record type, whose `date_submitted` is a Go `time.Time` (server/src/main2.go:28, 82-85, 167-170). That type accepts only an RFC 3339 timestamp. The form's date input yields `YYYY-MM-DD`, so a save with a date picked in the form is answered with 400, and the form shows its save error. The model allows `Delivered` for any body.
- Dates are opaque strings, stored and read back exactly. The server parses them into `time.Time` and writes them out again, which can change their text (time zone, fractional seconds). `Store.CreateThenGet` and `Store.UpdateThenGet` state "exactly" for these strings.
- RfpForm.FormController.HandleDelete and RfpForm.FormController.OpenDeleteDialog require an open dialog and edit mode respectively. The code does not guard these, but it renders the buttons only in those states.

## Findings

| source | as written | input that shows it | evidently intended | confidence | as-written member | corrected member |
|---|---|---|---|---|---|---|
| server/src/main2.go:119-134 | `var rfps []RFP` gets rows only inside the scan loop, and Go encodes a slice that never received an element as `null`. `RFPList` stores that `null` as its snapshot (web/src/components/RFPList.tsx:50), and its render then calls `rfps.map` on it | a store with no rows, for example right after the last record is deleted from the list | an empty JSON array, so the list shows no rows | high; not executed | Store.ListBodyAsWritten, Store.EmptyTableListsAsNull | Store.Respond |
