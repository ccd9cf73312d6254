# Patient registry: verified model of the console, list, form and page logic

This project models, in Dafny, the logic of a browser-based patient registry that runs on
an embedded Postgres database. It has four parts:

- The **SQL console**. A successful query is recorded in a most-recent-first history of at
  most ten entries. The result set can be exported as CSV.
- The **patient list**. A search term filters the patients and keeps their order. Names and
  email match case-insensitively; the phone number matches on its raw text. An age is shown
  for each date of birth, and a flag marks the patient whose delete is in progress.
- The **patient form**. It is prefilled from the patient being edited and validated: both
  names must be non-empty, then the email must be empty or match a simple pattern. It then
  sends an UPDATE or an INSERT with fifteen positional parameters, with empty optional
  inputs sent as NULL.
- The **patients page**. A small event-driven controller tracks whether the form is open and
  which patient it edits. It reloads the list and statistics and writes the cross-tab sync
  key `patient-registry-sync`. It writes that key when the form closes and after a
  successful delete, never on a load.

Each database call is a parameter of the operation that makes it: an outcome that either
answers (with rows) or fails. The same applies to the user's answer to a confirmation
dialog, the fresh id of an insert, and the measured execution time.

Modules, one per file:

| file | module | models |
|---|---|---|
| common.dfy | `Common` | `Option`, `Result`, order-preserving `Filter`, subsequences, occurrence counts |
| text.dfy | `Text` | `trim`, the `\s` class, `toLowerCase`, `includes`, `join` |
| records.dfy | `Records` | the patient row and its fourteen editable columns |
| csv.dfy | `Csv` | the CSV export and a quote-aware reader used to state what it preserves |
| query_console.dfy | `QueryConsole` | history update, result handling, class `Console` |
| patient_list.dfy | `PatientList` | search filter, empty-state message, age, class `ListView` |
| patient_form.dfy | `PatientForm` | form data, prefill, validation, parameters, class `Form` |
| js_number.dfy | `JsNumber` | `parseInt` and decimal text |
| patients_page.dfy | `PatientsPage` | the page's `Step` function, run lemmas, class `Page` |

The classes hold the fields that the components update in place. Their methods state the new
state either directly or as `Step` applied to the old state. The properties that relate
several calls are lemmas about the pure functions.

## Model

| member | source | states |
|---|---|---|
| QueryConsole.PushHistory | src/pages/QueryInterface.tsx:95-98 | the new history starts with the query, holds it exactly once, has 1 to 10 entries, is a prefix of the query followed by the old history without it, and the rest is a subsequence of the old history |
| QueryConsole.PushHistoryKeepsEntries | src/pages/QueryInterface.tsx:95-98 | with fewer than ten other entries, no earlier entry is lost |
| QueryConsole.PushHistoryAtFront | src/pages/QueryInterface.tsx:95-98 | re-running the query at the front of a history of at most ten entries that holds it once leaves the history unchanged |
| QueryConsole.PushHistoryIdempotent | src/pages/QueryInterface.tsx:95-98 | running the same query twice in a row gives the same history as running it once |
| QueryConsole.PushHistoryDistinct | src/pages/QueryInterface.tsx:95-98 | a history without duplicates stays without duplicates |
| QueryConsole.ResultOf | src/pages/QueryInterface.tsx:84-90 | the kept result has the rows returned, a row count equal to their number, and no columns when the field list is missing |
| QueryConsole.Console.constructor | src/pages/QueryInterface.tsx:67-72 | empty query, no result, not loading, and the history that was saved, if any, else empty |
| QueryConsole.Console.SetQuery | src/pages/QueryInterface.tsx:194 | the text area replaces the query and nothing else |
| QueryConsole.Console.ExecuteQuery | src/pages/QueryInterface.tsx:74-118 | with no database or a blank query nothing changes; otherwise loading is true during the call and false after; success stores the result and moves the query to the front of the history; failure clears the result and keeps the history |
| QueryConsole.Download | src/pages/QueryInterface.tsx:128-143 | no CSV without a result; otherwise the CSV document of its columns and rows |
| Csv.DoubleQuotes | src/pages/QueryInterface.tsx:138 | every `"` is doubled: the length grows by the number of quotes |
| Csv.CollapseUndoesDouble | src/pages/QueryInterface.tsx:138 | collapsing `""` after doubling gives back the original text |
| Csv.Field | src/pages/QueryInterface.tsx:136-139 | a string cell containing a comma is wrapped in quotes, and unwrapping and collapsing gives the string back; every other cell is written as `join` writes it, with no quoting, even with a quote or a line break in it |
| Csv.Cells | src/pages/QueryInterface.tsx:133-140 | one field per column, in column order, each the field of that column's cell (missing keys read as undefined) |
| Csv.Lines | src/pages/QueryInterface.tsx:131-143 | the header of comma-joined column names followed by one line per row |
| Csv.Line | src/pages/QueryInterface.tsx:133-141 | a result with no columns gives empty lines, and a single column gives that cell's field alone, with no separator |
| Csv.SplitLine | src/pages/QueryInterface.tsx:133-141 | when every cell's field is closed (no comma outside quotes, quotes balanced), splitting the line at unquoted commas gives back exactly its cells |
| Csv.Document | src/pages/QueryInterface.tsx:131-143 | the document starts with the header line, and an empty result set gives the header alone |
| Csv.SplitDocument | src/pages/QueryInterface.tsx:131-143 | with plain column names and readable cells, splitting the document at line feeds outside quotes gives back exactly the header and the row lines |
| Csv.ReadLine | src/pages/QueryInterface.tsx:133-142 | with at least one column, a row line whose cells are readable reads back as exactly one value per column, each the text of that cell |
| Csv.ReadHeader | src/pages/QueryInterface.tsx:132 | a header of plain column names reads back as the column names |
| Csv.ReadDocument | src/pages/QueryInterface.tsx:131-143 | round trip: with at least one column, plain column names and readable cells, a quote-aware reader recovers the header and, row by row, the text of every cell (QuoteWithoutCommaMergesFields shows it fails for a cell with a stray quote) |
| Csv.QuoteWithoutCommaMergesFields | src/pages/QueryInterface.tsx:137-139 | a string with a double quote and no comma is written unquoted; for example, the row `x"y` and `z` then reads back as the single field `x"y,z` (a quote in the last column, or a second quote before the next comma, does not merge fields) |
| Csv.StrayQuoteSpansComma | src/pages/QueryInterface.tsx:137-139 | a reader that honours quotes takes `x"y,z` as one field, because the comma stands inside the quoted section the stray quote opens |
| Text.TrimStart | src/pages/QueryInterface.tsx:75 | strips exactly the leading whitespace |
| Text.TrimEnd | src/pages/QueryInterface.tsx:75 | strips exactly the trailing whitespace |
| Text.Trim | src/pages/QueryInterface.tsx:75 | what is left is the part of the input between its leading and trailing whitespace, and starts and ends with a character that is not whitespace |
| Text.IsBlank | src/pages/QueryInterface.tsx:75 | the empty query is blank; a query is blank when every character is whitespace |
| Text.BlankIffTrimmedEmpty | src/pages/QueryInterface.tsx:75 | a query is blank exactly when trimming leaves the empty string |
| Text.Lower | src/components/PatientList.tsx:41-43 | lower-casing keeps the length and maps each character |
| Text.Contains | src/components/PatientList.tsx:41-44 | the empty term is contained in every text, and a contained term is no longer than the text |
| Text.ContainsIffOccurs | src/components/PatientList.tsx:41-44 | `includes` holds exactly when the term occurs at some position |
| Text.Join | src/pages/QueryInterface.tsx:132 | joining no parts gives the empty string; joining one part gives that part |
| Common.Filter | src/components/PatientList.tsx:40 | the result is a subsequence of the input (original order kept), no longer than it; every kept element is accepted, and every accepted element of the input is kept |
| Common.FilterCount | src/components/PatientList.tsx:40 | each accepted element is kept exactly as many times as it occurs in the input, and a rejected element not at all |
| PatientList.MatchesIffOccurs | src/components/PatientList.tsx:40-45 | a patient matches exactly when the lower-cased term occurs in the lower-cased first name, last name or email, or the raw term occurs in the phone number; a missing email or phone never matches |
| PatientList.Matches | src/components/PatientList.tsx:41-44 | the empty term matches every patient; its partner MatchesIffOccurs states the rule by occurrences |
| PatientList.Visible | src/components/PatientList.tsx:40-45 | the filtered list is a subsequence of the patients, holds only matching patients and every matching one, and is the whole list for the empty term |
| PatientList.EmptyStateMessage | src/components/PatientList.tsx:79-119 | no message while loading, when a spinner replaces the card; otherwise a message exactly when nothing is visible, the no-match wording exactly when a term was typed and the no-patients wording exactly when none was, the latter only for an empty list |
| PatientList.Age | src/components/PatientList.tsx:66-77 | the year difference, minus one before this year's birthday; equal to the number of anniversaries passed, the full difference on the birthday, and never negative for a birth date not after today |
| PatientList.ListView.constructor | src/components/PatientList.tsx:37-38 | empty search term, no delete in progress |
| PatientList.ListView.SetSearchTerm | src/components/PatientList.tsx:107 | the search box replaces the term and nothing else |
| PatientList.ListView.Shown | src/components/PatientList.tsx:100 | the count shown is the length of the filtered list, at most the number of patients |
| PatientList.ListView.HandleDelete | src/components/PatientList.tsx:47-56 | without confirmation nothing happens; with it, `deletingId` is the patient's id during the call and none afterwards, whether the call fails or not |
| Records.Position | src/components/PatientForm.tsx:113-129 | each editable column has its placeholder position in the statements' column order |
| Records.ColumnsEnumerateFields | src/components/PatientForm.tsx:113-129 | the column order lists each of the fourteen editable columns exactly once |
| Records.Patient.Get | src/components/PatientForm.tsx:14-30 | the two names are always present; the other columns may be absent |
| PatientForm.FormData.Set | src/components/PatientForm.tsx:78-83 | only the named input changes, to the given value |
| PatientForm.Prefill | src/components/PatientForm.tsx:59-74 | every input holds the patient's value for that column, or empty when absent |
| PatientForm.IsEmail | src/components/PatientForm.tsx:99 | an accepted email has at least five characters and contains `@`; IsEmailIffPattern ties it to the regular expression |
| PatientForm.EmailMatchesPattern | src/components/PatientForm.tsx:99 | every text the check accepts matches `^[^\s@]+@[^\s@]+\.[^\s@]+$` |
| PatientForm.PatternIsEmail | src/components/PatientForm.tsx:99 | every text of the shape L@A.B, with L, A, B non-empty and without whitespace or `@`, is accepted |
| PatientForm.IsEmailIffPattern | src/components/PatientForm.tsx:99 | the check accepts exactly the texts the pattern matches |
| PatientForm.Validate | src/components/PatientForm.tsx:89-106 | refused for a missing name whenever a name is empty (checked first); refused for the email exactly when the names are present and a non-empty email does not match the pattern; accepted otherwise |
| PatientForm.SpacesAreAName | src/components/PatientForm.tsx:90 | any non-empty first and last names made only of whitespace pass the name check, although both are blank once trimmed |
| PatientForm.ColumnParam | src/components/PatientForm.tsx:131-144 | names are sent verbatim; any other input is NULL exactly when empty and verbatim otherwise |
| PatientForm.ColumnParams | src/components/PatientForm.tsx:131-144 | fourteen parameters, one per column in placeholder order |
| PatientForm.UpdateParams | src/components/PatientForm.tsx:113-146 | fifteen parameters, each column at its placeholder, the patient id last (`$15`) |
| PatientForm.InsertParams | src/components/PatientForm.tsx:154-178 | fifteen parameters, the fresh id first (`$1`), each column one place later |
| PatientForm.Plan | src/components/PatientForm.tsx:89-178 | a refusal exactly when validation fails; otherwise an UPDATE when a patient is edited and an INSERT otherwise, with their parameter lists |
| PatientForm.PrefillRoundTrip | src/components/PatientForm.tsx:59-74 | prefilling and normalising gives back every column, absent as NULL, exactly when no optional column holds the empty string |
| PatientForm.UnchangedEditSendsPatient | src/components/PatientForm.tsx:111-146 | an edit saved without changes sends the patient as stored, with its id last |
| PatientForm.Form.constructor | src/components/PatientForm.tsx:39-76 | the form opens blank, or prefilled from the patient being edited, not loading |
| PatientForm.Form.PrefillEffect | src/components/PatientForm.tsx:57-76 | prefills from a given patient; without one the inputs stay as they are |
| PatientForm.Form.HandleInputChange | src/components/PatientForm.tsx:78-83 | the named input takes the value; every other input is unchanged |
| PatientForm.Form.HandleSubmit | src/components/PatientForm.tsx:85-197 | with no database or a failed validation nothing is sent and loading is untouched; otherwise the planned statement is sent, loading is true during the call and false after, and `onClose` runs exactly on success |
| JsNumber.DigitRun | src/pages/Patients.tsx:79-81 | the longest prefix of digits of the base |
| JsNumber.Decimal | src/pages/Patients.tsx:68-70 | the decimal text of a count: digits only, no leading zero |
| JsNumber.ParseIntText | src/pages/Patients.tsx:79-81 | `parseInt` reads back the decimal text of every integer |
| JsNumber.ParseInt | src/pages/Patients.tsx:79-81 | text with no decimal digit reads as NaN (a `0x` prefix needs its `0`); its partner ParseIntText reads back every integer's decimal text |
| JsNumber.NoDigitsNaN | src/pages/Patients.tsx:79-81 | after leading whitespace, a sign and a possible prefix, text with no decimal digit has no digits to read and gives NaN |
| PatientsPage.StatsOf | src/pages/Patients.tsx:77-82 | each counter is its column of the first row read with `parseInt`; StatsOfCounts shows the counts come out as the integers |
| PatientsPage.StatsOfCounts | src/pages/Patients.tsx:76-82 | a statistics row whose counts arrive as decimal text gives exactly those integers as counters |
| PatientsPage.Load | src/pages/Patients.tsx:48-97 | nothing unless the database is present and initialised; otherwise one reload is logged and loading ends false; the list is replaced exactly when its query answers; the statistics become those of the first row exactly when the statistics query answers with at least one row, and stay as they were otherwise; the form is not touched |
| PatientsPage.Notify | src/pages/Patients.tsx:100-102 | exactly one more write of the sync key, appended to the effects, and nothing else on the page changes |
| PatientsPage.Step | src/pages/Patients.tsx:104-158 | effects are only appended, and a patient is edited only while the form is shown |
| PatientsPage.LoadWritesNoSync | src/pages/Patients.tsx:85-86 | loading never writes the sync key |
| PatientsPage.StorageEventFilter | src/pages/Patients.tsx:110-114 | a storage event reloads exactly when its key is `patient-registry-sync`, leaves the page unchanged otherwise, and never writes the key |
| PatientsPage.OpenForm | src/pages/Patients.tsx:120-128 | Add opens the form with no patient; Edit opens it with the given patient; neither has effects |
| PatientsPage.CloseFormEffects | src/pages/Patients.tsx:130-136 | closing (after saving, or by Cancel or the close button) hides the form, clears the patient, reloads when ready and then writes the sync key |
| PatientsPage.DeleteEffects | src/pages/Patients.tsx:138-158 | a successful delete reloads when ready and writes the sync key; a failed delete, or one without a database, changes nothing |
| PatientsPage.StepSyncWrites | src/pages/Patients.tsx:99-158 | each event writes the sync key once if it closes the form or is a successful delete with a database, and not at all otherwise |
| PatientsPage.RunExtendsLog | src/pages/Patients.tsx:99-158 | over any run, effects are only appended |
| PatientsPage.LoadingNeverNotifies | src/pages/Patients.tsx:85-114 | a run of mounts, context changes, storage events and form openings never writes the sync key |
| PatientsPage.RunConsistent | src/pages/Patients.tsx:120-136 | over any run, a patient is edited only while the form is shown |
| PatientsPage.NothingBeforeReady | src/pages/Patients.tsx:49 | until the database is initialised, storage events leave the page unchanged, loading indicator included |
| PatientsPage.Page.constructor | src/pages/Patients.tsx:38-46 | no patients, form closed, loading, zero counters, no effects |
| PatientsPage.Page.LoadPatients | src/pages/Patients.tsx:48-97 | the page becomes `Load` of its old state; the loading flag while the queries are awaited is set whenever the page is ready |
| PatientsPage.Page.NotifyDataChanged | src/pages/Patients.tsx:100-102 | the page becomes `Notify` of its old state |
| PatientsPage.Page.ContextChanged | src/pages/Patients.tsx:104-106 | the page takes the new readiness and loads |
| PatientsPage.Page.HandleDataChange | src/pages/Patients.tsx:110-114 | the page takes the storage-event step |
| PatientsPage.Page.HandleAddPatient | src/pages/Patients.tsx:120-123 | the page takes the Add step |
| PatientsPage.Page.HandleEditPatient | src/pages/Patients.tsx:125-128 | the page takes the Edit step |
| PatientsPage.Page.HandleFormClose | src/pages/Patients.tsx:130-136 | the page takes the close step: hide, clear, load, notify |
| PatientsPage.Page.HandleDeletePatient | src/pages/Patients.tsx:138-158 | the page takes the delete step |

## Left out

- SQL execution by the embedded database is not modelled. This covers table and trigger creation, generated ids and timestamps, the UNIQUE email constraint and the statistics query itself. Each query is an outcome parameter that answers or fails. src/contexts/DatabaseContext.tsx is not part of this model; its readiness enters as the `hasDb` and `initialized` flags.
- Time is left out: `Date.now` for the execution time (a parameter) and for the sync-key value (the log records only that the key was written). So are the start of month and week sent to the statistics query, the locale formatting of dates, and the parsing of the date of birth. `Age` works on (year, month, day) triples as `getFullYear`, `getMonth` and `getDate` report them, so time zones are outside the model.
- Browser I/O is left out: saving the history to local storage, the clipboard, the Blob and link used for the download, toasts and the confirmation dialog. The saved history is a constructor parameter and the dialog's answer is a parameter of `HandleDelete`.
- Delivery of storage events between tabs is not modelled; only the listener inside one tab is.
- Asynchrony is simplified. Each handler runs to completion in the model, so overlapping loads and queries are not interleaved. The loading flag during an awaited query or reload, and `deletingId` during a delete, are returned as snapshots instead.
- Rendering is left out, and so are the sample-query and history buttons (which only set the query text).
- Text.Lower: maps only A-Z; the full Unicode case mapping of `toLowerCase` is not modelled.
- JsNumber.ParseInt: the result is an unbounded integer; the loss of precision of JavaScript numbers above 2^53 is not modelled.
- Csv.Cell: a non-string value is represented by the text `String(value)` gives it; how the runtime renders numbers, dates, arrays and objects is not modelled.
- Patient columns that the database returns as other types (the date of birth, the timestamps) are modelled as their text.
