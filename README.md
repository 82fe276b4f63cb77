# Labelling-session model of the Data Response Classifier

The Data Response Classifier is a desktop tool. A user opens a CSV dataset
keyed by an `id` column. The tool shows the rows of one id at a time, and
the user labels that id "positive" or "negative". Every label is appended
to an in-memory record table and the whole table is rewritten to
`result.csv` beside the dataset. A `result.csv` found there when a dataset
is opened is adopted, and the ids it names are skipped.

This project models the session state of the `ResponseGUI` class and the
operations that change it:

- `labeling.dfy` (module `Labeling`) holds the tables as values and the pure
  pieces. `Unique` is the table library's `unique()` on the `id` column: the
  distinct ids, each at its first appearance. `Unprocessed` is the list
  comprehension that drops processed ids. `NextId` is the id the session
  shows next. `Remaining` counts the ids still to label. `LabelingRun` is the
  order in which a session that labels every shown id visits them. The
  lemmas give these their meaning. The next id is the id of the first row,
  in file order, whose id is unprocessed. Labelling a pending id lowers
  `Remaining` by one. A full run shows every pending id exactly once, in
  order of first appearance. The progress figures add up.
- `response_gui.dfy` (module `ResponseGui`) holds the class `ResponseGui`.
  Its fields are `df`, `responses`, `currentId`, `processedIds` and
  `currentDataFolder`. Each method of the Python class that changes state
  has a method of the same name. The figures `display_current_id` shows are
  the `Progress` function. `setup_ui` only builds widgets and has no
  counterpart.
  `Valid()` is the invariant every method keeps: the processed set is
  exactly the set of ids of the records, and an id is on screen only once a
  dataset has been read.

Dialogs and file reads are parameters. `FileChoice` is what the open dialog
and the CSV read gave. `Option<ResultsTable>` is the `result.csv` found
beside the dataset: `None` when it is absent or could not be read. Writes
are returned as values (`ResultWrite`, `ExportOutcome`). A write that fails
is only reported by the source, so it changes no state.

Three details of the code shape the model:

- `load_data` assigns the newly read table to `df` before it checks for the
  `id`, `name` and `value` columns (response_gui.py:107-114). A rejected file
  therefore replaces `df`. The records, processed set, current id and
  folder stay as they were (`LoadData`).
- `load_next_id` never clears `current_id` when no id is left
  (response_gui.py:153-159). Once every id is processed, a further
  `record_response` appends another record for the id still on screen.
  Only the disabled buttons stop this (`ExampleStaleRelabel`). The same id
  also stays current after a later load in which every id is already
  processed.
- `save_to_result_file` says it appends to `result.csv`, but it rewrites the
  whole file from the record table (response_gui.py:193-200). The model
  writes the whole table (`SaveToResultFile`).

A call to `load_next_id` can also raise. When `df` has no `id` column
(after a rejected load), `record_response` has already appended the record
and saved it when the lookup fails (`LookupFailed`). When `name` or `value`
is missing, the id is put on screen and then showing its rows fails
(`DisplayFailed`).

## Model

| member | source | states |
|---|---|---|
| `Labeling.Ids` | response_gui.py:150 | the `id` column has one entry per row, and entry i is row i's id |
| `Labeling.Unique` | response_gui.py:150 | `unique()` returns each id at most once and exactly the ids the dataset mentions |
| `Labeling.UniqueKeepsFirstAppearanceOrder` | response_gui.py:150 | the distinct ids are listed in order of their first row |
| `Labeling.Unprocessed` | response_gui.py:151 | the comprehension keeps exactly the ids not in the processed set, without repeats when its input has none |
| `Labeling.UnprocessedKeepsOrder` | response_gui.py:151 | dropping processed ids keeps the remaining ids in their order of first appearance |
| `Labeling.NextId` | response_gui.py:150-162 | a chosen id occurs in the dataset and is not processed |
| `Labeling.NextIdIsFirstPendingRow` | response_gui.py:148-164 | the next id is the id of the first row, in file order, whose id is unprocessed; there is none exactly when no such row exists |
| `Labeling.NextIdNoneIffAllProcessed` | response_gui.py:150-159 | the session is complete exactly when every dataset id is in the processed set |
| `Labeling.LabelShrinksRemaining` | response_gui.py:204-223 | labelling an unprocessed dataset id lowers the number of ids left to label by exactly one; any other id leaves it unchanged |
| `Labeling.LabelingRunVisitsPendingInOrder` | response_gui.py:148-223 | labelling every shown id visits each unprocessed distinct id exactly once, in order of first appearance, in `Remaining` steps |
| `Labeling.UniqueCountsDistinct` | response_gui.py:186-189 | the progress total, the count of distinct ids, equals the length of the first-appearance id list |
| `Labeling.ProgressAccounts` | response_gui.py:186-189 | processed dataset ids plus ids left to label make up the progress total |
| `ResponseGui.ResponseGui.constructor` | response_gui.py:14-19 | a new window has no dataset, no records, no processed ids, no current id and no folder |
| `ResponseGui.ResponseGui.LoadExistingResults` | response_gui.py:81-95 | a results table with `id` and `response` columns is adopted as the records, with its ids as the processed set; anything else changes nothing |
| `ResponseGui.ResponseGui.LoadNextId` | response_gui.py:148-164 | the current id becomes the next unprocessed id; with none left, or with no `id` column, it keeps its old value; a chosen id is never processed |
| `ResponseGui.ResponseGui.Progress` | response_gui.py:185-190 | the progress line shows the size of the processed set over the number of distinct dataset ids |
| `ResponseGui.ResponseGui.SaveToResultFile` | response_gui.py:192-202 | with no data folder nothing is written; otherwise the whole record table is written to `result.csv` in that folder |
| `ResponseGui.ResponseGui.RecordResponse` | response_gui.py:204-223 | with no current id nothing changes; otherwise exactly one record is appended, the id joins the processed set, the full table is saved, the next id is chosen, and it is never the id just labelled; when the labelled id is an unprocessed dataset id, the count of ids left drops by one |
| `ResponseGui.ResponseGui.ExportResponses` | response_gui.py:225-243 | export is refused exactly when there are no records, skipped when the dialog is cancelled, and otherwise writes the whole record table to the chosen path |
| `ResponseGui.ResponseGui.LoadData` | response_gui.py:97-146 | a cancelled dialog or failed read changes nothing; a table missing `id`, `name` or `value` replaces `df` and nothing else; an accepted table sets the folder, adopts prior results or resets them, and shows the first unprocessed id |
| `ResponseGui.ExampleStaleRelabel` | response_gui.py:204-223 | once no id is left, a further label appends another record for the id still on screen, that id stays current, and the processed set gains only that id |
| `ResponseGui.ExampleNextIds` | response_gui.py:148-164 | for rows with ids one, one, two: `one` is shown first, then `two`, then the session is complete, and the run labels `one` then `two` |

## Left out

- Widget construction and updates, the rendering of an id's rows, and enabling or disabling buttons (response_gui.py:24-79, 166-183). Because the buttons are not modelled, `RecordResponse` may be called in states the window prevents.
- The file dialogs and message boxes. They are user interaction: a dialog's answer is a parameter, and a message is not modelled.
- CSV reading and writing and path handling. They are file I/O and a foreign library. The folder is a parameter, and a write is returned as a value.
- Exceptions around I/O. A failed dataset read is `ReadFailed`. A failed or unreadable results file is `None`. A failed save or export is not distinguished from a successful one, because neither changes in-memory state.
- The table library's type inference and missing values. Ids are strings compared exactly, so `1` and `01` are different ids. `unique()` keeps a missing id while `nunique()` drops it, and the model has no missing ids.
- Extra columns of an adopted results table. Only its `(id, response)` records are kept.
- `main` and the Tk main loop (response_gui.py:246-253). They only start the window.
