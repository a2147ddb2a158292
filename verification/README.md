# Content MIS record store, modelled in Dafny

The content-team dashboard keeps each of its logical tables (daily tasks,
training records, audit logs, QC reviews, MIS/KPI entries) in a CSV file
whose first column is the serial number `S.No`. Both versions of the app,
`ContentMISDemo.py` and `ContentMISFinals.py`, reach those files through the
same helpers: `create_csv` (create an empty table if nothing is there),
`fetch_data` (read the table, or an empty one shaped by the given columns),
`insert_data` (append a row with `S.No` = row count + 1 and rewrite the file)
and `download_csv` (offer the export only for a non-empty frame). The final
version also catches the helpers' exceptions into the session's error message,
adds a delete-by-serial block that renumbers the surviving rows 1..n, and
blanks line breaks in the text of any exception that reaches the top level.
Each form checks a few required fields before it inserts, and the login
screen compares the username and password with one fixed pair.

Files:

- `records.dfy`: module `Records`, the field mapping a form submits (its items in
  order; every form lists each column once, and records are taken to have
  distinct columns) and the required-field gates; module `Access`, the login pair.
- `tables.dfy`: module `Tables`, rows, tables, what a path on disk holds, and
  the pure functions that say what each helper computes (`Appended`,
  `Deleted`, `Without`, `Renumbered`, `Widen`, `DownloadCsv`), with the lemmas
  about serial contiguity, order and the header.
- `finals.dfy`: module `Finals`, a `Session` class (files, `loggedIn`,
  `errorMessage`) whose methods perform the final version's helpers, delete,
  form submission and login; the sanitiser.
- `demo.dfy`: module `Demo`, the first version's `Session` class, where I/O
  errors escape instead of being caught.

The file system is a field `files: map<string, Entry>`. An entry is a
readable CSV table, a regular file that pandas cannot parse (`Unreadable`), or
a directory (`os.path.exists` is true for it but `os.path.isfile` is not,
and writing a table to it raises). Field values (dates, numbers, text) are
opaque strings. Every mutating method also keeps `AllContiguous`: if every
readable table on disk numbered its rows 1..n before, it still does after.

Some consequences of the code that a reader might not expect:

- In the final version `fetch_data` swallows a parse error and returns an
  empty table, so `insert_data` and the delete block go on to overwrite an
  unreadable file with a fresh table (`Finals.Session.InsertData`,
  `Finals.Session.DeleteEntry`); the parse error stays in the message.
- When `insert_data` finds no readable file, `fetch_data` falls back to the
  record's own keys, so the new file's header is those keys with `S.No`
  appended last (`Tables.InsertIntoMissing`), not the page's column list.
- The delete block always renumbers and rewrites. Deleting a serial that is
  not present leaves the table unchanged only when it was already numbered
  1..n (`Tables.DeleteAbsentSerial`).
- `insert_data` returns nothing; it only assigns `data["S.No"]` and rewrites
  the file.

## Model

| member | source | states |
|---|---|---|
| `Tables.Widen` | ContentMISFinals.py:35 | the concatenated frame's header keeps the old header as a prefix, holds exactly the old and new columns, and is the old header when nothing is new |
| `Tables.WidenDistinct` | ContentMISFinals.py:35 | concatenation adds each new column once: a header without repeated columns stays without repeats |
| `Tables.WidenConcat` | ContentMISFinals.py:35 | joining two column lists in turn equals joining their concatenation |
| `Tables.Appended` | ContentMISFinals.py:31-36 | insert grows the table by exactly one row, leaves every earlier row unchanged and in order, gives the new row serial = prior row count + 1 and the record's fields, keeps the old header as a prefix with `S.No` present, and keeps serials contiguous |
| `Tables.AppendedKnownColumns` | ContentMISFinals.py:34-35 | an insert whose columns (with `S.No`) the table already has leaves the header unchanged |
| `Tables.InsertIntoMissing` | ContentMISFinals.py:33-35 | inserting where no table could be read yields one row with serial 1 and the header = the record's keys followed by `S.No` |
| `Tables.AppendAll` | ContentMISDemo.py:30-34 | after a run of inserts the rows are the old rows followed by the k-th record with serial n + k + 1 (n = starting row count) |
| `Tables.InsertsFromEmpty` | ContentMISDemo.py:30-34 | from an empty table, n inserts give serials exactly 1..n, the k-th row holding the k-th record |
| `Tables.Without` | ContentMISFinals.py:281 | no row left after the filter carries the given serial, and the list never grows |
| `Tables.WithoutCounts` | ContentMISFinals.py:281 | the filter keeps each row whose serial differs from the given number exactly as often as it occurred, and no other row |
| `Tables.Renumbered` | ContentMISFinals.py:282 | the serial column is reassigned 1..n with every row's other fields unchanged |
| `Tables.Deleted` | ContentMISFinals.py:280-283 | the table written back after a delete keeps its header, is numbered 1..n, and is no longer than before |
| `Tables.WithoutKeepsOrder` | ContentMISFinals.py:281 | the surviving rows appear in their original relative order (a subsequence of the old rows) |
| `Tables.DeleteKeepsOtherRows` | ContentMISFinals.py:280-283 | after delete the i-th row is the i-th surviving row with serial i + 1 and its other fields unchanged, the survivors being exactly the rows with a different serial, in order |
| `Tables.WithoutOutside` | ContentMISFinals.py:281 | on rows numbered b, b+1, ..., filtering a number outside that range keeps every row |
| `Tables.WithoutInside` | ContentMISFinals.py:281 | on rows numbered b, b+1, ..., filtering a number inside that range removes exactly that one row |
| `Tables.DeleteAbsentSerial` | ContentMISFinals.py:280-283 | on a contiguous table, deleting a serial not present changes nothing |
| `Tables.DeletePresentSerial` | ContentMISFinals.py:280-283 | on a contiguous table, deleting serial s shrinks it by one: rows before s stay, later rows move up one place and are renumbered |
| `Tables.DownloadCsv` | ContentMISFinals.py:47-50 | the export is offered, carrying the table as fetched, iff the frame has at least one row and one column; for a table with a header, iff it has a row |
| `Tables.InsertOffersExport` | ContentMISDemo.py:39-42 | after any insert the export of the table is offered |
| `Finals.Replace` | ContentMISFinals.py:766 | replacing one character keeps the length and changes exactly the occurrences of that character |
| `Finals.Sanitize` | ContentMISFinals.py:764-767 | the sanitised message has the original's length, contains no `\n` or `\r`, has a space where each was and every other character unchanged |
| `Finals.Session.constructor` | ContentMISFinals.py:754-757 | a session starts logged out with an empty error message |
| `Finals.Session.Login` | ContentMISFinals.py:121-127 | logged in iff username and password both equal `omotec`; otherwise the error message is the invalid-credentials text; the files never change |
| `Finals.Session.CreateCsv` | ContentMISFinals.py:27-29 | an absent path gets an empty table with the given header; an existing path, whatever it holds and whatever columns are passed, is left unchanged |
| `Finals.Session.FetchData` | ContentMISFinals.py:40-45 | returns the stored table of a readable file, otherwise zero rows with the given header, sets the parse error only for an unreadable file, and changes no file |
| `Finals.Session.InsertData` | ContentMISFinals.py:31-38 | the path ends up holding the fetched table with the record appended; a missing or unreadable file becomes a one-row table; a directory leaves the files unchanged with the write error recorded |
| `Finals.Session.DeleteEntry` | ContentMISFinals.py:276-285 | the path ends up holding the fetched table with serial s dropped and the rest renumbered 1..n; a missing or unreadable file becomes an empty table with the page's columns; a directory leaves the files unchanged with the error recorded |
| `Finals.Session.SubmitForm` | ContentMISFinals.py:143-155 | a form inserts only when its required fields are filled (all of them, or one of `built`/`revised` for the MIS form, none for the KPI forms); otherwise the files are unchanged and the form's message is set |
| `Finals.Session.ReportUnhandled` | ContentMISFinals.py:764-767 | an exception reaching the top level is stored as its sanitised text |
| `Demo.Session.constructor` | ContentMISDemo.py:580-581 | a session starts logged out |
| `Demo.Session.Login` | ContentMISDemo.py:73-77 | logged in iff both credentials equal `omotec`; otherwise the invalid-credentials text is shown and nothing changes |
| `Demo.Session.CreateCsv` | ContentMISDemo.py:26-28 | an absent path gets an empty table with the given header; otherwise nothing changes |
| `Demo.Session.FetchData` | ContentMISDemo.py:36-37 | an absent path reads as zero rows with the given header, a readable file as its table, and only an unparsable file raises |
| `Demo.Session.InsertData` | ContentMISDemo.py:30-34 | on success the path holds the fetched table with the record appended (serial = row count + 1); a read or write error escapes and the files are unchanged |
| `Demo.Session.SubmitForm` | ContentMISDemo.py:94-102 | the daily-task, training and audit forms insert only when both required fields are filled, otherwise nothing is stored and the refusal is shown; the other forms insert unconditionally; the refusal is shown iff the gate does not admit the record; a submission is saved iff the gate admits it and no I/O error escapes; an admitted submission on an unparsable file or a directory crashes with that error and writes nothing |

## Left out

- Streamlit presentation: forms, tabs, sidebar, success/error banners, the
  pop-up HTML and script, the Enter-key script, and the background image
  (`set_background_image` reads image bytes and builds CSS).
- CSV text itself: pandas parsing, quoting and `to_csv(...).encode()`. A
  table is abstract and a write replaces the map entry, so the export bytes
  and a parse/serialise round trip are not modelled.
- Field values are opaque strings: `date_input` dates, the `strftime("%B %Y")`
  month text, and `number_input` floats are not interpreted.
- Write failures other than a directory at the path (permissions, full disk),
  and a crash in the middle of a write.
- Concurrent sessions racing on one file (lost updates); the code has no
  concurrency control.
- Aligning rows with a header they do not match: pandas fills missing cells
  with NaN, which the model shows only as a row's field map lacking that
  column. A readable file is assumed to give every row an integer `S.No`;
  a file whose header lacks `S.No` (only possible if edited outside the app,
  where the delete block would raise `KeyError`) is not modelled, and neither
  is a page column list without `S.No` (every page's list starts with it), for
  which the delete block on a missing or unreadable file would raise the same
  `KeyError` instead of writing an empty table.
- The per-table column lists given to `create_csv` and `fetch_data` are
  parameters, not constants; the forms are modelled by file name and
  required-field gate only.
