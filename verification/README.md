# RJMart order export: a Dafny model of the download, date-range and account logic

The exporter logs into the RJMart portal with a headless browser. For each
configured account it sets the order date range from the configured start
date to yesterday, then triggers the order-detail, goods-detail and list
exports. It downloads the files of rows 1 and 2 of the export-job table under
canonical names in `<download_path>/<owner>`, and then deletes every row of
that table from the last down to row 1. A success/failure tally closes the
run.

This project models the parts of `main.py` that have behaviour worth stating:

- **Naming**: how a row name becomes `<download_path>/<owner>/<base>_<owner>.xlsx`.
- **Calendar**: the "yesterday" end date and its `YYYY-MM-DD` rendering. This
  is the full-date form of section 5.6 of RFC 3339, with the month lengths and
  leap years of section 5.7.
- **FileWaiter**: the 30-tick existence poll.
- **Downloads**: the download/cleanup phase of `_handle_downloads`. It is a
  state machine over a filesystem (a set of paths), a tick clock, and the
  table captured once.
- **DateRange**: the set / search / read-back / retry-once protocol of
  `set_date_range`.
- **AccountRunner**: `export_data`, `process_account` and the account loop
  of `main`.

The browser is replaced by oracle inputs:

- a table row says whether its name cell, download control and delete
  control exist, and at which tick after the trigger its file lands;
- the date page says what the input-filling scripts report, whether the
  search button exists, what the inputs hold after the search, and whether
  the retry raises should it run;
- an account says how login went, whether the exports could be started, and
  which date the clock shows when its range is set (the clock is read afresh
  for every account).

A missing element raises when it is used. In the model that is a `Raised`
run, a `Failed` range or a `false` answer, exactly where the source's
`try`/`except` blocks turn it into one.

The model follows the code as written:

- A failing row deletion is not best-effort. Any exception in the
  download/cleanup phase, a missing row or control included, is re-raised at
  `main.py:250-252`, and `export_data` then answers `False`.
- Rows are deleted through the handles captured once at `main.py:210`. They
  are not looked up again by position after each deletion.
- When the search button is missing, `set_date_range` answers `True` with no
  read-back at all. After the one retry it answers `True` without reading
  back again. So nothing in the code establishes that the applied range
  equals the requested one after a retry.
- A timeout is only a warning. The timed-out row is still deleted in the
  cleanup that follows.

## Model

| member | source | states |
|---|---|---|
| Naming.UserDir | main.py:290-292 | an owner's directory is `<download_path>/<owner>`: it lies inside the download path and the text after `<download_path>/` is exactly the owner (one path component when the owner holds no `/`) |
| Naming.BaseName | main.py:217-218 | the base name is the prefix of the row name before its first `-`: a prefix with no `-`, followed in the row name by a `-` unless it is the whole name |
| Naming.TargetFile | main.py:219-221 | the downloaded file's path string always starts with the owner's directory and a `/` |
| Naming.TargetIsDirectChild | main.py:217-221 | when neither the base name nor the owner holds a `/`, the file name after the directory is one path component ending in `.xlsx`, so never `.` or `..` |
| Naming.BaseNameOfComposite | main.py:218 | a name made of a `-`-free export type, a `-` and anything at all has that export type as its base name |
| Naming.BaseNameExample | main.py:218 | `Orders-20240101-foo` has base name `Orders` |
| Naming.BaseOfTargetRoundTrip | main.py:219-221 | the base name can be recovered from the target path, so the path loses nothing of it |
| Naming.TargetFileInjective | main.py:218-221 | for one owner, two rows share a target file if and only if they share a base name |
| Naming.OwnersDoNotCollide | main.py:219-221 | two different owners whose names have no `/` never share a target file |
| Calendar.Yesterday | main.py:102 | the result is a valid date before the run date with no valid date strictly between them; there is none only for 0001-01-01, where the subtraction overflows |
| Calendar.YesterdayIsPreviousDayNumber | main.py:102 | stepping back one day lowers the day count from 0001-01-01 by exactly one, which is how Python's `datetime` subtracts a one-day `timedelta` (on its proleptic ordinal) |
| Calendar.DayNumberOne | main.py:102 | only 0001-01-01 has day count 1, so only it has no predecessor |
| Calendar.FormatDate | main.py:103 | the rendering is 10 characters, `-` at positions 4 and 7 and decimal digits elsewhere |
| Calendar.FormatDateRoundTrip | main.py:103 | reading the rendering back as `YYYY-MM-DD` gives the same date |
| Calendar.FormatDateInjective | main.py:135 | two renderings are equal exactly when the dates are, so the read-back string check is a date check |
| FileWaiter.PollFrom | main.py:233-239 | from a given tick on, the wait reports the first tick the file is seen before the deadline, or a timeout at exactly 30 after no sighting |
| FileWaiter.AwaitFile | main.py:231-239 | the file is checked at ticks 0 to 29; arrival is the first check that sees it; a timeout happens exactly when no check sees it, and only at tick 30 |
| FileWaiter.AwaitArrival | main.py:233-236 | a file landing at tick a is reported at tick a when a < 30; it times out otherwise or if it never lands |
| FileWaiter.PresentAtStart | main.py:233-236 | a file already present ends the wait at tick 0 |
| Downloads.RemoveStale | main.py:222-224 | after removal the target is absent and every other path is unchanged |
| Downloads.FetchRow | main.py:216-239 | one row: raises exactly when the row, its name or its download control is missing; otherwise records the row's download, ends the wait exactly when this download lands (a timeout does not raise), leaves the target present exactly on arrival, and changes no other path |
| Downloads.DownloadPhase | main.py:215-239 | rows 1 and 2 are downloaded in that order; it finishes exactly when both are downloadable; only paths under the owner's directory (by path string) change; it waits at most 60 ticks |
| Downloads.Countdown | main.py:242 | the visit order `hi, hi-1, ..., lo` by position, empty when `hi < lo` |
| Downloads.DeleteRows | main.py:242-248 | deletes positions i down to 1, one tick each, and leaves files alone; it finishes exactly when every visited row has a name and a delete control, and otherwise raises at the highest row lacking one, after deleting the rows above it |
| Downloads.HandleDownloads | main.py:205-252 | finishes exactly when rows 1 and 2 are downloadable and rows 1 to n-1 deletable (n rows read), so timeouts never decide it; fewer than 3 rows raise before any deletion; on success exactly rows 1, 2 were downloaded and rows n-1 down to 1 deleted; only paths under the owner's directory (by path string) change |
| Downloads.HandleDownloadsFiles | main.py:215-239 | with rows 1 and 2 downloadable, each target ends up present exactly when its download landed in time (the second wins if both share a file), and no other path changes |
| Downloads.CountdownVisitsEachRowOnce | main.py:242 | the cleanup order contains exactly positions 1 to n, strictly descending, so each once and never row 0 |
| Downloads.CountdownExample | main.py:242 | for 5 rows to clean the order is 5, 4, 3, 2, 1 |
| Downloads.KeptLeftoverEndsWaitAtOnce | main.py:222-234 | were the leftover file kept, the wait would end at tick 0 whether or not the new download landed |
| DateRange.SetDateRange | main.py:87-150 | answers True exactly when yesterday exists, both input scripts report success and (with a search button) the read-back inputs exist and, if they differ from the request, the retry does not raise; the end date requested is yesterday in `YYYY-MM-DD`; at most two searches run; none without a search button; the second exactly when the read-back differs from the request |
| DateRange.RetryIffReadBackDiffers | main.py:132-144 | when the page shows a date string, the retry happens exactly when the shown start differs or the shown end day is not yesterday |
| AccountRunner.UpdateUser | main.py:288-296 | after retargeting, every file the exporter derives lies in the new owner's directory, ends in `_<owner>.xlsx` for the new owner, and keeps its base name recoverable from the path; tab and files are unchanged |
| AccountRunner.ExportData | main.py:152-168 | answers True exactly when both exports start and the download phase finishes; false for tables of fewer than 3 rows; only paths under the owner's directory (by path string) change |
| AccountRunner.ProcessAccount | main.py:307-339 | answers True exactly when login, date range (for the account's own run date) and export all do; steps run in order and stop at the first failure; the previous tab is dropped, so the account never works in an earlier account's tab; only paths under the owner's directory (by path string) change |
| AccountRunner.ServeAccount | main.py:370-374 | one loop pass answers as the account's own steps decide and changes only that account's directory |
| AccountRunner.RunAccounts | main.py:349-377 | no accounts means no tally; otherwise every account is processed, against its own run date, whatever befell the others, the tally's successes count the True answers (at most the number of accounts), failures are the rest, and every file created or removed has some account's directory as a path-string prefix |

## Left out

- Browser construction and options, login form filling, selectors, hover and
  click mechanics, `_close_export_dialog` and `close`
  (main.py:37-85, 170-203, 254-262, 298-305). These are browser plumbing;
  their outcomes are oracle fields.
- The in-page date-setting script (main.py:264-286). Only the boolean it
  reports is modelled. The results of the two retry scripts are ignored by
  the code, and the model ignores them too.
- Real time and sleeping. Ticks are counted only inside the download phase:
  the settle wait before the table is read, the download polls and the
  settle after each deletion. Other page waits are not counted.
- The platform's path joining and directory creation. A path is
  `dir + "/" + name`, and directories are not entries of the filesystem set.
- The configuration file, logging, and `main`'s outer exception handler.
  These are I/O with no invariants.
- Removal of a leftover file is assumed to succeed.
- Partial-write and content checks: the code tests existence only.
- Downloads.FetchRow: a file that lands after its wait timed out is not
  added to the filesystem. The model ends the row's effect at the end of the
  wait.
- Calendar.FormatDate: renders every year as four zero-padded digits, as RFC
  3339 does. The platform's `%Y` may not pad years below 1000. Run dates
  from 1000 to 9999 are the intended range.
- Which remote export job each table row belongs to. The table contents are
  an oracle, so the model says nothing about which export type ends up in
  rows 1 and 2.
- Naming.TargetFile: containment in the owner's directory is a fact about
  path strings. A row name whose base holds a `/` (such as `../../etc/x-1`
  or one starting with `/`), or an owner holding one, makes the program's
  `os.path.join` and `os.remove` reach outside that directory; the model
  joins with `/` and does not resolve `..` or absolute components.
  `Naming.TargetIsDirectChild` states when the name is a single component.
- DateRange.SetDateRange: the first search click is assumed not to raise;
  only the retry's raising is an oracle field.
- Exceptions from retargeting the exporter (`os.makedirs`) and from closing
  the previous tab. The latter is only logged in the code; in the model the
  tab is dropped either way.
