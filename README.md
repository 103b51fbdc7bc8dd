# Theatre usher rota helpers — a Dafny model

This model covers the data-shaping rules of `app.py`, the Flask application
that assigns ushers and cloakroom staff to theatre shows. These rules are:

- the two input normalisers, `normalize_date` and `normalize_list`;
- the role table `ROLE_RULES`, which maps a headcount of 8 or 9 to the roles
  and how many people each role needs;
- the counter seeding in `import_workers`: every loaded worker gets an
  `assignment_count` entry at zero unless they already have one;
- the `stats` page, which counts each worker's assignments (`összes`), their
  front-row seating assignments (`beülős`) and the shows they asked to watch
  (`nézős`), and records whether their `ÉK` column is `igen`;
- the row layout of `export_xlsx`: a fixed 11-column header, then one row per
  show with the title, the date and the names under each role's columns.

The scheduling algorithm itself is not in `app.py`. `generate_schedule` only
renders the module-level `schedule`, and nothing in the file ever assigns that
list. So in the application as written, `stats` reports zeros and the export
holds only the header. The model keeps `schedule` as a field of `AppData` and
proves the stats and export properties for any schedule value.

Modules (one file each):

- `Cells`: what a spreadsheet cell can hold (`None`, NaN, text, integer,
  datetime), Python truthiness, and `str()`.
- `Normalize`: `normalize_date` and `normalize_list`. It spells out `[:10]`,
  `split(",")` and `strip()`.
- `RoleRules`: `ROLE_RULES` as ordered `(role, quantity)` tiers.
- `Records`: roster rows and schedule entries. It also flattens a schedule
  into the order the `stats` loops visit it.
- `Roster`: the global state (`AppData`) and `import_workers`.
- `Stats`: `stats`, written as loops and proved equal to a fold over the
  flattened schedule. Lemmas give the meaning of that fold.
- `Export`: `role_map`, the row expression and the export loop.
- `Results`: `Option` and `Result`. Python's `KeyError` and `IndexError`
  become `Err` values. A `KeyError` carries the missing name, as Python's
  does. Python's `IndexError` says only "list index out of range"; the
  model's `IndexError` adds a role tag recording which of the three `[0]`
  lookups failed.

Facts about `app.py` that the model keeps:

- `normalize_list` returns a list and keeps duplicates in input order.
- In both tiers of `ROLE_RULES` the quantities add up to exactly the
  headcount (8 and 9).
- An assigned name that is not on the roster makes `stats` raise `KeyError`
  at app.py:143; the name is not skipped.
- In `export_xlsx` a two-column role with fewer than two names yields fewer
  cells, and every later cell moves left under the wrong header.

## Model

| member | source | states |
|---|---|---|
| `Cells.Truthy` | app.py:63-66 | Python truthiness of a cell: `None`, "" and 0 are falsy; NaN, non-empty text, non-zero integers and datetimes are truthy. Its consequences are stated by `Normalize.NormalizeDate` and `Normalize.NormalizeList`. |
| `Cells.IntToString` | app.py:63 | `str(n)` of an integer is non-empty, has a leading '-' exactly for a negative number and digits elsewhere, has no leading zero (except "0" itself), and the digits read back as the absolute value of `n`. |
| `Cells.DateText` | app.py:61-62 | `strftime("%Y-%m-%d")` gives 10 characters: digits with dashes at positions 4 and 7. The three digit groups read back as the year, month and day. |
| `Cells.TimeText` | app.py:63 | The time part of `str(datetime)` is `HH:MM:SS`: 8 characters with colons at 2 and 5 and digits elsewhere, whose digit groups read back as the hour, minute and second. |
| `Cells.DateTimeText` | app.py:63 | `str(datetime)` is 19 characters: the `strftime("%Y-%m-%d")` text, a space, then the time with colons at 13 and 16 and digits at the other positions; the time digit groups read back as hour, minute and second. |
| `Cells.Str` | app.py:63 | `str(value)` of a cell. For a datetime it has the 19-character layout above. The other cases ("None", "nan", the text itself, `str(n)`) follow from its definition and `Cells.IntToString`. |
| `Normalize.FirstTen` | app.py:63 | `[:10]` gives a prefix of the string, 10 characters long or the whole string if shorter. |
| `Normalize.NormalizeDate` | app.py:60-63 | The result has at most 10 characters. A falsy value gives "". Any other non-datetime value gives a prefix of `str(value)` of length min(10, len). A datetime gives a `YYYY-MM-DD`-shaped string. |
| `Normalize.DateBranchIsPrefixOfStr` | app.py:60-63 | For a datetime, the `strftime` branch returns exactly the first ten characters of `str(value)`, so both branches agree. |
| `Normalize.DateRoundTrip` | app.py:61-62 | Parsing the normalised date of a datetime gives back its year, month and day. |
| `Normalize.NormalizeDateIdempotent` | app.py:63 | Normalising an already normalised date string leaves it unchanged. |
| `Normalize.Split` | app.py:68 | `split(",")` gives one more piece than there are commas, and no piece contains a comma. |
| `Normalize.JoinSplit` | app.py:68 | Joining the pieces of `split(",")` with commas rebuilds the original string. |
| `Normalize.SplitJoin` | app.py:68 | Splitting comma-free pieces joined by commas gives back exactly those pieces. |
| `Normalize.LStrip` | app.py:68 | The result is a suffix of the input. Only whitespace was removed, and the result does not start with whitespace. |
| `Normalize.RStrip` | app.py:68 | The result is a prefix of the input. Only whitespace was removed, and the result does not end with whitespace. |
| `Normalize.Strip` | app.py:68 | The result is a slice of the input with whitespace only outside it and none at its ends. It is empty exactly when the input is all whitespace. |
| `Normalize.Stripped` | app.py:68 | Every piece, stripped with `strip()`, at the same position. |
| `Normalize.Tokens` | app.py:68 | The list comprehension `[v.strip() for v in pieces if v.strip()]`: never longer than the pieces. Its meaning is stated by `Normalize.TokensInOrder` and `Normalize.TokensClean`. |
| `Normalize.TokensInOrder` | app.py:68 | The tokens are the stripped non-blank pieces, at strictly increasing piece positions, and every non-blank piece produces one. |
| `Normalize.TokensClean` | app.py:68 | When the pieces are comma-free, every token is non-empty, has no comma and has no whitespace at either end. |
| `Normalize.NormalizeList` | app.py:65-68 | None, "", 0 and NaN give []. Otherwise every token is clean, and there are at most (number of commas + 1) tokens. |
| `Normalize.NormalizeListJoin` | app.py:65-68 | Clean tokens joined with commas normalise back to the same list. |
| `RoleRules.RulesFor` | app.py:41-57 | A rule exists exactly for headcounts 8 and 9. Each tier lists every role once, and its quantities sum to the headcount. |
| `RoleRules.QuantityOf` | app.py:41-57 | Looking up a role gives a quantity exactly when the tier lists that role, and then the listed quantity. |
| `RoleRules.Without` | app.py:41-57 | The tier with one role removed contains no quota for that role and is no longer than before. `RoleRules.WithoutMembers` and `RoleRules.WithoutAppend` give its full meaning. |
| `RoleRules.WithoutMembers` | app.py:41-57 | Removing a role keeps exactly the quotas of the other roles. |
| `RoleRules.WithoutAppend` | app.py:41-57 | Removing a role from a concatenation removes it from each part, so the kept quotas stay in their order. |
| `RoleRules.WithoutAbsent` | app.py:41-57 | Removing a role the tier does not list changes nothing. |
| `RoleRules.EightIsNineWithoutBalcony` | app.py:41-57 | The fifth quota of the nine-person tier is "ruhatár erkély" with 1 person. The eight-person tier is the nine-person tier with exactly that quota cut out, the other quotas in the same order, which is also what removing "ruhatár erkély" gives. |
| `RoleRules.BalconyRemoved` | app.py:41-57 | Removing "ruhatár erkély" from the nine-person tier gives the eight-person tier. |
| `RoleRules.FixedQuantities` | app.py:41-57 | In both tiers "jolly joker" needs 1 person and "nézőtér beülős" needs 2. |
| `Records.EntriesCount` | app.py:140-142 | Flattening the schedule in the order of the three nested loops gives one entry per assigned name. |
| `Roster.SeedCounts` | app.py:112-113 | The `setdefault` loop as a fold over the loaded names. Its meaning is stated by `Roster.SeedCountsMeaning`. |
| `Roster.SeedCountsMeaning` | app.py:112-113 | After the `setdefault` loop, the counters are the old ones plus one per loaded name. Old counters keep their values, and new counters start at 0. |
| `Roster.SeedCountsIdempotent` | app.py:112-113 | Seeding the same roster a second time changes no counter. |
| `Roster.AppData.constructor` | app.py:36-39 | The application starts with no workers, an empty schedule and no counters. |
| `Roster.AppData.ImportWorkers` | app.py:107-114 | The roster becomes the loaded rows and the schedule is untouched. The counters become the old counters seeded with the loaded names. |
| `Stats.InitialStats` | app.py:133-139 | The first loop of `stats` as a fold over the roster, where a later line replaces an earlier one. Its meaning is stated by `Stats.InitialStatsMeaning`. |
| `Stats.InitialStatsMeaning` | app.py:133-139 | The first loop gives a row to exactly the roster names, each with zero counts. The `ÉK` flag equals (column == "igen") on the last roster line with that name. |
| `Stats.InitialStatsKeys` | app.py:133-139 | The roster loop gives a row to every roster name and to no other name. |
| `Stats.InitialStatsZero` | app.py:134-137 | Every row starts with `összes`, `beülős` and `nézős` at 0. |
| `Stats.InitialStatsEk` | app.py:138 | The `ÉK` flag of a name's row comes from the last roster line with that name, since a later line replaces an earlier one. |
| `Stats.Bump` | app.py:143-147 | One pass of the innermost loop body on a known name: `összes` plus 1, `beülős` plus 1 for a seating role, `nézős` plus 1 when watched, `ÉK` kept. |
| `Stats.Tally` | app.py:140-147 | The counting loops as a fold over the flattened schedule, stopping at the first unknown name. Its meaning is stated by `Stats.TallyMeaning`. |
| `Stats.StatsOf` | app.py:132-147 | `stats` as the fold of the counting loops over the roster loop's rows. Its meaning is stated by `Stats.StatsMeaning`. |
| `Stats.TallyMeaning` | app.py:140-147 | The counting loops succeed exactly when every assignee has a row. Each row then gains its number of assignments, seating assignments and watched assignments, and no key is added or changed otherwise. On failure the error names the first unknown assignee. |
| `Stats.TallyKeys` | app.py:140-147 | When the counting loops succeed, the rows have the same keys as before. |
| `Stats.TallyOk` | app.py:140-147 | The counting loops succeed exactly when every assigned name already has a row. |
| `Stats.TallyCounts` | app.py:143-147 | On success, a row's three counts grow by that name's assignments, seating assignments and watched assignments, and its `ÉK` flag stays the same. |
| `Stats.TallyError` | app.py:143 | On failure, the KeyError names the first assigned name without a row. |
| `Stats.TallyErrAppend` | app.py:143 | After a KeyError, later entries change nothing, because the exception ends the loops. |
| `Stats.SeatingAtMostTotal` | app.py:143-147 | Per name, the seating count and the watched count are never above the total count. |
| `Stats.StatsMeaning` | app.py:132-147 | `stats` fails with a KeyError exactly when some assigned name is not on the roster, and then on the first such name. Otherwise it has one row per roster name holding that name's counts, with `beülős` and `nézős` never above `összes`. |
| `Stats.StatsEk` | app.py:138 | In a successful result, a worker's `ÉK` flag is true exactly when their (last) roster line's `ÉK` column is "igen". |
| `Stats.EmptyScheduleStats` | app.py:38 | With the schedule as the application leaves it (empty), `stats` succeeds and every total is 0. |
| `Stats.TotalsSumToAssignments` | app.py:140-147 | In a successful result, the `összes` values summed over the distinct roster names equal the number of assigned names in all shows' role lists. |
| `Stats.InitialRows` | app.py:133-139 | The roster loop builds exactly the initial rows. |
| `Stats.TallySlot` | app.py:142-147 | The innermost loop over one role's assignees continues the tally by that role's entries, stopping at the first unknown name. |
| `Stats.TallyRoles` | app.py:141-147 | The loop over a show's roles continues the tally by that show's entries, stopping at the first error. |
| `Stats.ComputeStats` | app.py:131-148 | The whole `stats` computation returns exactly the tally of the initial rows over the flattened schedule, whose meaning is given above. |
| `Export.RoleMap` | app.py:168-171 | The `role_map` comprehension as a fold over the show's roles. Its meaning is stated by `Export.RoleMapMeaning`. |
| `Export.RoleMapMeaning` | app.py:168-171 | `role_map` has exactly the show's role names as keys. Each key maps to the names of the last entry for that role. |
| `Export.RoleMapKeys` | app.py:168-171 | The keys of `role_map` are exactly the role names of the show. |
| `Export.RoleMapLast` | app.py:170-171 | Each role maps to the names of its last entry, since a later entry overwrites an earlier one. |
| `Export.Pair` | app.py:175-178 | `role_map.get(role, ["", ""])[:2]`: two blanks for an absent role, otherwise the first min(2, n) names of the role. |
| `Export.First` | app.py:177-180 | `role_map.get(role, [""])[0]`: fails with IndexError exactly for a present role with no names. Otherwise it is the first name, or "" for an absent role. |
| `Export.ExportRow` | app.py:173-181 | The `row` list of one show, evaluated left to right. Its meaning is stated by `Export.ExportRowFails`, `Export.ExportRowShape`, `Export.RowParts`, `Export.ShortSeatingShifts` and `Export.ExportRowAligned`. |
| `Export.ExportRowFails` | app.py:177-180 | A row fails with IndexError exactly when "jolly joker", "ruhatár jobb" or "ruhatár erkély" is present with an empty list; the error's role tag is the first of them in column order. |
| `Export.ExportRowShape` | app.py:173-181 | A successful row starts with title and date and has between 5 and 11 cells. It has 11 exactly when every two-column role is absent or has at least two names. Where the later cells of a shorter row go is stated by `Export.RowParts` and `Export.ShortSeatingShifts`. |
| `Export.RowParts` | app.py:173-181 | Where every cell of a successful row goes. Let s, p and l be how many seating, pager and left-cloakroom names the row holds: at most two each, fewer when the role has fewer, and two blanks for an absent role. The row then has 5 + s + p + l cells: title and date, the s seating names, the p pager names, the joker, the l left-cloakroom names, the right cloakroom and the balcony. Each cell holds the value meant for that role and slot, and no blank stands in for a missing name. |
| `Export.ShortSeatingShifts` | app.py:173-181 | With exactly one seating name, the row is one cell short and every cell from "nézőtér beülős 2" onwards holds the value meant for the next column to its right. |
| `Export.ExportRowAligned` | app.py:157-181 | In an 11-cell row, every cell holds the name its column is for, or "" for an absent role. |
| `Export.AlignedCells` | app.py:173-181 | In an 11-cell row built from its parts, cell c + 2 holds the intended value of column c. |
| `Export.ShiftedCells` | app.py:173-181 | In a row built from its parts with one seating name and full pager and left-cloakroom lists, cell c holds the intended value of column c - 1 from cell 3 on. |
| `Export.HeadersLabelColumns` | app.py:157-164 | The header has the title and date columns plus one per role slot, and each slot column's header starts with its role's name. |
| `Export.ExportSheet` | app.py:165-182 | The sheet is the header followed by one row per show, in order. It succeeds exactly when every row does; otherwise it fails with the error of the first failing show. |

## Left out

- The scheduling algorithm (eligibility, fairness choice, per-show filling): `app.py` does not contain it (`generate_schedule`, app.py:125-127, only renders).
- Flask routes, redirects, templates, login, sessions and password hashing (app.py:15-33, 81-105, 116-127, 148): HTTP and library plumbing with no data rules.
- `Stats.StatsOf`: the result is a `map`, so the order of the rows is lost. A Python dict keeps insertion order, so the stats page at app.py:148 lists each roster name where it first appears in the roster; the model does not state that order.
- `import_file` (app.py:70-78) and the workbook, temporary file and download in `export_xlsx` (app.py:153-155, 184-188): openpyxl and file I/O. The model stops at the list of row values.
- Roster rows are typed records with a text `név`. A row without a `név` column (a KeyError at app.py:113 and app.py:134) and non-text names are not modelled. A missing `ÉK` column is modelled as `None`.
- Schedule entries are typed records. Missing `cím`, `dátum`, `szerepek`, `szerep`, `kiosztott` or `név` keys are not modelled. A missing `watched` key reads as false, as `d.get("watched")` does.
- Cell values: booleans and floats other than NaN are not modelled (floating point; Python's `True == 1` key equality). NaN is a tag, not a float. The `datetime.date`, `datetime.time` and `timedelta` values openpyxl can also return are not modelled either; `normalize_date` would send them down the `str(value)[:10]` branch.
- `Cells.DateText`: pads years below 1000 to four digits, as `str(datetime)` does. Older C libraries leave `%Y` unpadded, and that platform-dependent behaviour is not modelled.
- `Cells.Str`: a datetime prints without microseconds; the `.ffffff` suffix Python adds for non-zero microseconds is not modelled.
- Day-of-month validity (e.g. 30 February) is not enforced on `DateTime`; no rule here depends on it.
