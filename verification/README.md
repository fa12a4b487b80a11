# Digital business cards: the roster core in Dafny

This project models the data layer of a small business-card manager. The
application keeps one roster of employee contact cards. The roster comes from
one of two places, chosen by a single configured URL:

- **Local mode** (empty URL): the roster lives in browser storage. It is seeded
  with three sample cards on first use, and every add, update and delete
  rewrites the whole stored list.
- **Sheet mode** (non-empty URL): the roster is a published spreadsheet fetched
  as comma-separated text. It is decoded, normalised into full records and is
  read-only. A failed fetch falls back to the local roster and sets an error
  message.

The model is functional. Every controller operation is a pure transition over
a `State` record: the URL in force, the roster, the last error, the stored
configuration value and the stored roster. Everything the program gets from
outside is a parameter: the fetch outcome, the clock, the fresh id and whether
a storage write goes through.

Modules, leaf first:

- `JsText` (`jstext.dfy`): the JavaScript string primitives the decoder relies
  on. `trim` uses the ECMAScript whitespace set, `split` takes a one-character
  separator, `replace(/\r$/, '')` strips one carriage return, and non-negative
  integers render in decimal. Each comes with its partner: trim is
  characterised and unique, split inverts join, and decimal rendering has a
  parser that inverts it.
- `Csv` (`csv.dfy`): `parseCSV`. It has no quoting, so commas only ever
  separate. The first line names the columns. Blank data lines are dropped.
  Values are zipped to headers by column index.
- `Employees` (`employees.dfy`): the record type and the normalisation of a
  decoded row, including id synthesis.
- `Storage` (`storage.dfy`): the local store adapter and its three-card seed.
- `Roster` (`roster.dfy`): the controller. It covers the mode, the loads, the
  mode-gated mutations, lookup, sync and URL changes.
- `RosterLemmas` (`roster_lemmas.dfy`): properties that relate several
  operations.
- `Scenarios` (`scenarios.dfy`): two small payloads decoded end to end.
- `Wrappers` (`wrappers.dfy`): `Option`.

Three facts about the code that a reader might expect otherwise:

- Ids are not guaranteed unique within the roster. Sheet-supplied ids may
  repeat, or may equal an id made up for another row. The model proves only
  that made-up ids of different rows differ.
- Nothing guards against stale fetch responses: a late answer to an earlier
  load still replaces the roster. The model does not claim such a guard.
- The `replace(/\r$/, '')` applied after `trim()` to headers and values never
  changes anything, because `trim()` already removes a trailing carriage
  return (`JsText.StripAfterTrimIsIdentity`).

## Model

| member | source | states |
|---|---|---|
| `JsText.TrimCharacterised` | contexts/EmployeeContext.tsx:11 | `trim` removes a whitespace prefix and a whitespace suffix and leaves neither end whitespace; the result is empty exactly when the whole string is whitespace |
| `JsText.TrimUnique` | contexts/EmployeeContext.tsx:11 | any cut of whitespace from both ends that leaves no edge whitespace is the trim, so `Trim` is the only function meeting that description |
| `JsText.TrimOfTrimmed` | contexts/EmployeeContext.tsx:15 | a string with no whitespace at either end trims to itself |
| `JsText.TrimIdempotent` | contexts/EmployeeContext.tsx:15 | trimming twice gives the same as trimming once |
| `JsText.Trim` | contexts/EmployeeContext.tsx:11 | `trim` cuts a whitespace prefix and a whitespace suffix (ECMAScript WhiteSpace and LineTerminator) and leaves neither end whitespace; the result is empty exactly when the whole string is whitespace |
| `JsText.TrimKeepsCharacters` | contexts/EmployeeContext.tsx:26 | trimming introduces no character, so a cell without commas stays without commas |
| `JsText.StripTrailingCR` | contexts/EmployeeContext.tsx:15 | `replace(/\r$/, '')` removes at most one carriage return, and only at the very end |
| `JsText.StripAfterTrimIsIdentity` | contexts/EmployeeContext.tsx:26 | after `trim()` there is no trailing carriage return left, so the `replace` never changes a header or a value |
| `JsText.Split` | contexts/EmployeeContext.tsx:22 | `split` on one character gives at least one part; no part holds the separator; joining the parts with it rebuilds the input |
| `JsText.SplitJoin` | contexts/EmployeeContext.tsx:11 | splitting a join of separator-free parts gives the parts back, so `split` is the inverse of `join` |
| `JsText.SplitAppend` | contexts/EmployeeContext.tsx:22 | splitting at a separator splits the two sides independently |
| `JsText.Decimal` | contexts/EmployeeContext.tsx:97 | the template literal's rendering of an index or timestamp is a non-empty run of digits with no dash |
| `JsText.DecimalRoundTrip` | contexts/EmployeeContext.tsx:97 | parsing the decimal rendering of a number gives the number back |
| `JsText.DecimalInjective` | contexts/EmployeeContext.tsx:97 | different numbers render differently |
| `Csv.CleanCell` | contexts/EmployeeContext.tsx:15 | cleaning a header token or a value (trim, then strip `\r`) is exactly the trim and leaves no edge whitespace |
| `Csv.Headers` | contexts/EmployeeContext.tsx:15 | one header per comma-separated token of the first line, each the trimmed token |
| `Csv.Cell` | contexts/EmployeeContext.tsx:26 | a value is the trimmed cell in its column, or `''` when the line has no cell there |
| `Csv.LastColumn` | contexts/EmployeeContext.tsx:24-31 | finds the last of the first `n` columns carrying a header, or reports none |
| `Csv.Reduce` | contexts/EmployeeContext.tsx:24-31 | the keys of a row are exactly the non-empty headers; each key holds the cleaned cell of its last column, or `''` past the end of the line |
| `Csv.ParseLine` | contexts/EmployeeContext.tsx:22-31 | every key of a decoded line is a non-empty header, and no value has whitespace at either end or a comma anywhere |
| `Csv.ParseLineKeys` | contexts/EmployeeContext.tsx:27-29 | a key is in a decoded row exactly when it is a non-empty header |
| `Csv.ParseLineValue` | contexts/EmployeeContext.tsx:26 | a header's value is the trimmed cell in its column, or `''` when the line has fewer columns |
| `Csv.ReduceReadsOwnColumns` | contexts/EmployeeContext.tsx:24-31 | a row's entry depends only on the cells in its header columns |
| `Csv.ExtraColumnsIgnored` | contexts/EmployeeContext.tsx:22-31 | appending more cells to a line that already fills every header column leaves its entry unchanged |
| `Csv.IsBlankIsEmptyTrim` | contexts/EmployeeContext.tsx:19 | the skipped lines are those whose trim is empty, that is, the all-whitespace lines |
| `Csv.NonBlankLines` | contexts/EmployeeContext.tsx:17-19 | keeps as many lines as there are non-blank ones, and none of them is blank |
| `Csv.NonBlankLinePlacement` | contexts/EmployeeContext.tsx:34 | the non-blank line at position `i` ends up after exactly the non-blank lines before it |
| `Csv.DataLineOf` | contexts/EmployeeContext.tsx:34 | every kept position comes from a non-blank line with exactly that many non-blank lines before it |
| `Csv.NonBlankLinesFromRows` | contexts/EmployeeContext.tsx:17-19 | every kept line is a line of the input |
| `Csv.Lines` | contexts/EmployeeContext.tsx:11 | the payload's trim split at line feeds: at least one line, no line holds a line feed, and joining them with line feeds gives the trimmed payload back |
| `Csv.ParseLines` | contexts/EmployeeContext.tsx:12-34 | fewer than two lines give no rows; otherwise one row per non-blank data line, in line order, each decoded against the first line's headers |
| `Csv.EntrySource` | contexts/EmployeeContext.tsx:17-34 | the row at any position of a decoded payload is the decoding of a non-blank data line |
| `Csv.ParsedValuesHaveNoComma` | contexts/EmployeeContext.tsx:22-26 | no decoded value contains a comma |
| `Csv.ParseCSV` | contexts/EmployeeContext.tsx:10-35 | fewer than two lines give no rows; otherwise as many rows as non-blank data lines, every row the decoding of a non-blank data line against the header line, and every non-blank data line decoded |
| `Csv.EntriesFromDataLines` | contexts/EmployeeContext.tsx:17-34 | every row of a decoded payload is the decoding of a non-blank data line |
| `Employees.Overlay` | contexts/EmployeeContext.tsx:81-92 | spreading a row over the all-empty template gives each of the nine fields the row's value, or `''` when the row lacks the key |
| `Employees.SynthesisedId` | contexts/EmployeeContext.tsx:97 | the made-up id is never empty and ends in a dash followed by the row's index |
| `Employees.IndexSuffixDetermined` | contexts/EmployeeContext.tsx:97 | an id ending in a dash and a decimal index determines that index |
| `Employees.SynthesisedIdsDistinct` | contexts/EmployeeContext.tsx:95-97 | ids made up for rows at different positions differ, whatever the rows hold and whatever the clock reads |
| `Employees.Normalise` | contexts/EmployeeContext.tsx:79-100 | every non-id field is the row's value or `''`; a supplied non-empty id is kept as it is; a missing or empty id is made up; the id is never empty |
| `Employees.NormaliseAll` | contexts/EmployeeContext.tsx:79-101 | one record per decoded row, in order, the row at position `i` normalised with index `i` and the clock reading for it |
| `Employees.SynthesisedIdsOfRosterDistinct` | contexts/EmployeeContext.tsx:94-97 | two rows of one decoded sheet that both needed a made-up id get different ids |
| `Employees.ClockOnlyReachesBareRows` | contexts/EmployeeContext.tsx:97 | the clock never changes a card, and changes nothing at all when every row has an id, a name or an email |
| `Employees.DecodeSheet` | contexts/EmployeeContext.tsx:76-101 | a payload of fewer than two lines decodes to an empty roster; otherwise one record per non-blank data line; every id is non-empty |
| `Storage.SeedCards` | services/storageService.ts:5-41 | the seed is three cards, Alex Johnson, Samantha Carter and Michael Chen in that order, with non-empty, pairwise different ids |
| `Storage.InitialData` | services/storageService.ts:5-41 | the seed roster has exactly three cards; `Storage.SeedCards` states their order, names and ids |
| `Storage.SaveEmployees` | services/storageService.ts:58-64 | a write that goes through replaces the stored value by the whole roster; a failed write leaves the storage as it was and is not reported |
| `Storage.GetEmployees` | services/storageService.ts:43-56 | no item or an empty item gives the seed and writes it; a saved roster comes back unchanged with no write; a corrupt value gives the seed and stays in place |
| `Storage.SaveThenGet` | services/storageService.ts:43-64 | a read after a successful save gives back exactly what was saved |
| `Storage.GetTwice` | services/storageService.ts:43-56 | two reads in a row give the same roster, whatever was stored and whichever writes went through |
| `Roster.FetchAndParseSheet` | contexts/EmployeeContext.tsx:67-112 | a fetched payload becomes the roster through decoding and clears the error, even when it decodes to nothing; a failed fetch takes the local store's roster and sets the fixed error message |
| `Roster.LoadLocalData` | contexts/EmployeeContext.tsx:114-119 | the roster is what the local store hands back, and the error is cleared |
| `Roster.Reload` | contexts/EmployeeContext.tsx:121-127 | the load effect reads the sheet in sheet mode and the local store otherwise |
| `Roster.IsSheetMode` | contexts/EmployeeContext.tsx:60 | `!!sheetUrl` on a string: sheet mode exactly when the URL has at least one character |
| `Roster.Mount` | contexts/EmployeeContext.tsx:58-60 | the URL starts as the configured value, or `''` when there is none; sheet mode holds exactly when that value is non-empty |
| `Roster.AddEmployee` | contexts/EmployeeContext.tsx:129-137 | ignored in sheet mode; otherwise the roster grows by one record at the end, made of the card and the fresh id; earlier records are unchanged; the new roster is saved; the URL, the stored URL and the error stay |
| `Roster.ReplaceById` | contexts/EmployeeContext.tsx:142 | same length; every record with the id becomes the updated record and every other record stays |
| `Roster.UpdateEmployee` | contexts/EmployeeContext.tsx:139-146 | ignored in sheet mode; otherwise every record with the id is replaced and the new roster is saved; the URL, the stored URL and the error stay |
| `Roster.RemoveById` | contexts/EmployeeContext.tsx:151 | no survivor carries the id, and the roster does not grow |
| `Roster.DeleteEmployee` | contexts/EmployeeContext.tsx:148-155 | ignored in sheet mode; otherwise every record with the id is removed and the new roster is saved; the URL, the stored URL and the error stay |
| `Roster.GetEmployeeById` | contexts/EmployeeContext.tsx:157-159 | nothing exactly when no record has the id; otherwise the first record that has it |
| `Roster.SyncFromSheet` | contexts/EmployeeContext.tsx:161-165 | a fresh sheet load in sheet mode and no change at all in local mode |
| `Roster.SetSheetUrl` | contexts/EmployeeContext.tsx:62-65 | the URL is always written to the configuration; the URL already in force causes no reload; any other URL reloads under the mode it selects |
| `RosterLemmas.RemoveByIdMembers` | contexts/EmployeeContext.tsx:151 | the survivors of a delete are exactly the records with another id |
| `RosterLemmas.RemoveByIdAppend` | contexts/EmployeeContext.tsx:151 | deleting works piecewise over a concatenation, so the survivors keep their order |
| `RosterLemmas.RemoveAbsentId` | contexts/EmployeeContext.tsx:151 | deleting an id no record has changes nothing |
| `RosterLemmas.RemoveByIdIdempotent` | contexts/EmployeeContext.tsx:148-155 | deleting twice is the same as deleting once |
| `RosterLemmas.LookupAfterRemove` | contexts/EmployeeContext.tsx:151-158 | after a delete the id is not found |
| `RosterLemmas.LookupAfterReplace` | contexts/EmployeeContext.tsx:142-158 | after updating an id that is present, looking it up gives the updated record |
| `RosterLemmas.ReplaceByIdIdempotent` | contexts/EmployeeContext.tsx:142 | updating twice with the same record is the same as updating once |
| `RosterLemmas.LookupAfterAppend` | contexts/EmployeeContext.tsx:133-158 | appending a record can change only the lookup of its own id, and only when that id was not already present |
| `RosterLemmas.SheetModeIsReadOnly` | contexts/EmployeeContext.tsx:129-155 | in sheet mode add, update and delete leave the whole state unchanged, roster and storage included |
| `RosterLemmas.ModeFollowsUrl` | contexts/EmployeeContext.tsx:60-65 | after a URL change the mode is sheet mode exactly when the new URL is non-empty |
| `RosterLemmas.UrlSurvivesRestart` | contexts/EmployeeContext.tsx:58-65 | the URL set is the URL a later start-up begins with |
| `RosterLemmas.AddIsPersistedAndFound` | contexts/EmployeeContext.tsx:129-137 | a local add under a fresh id can be looked up, and a later load from storage gives the old roster plus the new card at the end |
| `RosterLemmas.AddThenDeleteRestores` | contexts/EmployeeContext.tsx:129-155 | deleting the card just added under a fresh id gives back the earlier roster |
| `RosterLemmas.UpdateIsPersistedAndFound` | contexts/EmployeeContext.tsx:139-146 | a local update is persisted, and the stored roster finds the new record under its id |
| `RosterLemmas.DeleteIsPersisted` | contexts/EmployeeContext.tsx:148-155 | a local delete is persisted, and the stored roster no longer has the id |
| `RosterLemmas.LocalEditsSurviveRestart` | contexts/EmployeeContext.tsx:129-155 | after a local add, update or delete whose write goes through, a restart comes back in local mode with the edited roster |
| `RosterLemmas.FallbackIsLocalLoad` | contexts/EmployeeContext.tsx:105-108 | a failed sheet load is a local load plus the error message |
| `RosterLemmas.ShortPayloadIsEmptySheet` | contexts/EmployeeContext.tsx:11-12 | a reachable sheet whose payload has fewer than two lines empties the roster with no error and no fallback |
| `RosterLemmas.SyncTwice` | contexts/EmployeeContext.tsx:161-165 | syncing twice against an unchanged sheet and clock leaves the same roster as syncing once; an unreachable sheet falls back to the same local roster both times |
| `RosterLemmas.FirstStartSeeds` | services/storageService.ts:45-50 | the first start in local mode with empty storage gives the three seed cards, saves them, and sets no error |
| `Scenarios.IdAndNameRows` | contexts/EmployeeContext.tsx:10-35 | `"id,name\n1,Ann\n2,Bob"` decodes to two rows, each with its own id and name |
| `Scenarios.IdAndNameColumns` | contexts/EmployeeContext.tsx:79-101 | those rows become records `1`/Ann and `2`/Bob with every other field empty, whatever the clock reads |
| `Scenarios.NameRows` | contexts/EmployeeContext.tsx:10-35 | `"name\nAnn\nBob"` decodes to two rows holding only a name |
| `Scenarios.NameColumnOnly` | contexts/EmployeeContext.tsx:95-97 | those rows get the ids `Ann-undefined-0` and `Bob-undefined-1`, because the missing email renders as `undefined` |

## Left out

- React plumbing is not modelled: hooks, context, memoisation, rendering and the `isLoading` flag. The presentation pages and components are UI and routing only.
- Real `fetch`, `localStorage` and JSON are not modelled. The fetch outcome is the `Fetch` datatype: a text or a failure, where a failure covers network errors, non-ok statuses and unreadable bodies. The stored roster is the `Stored` datatype.
- Stored JSON that parses but is not an array of records is not modelled, because the source does no validation. `Saved` always holds a roster, and a value that fails to parse is `Corrupt`.
- A `getItem` call that throws is read like `Corrupt`, which is what the source's `catch` does.
- Asynchrony is not modelled. Each load is one atomic transition. Overlapping fetches and late responses are out of scope, and so is a guard against them, which the source does not have.
- `Date.now()` is a `clock` parameter, one reading per row index. `crypto.randomUUID()` is the `freshId` parameter. Both stand in for the environment and are not specified further.
- `Roster.SetSheetUrl`: a `localStorage.setItem` that throws would stop the URL from changing. This is not modelled, and every URL write is assumed to succeed.
- Header keys outside the nine record fields are dropped from the record. The source copies them onto the object with the spread, but nothing reads them. Keys such as `__proto__` that a plain object treats specially are not modelled: `Entry` is a plain map.
- Strings are sequences of Unicode scalar values, not UTF-16 code units. Nothing the decoder does depends on the difference.
- `Employees.Normalise`: it proves only that made-up ids of different rows differ, not that every id in the roster is unique. The source does not ensure uniqueness: supplied ids may repeat or match a made-up one.
- `Storage.SeedCards`: it states the names and ids of the seed. The other seed fields (title, company, phone, email, website, photo and logo URLs) are fixed by the definition of `InitialData` itself.
- Share URLs, QR codes, link prefixes, form checks, `window.confirm`, the clipboard and `console.error` are presentation or diagnostics, so they are left out.
