# Property records: client state and ownership tables

A small real-estate records application. A React page lists properties, lets the
user add, edit, delete and expand them, and talks to a FastAPI server over HTTP.
A loader script reads the property sheet from Excel, cleans its column names,
numbers the owners and derives a property/owner ownership table by substring
matching. This project models the two pieces of sequential logic in it:

- **The property table's client state** (`frontend/src/Properties.js`). It holds:
  - the list of property records;
  - a single edit slot: `editRowId` and its `editFormData` buffer;
  - a single expanded-row slot, `dropdownRowId`;
  - the `refresh` flag;
  - the add-property form, `newProperty`.

  Each handler is a step function on the `View` datatype (module `Properties`).
  The class `Properties.PropertiesView` keeps the same state in fields, and each
  of its methods performs one step in place. The add handler builds its payload
  with two in-place loops, modelled as the methods `NormalizeBlanks` and
  `ConvertNumeric`, and with the `reduce` that finds the next asset number
  (`MaxParsed`, `NextAssetNum`). JavaScript values, `parseInt(v, 10)` and
  `parseFloat` are in module `JsValues`.
- **The table derivation** (`backend/database.py`), in module `Database`:
  - the column-name cleanup (`strip`, `lower`, spaces to underscores);
  - the numbering of the owners 1..n;
  - the nested loops that emit an (asset, owner id) pair whenever an owner code
    occurs in a row's `owned_by` text.

Network calls are not modelled. A handler returns the `Request` it would send,
and the answer it would get back is a parameter: an `ok` flag for save and
delete, and an `AddResponse` for add. The confirmation dialog is a `confirm`
parameter. Reading the sheet and writing the tables are replaced by sequences.

Four behaviours of the code are easy to miss, and the model keeps them:
- Save and cancel clear only `editRowId`. The edit buffer keeps its contents.
- The client always assigns the new property's `asset_num`. It never leaves it
  to the server.
- The add form is reset after any answer, with or without an `error`. Refresh
  flips when the answer's `error` is falsy in JavaScript's sense, so an empty
  message counts as no error (`AddErrorIsTestedForTruth`).
- The page reads each record's `asset_num`, while the loader names that column
  `asset_#` (the `"asset_#"` in `backend/api.py`). Records that lack
  `asset_num` all read as `undefined`. Clicking Edit on one of them then puts
  every such row in edit mode, and a save writes the buffer into all of them
  (`MissingIdsEditEveryRow`).

## Model

| member | source | states |
|---|---|---|
| JsValues.ParseIntTextOfIntText | frontend/src/Properties.js:92 | `parseInt` reads back the decimal text of every integer, whatever JavaScript white space comes before it and whatever non-digit text follows it |
| JsValues.ParseIntReadsText | frontend/src/Properties.js:92 | for every value, `ParseInt` is `parseInt` applied to the value's string form (`undefined` and `null` give NaN, an integer gives itself) |
| JsValues.TrimStartRemovesLeadingSpace | frontend/src/Properties.js:92 | `parseInt`'s white-space skip removes exactly the white-space prefix of the text, and what it leaves does not start with white space |
| JsValues.DigitPrefixIsLongest | frontend/src/Properties.js:92 | the digits `parseInt` reads are the longest all-digit prefix of the text |
| JsValues.DigitsValueOfDecimalText | frontend/src/Properties.js:92 | reading the decimal text of n as digits gives n back |
| JsValues.DecimalText | frontend/src/Properties.js:92 | the text of a number is non-empty and made only of digits |
| Properties.AssetNumsReadText | frontend/src/Properties.js:91-92 | the i-th parsed asset number is `parseInt` of the string form of record i's `asset_num`, so a missing or null one is NaN |
| Properties.MaxParsed | frontend/src/Properties.js:91-94 | the fold's result is at least every number that parses, and it is 0 or one of those numbers (NaN entries are skipped) |
| Properties.NextAssetNum | frontend/src/Properties.js:91-95 | the next asset number is at least 1 and greater than every parseable asset number in the list; it is 1, or 1 + one of those numbers, so it is 1 + max(0, the parseable asset numbers) |
| Properties.NormalizeBlanks | frontend/src/Properties.js:84-88 | the loop keeps the form's keys, turns every `""` into null and leaves every other value as it was |
| Properties.ConvertNumeric | frontend/src/Properties.js:98-102 | only the four numeric fields are converted, and only when not null; null stays null and every other field is unchanged |
| Properties.ConvertFieldsConverts | frontend/src/Properties.js:98-102 | converting distinct fields one after another adds exactly the listed fields that are not null, each as the `parseFloat` of its value, and leaves every other key as it was |
| Properties.PayloadOfSteps | frontend/src/Properties.js:81-102 | the three steps, as their contracts state them (blanks to null, then the asset number, then the numeric fields), compose to the declarative payload `FormPayload` |
| Properties.BuildAddPayload | frontend/src/Properties.js:81-102 | the payload built in place equals `AddPayload` (copy, blanks to null, next asset number, numeric conversion) |
| Properties.AddPayloadHasNoBlanks | frontend/src/Properties.js:84-88 | no field of the sent payload is an empty string |
| Properties.AddPayloadKeys | frontend/src/Properties.js:81-102 | a payload built from the 15-field form has exactly those 15 fields |
| Properties.AddPayloadAssetNumIsFresh | frontend/src/Properties.js:91-95 | the payload's `asset_num` parses, is at least 1 and is greater than every parseable asset number in the list |
| Properties.NextAssetNumExample | frontend/src/Properties.js:91-95 | with asset numbers 1, 3 and 4 in the list, the next one is 5 |
| Properties.MergeEdits | frontend/src/Properties.js:159-163 | the merge keeps the list's length and order; each row whose `asset_num` equals the edit id becomes itself overridden by the buffer, and every other row is unchanged |
| Properties.MergeEditsIdempotent | frontend/src/Properties.js:159-163 | merging the same buffer twice gives the same list as merging it once |
| Properties.EditClickCopiesRow | frontend/src/Properties.js:136-139 | after Edit the buffer is an exact copy of the row, and a row is in edit mode iff its `asset_num` equals the clicked row's |
| Properties.EditChangeTouchesOneField | frontend/src/Properties.js:141-147 | a change sets the named field of the buffer, and leaves every other field, the list and the edit id unchanged |
| Properties.SaveShowsBuffer | frontend/src/Properties.js:157-165 | after a successful save each edited row shows the buffer's values and keeps its own for keys the buffer lacks; other rows, the length and the order are unchanged; refresh flips; the edit slot is null |
| Properties.SaveFailureKeepsEditing | frontend/src/Properties.js:166-168 | a failed save changes nothing: the list, the edit id and the buffer stay |
| Properties.EditThenCancel | frontend/src/Properties.js:136-176 | edit, change a field, cancel: the list is as it was and the edit slot is null |
| Properties.EditThenSave | frontend/src/Properties.js:136-165 | edit, change a field, save successfully: every row with the edited id shows the new value and the edit slot is null |
| Properties.EditThenFailedSave | frontend/src/Properties.js:136-168 | edit, change a field, fail to save: the list is unchanged, the row is still in edit mode and the typed value is kept |
| Properties.MissingIdsEditEveryRow | frontend/src/Properties.js:137-161 | when no row has an `asset_num`, Edit on any row puts every row in edit mode and a save writes the buffer into every row |
| Properties.DropClickTwice | frontend/src/Properties.js:178-184 | clicking the same row twice leaves the slot on that row if it started there, and empty otherwise; so two clicks restore the state only when the slot started on that row or empty |
| Properties.DropClickOther | frontend/src/Properties.js:178-184 | clicking row A, then a different row B, leaves exactly the rows with id B expanded |
| Properties.DeleteOutcomes | frontend/src/Properties.js:56-75 | a refused confirmation sends nothing and changes nothing; a confirmed, successful delete only flips refresh; a failed delete changes nothing |
| Properties.AddOutcomes | frontend/src/Properties.js:110-132 | any answer resets the form to the blank defaults, with or without an error; refresh flips iff the answer's `error` is falsy (absent, null, "" or 0); no answer changes nothing; the list and the edit slot are untouched |
| Properties.AddErrorIsTestedForTruth | frontend/src/Properties.js:111-115 | an answer without `error`, or with an empty `error`, flips refresh; an answer with an error message does not |
| Properties.StepsKeepFormShape | frontend/src/Properties.js:12-28 | every handler keeps the add form's 15 keys |
| Properties.PropertiesView.constructor | frontend/src/Properties.js:7-28 | the component starts with an empty list, refresh false, both slots null, an empty buffer and the blank form |
| Properties.PropertiesView.HandleDeleteProperty | frontend/src/Properties.js:56-75 | sends `DELETE` with the `parseInt` of the asset number only when confirmed; the new state is `DeleteProperty` of the old one, and the add form keeps its 15 keys |
| Properties.PropertiesView.HandleAddProperty | frontend/src/Properties.js:79-134 | posts `AddPayload` of the form and the list as they were; the new state is `AddProperty` of the old one (form reset on any answer, refresh flipped iff `error` is falsy), and the add form keeps its 15 keys |
| Properties.PropertiesView.HandleEditClick | frontend/src/Properties.js:136-139 | the new state is `EditClick` of the old one, and the add form keeps its 15 keys |
| Properties.PropertiesView.HandleEditChange | frontend/src/Properties.js:141-147 | the new state is `EditChange` of the old one, and the add form keeps its 15 keys |
| Properties.PropertiesView.HandleSaveClick | frontend/src/Properties.js:149-172 | sends `PUT` of the buffer to the edit id as they were; the new state is `SaveClick` of the old one, and the add form keeps its 15 keys |
| Properties.PropertiesView.HandleCancelClick | frontend/src/Properties.js:174-176 | the new state is `CancelClick` of the old one, and the add form keeps its 15 keys |
| Properties.PropertiesView.HandleDropClick | frontend/src/Properties.js:178-184 | the new state is `DropClick` of the old one, and the add form keeps its 15 keys |
| Properties.PropertiesView.HandleNewPropertyChange | frontend/src/Properties.js:215-217 | typing into one input of the add form changes that field and keeps the form's 15 keys |
| Database.StripStart | backend/database.py:10 | the result is a suffix of the input that does not start with Python white space |
| Database.StripEnd | backend/database.py:10 | the result is a prefix of the input that does not end with Python white space |
| Database.Strip | backend/database.py:10 | the result is no longer than the input, and neither of its ends is white space |
| Database.StripStartRemovesLeadingSpace | backend/database.py:10 | everything the left strip removes is Python white space |
| Database.StripEndRemovesTrailingSpace | backend/database.py:10 | everything the right strip removes is Python white space |
| Database.StripIsTrimmedPiece | backend/database.py:10 | `strip()` returns a contiguous piece of the name, everything around which is white space, and whose ends are not white space |
| Database.CleanCharIsClean | backend/database.py:10 | a space becomes `_`, every other character is lower-cased, and the result is neither a space nor an upper-case letter |
| Database.NormalizeColumn | backend/database.py:10 | character i of a cleaned name is character i of the stripped name, lower-cased, or `_` where it is a space; so the name has no space, no upper-case letter and no white space at either end |
| Database.NormalizeColumns | backend/database.py:10 | the header keeps its number of columns, and column i becomes the cleanup of column i, which is clean |
| Database.NormalizeColumnExample | backend/database.py:10 | the header "Owned By " becomes `owned_by` |
| Database.NormalizeColumnFixedPoints | backend/database.py:10 | the cleanup leaves a name unchanged iff it is already clean |
| Database.NormalizeColumnIdempotent | backend/database.py:10 | cleaning a name twice gives the same result as cleaning it once |
| Database.BuildOwnerTable | backend/database.py:29-33 | one row per owner, in list order; row i is (i + 1, owners[i]), so the ids are 1..n, distinct and increasing |
| Database.ContainsIsSubstring | backend/database.py:62 | the `in` test holds iff the owner code occurs at some position of the text |
| Database.RowMatches | backend/database.py:60-64 | for one sheet row, at most one pair per owner, all for that row, with ids in 1..n and strictly increasing |
| Database.Matches | backend/database.py:55-64 | every pair's row is a sheet row and its owner id lies in 1..n |
| Database.RowOwnerships | backend/database.py:60-64 | the inner loop emits, in order, one (asset, owner id) table row per pair of `RowMatches` |
| Database.BuildOwnershipTable | backend/database.py:49-64 | the nested loops emit, in order, exactly one (asset, owner id) table row per pair of `Matches` |
| Database.RowMatchesIff | backend/database.py:60-64 | a pair is emitted for a row iff its owner id is in 1..n and that owner's code occurs in the row's text |
| Database.MatchesIff | backend/database.py:52-64 | the pair (row i, owner j) is emitted iff owners[j-1] occurs as a raw substring in row i's `owned_by` text, a missing cell read as "" |
| Database.MatchesInOrder | backend/database.py:55-64 | the pairs are strictly ordered by row, then by owner id, so no (row, owner) combination appears twice |
| Database.MatchesCount | backend/database.py:55-64 | the table has at most (number of rows) × (number of owners) pairs |
| Database.MissingOwnedByEmitsNothing | backend/database.py:52-64 | a row whose `owned_by` cell is empty emits no pair, as long as no owner code is empty |
| Database.RawSubstringMatch | backend/database.py:62 | matching is raw containment, not token matching: the code "SE" (owner 3) matches inside "KLOSE" |

## Left out

- The `fetch` calls, the `useEffect` re-fetch wiring and the owner-filter URL choice (`frontend/src/Properties.js:33-52`) are network I/O. Only the answers are modelled, as parameters.
- `window.confirm` and `alert` are user-interface calls. Confirmation is a boolean parameter, and alerts are dropped.
- The JSX rendering of `Properties.js` is not modelled. `App.js`, `Login.js` and `backend/api.py` are not part of this model: they are fetch, render, Basic-auth and SQL handlers with no logic of their own.
- Reading the Excel sheet, `to_sql`, `read_sql`, `print` and the database engine are library I/O. The sheet is a sequence of rows, and the tables are sequences.
- The order in which concurrent save, delete and add answers arrive, and the stale `refresh` value a late answer closes over, are concurrency. Each handler is modelled as one atomic step.
- Properties.ConvertNumeric: the number `parseFloat` yields is not modelled. A converted field is an integer left as it was or the number read from the field's text, and floating-point values are not computed.
- Properties.NextAssetNum: JavaScript numbers are modelled as unbounded integers. Asset numbers beyond 2^53 and exponent notation in `String(v)` are not modelled.
- Properties.MergeEdits: `===` is modelled as equality of values. NaN's inequality with itself and the several texts of one floating-point number are not modelled.
- JsValues.ParseIntReadsText: `parseInt` is modelled for base 10 only, the only base the code uses.
- Properties.AddProperty: an `error` member that is a boolean, an object or an array is not modelled. The values modelled are undefined, null, text and numbers.
- Database.NormalizeColumn: `lower()` is modelled for the ASCII letters only. Other Unicode case mappings are not modelled.
- Database.MatchesIff: a non-empty `owned_by` cell is modelled as text. A cell holding a number or another non-text value is not modelled.
- The key order of JavaScript objects is not modelled: records are maps.
