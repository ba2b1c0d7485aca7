# robot.js — a verified model of the service-listing robot

`robot.js` logs into the HomeServe professional portal with a headless browser,
checks that the login went through, reads the table of services on the listing
page and stores each new service in the Firestore collection `appointments`.
This project models the three parts of that run that are logic rather than
plumbing, and proves what they promise:

- **the login gate** (`Robot`): after the login attempt, a URL that still
  contains `PROF_PASS` means the login page is still shown; the run aborts
  (with `"No pudimos pasar del login."`, unless a diagnostic step throws
  first) before reading the listing or writing anything;
- **row selection and record building** (`Extraction`): a table row becomes a
  service when it has more than five cells and its trimmed first cell is
  non-empty, not NaN under `isNaN` and longer than three characters; the
  record takes that reference as `serviceNumber`, the trimmed cells 2, 3 and 4
  as `clientName`, `address` and `phone`, the status `pendingStart` and the
  clock reading as `createdAt`;
- **the insert-if-absent save loop** (`Appointments`): each extracted service,
  in list order, is written under its service number only when no document
  with that id exists; nothing is overwritten, merged or deleted.

The JavaScript built-ins these parts rely on are modelled in their own
modules: `String.prototype.trim`, `includes` and UTF-16 `length` in `JsString`,
and the NaN test of `isNaN` on strings in `JsNumber`. For a string, ToNumber
yields NaN exactly when the trimmed string is neither empty nor a
StringNumericLiteral of the ECMAScript grammar, so whether `isNaN` holds is a
matter of syntax. `JsNumber` recognises that grammar with a small scanner:
an optional sign, then `Infinity` or decimal digits with at most one point and
an optional exponent; or, without sign, `0x`/`0o`/`0b` and digits of that
radix. The numeric value itself is never used by the robot and is not modelled.

Layout: `js_string.dfy` (module `JsString`), `js_number.dfy` (`JsNumber`),
`extraction.dfy` (`Extraction`), `appointments.dfy` (`Appointments`, with the
class `AppointmentStore` holding the collection as a `map` updated in place)
and `robot.dfy` (`Robot`, the run). Extraction and saving are methods with
loops (`Extraction.Extract`, `AppointmentStore.Save`) proved against the
specification functions `ExtractSpec` and `SaveAll`; the lemmas state what
those functions guarantee.

Inputs that the source obtains from the browser or the system are parameters:
the URL after login, the table as the `innerText` of each `<td>` of each
`<tr>` (`seq<seq<string>>`), and one clock reading per row (`stamps[i]` is the
ISO-8601 text `new Date().toISOString()` would give while row `i` is read).

## Model

| member | source | states |
|---|---|---|
| `JsString.Trim` | robot.js:98 | `trim`: white space removed from both ends; what it leaves is stated by `TrimCuts`, `TrimPadded` and `TrimOfTrimmed` |
| `JsString.TrimCuts` | robot.js:98 | `trim` leaves a slice of its input with no white space at either end, having cut only white space from both ends |
| `JsString.TrimPadded` | robot.js:98 | any white space around a trimmed text (possibly empty) is removed by `trim` and nothing else: `Trim(w1 + t + w2) == t` |
| `JsString.TrimOfTrimmed` | robot.js:98 | trimming is idempotent on a trimmed string, so the reference `ToNumber` re-trims is the stored one |
| `JsString.Includes` | robot.js:65 | `url.includes(p)` is true exactly when `p` occurs at some index of `url` |
| `JsString.Utf16Length` | robot.js:99 | the JavaScript `length`: one UTF-16 code unit per character of the Basic Multilingual Plane, two per character above U+FFFF; bounded by `Utf16LengthBounds` |
| `JsString.Utf16LengthBounds` | robot.js:99 | the JavaScript `length` counts one or two code units per character, exactly one for characters of the Basic Multilingual Plane |
| `JsNumber.IsNaN` | robot.js:99 | `isNaN` on a string: the trimmed string is non-empty and not a StrNumericLiteral as recognised by `Scan`; its consequences are the lemmas below |
| `JsNumber.DigitsAreNotNaN` | robot.js:99 | a non-empty string of decimal digits passes `!isNaN` |
| `JsNumber.NumericLiteralChars` | robot.js:99 | every character of a StrNumericLiteral is an ASCII literal character: no `/`, no white space. A string that passes `!isNaN` is such a literal once trimmed, as `ref` is |
| `JsNumber.NotNaNExamples` | robot.js:99 | `"1e3"`, `"0x1F"`, `"-12.5"` and `"Infinity"` also pass the numeric test, so references are not digits-only; a first cell `Infinity` is accepted and saved under that id |
| `JsNumber.NaNExamples` | robot.js:99 | `"NaN"`, `"12/34"`, `"."` and `"-0x1F"` fail the numeric test |
| `Extraction.IsServiceReference` | robot.js:99 | the reference test: `ref` is non-empty, not NaN and longer than three UTF-16 code units |
| `Extraction.RowAccepted` | robot.js:96-99 | a row is taken when it has more than five cells and its trimmed first cell passes the reference test; `DigitRowAccepted` and `ReferenceShape` state what that admits |
| `Extraction.RowService` | robot.js:100-107 | the record pushed for a taken row: trimmed cell 0, 2, 3, 4, status `pendingStart`, the row's clock reading |
| `Extraction.Emitted` | robot.js:96-109 | the callback for one row pushes at most one record |
| `Extraction.ExtractSpec` | robot.js:93-111 | the records collected by the `forEach`: never more records than rows; fully described by `ExtractFromOrigins` and `OriginsAreServiceRows` |
| `Extraction.Extract` | robot.js:92-112 | the `forEach` over the rows returns exactly the records of the extraction specification, built by appending one record per accepted row |
| `Extraction.OriginsAreServiceRows` | robot.js:95-99 | the rows that yield a record are exactly those with more than five cells and an accepted trimmed first cell, listed once each in increasing table order |
| `Extraction.ExtractFromOrigins` | robot.js:93-110 | there is exactly one record per accepted row, in table order; record `k` is built from the `k`-th accepted row and its clock reading |
| `Extraction.ExtractAppend` | robot.js:95-110 | extracting a table made of two parts gives the records of the first part followed by those of the second: no reordering, no record removed for repeating an earlier one |
| `Extraction.ExtractStampsOnlyCreatedAt` | robot.js:100-107 | the clock readings affect only `createdAt`: with other readings the same table gives the same number of records, equal in every other field |
| `Extraction.DuplicatesKept` | robot.js:95-110 | two accepted rows with the same reference give two records with that service number |
| `Extraction.ExtractedRecords` | robot.js:98-106 | every record has status `pendingStart`, a trimmed service number that is not NaN and longer than three characters, all ASCII literal characters, and trimmed client name, address and phone |
| `Extraction.ReferenceShape` | robot.js:98-99 | an accepted reference is trimmed, longer than three characters and ASCII, and its JavaScript length equals its character count |
| `Extraction.DigitRowAccepted` | robot.js:97-99 | a row of more than five cells whose trimmed first cell is four or more decimal digits is accepted |
| `Appointments.InsertIfAbsent` | robot.js:118-121 | one pass of the loop: the ids become the old ids plus the service number, and every existing document keeps its value |
| `Appointments.SaveAll` | robot.js:117-124 | the collection after the loop: no id is lost; fully described by `SaveAllKeys`, `SaveAllKeepsExisting` and `SaveAllFirstWins` |
| `Appointments.Writes` | robot.js:119-121 | the `set` calls of the loop, in order; described by `WritesAreNew`, `WritesDistinct` and `WritesKeys` |
| `Appointments.AppointmentStore.Exists` | robot.js:118-120 | `doc(id).get()` then `.exists` is true exactly when the collection has a document with that id |
| `Appointments.AppointmentStore.Set` | robot.js:121 | `doc(id).set(data)` replaces the document under `id` whole and records one write |
| `Appointments.AppointmentStore.Save` | robot.js:117-124 | the save loop leaves the collection equal to `SaveAll` of the old collection and the list, and issues exactly the writes `Writes` lists |
| `Appointments.SaveAllKeys` | robot.js:117-124 | after saving, the ids are the old ids plus every extracted service number: nothing is deleted and nothing else is added |
| `Appointments.SaveAllKeepsExisting` | robot.js:118-121 | a document that existed before the loop keeps its value |
| `Appointments.SaveAllFirstWins` | robot.js:117-123 | under a service number that had no document, the stored record is the first one in list order carrying it |
| `Appointments.SaveAllPresent` | robot.js:119-121 | when every service number already has a document the loop changes nothing |
| `Appointments.SaveAllIdempotent` | robot.js:117-124 | running the save loop twice with the same list leaves the collection as after the first run |
| `Appointments.WritesAreNew` | robot.js:118-122 | every write goes to an id that had no document before the loop, and the collection afterwards holds exactly that written document under it |
| `Appointments.WritesDistinct` | robot.js:117-123 | no id is written twice by one save loop, even when the list repeats a service number |
| `Appointments.WritesKeys` | robot.js:117-124 | the ids after the loop are the old ids plus exactly the ids written |
| `Robot.StillOnLogin` | robot.js:64-65 | the gate: the URL after the login attempt contains `PROF_PASS` (by `JsString.Includes`, at some index) |
| `Robot.RunEffect` | robot.js:64-124 | the collection after a run: unchanged when the gate trips, else the save loop over the extracted records; no id is ever lost |
| `Robot.RunRobot` | robot.js:64-124 | a URL containing `PROF_PASS` aborts with the login error and no write; otherwise the services are extracted and saved, and the collection becomes `RunEffect` of the old one |
| `Robot.LoginPageRejected` | robot.js:41-65 | the login page's own URL fails the gate, so a login that leaves the browser where it started aborts |
| `Robot.RunSavesServiceRows` | robot.js:92-124 | after a run past the gate every accepted row's reference is an id; if it was new and no earlier accepted row had it, its document is the one built from that row |
| `Robot.RunKeepsExisting` | robot.js:117-124 | a run never changes or removes a document that existed before it |
| `Robot.RunAddsOnlyServiceRows` | robot.js:117-124 | every id a run adds is the trimmed reference of some accepted row |
| `Robot.RunIdempotent` | robot.js:100-124 | running the robot a second time on the same page, with new clock readings, leaves the collection as the first run left it |

## Left out

- Firebase initialisation, credentials from the environment and the `process.exit` calls (robot.js:6-24, 126-133): process wiring and a foreign SDK. The abort is the `LoginRejected` outcome; its exit code is not modelled.
- Browser work (robot.js:31-61, 90): launching Chromium, navigating, typing the credentials, pressing Enter and the fixed waits. Their only effect on the model is the URL after login and the listing table, both inputs.
- DOM access (robot.js:93-98): the table arrives as the `innerText` of each cell; the whitespace rules of `innerText` itself are the browser's. Because every accepted row has more than five cells, the optional chaining `?.` on cells 0, 2, 3 and 4 never meets a missing cell and is not modelled.
- The diagnostic page text and every console message (robot.js:66-81, 114, 122): logging only; the decision to abort depends on the URL alone.
- RunRobot: the rejection carries the message thrown at robot.js:83, but on the login page `document.body.innerText` (robot.js:69) or `page.$eval` on the `CODIGO` field (robot.js:80, which throws when that field is missing, the case of robot.js:59-60) may throw first with the browser's own error. The run then aborts the same way, before the listing and with no write, but with that other message; the model does not capture which message is reported.
- `new Date().toISOString()` (robot.js:106): the clock is an input, one reading per row.
- The `get` and the `set` of one pass (robot.js:119-121) are separate round trips to Firestore. The model runs them as one step on a local map, so it assumes the robot is the only writer: `SaveAllKeepsExisting`, `SaveAllFirstWins`, `WritesAreNew`, `RunKeepsExisting` and the value clause of `RunSavesServiceRows` do not hold if another client creates or changes the same document during the loop (between the robot's `get` and its `set`, or before the `get`, in which case the robot skips that id and the stored document is not its record).
- Errors raised by Firestore or the browser in the middle of the save loop: the loop is modelled as sequential calls on a local map that do not fail, so a run cut short after some writes is not modelled.
- Firestore document-id limits (at most 1500 bytes, no `/`, not `.` or `..`): an accepted reference holds no `/` (`JsNumber.NumericLiteralChars`) and is longer than three characters, so it is never `.` or `..`; its length has no upper bound in the model.
- The numeric value `ToNumber` would compute: the robot only asks whether it is NaN and stores the trimmed text as it is.
