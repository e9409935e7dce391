# gold-dashboard document store, PIN guards and spot-price history

A Dafny model of the backend logic of a personal precious-metals tracker (`api.php`).
The backend keeps one JSON document (`assets`, `coins`, `priceHistory`) in a data file.
It guards access with a hashed 4-byte PIN kept in a separate file. Once a day it
appends the gold/silver spot price to the document's price history.

Modules:

- `Wrappers` (wrappers.dfy): `Option`.
- `Json` (json.dfy): decoded JSON values and PHP's falsiness test (`?:`, `empty()`).
- `Dates` (dates.dfy): `YYYY-MM-DD` dates ordered lexicographically. It also proves that
  this order is the numeric order of year, month and day, which is the calendar order
  on real calendar dates.
- `PriceHistory` (price_history.dfy): price entries, the stable sort by date that
  `usort` performs, per-date filtering and counting, and the history invariant (sorted,
  at most one entry per day).
- `SpotHistory` (spot_history.dfy): the "update spot history" action. It is the method
  `UpdateSpotHistory`, with the source's found-flag loop, proved equal to the reference
  function `Refresh`. The action's properties are lemmas about `Refresh`.
- `Auth` (auth.dfy): `isPinValid`, `handleSetPin`, `handleLogin`.
- `DataFile` (data_file.dfy): `readDataFile` as a function, and `writeDataFile` as a
  class `DataStore` with two slots, the data file (`final`) and its `.tmp` sibling. It
  also holds `handleGetData` and `handleSaveData`.

Nondeterministic outcomes are parameters of the model: whether `fopen` or `rename`
succeeds, whether the PIN directory is writable, what the quote provider returns, what
`password_hash` produces and what `password_verify` answers. Today's date is a
parameter too.

The model follows the code as written, including these behaviours:

- An entry dated today only prevents the fetch when it is the LAST entry
  (api.php:234). If today's entry sits elsewhere, for example because the history
  holds a later date, the provider is asked again. A failed fetch is then reported as
  a failure, although nothing would have been appended (`RefreshExistingDate`,
  `RefreshTwiceSameDay`).
- A quote is rejected only when `items[0]` is missing (api.php:236). Missing
  `xauPrice`/`xagPrice` are recorded as `null` and are not treated as a failed fetch.
- The PIN check is `strlen($pin) === 4`: four BYTES of any kind, not four digits.
- `writeDataFile` has nothing to clean up when `fopen` fails, and it never checks
  `fwrite`. The temporary file is removed only when `rename` fails.

## Model

| member | source | states |
|---|---|---|
| `Dates.OnOrBeforeTotalOrder` | api.php:255-257 | the date order used to sort the history is total, antisymmetric and transitive, so the comparator is consistent |
| `Dates.IsoDateOrder` | api.php:255-257 | on `YYYY-MM-DD`-shaped strings the lexicographic order is the order of the numbers YYYYMMDD; on real calendar dates that is the order `strtotime` gives |
| `PriceHistory.SortByDate` | api.php:255-257 | the `usort` call with the date comparator: the result has as many entries as the input (sorted, permutation and stability are the three lemmas below) |
| `PriceHistory.SortByDateSorted` | api.php:255-257 | after `usort` the history is non-decreasing by date |
| `PriceHistory.SortByDatePermutation` | api.php:255 | `usort` only reorders: the result is a permutation of its input |
| `PriceHistory.SortByDateStable` | api.php:255-257 | `usort` is stable: entries of one date keep their relative order |
| `PriceHistory.InvariantStrictlyIncreasing` | api.php:239-257 | a sorted history with at most one entry per day is strictly increasing by date |
| `SpotHistory.QuoteUsable` | api.php:236 | definition: the reply is truthy and `items[0]` is set; nothing else of the reply is checked |
| `SpotHistory.TodayEntry` | api.php:250-254 | the appended entry is dated today; its gold is `xauPrice` and its silver `xagPrice` when present, `null` when missing |
| `SpotHistory.Refresh` | api.php:224-269 | reference definition of one run: a fetch happens exactly when the last entry is not dated today; failure exactly when a fetch happens and the reply is unusable; a write exactly on "updated"; the history is unchanged unless updated, and then grows by one entry |
| `SpotHistory.UpdateSpotHistory` | api.php:224-269 | the last-entry check, the quote check, the found-flag scan, the append and the sort give exactly the answer, history, fetch flag and write flag of `Refresh`; on "updated" the history is sorted and has one entry dated today |
| `SpotHistory.RefreshShortCircuit` | api.php:227-234 | when the last entry is dated today there is no fetch and no write, the history is unchanged, and the answer is "already up to date" |
| `SpotHistory.RefreshFetchFailure` | api.php:235-236 | a null reply or one without `items[0]` gives "failed" after the fetch, with no write and the history unchanged |
| `SpotHistory.RefreshExistingDate` | api.php:239-249 | an entry dated today anywhere prevents any append and any write; the answer is "already up to date" exactly when the last entry is today or the quote is usable |
| `SpotHistory.RefreshUpdated` | api.php:249-259 | on "updated": one write, a permutation of the old history plus today's entry, sorted, exactly one entry dated today, every other date's entries unchanged and in order |
| `SpotHistory.RefreshPreservesInvariant` | api.php:239-257 | a sorted history with at most one entry per day stays so after any run |
| `SpotHistory.RefreshRecordsToday` | api.php:229-257 | every run that does not fail leaves an entry dated today |
| `SpotHistory.RefreshTwiceSameDay` | api.php:229-269 | two runs the same day write at most once; when either run updates, today ends with exactly one entry, and a history with at most one entry for today keeps at most one; after an update by the first run the second run changes nothing and says "already up to date" when its quote is usable, or without fetching when no entry is dated after today |
| `SpotHistory.RefreshFromEmpty` | api.php:224-269 | from an empty history the first run records `[today, gold, silver]` and a second run answers "already up to date" without a fetch |
| `Json.Falsy` | api.php:126 | definition: PHP's falsy values (`null`, `false`, `0`, `0.0`, `""`, `"0"`, an empty array), the test made by `?:` at api.php:126 and `empty` at api.php:99 |
| `Auth.Authenticated` | api.php:219 | definition: the guard `isset($input['pinHash']) && isPinValid(...)`, also at api.php:158 and api.php:172 |
| `Auth.IsPinValid` | api.php:97-104 | a session hash is valid exactly when the PIN file exists and the hash equals its content, a string that is neither `""` nor `"0"` |
| `Auth.Utf8Length` | api.php:66 | `strlen` counts UTF-8 bytes: between one and four per character |
| `Auth.PinAccepted` | api.php:66 | definition: the PIN is set and `strlen` of it is 4 |
| `Auth.PinAcceptedByBytes` | api.php:66 | an ASCII PIN passes exactly when it has four characters, digits or not; two 2-byte letters pass; three digits do not |
| `Auth.SetPin` | api.php:56-77 | guard order existing PIN, directory permission, PIN length; an existing PIN is never overwritten; the file changes only on success and then holds the new hash |
| `Auth.Login` | api.php:79-95 | no PIN file, missing PIN, wrong PIN and success are told apart; success returns the stored hash |
| `Auth.SetPinThenLogin` | api.php:56-104 | after a PIN is set, logging in with it returns the new hash, which authenticates requests unless it is `""` or `"0"` |
| `DataFile.ReadDataFile` | api.php:110-127 | a missing file, a failed open, a parse error or a falsy decoded value give `{assets:[], coins:[], priceHistory:[]}`; otherwise the decoded value is returned unchanged; the result is never falsy |
| `DataFile.FalsyPayloadReadsAsEmpty` | api.php:126 | a stored document PHP treats as falsy is read back as the empty document |
| `DataFile.DataStore.OpenTmp` | api.php:137-140 | opening the temporary file empties it or fails; the data file is untouched |
| `DataFile.DataStore.FillTmp` | api.php:142-146 | the encoded document is written to the temporary file only |
| `DataFile.DataStore.ReplaceFinal` | api.php:151-154 | a successful rename moves the temporary content into the data file; a failed one removes the temporary file and keeps the data file |
| `DataFile.DataStore.WriteDataFile` | api.php:133-155 | success exactly when open and rename succeed, and then the data file holds the new document, which reads back unchanged when PHP treats it as truthy (see `FalsyPayloadReadsAsEmpty`), with no temporary file left; on a failed rename the temporary file is gone and the data file is unchanged; on a failed open nothing changes |
| `DataFile.DataStore.SaveData` | api.php:171-183 | only an authenticated request with a payload writes; it replaces the whole document; a rejected or failed save leaves the data file as it was; a failed open gives the temporary-file error with the temporary file unchanged, a failed rename gives the replace error with the temporary file removed |
| `DataFile.GetData` | api.php:157-169 | the document is returned exactly to authenticated requests, and it is what `readDataFile` gives: the empty document for a missing, unopenable or unparseable file, never falsy, and the stored document when that one is truthy |

## Left out

- Request handling: decoding `php://input`, the action `switch`, `header`, `echo` and
  `exit` (api.php:9-43). Each handler's answer is an outcome value instead.
- `handleStatus` (api.php:47-54) only reports `file_exists` and `is_writable`. It makes
  no decision of its own and is not modelled.
- `fetchSpotFromExternal` (api.php:189-216) is a network client. Only its result enters
  the model, as `Option<SpotData>`. `None` covers a transport error, an HTTP error
  status and an undecodable body.
- The glue around the refresh inside `handleUpdateSpotHistory`: the authentication
  guard (api.php:219-222, which is `Auth.Authenticated`), reading the document, and
  taking `priceHistory` out of an arbitrary decoded value and putting it back. The
  refresh works on the history itself. Its write is `WriteDataFile`, whose failure the
  source turns into an error answer (api.php:271-274).
- History entries without a `date`, or with a date that is not a string, are not
  modelled: a date is always a string. `items[0]` is modelled by the two fields read
  from it. A string `items[0]`, on which PHP 8 raises an error, is not modelled. Any
  other scalar `items[0]` reads both prices as `null`, which is `Rates(None, None)`.
- `strtotime` is replaced by lexicographic order. On real calendar dates in `YYYY-MM-DD`
  form the two agree (`Dates.IsoDateOrder`). They differ on other strings. They also
  differ on impossible dates such as `2024-02-30`, which `strtotime` rolls over to
  `2024-03-01`. For the comparator that date then ties with `2024-03-01`, and the stable
  `usort` keeps the two in their input order. The model instead orders them by their
  digits. Such dates can reach the history through save_data, which stores any payload.
- JSON encoding and decoding are abstract: a file holds the encoding of a value, which
  decodes back to that value, or text that does not decode. Pretty-printing, and a
  `json_encode` that fails (nesting deeper than 512), are not modelled. Floats are
  exact decimals and are never computed with. The read-back promised by
  `WriteDataFile` holds under this abstraction only. In PHP an object with keys `"0"`,
  `"1"`, … decodes to a plain list and re-encodes as a JSON array, and an empty object
  re-encodes as `[]`.
- `flock`, `fflush`, `fclose` and `chmod` are not modelled. They only matter for
  concurrency and permissions. Concurrent requests are not modelled either: atomic
  replacement is captured only by the data file changing in a single step.
- DataFile.DataStore.FillTmp: always writes the whole document. The source ignores the
  result of `fwrite`, so a short write would be installed by the rename.
- `password_hash`, `password_verify` and `hash_equals` are foreign calls. The hash is a
  parameter, verification is a function parameter, and `hash_equals` is string equality.
- Auth.IsPinValid: a session hash that is not a string makes PHP 8's `hash_equals`
  raise an error. The model treats it as not matching. Both ways, no data is touched.
- Auth.SetPin: the PIN is taken as a string. PHP converts a numeric PIN to its decimal
  string before `strlen`, and that conversion is not modelled. A failed
  `file_put_contents` is assumed to leave no PIN file behind.
- Auth.Login: the PIN is taken as a string as well. `password_verify` converts a
  numeric PIN to its decimal string, and that conversion is not modelled.
- PHP 8.0 or later is assumed throughout: a stable `usort`, and the TypeErrors raised
  by `hash_equals` and by string offsets.
- The PIN file always reads back its content. A failing `file_get_contents` on an
  existing file is not modelled.
- `date('Y-m-d')` is the parameter `today`.
