# Receipt filename decoder — a Dafny model

The receipts tool lists files in a cloud drive whose names follow the
convention `YYYYMMDD_CUR_AMOUNT_Supplier(Local).ext`. It turns each name into
a record: date, currency, amount, English and local supplier names, and file
format. The file's id and parent ids are added. It then groups the records by
date and by local supplier name. This project models that decoding and the
key/count side of the grouping, and proves what they do.

Modules:

- `Strings` (strings.dfy): the Python primitives the decoder is built from.
  These are `str.find`, `str.rfind`, slicing with negative and clamped bounds,
  `str.split` on one character and its inverse `join`, and POSIX
  `os.path.splitext`.
- `Suppliers` (suppliers.dfy): `split_by_parenthesis`.
- `Dates` (dates.dfy): `strptime(token, "%Y%m%d").date()` for eight-digit
  tokens, and the inverse that writes a date as `YYYYMMDD`.
- `Receipts` (receipts.dfy): the decode of one name and of one listed item.
  It also holds the per-item loop of `get_google_drive_data`, as a method
  proved against the specification function `DecodeAll`. The lemmas state
  the round trip from a receipt to its file name and back.
- `Summary` (summary.dfy): the group keys and per-group counts of
  `groupby('Date')` and `groupby('Supplier_LOCAL')`.

Behaviour the naming convention does not suggest, which the model follows as written:

- A supplier field with only one parenthesis, or with `)` before `(`, is
  still sliced, because the guard only tests that both are absent. It is not
  kept whole. For example `"Acme(Local"` gives `["Acme", "Loca"]` and
  `"Acme)"` gives `["Acme", "Acme"]`.
- Segments after the fourth are ignored rather than rejected.
- The fields of the record dictionary are evaluated in order. So a bad date
  token fails first, even when the name also has too few segments. The
  missing segment is reported only after the date has been read.
- The first failing item aborts the whole loop. No records are returned and
  later items are not decoded.
- An empty listing makes `get_google_drive_data` return nothing (`None`).
  It does not return an empty table.

## Model

| member | source | states |
|---|---|---|
| `Suppliers.SplitByParenthesis` | run.py:117-123 | always two strings; a field with neither parenthesis is both the English and the local name; otherwise both parts are shorter than the field |
| `Suppliers.WellOrdered` | run.py:118-120 | first `(` at i, first `)` at j > i: the result is `[s[:i], s[i+1:j]]` |
| `Suppliers.TailIgnored` | run.py:118-120 | whatever follows the first `)` of a well-ordered field does not change the result |
| `Suppliers.CloseBeforeOpen` | run.py:118-120 | `)` before `(`: the local name is empty and the English name is the text before `(` |
| `Suppliers.OpenOnly` | run.py:118-120 | only `(`: the -1 from `find` acts as "one before the end", so the local name is `s[i+1:len-1]` (empty if `(` is last) |
| `Suppliers.CloseOnly` | run.py:118-120 | only `)` at j: the English name is the field minus its last character and the local name is `s[:j]` |
| `Suppliers.SupplierRoundTrip` | run.py:117-123 | splitting `"English(Local)"` gives back English and Local when English has no parenthesis and Local no `)` |
| `Suppliers.AcmeExample` | run.py:117-123 | `"Acme(雅高美)"` splits into `"Acme"` and `"雅高美"` |
| `Strings.Find` | run.py:118 | `find` returns the first occurrence, or -1 exactly when the character is absent |
| `Strings.Slice` | run.py:120 | Python slicing: in-range bounds slice, a negative end counts from the end, a start at or past the end gives the empty string |
| `Strings.SplitOn` | run.py:94 | `split('_')` yields at least one piece and no piece contains `_` |
| `Strings.JoinSplit` | run.py:94 | joining the pieces of `split('_')` with `_` restores the stem |
| `Strings.SplitJoin` | run.py:94 | splitting a `_`-join of `_`-free pieces returns those pieces |
| `Strings.SegmentCount` | run.py:94 | `split('_')` has one more piece than the stem has underscores |
| `Strings.RFind` | run.py:92 | `rfind` returns the last occurrence, or -1 exactly when absent |
| `Strings.SplitExt` | run.py:92 | `splitext`: root plus extension is the name; the extension is empty or a dot followed by text without `.` or `/`; no dot means no extension |
| `Receipts.Stem` | run.py:92 | the root `splitext` leaves: a prefix of the name, and the whole name when it has no dot |
| `Receipts.Segments` | run.py:94 | `stem.split('_')`: at least one piece, no piece holds `_`, and the pieces joined by `_` are the stem |
| `Strings.SplitExtOf` | run.py:92 | a slash-free stem not starting with a dot, a dot and a dot-free suffix split exactly at that dot |
| `Receipts.Extension` | run.py:92-93 | the format has no dot, and the stem, a dot and the format give back the name (or the name has no extension and the format is empty) |
| `Dates.ParseDate` | run.py:97 | tokens shorter than 6 or longer than 8 are rejected, and so is any token with an ASCII character other than a digit or a space; eight ASCII digits are always decided; a parsed date is valid and is written as exactly the token read |
| `Dates.ParseFormat` | run.py:97 | every valid date is read back from its own `YYYYMMDD` token |
| `Dates.RejectedIffNoDate` | run.py:97 | an eight-digit token is rejected exactly when no valid calendar date is written that way |
| `Dates.StrayCharacterExample` | run.py:97 | `2018-1-5` and `2018Jan5` are rejected |
| `Dates.LeapDayExample` | run.py:97 | `20190229` is rejected and `20200229` is 29 February 2020 |
| `Receipts.DecodeName` | run.py:92-105 | succeeds exactly when segment 0 is a date and there are at least four segments; a rejected date, or one the model does not decide, is reported before a missing segment; currency and amount are segments 1 and 2 unchanged; both supplier names come from segment 3; the format is the extension |
| `Receipts.DecodeItem` | run.py:96-105 | the name's error first, then a missing `parents` key; a record copies the item's id and parents unchanged |
| `Receipts.NameParts` | run.py:92-94 | a name built from `_`-joined segments, a dot and an extension is read back as those segments and that extension |
| `Receipts.DecodeReceiptName` | run.py:92-105 | decoding the name a receipt is filed under returns that receipt, whatever segments follow the fourth |
| `Receipts.ShortNameFails` | run.py:94-101 | a valid date followed by fewer than three more segments fails with the missing-segment error (with exactly two more, the code raises ValueError first when the second is not a number) |
| `Receipts.FirstFourDecide` | run.py:94-101 | names with the same extension and the same first four segments decode alike |
| `Receipts.FewUnderscoresFail` | run.py:94-101 | a stem with fewer than three underscores never decodes to a receipt |
| `Receipts.AcmeReceipt` | run.py:92-105 | `20180105_USD_123.45_Acme(雅高美).pdf` decodes to 2018-01-05, USD, 123.45, Acme, 雅高美, pdf |
| `Receipts.ThreeSegmentsFail` | run.py:94-101 | `20180105_USD_12.pdf` fails with the missing-segment error: the date and the amount `12` are read, then segment 3 is missing |
| `Receipts.NoExtensionAmountFail` | run.py:92-101 | `20180105_USD_123.45_Acme` fails with the missing-segment error: the amount's decimal point is taken for the extension dot |
| `Receipts.DecodeAll` | run.py:89-106 | the decode of a listing, item by item in order: never "no files"; a table has the fixed header and one record per item; an abort names an item of the listing |
| `Receipts.DecodeAllTable` | run.py:89-106 | a fully decoded listing has the fixed header and exactly one record per item, in listing order, each the item's own decode |
| `Receipts.DecodeAllAborted` | run.py:91-106 | an aborted listing names the first failing item and its error; every earlier item decoded |
| `Receipts.DecodeAllTableIff` | run.py:91-106 | the listing decodes exactly when every item decodes |
| `Receipts.AbortedStays` | run.py:91-106 | items after a failure change nothing, so no partial table is returned |
| `Receipts.DecodeLoop` | run.py:84-114 | the loop appends one record per item and stops at the first failure; its result is the specification `DecodeAll`, or "no files" for an empty listing |
| `Receipts.ReadListing` | run.py:84-114 | `get_google_drive_data` from the listing on: "no files" exactly for an empty listing, otherwise `DecodeAll` with the item decoder |
| `Summary.CountBy` | run.py:140 | one group per distinct key and none for absent keys; each count is the key's multiplicity and at least 1 |
| `Summary.CountByPermutation` | run.py:140 | the groups depend only on the multiset of keys, not on record order |
| `Summary.ByDate` | run.py:140 | the date groups are exactly the dates present; each count is the number of records with that date, which is pandas' count when no amount is NaN |
| `Summary.BySupplier` | run.py:144 | the supplier groups are exactly the local names present; each count is the number of records with that name, which is pandas' count when no amount is NaN |
| `Summary.ListingDateGroups` | run.py:140 | the date groups of a decoded listing are exactly the dates its items decode to |
| `Summary.TwoGroupsExample` | run.py:140 | keys A, A, B group into A with count 2 and B with count 1 |

## Left out

- Receipts.DecodeName: does not model `float(filename_item[2])` (run.py:99). The amount stays the token `float` would read, so the model never reports an invalid amount. A name with exactly three segments and a third segment `float` rejects raises that ValueError in the code; the model reports the missing segment instead.
- Receipts.ShortNameFails: for a date followed by exactly two more segments, the code evaluates `float` on the second of them before it finds segment 3 missing, so it raises ValueError when that segment is not a number. The lemma states the missing-segment error for every such name.
- Dates.ParseDate: a token of six to eight characters made only of digits, spaces and non-ASCII characters, other than eight ASCII digits, gives `NotModelled`. Examples are `2018115`, `201801 5` and tokens holding non-ASCII digits. Python's `%Y%m%d` pattern accepts some of these. Tokens of another width, tokens holding any other ASCII character, and eight ASCII digits are decided exactly.
- Strings.SplitExt: follows the POSIX `os.path` rules (a `/` separator, leading dots of a hidden file). The Windows rules, with `\` and drive letters, are not modelled.
- Credential acquisition and storage (run.py:29-58, google_drive_api_files_wrapper.py:25-54): filesystem and OAuth I/O through external libraries.
- Building the Drive service and running the listing query (run.py:67-82, google_drive_api_files_wrapper.py:57-74). The listed items are the input of `ReadListing`. Only the first page is read by the code, and the model takes that page as given.
- The console output of `get_google_drive_data` and `main` (the `print` calls).
- The DataFrame built from the table (run.py:129), which keeps only the header columns. Also the CSV output (run.py:135-136) and the minimum and maximum date (run.py:130).
- Summary.ByDate: the counts assume that no amount token reads as NaN. pandas' `count` skips NaN amounts, so a token such as `nan` makes the code's count lower than the number of records in the group, possibly 0. The model counts records.
- Summary.BySupplier: the same NaN assumption as `Summary.ByDate` applies to the supplier counts.
- Summary.ByDate, and likewise Summary.BySupplier: only the keys and counts of the aggregation. The sum, minimum, maximum and mean of the amounts (run.py:140-146) are floating point. The sorted order pandas gives the group keys is not modelled either: groups are a map.
- What `main` does with the empty-listing result (it subscripts `None`) is not modelled. `ReadListing` reports that case as `NoFiles`.
- Python 3 string semantics are assumed: `str(...)` at run.py:97, 100 and 101 is the identity on a text name. Under Python 2 it raises UnicodeEncodeError on a non-ASCII name such as `Acme(雅高美)`.
- Plotting (run.py:148-182), command-line flags (run.py:16-20) and the constants in config.py: user interface and configuration only.
