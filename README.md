# A verified model of the WITHLE listing and reservation core

WITHLE is a pet-funeral web platform. This project models its core in Dafny and proves
properties of that model. The core has four parts:

- **The CSV listing loader.** `getFuneralHomesFromCSV` turns the decoded text of the listing
  file into listing records. The file is cut into rows. Each row goes through the
  character-by-character field tokenizer `parseCSVLine`. Columns are found by exact header
  label. Every data row with a name becomes one record: a `csv-<row>` id, the `24시간` flag,
  price tiers read with `parseInt` or their defaults, and fallbacks for empty cells. Rows
  without a name are dropped. The tags, with `24시간` added, are computed but never put on the
  record (see "## Findings").
- **The listing view.** The same `filteredHomes` computation appears in the listing hook and on
  the public listing page. It copies the list and keeps the homes of the chosen category.
  `전체` keeps all, `24시간` reads the `open24h` flag, and any other category must be among
  the tags or facilities. It then sorts the copy in place by distance, rating or small-pet
  price.
- **The reservation lifecycle.**
  - The booking form files a reservation for a CSV listing as a pending "mock" reservation,
    put in front of the browser's `mock_reservations` list. Any other listing gets a pending
    database row.
  - The dashboard merges the mock and database reservations, newest first.
  - A status change goes to the stored list for a `mock-` id and to the database otherwise.
  - Each reservation shows a status badge and the status buttons.
- **The chat endpoint.** It uses the model's answer when a key is configured and the call
  works. Otherwise it gives a demo reply chosen by the first keyword the message contains.

The files follow the source:

| file | models |
|---|---|
| `js.dfy` | the JavaScript built-ins the code relies on: `trim`, `split`/`join`, `startsWith`/`includes`, `parseInt`, the `Number` coercion that `a - b` applies to strings, `toFixed(1)`, and mixed string/number ids |
| `seqs.dfy` | `filter`, and the map-then-drop-`null` pattern |
| `stable_sort.dfy` | `Array.prototype.sort`, which must be stable, with the source's subtracting comparators, as insertion sort. It holds a functional specification and the in-place array method proved against it. When every key is a number this is the one stable sorted order; with a `NaN` key it is one order the language allows (see "## Left out") |
| `homes.dfy` | the listing record |
| `csv_parse.dfy` | row splitting and `parseCSVLine` |
| `csv_loader.dfy` | `utils/csvLoader.js` |
| `listing.dfy` | the `filteredHomes` computation of both pages |
| `use_funeral_homes.dfy` | `hooks/useFuneralHomes.js` |
| `public_list.dfy` | `components/PublicFuneralHomeList.jsx` |
| `reservations.dfy` | reservations and the stored list |
| `booking_modal.dfy` | `components/BookingModal.jsx` |
| `admin_dashboard.dfy` | `app/admin/dashboard/page.jsx` |
| `chat_route.dfy` | `app/api/chat/route.js` |

State that the components change in place is modelled as classes with those fields:

- the hook's `homes`, `isLoading`, `activeFilter` and `activeSort`;
- the booking form's fields;
- the dashboard's `reservations` and `isLoading`;
- the `localStorage` entry.

Their methods state the whole new state. The sorts copy the list into an array and sort it
there, as the source does. The pure parts are functions, and each is tied to an independent
property by a lemma:

- the loop of `parseCSVLine` is proved equal to a function of the characters read;
- insertion sort is proved to be a permutation, ordered, and stable;
- the status update is proved idempotent, and to change nothing but statuses.

Three behaviours of the code are modelled as written:

- **Quotes are never stored.** In `parseCSVLine` a `"` only switches the "inside quotes" flag
  and is never stored. No field can hold a quote, so the `replace` calls that follow change
  nothing. `"Say ""hi"""` reads as `Say hi`. Section 2, rule 7 of RFC 4180 would give
  `Say "hi"`. The model follows the code (`CsvParse.EscapedQuoteExample`).
- **`24시간` may not be first.** It is put in front of the tags only when the list lacks it.
  The random tag pool contains it too, so it can stand anywhere in the list. The model proves
  that it is present, and in front exactly when it was missing.
- **Missing tags match nothing.** `home.tags?.includes(...)` on a record without tags is
  `undefined`, so such a record matches a category only through its facilities.

## Model

| member | source | states |
|---|---|---|
| Js.Trim | utils/csvLoader.js:23 | `trim` returns a slice of the input with only whitespace cut from either end, and no whitespace left at either end. It returns an already-trimmed string unchanged. It is empty exactly when the input is all whitespace |
| Js.TrimStart | utils/csvLoader.js:137 | the whitespace `parseInt` skips: a suffix of the input that does not start with whitespace, and everything dropped is whitespace |
| Js.Split | utils/csvLoader.js:23 | `split` on one character gives at least one piece, and no piece holds the separator |
| Js.JoinSplit | utils/csvLoader.js:23 | joining the pieces of a split with the separator gives the string back |
| Js.SplitJoin | utils/csvLoader.js:100 | splitting the join of separator-free pieces gives the pieces back |
| Js.IncludesAt | app/api/chat/route.js:47 | an occurrence of the keyword at any position makes `includes` true |
| Js.IncludesOccurs | app/api/chat/route.js:47 | `includes` is true only when the keyword occurs at some position; with `IncludesAt` this is an if-and-only-if |
| Js.DigitRun | utils/csvLoader.js:137 | the digits `parseInt` reads: the longest prefix of digits of the base, stopping at the first non-digit |
| Js.NatToString | utils/csvLoader.js:118 | `String(n)` is a non-empty run of decimal digits with no leading zero |
| Js.ValueOfNatToString | utils/csvLoader.js:118 | reading back the digits of `String(n)` gives `n` |
| Js.NatToStringInjective | utils/csvLoader.js:118 | different numbers print differently |
| Js.ParseInt | utils/csvLoader.js:137-139 | `parseInt` is `NaN` exactly when no digit follows the skipped whitespace, sign and hex prefix |
| Js.ParseIntDecimal | utils/csvLoader.js:137-139 | `parseInt` of whitespace, an optional sign, decimal digits and any text that does not go on with a digit is the signed value of the digits: the reading stops at the first non-digit |
| Js.ParseIntHex | utils/csvLoader.js:137-139 | `parseInt` of whitespace, an optional sign, `0x`, hexadecimal digits and any text that does not go on with one is the signed value of the digits in base 16 |
| Js.ParseIntOfDigits | utils/csvLoader.js:137-139 | `parseInt` of a decimal digit string is the number it denotes |
| Js.ParseIntNatToString | utils/csvLoader.js:137-139 | `parseInt(String(n)) == n` |
| Js.ParseIntEmpty | utils/csvLoader.js:137-139 | `parseInt('')` is `NaN`, so an empty price cell takes the default |
| Js.ToNumberDecimal | hooks/useFuneralHomes.js:49-50 | the subtraction reads `digits.digits` as the decimal number it spells |
| Js.ToNumberToFixed1 | utils/csvLoader.js:146 | reading back `(t / 10).toFixed(1)` as a number gives `t / 10` |
| Js.StartsWith | components/BookingModal.jsx:27 | `startsWith` holds for the empty prefix; a prefix is never longer than the text, and a prefix as long as the text is the text |
| Js.Includes | app/api/chat/route.js:47 | `includes` holds whenever the text starts with the keyword, and never for a keyword longer than the text |
| Js.ToNumber | hooks/useFuneralHomes.js:49-51 | the empty or blank string coerces to 0 |
| Seqs.Filter | utils/csvLoader.js:23 | `filter` keeps exactly the elements that satisfy the callback, each as many times as the input holds it, as a subsequence of the input |
| Seqs.FilterAll | utils/csvLoader.js:100 | a filter that every element passes returns the list unchanged |
| Seqs.SomeIndices | utils/csvLoader.js:148 | each value kept by `.filter(item => item !== null)` has a source position. The positions strictly increase, and every non-null position is among them |
| Seqs.SomesAgree | utils/csvLoader.js:148 | two mapped lists with `null` at the same positions, and alike position by position, keep the same number of values, alike in order |
| CsvParse.Rows | utils/csvLoader.js:23 | the rows are exactly the non-blank lines, in order, each as many times as the text has it, and none holds a line break |
| CsvParse.RowsEmpty | utils/csvLoader.js:23-26 | the empty file has no rows |
| CsvParse.RowsOfLines | utils/csvLoader.js:23 | non-blank lines joined with line breaks come back as the rows, one for one |
| CsvParse.ScanQuoteFree | utils/csvLoader.js:36-43 | no field the loop builds, closed or current, ever holds a quote |
| CsvParse.RawFields | utils/csvLoader.js:34-45 | the loop gives at least one field before clean-up, and no field holds a quote |
| CsvParse.CollapseQuoteFree | utils/csvLoader.js:39 | `.replace(/""/g, '"')` changes nothing on a quote-free text |
| CsvParse.CleanQuoteFree | utils/csvLoader.js:39 | on a quote-free field the whole clean-up is just `trim` |
| CsvParse.CleanAllQuoteFree | utils/csvLoader.js:45 | every cleaned field is its trimmed raw field |
| CsvParse.ParseLine | utils/csvLoader.js:36-45 | `parseCSVLine` gives one field per raw field. Each field is its raw field trimmed, holds no quote, and has no whitespace at either end |
| CsvParse.ParseCSVLine | utils/csvLoader.js:29-47 | the character loop, pushing fields as commas outside quotes close them, returns exactly `ParseLine(text)` |
| CsvParse.InQuotesParity | utils/csvLoader.js:36-37 | the loop's `inQuotes` flag is set exactly when it has read an odd number of quotes |
| CsvParse.FieldCount | utils/csvLoader.js:29-47 | there is one field more than there are commas with an even number of quotes before them |
| CsvParse.JoinRawFields | utils/csvLoader.js:29-47 | the raw fields joined with commas give the line with every quote deleted: the loop loses nothing but quotes |
| CsvParse.ScanAfterComma | utils/csvLoader.js:38-40 | after a comma preceded by an even number of quotes, the scan goes on as if from the start, with the earlier fields closed |
| CsvParse.SplitAtOutsideComma | utils/csvLoader.js:38-40 | when `a` holds an even number of quotes, the fields of `a`, a comma, `b` are the fields of `a` followed by the fields of `b` |
| CsvParse.QuotedRun | utils/csvLoader.js:36-42 | inside quotes every character but a quote, commas included, goes into the current field |
| CsvParse.NoCommaField | utils/csvLoader.js:34-45 | a line with no comma is one field: the line with its quotes deleted |
| CsvParse.PlainField | utils/csvLoader.js:34-45 | a field without quotes or commas reads back as itself |
| CsvParse.ParseJoin | utils/csvLoader.js:29-47 | round trip: trimmed fields without quotes or commas, joined with commas, parse back to the fields |
| CsvParse.QuotedField | utils/csvLoader.js:36-37 | a quoted field is read whole, and the scan ends outside quotes |
| CsvParse.QuotedThenPlain | utils/csvLoader.js:36-40 | a quoted field with commas inside, a comma, then a plain field give exactly those two fields |
| CsvParse.QuotedCommaExample | utils/csvLoader.js:36-38 | `"Seoul, Gangnam",x` gives `Seoul, Gangnam` and `x` |
| CsvParse.NoCommaLine | utils/csvLoader.js:34-45 | a line without commas gives one field, the line without its quotes, when that is trimmed |
| CsvParse.RemoveQuotesExample | utils/csvLoader.js:36-37 | deleting the quotes of `"Say ""hi"""` leaves `Say hi` |
| CsvParse.EscapedQuoteExample | utils/csvLoader.js:36-45 | `"Say ""hi"""` gives the single field `Say hi`: a doubled quote does not become a quote |
| CsvParse.StripWrappingQuotes | utils/csvLoader.js:39 | `.replace(/^"\|"$/g, '')` removes at most two characters, only quotes, and leaves a quote-free field alone |
| CsvParse.CollapseDoubledQuotes | utils/csvLoader.js:39 | `.replace(/""/g, '"')` never lengthens the field and removes only quotes |
| CsvParse.CleanField | utils/csvLoader.js:39 | every character of a cleaned field occurs in the raw field |
| CsvLoader.IndexOf | utils/csvLoader.js:54-71 | `indexOf` is -1 exactly when the label is absent. Otherwise it is the first position holding exactly the label |
| CsvLoader.GetCol | utils/csvLoader.js:91 | `getCol` is `''` exactly for -1, a position past the row's end, or an empty cell. Otherwise it is that cell |
| CsvLoader.TrimEach | utils/csvLoader.js:100 | `.map(s => s.trim())` trims each piece and keeps the count |
| CsvLoader.ListField | utils/csvLoader.js:100 | every item of a list cell is non-empty, trimmed and comma-free |
| CsvLoader.ListFieldJoin | utils/csvLoader.js:100 | round trip: a list of such items written with commas reads back as the list |
| CsvLoader.ListOrPickListed | utils/csvLoader.js:100-110 | a cell written as a list gives that list, whatever the random pick |
| CsvLoader.RowResults | utils/csvLoader.js:89-90 | one mapper result per data row, each from that row's fields, the header and the row's position |
| CsvLoader.GetFuneralHomesFromCSV | utils/csvLoader.js:10-155 | a file that cannot be read gives `[]`. Otherwise the result is the records of its text as the source builds them: one for each corrected record, equal to it but without `tags` |
| CsvLoader.CsvIdInjective | utils/csvLoader.js:118 | different rows get different `csv-` ids |
| CsvLoader.RowRecord | utils/csvLoader.js:93-142 | a row gives a record exactly when its name cell is filled, under both mappers. The record carries that name, the id `csv-<row>` and `certified` |
| CsvLoader.RowOpen24h | utils/csvLoader.js:112-115 | `open24h` is true exactly for `Y` or `y`. Then the tags hold `24시간`, put in front only when absent. Otherwise the tags are left alone |
| CsvLoader.PriceRule | utils/csvLoader.js:137-139 | a price tier is the `parseInt` of its cell, or the tier's default when that is `NaN` or 0 |
| CsvLoader.PriceCutAtComma | utils/csvLoader.js:137-139 | a price written with a thousands separator is cut at the first comma: `200,000` gives 200 |
| CsvLoader.PricePrinted | utils/csvLoader.js:137-139 | a cell holding a positive amount gives that amount; an empty cell gives the default |
| CsvLoader.RowDefaults | utils/csvLoader.js:97-143 | the price tiers default to 200000, 300000 and 500000, the image to `images[row % 7]`, the address to `주소 미표기`, the phone to `''` and the permit number to `정식허가업체` |
| CsvLoader.RowFacilities | utils/csvLoader.js:100-104 | facilities are the cell's list, or the random pick when that list is empty |
| CsvLoader.RowFallbacks | utils/csvLoader.js:101-146 | with fallbacks in their stated ranges: an empty facilities cell gives 3 or 4 distinct pool facilities, an empty rating a number from 4.5 to 5.0, an empty review count 10 to 509, and every distance a number from 0 to 50 |
| CsvLoader.LoadEmpty | utils/csvLoader.js:26-89 | a file with no rows, or only a header row, gives no records |
| CsvLoader.LoadOrigin | utils/csvLoader.js:89-148 | every record comes from a data row, in strictly increasing row order, and every row the mapper keeps gives a record |
| CsvLoader.LoadWithAll | utils/csvLoader.js:89-148 | what the mapper guarantees for each record, given its row, holds for every record of the file |
| CsvLoader.LoadIds | utils/csvLoader.js:118 | every record has a non-empty name and a `csv-` string id, and no two records share an id |
| CsvLoader.LoadAsWrittenIds | utils/csvLoader.js:118 | the same for the records as the source builds them |
| CsvLoader.LoadKeepsNamedRows | utils/csvLoader.js:89-148 | every data row with a name gives a record, and record `i` carries the id of its row, in row order |
| CsvLoader.LoadAsWrittenKeepsNamedRows | utils/csvLoader.js:89-148 | the same for the records as the source builds them |
| CsvLoader.LoadDistancesNumeric | utils/csvLoader.js:146 | every record's distance reads as a number |
| CsvLoader.LoadAsWrittenDistancesNumeric | utils/csvLoader.js:146 | the same for the records as the source builds them |
| CsvLoader.LoadTag24h | utils/csvLoader.js:115 | every record open around the clock carries the `24시간` tag |
| CsvLoader.LoadAsWrittenHasNoTags | utils/csvLoader.js:117-147 | as written, no record has a `tags` property |
| CsvLoader.AsWrittenDiffersInTagsOnly | utils/csvLoader.js:117-147 | the record literal as written equals the corrected record without `tags` |
| CsvLoader.RowResultsTagsOnly | utils/csvLoader.js:89-147 | row by row, the two mappers keep the same rows and build records that agree but for `tags` |
| CsvLoader.LoadAsWrittenDropsTags | utils/csvLoader.js:89-148 | the file's records as written are its corrected records without `tags`, one for one and in the same order |
| CsvLoader.RowFixedFields | utils/csvLoader.js:117-147 | whether a row gives a record, and every field no random fallback touches, do not depend on the random choices |
| CsvLoader.LoadFixedFields | utils/csvLoader.js:89-148 | two loads of one file give as many records, in the same order, alike in every field no random fallback touches |
| CsvLoader.LoadAsWrittenFixedFields | utils/csvLoader.js:89-148 | the same for the records as the source builds them |
| CsvLoader.IsOpen24h | utils/csvLoader.js:112-113 | only a one-character cell can mark a home open around the clock, and `Y` does |
| CsvLoader.WithTag24h | utils/csvLoader.js:115 | with `open24h` the tags hold `24시간`; the result is the old tags with at most that one tag put in front, and holds no other tag |
| CsvLoader.PriceOr | utils/csvLoader.js:137-139 | a price tier is its fallback or the `parseInt` of its cell, and never 0 when the fallback is not 0 |
| CsvLoader.OrDefault | utils/csvLoader.js:120-143 | `cell \|\| fallback` is one of the two, and is empty only when both are |
| CsvLoader.ListOrPick | utils/csvLoader.js:100-110 | an empty cell gives the random pick; any other result is the cell's non-empty list |
| CsvLoader.Record | utils/csvLoader.js:117-147 | the record carries the row's `csv-` id, its name and the given tags, is certified, has every text default filled, non-zero prices, and a distance printed with one decimal |
| CsvLoader.NormalizeRowAsWritten | utils/csvLoader.js:89-147 | the mapper as written returns a record exactly when the name cell is filled; the record carries that name and the row's `csv-` id, and no `tags` |
| CsvLoader.NormalizeRow | utils/csvLoader.js:89-147 | the corrected mapper returns a record exactly when the name cell is filled; the record carries that name, the row's `csv-` id and the row's tags |
| CsvLoader.LoadWith | utils/csvLoader.js:89-148 | a file without rows gives no records, and no file gives more records than data rows |
| CsvLoader.Load | utils/csvLoader.js:89-148 | the corrected loader gives at most one record per data row |
| CsvLoader.LoadAsWritten | utils/csvLoader.js:89-148 | the loader as written gives at most one record per data row |
| StableSort.InsertPermutes | hooks/useFuneralHomes.js:48-53 | one insertion step adds exactly the inserted element |
| StableSort.SortPermutes | hooks/useFuneralHomes.js:48-53 | the sorted list holds exactly the input's elements, as often as the input does |
| StableSort.SortOrdered | hooks/useFuneralHomes.js:48-53 | when every key is a number, the result is in comparator order |
| StableSort.OrderedValues | hooks/useFuneralHomes.js:48-53 | in comparator order, ascending keys never decrease and descending keys never increase |
| StableSort.InsertStable | hooks/useFuneralHomes.js:48-53 | one insertion step keeps the order of the elements with any one key value |
| StableSort.SortStable | hooks/useFuneralHomes.js:48-53 | stability: for every key value, the elements with it keep their relative order. For a `NaN` key this is a fact of the modelled insertion order only |
| StableSort.SortUnordered | hooks/useFuneralHomes.js:52 | a comparator that always returns 0 leaves the order as it is |
| StableSort.SortInPlace | hooks/useFuneralHomes.js:48 | the in-place sort leaves the array holding the stable sort of its old contents |
| StableSort.InsertInPlace | hooks/useFuneralHomes.js:48 | one pass of the shifting loop moves `a[i]` into the sorted prefix and leaves the rest of the array alone |
| Listing.ArrangeHomes | hooks/useFuneralHomes.js:36-56 | the copy-filter-sort computation returns the filtered list, stably sorted by the chosen comparator |
| Listing.FilterAll | hooks/useFuneralHomes.js:40 | `전체` keeps every home, in order |
| Listing.Filter24h | hooks/useFuneralHomes.js:42 | `24시간` keeps exactly the homes open around the clock, whatever their tags, as a subsequence |
| Listing.FilterCategory | hooks/useFuneralHomes.js:43 | any other category keeps exactly the homes with it among their tags or facilities, as a subsequence |
| Listing.FilterMembers | hooks/useFuneralHomes.js:40-45 | when the filter runs, a home is kept exactly when the callback accepts it |
| Listing.ArrangePermutes | hooks/useFuneralHomes.js:48-53 | the result is a permutation of the filtered homes |
| Listing.ArrangeByPrice | hooks/useFuneralHomes.js:51 | sorting by price gives non-decreasing small-pet prices |
| Listing.ArrangeByDistance | hooks/useFuneralHomes.js:49 | with numeric distances, sorting by distance gives non-decreasing distances |
| Listing.ArrangeByRating | hooks/useFuneralHomes.js:50 | with numeric ratings, sorting by rating gives non-increasing ratings |
| Listing.ArrangeStable | hooks/useFuneralHomes.js:48-53 | homes the comparator cannot tell apart stay in their filtered order |
| Listing.ArrangeUnknownKey | hooks/useFuneralHomes.js:52 | an unrecognised sort key leaves the filtered order unchanged |
| Listing.UntaggedMatches | hooks/useFuneralHomes.js:43 | a record without `tags` matches a category only through its facilities |
| Listing.TagOnlyCategory | hooks/useFuneralHomes.js:43 | a category among a row's computed tags but not its facilities keeps the corrected record and drops the record as written |
| Listing.AsWrittenFilterByFacilities | hooks/useFuneralHomes.js:43 | over the loader's list as written, a category filter keeps exactly the homes with it among their facilities |
| Listing.LoadedByDistance | hooks/useFuneralHomes.js:49 | the loader's list as written, sorted by distance, is in non-decreasing distance order |
| Listing.Matches | hooks/useFuneralHomes.js:42-43 | `24시간` matches exactly the homes open around the clock; a home matching another category lists it among its facilities or has tags |
| Listing.FilterHomes | hooks/useFuneralHomes.js:40-45 | `전체` returns the homes unchanged; any other category keeps only matching homes, each taken from the input |
| Listing.Arrange | hooks/useFuneralHomes.js:37-53 | the filtered, sorted list holds only homes of the input, none more often than there |
| UseFuneralHomes.FuneralHomes.constructor | hooks/useFuneralHomes.js:5-8 | the initial state: no homes, loading, `전체`, `distance` |
| UseFuneralHomes.FuneralHomes.FetchHomes | hooks/useFuneralHomes.js:14-30 | an array body becomes the list, any other body empties it, a failed request keeps it. Loading ends in every case |
| UseFuneralHomes.FuneralHomes.SetActiveFilter | hooks/useFuneralHomes.js:7 | sets the filter and nothing else |
| UseFuneralHomes.FuneralHomes.SetActiveSort | hooks/useFuneralHomes.js:8 | sets the sort key and nothing else |
| UseFuneralHomes.FuneralHomes.FilteredHomes | hooks/useFuneralHomes.js:36-56 | the returned list is the view of the state, and the state is not changed |
| UseFuneralHomes.DefaultView | hooks/useFuneralHomes.js:36-56 | with the initial filter and sort key, the view holds every home, nearest first when the distances are numbers |
| PublicList.PublicFuneralHomeList.constructor | components/PublicFuneralHomeList.jsx:9-11 | the page starts with `전체` and `distance` over the given list |
| PublicList.PublicFuneralHomeList.SetActiveFilter | components/PublicFuneralHomeList.jsx:10 | sets the filter and nothing else |
| PublicList.PublicFuneralHomeList.SetActiveSort | components/PublicFuneralHomeList.jsx:11 | sets the sort key and nothing else |
| PublicList.PublicFuneralHomeList.FilteredHomes | components/PublicFuneralHomeList.jsx:14-36 | a missing list gives `[]`. Otherwise the result is the listing hook's view of that list, so the two pages agree |
| Reservations.MockReservationStore.constructor | components/BookingModal.jsx:51-52 | the stored entry holds the given value |
| Reservations.StoredList | components/BookingModal.jsx:51 | `JSON.parse(getItem(...) \|\| '[]')` fails exactly for text that does not parse or a value that is not a list; a missing entry reads as `[]`, and a non-empty result is the stored list |
| Booking.MockReservation | components/BookingModal.jsx:34-47 | the mock reservation is pending, has a `mock-` id, and copies the home's id, name and address and the form's date, time, name and phone |
| Booking.PendingRow | components/BookingModal.jsx:66-73 | the database row carries the form's fields and the status `pending` |
| Booking.BookingModal.constructor | components/BookingModal.jsx:12-17 | the form starts at step 1, with empty fields, not submitting |
| Booking.BookingModal.EnterDetails | components/BookingModal.jsx:13-16 | sets the four form fields and nothing else |
| Booking.BookingModal.HandleSubmit | components/BookingModal.jsx:21-88 | a CSV listing puts its mock reservation in front of the stored list, or leaves an unreadable entry alone, and succeeds. Any other listing inserts one pending row and fails exactly when the insert does. Submitting ends in every case |
| Booking.LoadedHomesAreCsvItems | components/BookingModal.jsx:27 | every listing the CSV loader produces, as written and corrected, takes the mock path |
| Booking.NumericIdIsNotCsvItem | components/BookingModal.jsx:27 | a numeric database id never takes the mock path |
| Booking.IsCsvItem | components/BookingModal.jsx:27 | only a string id of at least four characters takes the mock path |
| AdminDashboard.UpdateStatusById | app/admin/dashboard/page.jsx:61-63 | the update keeps the length. Reservations with the id get the new status; all others are unchanged |
| AdminDashboard.Dashboard.constructor | app/admin/dashboard/page.jsx:8-9 | no reservations, loading |
| AdminDashboard.Dashboard.FetchReservations | app/admin/dashboard/page.jsx:16-54 | the merged, stably sorted list is shown and loading ends. A stored entry that is not a list throws first, and nothing changes |
| AdminDashboard.Dashboard.HandleStatusChange | app/admin/dashboard/page.jsx:56-80 | a `mock-` id is updated in the stored list and never sent; the list is shown again. Any other id is sent as a database update, leaves the stored list alone, and refreshes only on success |
| AdminDashboard.MergePermutes | app/admin/dashboard/page.jsx:48-50 | the merged list has length \|mock\| + \|db\| and holds exactly their reservations |
| AdminDashboard.MergeNewestFirst | app/admin/dashboard/page.jsx:48-50 | when every creation time reads as a date, the merged list is newest first |
| AdminDashboard.MergeStable | app/admin/dashboard/page.jsx:48-50 | reservations made at the same time keep their order, mock ones first |
| AdminDashboard.UnusableEntryAddsNothing | app/admin/dashboard/page.jsx:37-45 | a missing or unparsable stored entry adds no reservations |
| AdminDashboard.UpdateIdempotent | app/admin/dashboard/page.jsx:61-63 | applying the same update twice is applying it once |
| AdminDashboard.UpdateChangesOnlyStatus | app/admin/dashboard/page.jsx:61-63 | the update changes statuses only: ids and every other field stay |
| AdminDashboard.UpdateAbsentId | app/admin/dashboard/page.jsx:61-63 | an id no reservation has leaves the list unchanged |
| AdminDashboard.BookedMockIsLocal | app/admin/dashboard/page.jsx:58 | a reservation the booking form stores is routed to the local update |
| AdminDashboard.NumericIdIsRemote | app/admin/dashboard/page.jsx:58 | a numeric database id is never routed to the local update |
| AdminDashboard.StatusLabel | app/admin/dashboard/page.jsx:121-122 | `confirmed` reads 확정됨, `cancelled` reads 취소됨, and exactly the other statuses read 대기중 |
| AdminDashboard.OfferedTransitions | app/admin/dashboard/page.jsx:142-165 | a button moves pending to confirmed or cancelled, or confirmed to pending, and no other transition is offered |
| AdminDashboard.UnknownStatus | app/admin/dashboard/page.jsx:117-165 | a status outside the three reads 대기중 and offers no button |
| AdminDashboard.MockList | app/admin/dashboard/page.jsx:36-45 | the stored entry fails the merge exactly when it parses to something other than a list; otherwise every mock reservation is one of the stored items |
| AdminDashboard.Merge | app/admin/dashboard/page.jsx:48-50 | the merged list is as long as both lists together |
| AdminDashboard.Refreshed | app/admin/dashboard/page.jsx:33-50 | a refresh fails exactly when the stored entry is not a list; otherwise it shows as many reservations as the mock and database lists hold together |
| AdminDashboard.IsMockId | app/admin/dashboard/page.jsx:58 | only an id whose text has at least five characters can be a `mock-` id |
| AdminDashboard.Actions | app/admin/dashboard/page.jsx:142-165 | at most two buttons, none targeting the current status, and none for `cancelled` |
| ChatRoute.MockReply | app/api/chat/route.js:45-55 | the reply of the first keyword the message mentions, in the order 안녕, 사랑해, 보고싶어, 간식: a string mentions a keyword it contains, an array one of its elements equals. The default reply comes exactly when none is mentioned |
| ChatRoute.MockReplyIsFirstMatch | app/api/chat/route.js:45-55 | the demo reply equals the first-match rule over the keyword table, in table order |
| ChatRoute.GreetingFirst | app/api/chat/route.js:47-50 | a message with both 안녕 and 사랑해 gets the greeting |
| ChatRoute.ListMessage | app/api/chat/route.js:47 | an array message matches whole elements: `["안녕"]` gets the greeting, `["안녕하세요"]` the default reply |
| ChatRoute.MockReplyIsFixed | app/api/chat/route.js:45-55 | the demo reply is one of five fixed texts |
| ChatRoute.AiReply | app/api/chat/route.js:34 | the model's first text when it is present and non-empty, else `멍... (말을 이해하지 못했어요)` |
| ChatRoute.Post | app/api/chat/route.js:5-68 | an answer without `error` is replied. Every other path falls back to the demo reply. A body that does not parse, or a message that is neither a string nor an array on the demo path, gives the 500 response |
| ChatRoute.FallbackIsMock | app/api/chat/route.js:10-55 | without a key, or when the call fails, a string or array message always gets one of the five demo replies |
| ChatRoute.Mentions | app/api/chat/route.js:47 | a string message mentions the empty keyword; an array message mentions exactly its elements |
| ChatRoute.CandidateText | app/api/chat/route.js:34 | a text is found only when the answer has a first candidate with content |

## Left out

- Reading the file and detecting its encoding (`readFileSync`, the EUC-KR retry): the loader is modelled from the decoded text. A failure to read is the `ReadFailed` source.
- The `Math.random()` fallbacks are parameters: one `Enrichment` per data row. `ValidEnrichment` bounds each to what its expression can produce. The shuffle's bias and the floating-point arithmetic behind a rating or a distance are not modelled. A rating or distance is a whole number of tenths printed by `toFixed(1)`.
- `Js.ToNumber` reads only the plain decimal spellings: sign, digits, optional fraction, surrounding whitespace. Exponents, hex, `Infinity` and similar spellings are read as `NaN`.
- `Js.ParseInt` returns exact integers. The loss of precision of very long digit runs is not modelled.
- Strings are sequences of code points, where JavaScript indexes UTF-16 units. The field loop reads a character outside the Basic Multilingual Plane as two halves, but appends both to the same field, so the fields do not differ.
- `fetch`, `response.json()`, Supabase queries, the router, `alert` and the 800 ms delays are parameters or outcomes of the methods (`FetchOutcome`, `Select`, `insertFails`, `updateFails`, `AiCall`, `Outcome`). The asynchronous interleaving of these effects is not modelled.
- `JSON.parse`/`JSON.stringify` of the stored list are the `Stored` datatype. A stored JSON string or other non-list value counts as "not a list": the model does not spread a string character by character.
- `Date.now()` and `new Date().toISOString()` are one clock reading `now` in milliseconds. The ISO text of `created_at` is abstracted to that number.
- `Listing.ArrangeByDistance` orders only when every distance reads as a number, and likewise `Listing.ArrangeByRating` for ratings and `AdminDashboard.MergeNewestFirst` for creation times.
- `StableSort.SortStable`: with a `NaN` key the subtracting comparator is not consistent, and the language then leaves the order of `sort` to the implementation, promising only a permutation. The model fixes the order linear insertion sort gives; whenever a key is `NaN`, its stability is a fact about that order, not a promise of the program.
- `Listing.ArrangeHomes` and `Listing.ArrangeStable`: likewise, with a `NaN` distance or rating the order they state is the modelled insertion order, where the program's order is implementation-defined.
- `CsvLoader.RowOpen24h` does not place `24시간` first in every case: the code does not either.
- A record's `facilities` is always present. The `home.facilities?.` guard only matters for hand-made records the loader never produces.
- `UseFuneralHomes.FuneralHomes.FetchHomes` takes an array body to be a list of listing records. Other element shapes are not modelled.
- `isSubmitting`, `isLoading` and similar flags are modelled only at the end of each handler, not while it is suspended.
- The full pipeline is stated as general lemmas over any file. No particular file is worked through end to end.
- `components/FuneralCard.jsx` is not part of this model. It is cited only as the reader of `tags`.

## Findings

| source | as written | input that shows it | evidently intended | confidence | as-written member | corrected member |
|---|---|---|---|---|---|---|
| utils/csvLoader.js:106-147 | the tags are computed and `24시간` added at lines 106-115, but the record literal at lines 117-147 has no `tags` property, so every record lacks `tags` | a row named `A` with tags cell `프리미엄` and facilities cell `화장장`: the filter `프리미엄` drops it (`Listing.TagOnlyCategory`); a row with `Y` in `24시간 운영여부` has no `24시간` tag, and `home.tags.map` at components/FuneralCard.jsx:61 meets `undefined` | the record carries the computed tags, so category filters see them and open-around-the-clock records carry `24시간` | not executed | CsvLoader.LoadAsWrittenHasNoTags | CsvLoader.LoadTag24h |

The as-written mapper is `CsvLoader.NormalizeRowAsWritten`, behind `CsvLoader.LoadAsWritten`, and
`CsvLoader.GetFuneralHomesFromCSV` returns its records, as the source does. The corrected mapper is
`CsvLoader.NormalizeRow`, behind `CsvLoader.Load`; the tag properties (`CsvLoader.RowOpen24h`,
`CsvLoader.LoadTag24h`) are proved for it. `CsvLoader.LoadAsWrittenDropsTags` ties the two: the
records as written are the corrected records without `tags`, so every other whole-file property
holds for both.
