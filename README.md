# setlist.fm attended-events exporter, modelled in Dafny

`setlist_fm.go` is a small command-line program. It fetches from the
setlist.fm REST API every concert a user has marked as attended, page by
page. It then writes two kinds of JSON file into an output directory:

- `list.json`, which holds one flattened `EventObject` per setlist;
- one full-record file per setlist, named
  `<YYYY-MM-DD>-<artist slug>.json`.

The model covers the program's logic between the network and the disk:

- **Records** (module `SetlistTypes`): the API's records as Dafny datatypes.
  A Go pointer field that JSON may omit becomes an `Option`.
- **Page count** (module `Pagination`): the page-count expression, evaluated
  the way Go evaluates it. `*` and `/` associate left to right, and `/`
  truncates toward zero.
- **Page loop** (module `Fetcher`): `getEventsAttendedByUser` as a method
  with a loop. One HTTP round trip is the parameter
  `fetch: Request -> ResponseSetlist`. `fetch` maps a request (its URL path
  and its `p` query value) to the envelope decoded from the answer. The
  method returns the aggregated envelope and the ordered list of requests it
  issued.
- **Slugs** (module `Slug`): `cleanString`, and an independent
  per-character reference definition proved equal to it.
- **Dates** (module `Dates`): `time.Parse("02-01-2006", …)` followed by
  `Format("2006-01-02")`. A failed parse gives Go's zero time, which formats
  as `0001-01-01`.
- **Decimal numbers** (module `Decimal`): one decimal writer that models
  the output of both `strconv.Itoa` and the numeric fields of `Format`.
- **Writers** (module `Events`):
  - `EventsList` is a class whose `AddEvent` appends in place.
  - The output directory is a class holding a `map` from file name to file
    content. Each write replaces earlier content, which is what the source's
    remove-then-create does.
  - Both writers are loops over the setlists. Each is proved against a
    function of the old directory.
  - `Run` is `main` after the configuration has been read.

### The page count

The guard at setlist_fm.go:144 reads like a remainder test:

```
if Total != ItemsPerPage*Total/ItemsPerPage { pages = Total/ItemsPerPage } else { pages = Total/ItemsPerPage + 1 }
```

Go evaluates `ItemsPerPage*Total/ItemsPerPage` as `(ItemsPerPage*Total)/ItemsPerPage`, which is always `Total` for unbounded integers. So the first branch is dead and the count is always `Total/ItemsPerPage + 1`: 2 pages for 25 items at 20 per page. On an exact multiple of the page size one page more than needed is requested, and that page is empty. The model states this:

- `Pagination.GuardNeverTaken` proves that the first branch is dead, and
  `Pagination.PageCountIsQuotientPlusOne` gives the resulting count.
- `Pagination.SurplusPageOnExactMultiple` proves the surplus page.
- `Fetcher.AggregateHoldsTotal` proves that against a server whose pages
  hold what the first envelope announces, the aggregate holds exactly
  `Total` setlists, so the surplus page adds none.

## Model

| member | source | states |
|---|---|---|
| Pagination.GoQuo | setlist_fm.go:144-147 | Go's `/` on `int`: the quotient is non-negative when dividend and divisor have the same sign, and non-positive when they do not |
| Pagination.GoQuoTruncates | setlist_fm.go:144-147 | the quotient is Go's truncated one: the remainder a - q*b is zero or has the dividend's sign, and is smaller in magnitude than the divisor |
| Pagination.PageCount | setlist_fm.go:143-148 | the page-count expression evaluated in Go's left-to-right order; what it computes is stated by `GuardNeverTaken`, `PageCountIsQuotientPlusOne` and `PageCountCovers` |
| Pagination.GuardNeverTaken | setlist_fm.go:144 | `ItemsPerPage*Total/ItemsPerPage`, read left to right, equals `Total` for every non-zero page size, so the reconstruction guard is never true |
| Pagination.PageCountIsQuotientPlusOne | setlist_fm.go:143-148 | the computed page count is always the truncated quotient plus one |
| Pagination.PageCountCovers | setlist_fm.go:143-148 | for a non-negative total and a positive page size the count is at least 1, and the requested pages cover every item: (pages-1)*ipp <= total < pages*ipp |
| Pagination.SurplusPageOnExactMultiple | setlist_fm.go:143-148 | the last requested page starts exactly at the total (so it is empty) if and only if the total is a multiple of the page size |
| Pagination.PageCountExamples | setlist_fm.go:143-148 | 25 and 21 items at 20 per page give 2 pages, 40 give 3, and 0 give 1 |
| Decimal.Pad | setlist_fm.go:210 | the zero-padded decimal writer of `Format`'s numeric fields: its output is all digits, never empty, and at least as long as the requested width |
| Decimal.Itoa | setlist_fm.go:117 | `strconv.Itoa` on a page number: its output is a non-empty run of digits; `PadValue` reads it back and `ItoaCanonical` fixes its form |
| Decimal.PadNoLeadingZero | setlist_fm.go:117 | at minimum width 0 or 1 a number of two or more digits is written without a leading zero |
| Decimal.ItoaCanonical | setlist_fm.go:117 | `strconv.Itoa`'s canonical form: "0" alone or a digit run that does not start with '0', so page 2 is sent as `p=2` |
| Decimal.PadValue | setlist_fm.go:117 | the decimal writer emits only digits, never the empty string, and reading its output back gives the number |
| Decimal.ValuePad | setlist_fm.go:210 | writing a digit run's value back at the run's own width reproduces the run, leading zeros included |
| Decimal.ItoaInjective | setlist_fm.go:117 | `strconv.Itoa` on naturals is injective: distinct pages get distinct `p` values |
| Fetcher.PageRequest | setlist_fm.go:115-118 | the request for one page: path `rest/1.0/user/<user>/attended` and the page number in `p`; `RequestedPageOf` reads the page back |
| Fetcher.RequestedPageOf | setlist_fm.go:115-118 | the `p` query value of the request for page k reads back as k |
| Fetcher.GetEventsAttendedByUser | setlist_fm.go:108-193 | the requests issued are exactly `Requests(user, pages)` in order, and the result is page 1's envelope with the setlists of pages 2..pages appended in page order |
| Fetcher.LaterSetlists | setlist_fm.go:155-192 | the setlists of pages 2..pages in page order, which the loop appends at line 189; `AggregatePrefixCount` counts them |
| Fetcher.Aggregate | setlist_fm.go:151-193 | the value returned: page 1's envelope with the later pages' setlists appended; `AggregateEnvelope` and `AggregateHoldsTotal` state its properties |
| Fetcher.AggregateEnvelope | setlist_fm.go:151-153 | the returned envelope's Type, ItemsPerPage, Page and Total are page 1's, and its setlists begin with page 1's |
| Fetcher.Requests | setlist_fm.go:110-164 | the request trace: page 1, then pages 2..pages in order; `RequestsAscending` and `RequestsDistinct` state its form |
| Fetcher.RequestsAscending | setlist_fm.go:110-118 | max(1, pages) requests are made, all on path `rest/1.0/user/<user>/attended`, the i-th asking for page i+1 |
| Fetcher.RequestsDistinct | setlist_fm.go:155-164 | no page is requested twice |
| Fetcher.AggregateHoldsTotal | setlist_fm.go:151-193 | against a server whose pages hold what the first envelope announces, the aggregate holds exactly `Total` setlists |
| Fetcher.AggregatePrefixCount | setlist_fm.go:155-192 | against a server whose pages hold what the first envelope announces, after the first n pages the accumulated setlist count is min(n*ItemsPerPage, Total) |
| Slug.CleanString | setlist_fm.go:195-205 | the seven rewrites in the source's order; `CleanStringContents` and `CleanStringIdempotent` state what they produce |
| Slug.ToLower | setlist_fm.go:196 | `strings.ToLower` on ASCII letters, character by character; `CleanStringCons` and `CleanStringContents` state its effect within the chain |
| Slug.ReplaceAll | setlist_fm.go:197-202 | `strings.ReplaceAll` with a one-character pattern; `ReplaceAllAppend` and `ReplaceAllSingle` state what it does |
| Slug.ReplaceAllAppend | setlist_fm.go:197-202 | single-character `ReplaceAll` distributes over concatenation |
| Slug.ReplaceAllSingle | setlist_fm.go:197-202 | `ReplaceAll` on one character gives the replacement exactly when that character is the pattern |
| Slug.CleanStringCons | setlist_fm.go:195-205 | the chain of seven rewrites, applied to a string with a leading character, is that character's slug followed by the chain applied to the rest |
| Slug.CleanStringIsSlug | setlist_fm.go:195-205 | `cleanString` equals the independent per-character mapping `Slugify` (space to '-', '&' to '+', quotes dropped, letters lower-cased) |
| Slug.SlugAppend | setlist_fm.go:195-205 | the per-character slug distributes over concatenation |
| Slug.SlugIsClean | setlist_fm.go:195-205 | the slug holds no space, apostrophe, quote or '&' and no upper-case ASCII letter, and is never longer than the input |
| Slug.SlugFixesSlugs | setlist_fm.go:195-205 | a string that is already a slug is left unchanged |
| Slug.CleanStringContents | setlist_fm.go:195-205 | the output of `cleanString` is a slug, no longer than its input, and equal to `Slugify` |
| Slug.CleanStringIdempotent | setlist_fm.go:195-205 | cleaning a cleaned name changes nothing |
| Slug.CleanStringPieces | setlist_fm.go:195-205 | cleanString of a string split in four pieces is the pieces' slugs concatenated |
| Slug.CleanStringExampleApostrophe | setlist_fm.go:195-205 | "Guns N' Roses" becomes "guns-n-roses" |
| Slug.CleanStringExampleAmpersand | setlist_fm.go:195-205 | "AC & DC" becomes "ac-+-dc" |
| Dates.TwoDigits | setlist_fm.go:209 | the fixed-width two-digit field of the layout (day, month): exactly two digits or an error; `ParseExactly` states its effect |
| Dates.DaysIn | setlist_fm.go:209 | the days of a month in a Gregorian year, the bound of the day-range check; `DaysInRange` states its values |
| Dates.LongYear | setlist_fm.go:209 | the layout's year field: four characters read as a decimal number, so a year read is at most 9999 |
| Dates.Parse | setlist_fm.go:209 | `time.Parse("02-01-2006", …)` with every error as None; a date it returns has a year of at most 9999, a month in 1..12 and a day that exists in that month |
| Dates.Format | setlist_fm.go:210 | `Format("2006-01-02")`: at least ten characters, since each field is padded to its width |
| Dates.ReformatDate | setlist_fm.go:209-210 | the conversion both writers apply, the parse error discarded; `ReformatWellFormed`, `ReformatMalformed` and `ReformatShape` state its result |
| Dates.DaysInRange | setlist_fm.go:209 | every month has 28 to 31 days, and February has 29 exactly in Gregorian leap years |
| Dates.ParseExactly | setlist_fm.go:209 | the parse succeeds if and only if the input is exactly DD-MM-YYYY in ASCII digits with month 1..12 and a day that exists in that month of that year, and it then yields those three numbers |
| Dates.ReformatWellFormed | setlist_fm.go:209-210 | a well-formed DD-MM-YYYY date is rewritten as YYYY-MM-DD, its digits kept as they were |
| Dates.ReformatMovesCharacters | setlist_fm.go:209-210 | the same rewrite, stated character by character |
| Dates.ReformatMalformed | setlist_fm.go:209-210 | any other input, since the parse error is discarded, becomes the zero time's `0001-01-01` |
| Dates.ZeroTimeFormat | setlist_fm.go:210 | the zero time (1 January of year 1) formats as `0001-01-01` |
| Dates.WellFormedShape | setlist_fm.go:209-210 | a well-formed date converts to ten characters, YYYY-MM-DD in digits |
| Dates.MalformedShape | setlist_fm.go:209-210 | a malformed date converts to ten characters, YYYY-MM-DD in digits |
| Dates.ReformatShape | setlist_fm.go:209-210 | whatever the input, the converted date is ten characters, YYYY-MM-DD in digits |
| Dates.DigitFields | setlist_fm.go:209 | the decimal values of a date's three numeric fields, read from the individual digit characters |
| Dates.ReformatExampleJune | setlist_fm.go:209-210 | "05-06-2019" becomes "2019-06-05" |
| Dates.ReformatExampleLeapDay | setlist_fm.go:209-210 | "29-02-2020" becomes "2020-02-29" |
| Dates.ReformatExampleNoLeapDay | setlist_fm.go:209-210 | "29-02-1900" is rejected (1900 is not a leap year) and becomes "0001-01-01" |
| Dates.ReformatExampleShortDay | setlist_fm.go:209-210 | "5-06-2019" is rejected (the day field is fixed width) and becomes "0001-01-01" |
| Events.Project | setlist_fm.go:214-223 | the flattened event of one setlist; `ProjectAll` states its fields |
| Events.ProjectAll | setlist_fm.go:208-225 | one flattened event per setlist, in input order; each copies id, venue, city, state, artist name and URL, carries the converted date, and leaves tour empty and songs played at 0 |
| Events.EventsList.constructor | setlist_fm.go:207 | a new list is empty |
| Events.EventsList.AddEvent | setlist_fm.go:98-101 | the event is appended after the earlier ones, which are unchanged, and the returned slice is the list as it now is |
| Events.OutputDir.Put | setlist_fm.go:245-255 | writing a file replaces whatever the name held and changes no other file |
| Events.ListFileName | setlist_fm.go:226 | the list file's name `path + "list.json"`; `EventFileNameShape` shows no event file takes it |
| Events.EventFileName | setlist_fm.go:242-244 | an event file's name from its converted date and its artist's slug; `EventFileNameShape` gives its form |
| Events.Apply | setlist_fm.go:245-255 | a sequence of remove-then-create writes; `ApplyKeys`, `ApplyLastWriteWins` and `ApplyElsewhere` state that the last write to a name wins and other names are untouched |
| Events.WriteJsonEventsList | setlist_fm.go:206-238 | the directory afterwards is the old one with `path + "list.json"` holding the projection of every setlist, in order |
| Events.EventWrites | setlist_fm.go:240-256 | the writes of the event writer, one per setlist in order; `EventWritesAt` states each |
| Events.WriteJsonEventFiles | setlist_fm.go:239-257 | the directory afterwards is the old one with one write per setlist, in order, each to that setlist's derived name |
| Events.WriteEventFilesStep | setlist_fm.go:240-256 | handling one more setlist is one more file write on top of the earlier ones |
| Events.EventWritesAt | setlist_fm.go:242-244 | the i-th write names setlist i's file and holds setlist i |
| Events.Run | setlist_fm.go:274-276 | `main` issues the paging requests and leaves the directory as the list file followed by the event files |
| Events.EventFileNameMatchesList | setlist_fm.go:209-244 | an event file's name carries the same date as that event's entry in the list |
| Events.EventFileNameShape | setlist_fm.go:242-244 | an event file name is the path, then a ten-character YYYY-MM-DD date, '-', the artist's slug and ".json", so it is never `list.json` |
| Events.ApplyKeys | setlist_fm.go:240-256 | after a sequence of writes the directory's names are the old names plus the written ones |
| Events.ApplyLastWriteWins | setlist_fm.go:245-255 | a written name holds its last write |
| Events.ApplyElsewhere | setlist_fm.go:245-255 | a name nothing writes keeps what it had, or stays absent |
| Events.ApplyOverlay | setlist_fm.go:240-256 | the writes overlay what they would produce in an empty directory |
| Events.ApplyDistinctNames | setlist_fm.go:240-256 | writes with pairwise distinct names produce one file each |
| Events.EventFileHoldsItsSetlist | setlist_fm.go:239-257 | setlist i's file holds setlist i unless a later setlist maps to the same name |
| Events.EventFilesNames | setlist_fm.go:239-257 | the event writer keeps every existing file name and adds exactly the derived names |
| Events.EventFilesOnePerSetlist | setlist_fm.go:239-257 | with pairwise distinct derived names there are exactly as many event files as setlists |
| Events.PutThenApplyIdempotent | setlist_fm.go:226-256 | one write followed by writes to other names leaves nothing to change when repeated |
| Events.OverlayAbsorbs | setlist_fm.go:226-256 | rewriting a name an overlay does not touch, or overlaying the same writes again, changes nothing |
| Events.WriteAllIdempotent | setlist_fm.go:226-256 | running both writers a second time over the same setlists leaves the directory exactly as the first run left it |

## Left out

- HTTP is not modelled: URL parsing and escaping, `url.Values.Encode`, the headers and API key, and the client call. One round trip is the `fetch` parameter, and a request is only its path and its `p` value.
- A failed request is not modelled: the source panics on a nil response. The model assumes `fetch` always returns an envelope.
- `time.Sleep` between pages is not modelled, because it only delays.
- The progress lines `log.Println` prints are not modelled.
- `check` is not modelled, because it only logs an error and carries on.
- JSON decoding is not modelled. `fetch` returns the decoded envelope, and the two decodes of page 1's body are one value.
- JSON encoding is not modelled. A file's content is its value: the event list, or the setlist record.
- File-system failures are not modelled (a remove, open, write or close that fails). Every write is taken to succeed.
- Reading `configuration.json` in `main` is not modelled. `Run` takes the user and the output path as parameters.
- The float32 city coordinates are not modelled, because the core never reads them.
- `Pagination.PageCount`: Go's fixed-width `int` overflow of `ItemsPerPage*Total` is not modelled. With wrap-around the dead branch could become reachable for huge totals. Integers here are unbounded.
- The model requires a non-zero `ItemsPerPage` in the first envelope. With zero (for example after a body that fails to decode) the source panics on division by zero.
- `Slug.CleanString`: `strings.ToLower` is modelled on ASCII letters only. Full Unicode case mapping and invalid UTF-8 are not modelled.
- `Events.EventFilesOnePerSetlist`: one file per setlist holds only when the derived names are distinct. Two setlists with the same date and artist slug collide, and the later one wins, as `Events.EventFileHoldsItsSetlist` states.
