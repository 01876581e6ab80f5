# blocket-car-scraper, modelled in Dafny

The scraper is a command-line tool. It fetches the front page of the Swedish
marketplace blocket.se and scrapes a bearer token from the page text. With
that token it asks the marketplace API for the car brands. It picks the brand
the user named with `-brand`, asks for that brand's models, and picks the
model named with `-model`. It then fetches the listings of that model. The
listings are either printed as JSON or written as a CSV file under
`outdir/data/<brand>/<model>/<brand>_<model>_<YYYY>-<MM>-<DD>.csv`.

This project models the parts of `main.go` that compute, leaving out the parts
that only move bytes:

- `Strings`: Go's `strings.Index` and `strings.Split` on texts, as the token
  scraping calls them. It also defines `strings.Join`, which `main.go` never
  calls: it is only the inverse that the lemmas about splitting and about
  paths are stated with. It proves that splitting with a non-empty separator round-trips through
  joining, that no piece contains the separator, and that splitting on one
  character gives one piece more than the character has occurrences.
- `Decimal`: the decimal rendering that `fmt` uses for `%d` and `%02d`, with
  Go's `int` as the 64-bit `Int64`. It proves that each rendering reads back
  as its value.
- `BearerToken`: `getBearerToken` after the page has been read. The two
  index-out-of-range panics of the original become the errors `MarkerAbsent`
  and `TooFewQuotes`. The token is characterised as the third `"`-separated
  field of the text between the first `bearerToken` marker and the next one.
- `Catalog`: the catalog records, and the loop in `main` that selects an entry
  by its label. The last exact match wins. With no match the result is Go's
  zero values `("", "")`.
- `Requests`: the URL and the `authorization` header of the three API requests.
- `Export`: the listing records and their projection to the seven CSV
  columns. It also covers the file name built from the date and the
  `filepath.Join` of the output path.
- `Cli`: the usage check on the flags and the choice of what is done with the
  listings.
- `Scraper`: the whole chain from the front page to the listing request. The
  web server's answer to the front-page request and the API's catalog
  replies are function parameters.

The current date is a parameter (`Date`), and so is the working directory
(`cwd`).

## Model

| member | source | states |
|---|---|---|
| Strings.IndexOf | main.go:168 | a found position is an occurrence of the separator |
| Strings.IndexOfSpec | main.go:168 | the position found is the leftmost occurrence, and nothing is found exactly when the text lacks the separator |
| Strings.PrefixBeforeIndexFree | main.go:168 | the text before the leftmost occurrence holds no occurrence |
| Strings.Split | main.go:168-170 | a split has at least one piece, and has two or more exactly when the separator occurs |
| Strings.SplitStep | main.go:168-170 | splitting peels the text before the leftmost occurrence off as the first piece |
| Strings.SplitPieceLacksSep | main.go:168-170 | no piece of a split contains the separator |
| Strings.SplitPieceLacks | main.go:168-170 | a text missing from the whole split input is missing from each piece |
| Strings.SplitPieceAt | main.go:168-170 | every piece occurs in the split input |
| Strings.SplitJoin | main.go:168-170 | joining the pieces with the separator gives back the split input |
| Strings.SplitHead | main.go:168-170 | the first piece is a prefix of the input |
| Strings.ContainsChar | main.go:170 | a text contains the one-character separator exactly when the character is in it |
| Strings.IndexOfChar | main.go:170 | the leftmost `"` is the first one after a quote-free prefix |
| Strings.SplitCountsChar | main.go:170 | splitting at a character gives one more piece than the character has occurrences |
| Strings.SplitHeadChar | main.go:170 | a quote-free head followed by nothing or a quote is the first piece |
| Strings.SplitOnChar | main.go:170 | a quote-free head and a quote split off as the first piece |
| Strings.SplitAtChar | main.go:170 | a split with two or more pieces is a quote-free head, the quote and the rest |
| Strings.SplitFirstChar | main.go:170 | after the first piece comes nothing or a quote |
| Decimal.NatToString | main.go:291 | digits only, no leading zero, 0 printed as `0`, and reads back as the number |
| Decimal.IntToString | main.go:291 | the shortest decimal that reads back as the value: a minus sign exactly for negatives, no leading zero, and 0 printed as `0` |
| Decimal.LeadingZero | main.go:269 | a leading zero does not change the value of a digit string |
| Decimal.Pad2 | main.go:269 | `%02d`: digits that read back as the value, at least two, exactly two below 100, and no padding zero from 10 on |
| Decimal.IntToStringInjective | main.go:269 | different years render differently |
| Decimal.Pad2Injective | main.go:269 | different months or days render differently |
| BearerToken.Extract | main.go:166-172 | fails with `MarkerAbsent` exactly when the page lacks the marker; a token holds no `"` and no marker |
| BearerToken.SegmentIsSecondPiece | main.go:168 | the text after the first marker, up to the next, is the second piece of the split |
| BearerToken.ThirdFieldOfSplit | main.go:170-172 | the third piece of a split at `"` follows two quote-free fields and ends at a quote or the end |
| BearerToken.SplitOfLayout | main.go:170-172 | such a layout determines the third piece |
| BearerToken.ExtractLayout | main.go:166-172 | the token is exactly the third `"`-separated field of the text between the first marker and the next |
| BearerToken.TooFewQuotesIff | main.go:170-172 | fails with `TooFewQuotes` exactly when there is a marker and fewer than two `"` follow it before the next marker |
| BearerToken.ExampleToken | main.go:166-172 | a page holding `{"bearerToken":"abc123"}` yields `abc123` |
| Catalog.LastMatch | main.go:103-107 | the last entry with the queried label, or none exactly when no label matches |
| Catalog.Selected | main.go:101-108 | the pair the loop leaves: the last match's search parameters and the query, or two empty strings when no label matches |
| Catalog.LastMatchStep | main.go:103-107 | one more entry wins when it matches and changes nothing otherwise |
| Catalog.SelectByLabel | main.go:101-108 | the loop leaves the search parameters of the last match and the query as its name, or two empty strings |
| Catalog.EmptySelection | main.go:114-121 | the selection is empty exactly when no label matches, or when the query is empty and the last entry with an empty label has empty search parameters |
| Catalog.LastEntryWins | main.go:116-120 | of duplicate labels the later entry is selected |
| Catalog.OtherEntriesIgnored | main.go:116-120 | entries with other labels do not change the selection |
| Requests.AuthHeader | main.go:178 | the header is `Bearer ` followed by exactly the token |
| Requests.AuthHeaderInjective | main.go:210 | different tokens give different headers |
| Requests.QueryUrl | main.go:209 | the URL is the endpoint, the parameters and `&include=all`, and the parameters read back from it |
| Requests.BrandsRequest | main.go:177-178 | the brand list is fetched with the token's header |
| Requests.BrandsIsCategoryQuery | main.go:177 | the fixed brand-list URL is the counters endpoint queried with the car category `cg=1020` |
| Requests.ModelsRequest | main.go:209-210 | the models are fetched from the counters endpoint with the brand's parameters and the token's header |
| Requests.ListingsRequest | main.go:240-241 | the listings are fetched from the search endpoint with the model's parameters and the token's header |
| Requests.QueryUrlInjective | main.go:240 | different parameters give different URLs |
| Requests.EndpointsDisjoint | main.go:209-240 | a model-list URL is never a listing URL |
| Export.HeaderNamesColumns | main.go:282 | the header row names the seven columns in order |
| Export.Cell | main.go:290-300 | the value a listing has under each column; the price cell is a decimal that reads back as the price |
| Export.Row | main.go:289-300 | the row of a listing has one cell per column, in column order |
| Export.AppendedRow | main.go:289-300 | the seven values the loop body appends are the listing's row, column by column |
| Export.BuildLine | main.go:289-300 | the loop body, appending value after value, builds exactly the listing's row |
| Export.ExportRows | main.go:282-305 | the header, then one row per listing in order, each the row of its listing |
| Export.FileName | main.go:269 | the file name ends in `.csv` |
| Export.FieldSlices | main.go:269 | where the prefix, year, dashes, month, day and `.csv` sit in a name built like the file name |
| Export.FileNameLayout | main.go:269 | the name is `brand_model_`, the year, a `-`, the two-digit month, a `-`, the two-digit day and `.csv`, each at its position |
| Export.DateFieldsAgree | main.go:269 | equal names built like the file name have equal year, month and day text |
| Export.FileNameDeterminesDate | main.go:269 | for one brand and model, the names are equal exactly when the dates are |
| Export.JoinPath | main.go:272-276 | `filepath.Join` without the clean-up: a non-empty first part starts the path and is followed by `/` or nothing |
| Export.JoinPathEmpty | main.go:272-276 | the joined path is empty exactly when every part is |
| Export.JoinPathOfNonEmpty | main.go:272-276 | with no empty part, the path is the parts joined with `/` |
| Export.JoinPathCons | main.go:272-276 | a non-empty first part comes before a `/`, unless nothing follows |
| Export.JoinPathSnoc | main.go:276 | a last part is added after a `/`, unless one side is empty |
| Export.JoinPathPrepend | main.go:276 | a non-empty name in front of a non-empty path is followed by a `/` |
| Export.JoinPathFive | main.go:276 | five non-empty names join to the names with `/` between them |
| Export.OutputDir | main.go:272-273 | the directory path is never empty |
| Export.OutputPath | main.go:272-276 | the file lies directly in the directory that is created |
| Export.PathLayout | main.go:276 | with all names given, the path is `outdir/data/brand/model/` and the file name |
| Export.SameDaySamePath | main.go:268-276 | for one directory, brand and model, two runs write the same file exactly when they run on the same day |
| Cli.ShowsUsage | main.go:77-89 | usage is shown exactly when `os.Args` holds only the program name (no argument), or when, without `-list`, exactly one of brand and model is given |
| Cli.OutputFor | main.go:138-148 | nothing is output in list mode; JSON exactly when asked for with no directory and no list mode; otherwise CSV into the given directory or the working directory |
| Scraper.PlanRequests | main.go:91-136 | the token comes from the page fetched from `https://blocket.se/`; fails exactly when it cannot be extracted; otherwise each request carries the token and the parameters selected from the previous reply |
| Scraper.ExampleChain | main.go:103-136 | a matched brand's and model's parameters reach the model and listing URLs unchanged |
| Scraper.UnknownBrandQueriesAllCounters | main.go:101-109 | an unknown brand sends the model request with empty parameters |

## Left out

- HTTP, the 10-second client timeouts, reading response bodies and JSON decoding are left out. The catalog replies and the fetched front page are function parameters of `Scraper.PlanRequests`.
- The error checks after `getCarBrand` and `getBrandModel` (lines 96-98, 109-112) are left out. They only log and carry on with a zero `Car`. The errors come from building or sending the request and from reading the reply; a JSON decoding failure is only printed (lines 200-202, 231-233), and the function returns the decoded value with a nil error. Any decoded `Car` is covered, because the catalog replies are an arbitrary function parameter of `Scraper.PlanRequests`.
- The error check after `getBearerToken` (lines 92-94) is left out because it can never fire: `getBearerToken` either exits through `log.Fatalln` (lines 156, 162) or panics (lines 170, 172) instead of returning an error.
- `PrettyPrint`, the list-mode printing of labels (lines 124-134) and every other printing and logging are left out, because output is I/O. `Cli.OutputFor` only records which branch is taken.
- `flag` parsing, `flag.Usage` and `os.Exit` are left out. `Cli.ShowsUsage` takes the length of `os.Args` (program name included) and the parsed flag values as parameters.
- `time.Now` and `os.Getwd` are left out. The date and the working directory are parameters.
- `os.Stat`, `os.MkdirAll`, `os.Create` and the `encoding/csv` writer are left out. The model stops at the rows handed to the writer and at the path, and does not cover CSV quoting.
- Export.JoinPath: `filepath.Join` also cleans the result lexically (`..`, `.`, repeated and trailing slashes). The model only drops empty parts and puts `/` between the others. It agrees with Go when `outdir` is a clean path other than `.` and `/`, and the brand and model are single names without `/` that are not `.` or `..`. For `-outdir .` Go gives `data/…` and the model `./data/…`; for `-outdir /` Go gives `/data/…` and the model `//data/…`.
- Export.ExportRows: the original indexes the first parameter group, its third and fourth parameters and the first location without checking, and panics when one is missing. The model requires them (`Exportable`) instead of modelling the panic.
- Export.Date: Go's `time.Month` and day are bounded by the calendar. The model only requires month 1-12 and day 1-31 (`ValidDate`).
- Decimal.Int64: Go's `int` (the type of `Price.value` and `adCounter`) is modelled as the 64-bit `Int64`, the width on the platforms the tool is built for.
- Scraper.PlanRequests: when the token cannot be extracted, the original panics. The model returns the extraction error instead of continuing.
- BearerToken.Extract: the page is a string of characters. Go's byte-level `string(body)` conversion and any invalid UTF-8 are not modelled.
