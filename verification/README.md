# GameSearcher core in Dafny

GameSearcher is a command-line tool with a small backend. It looks a game up on the Myrient ROM archive and downloads it. This project models its core logic:

- **HTTP result classification** (`Http`). Every outcome of a GET becomes a `ContentResponse` (URL, status code, content). `is_failure` and `is_success` classify it against the five "bad request" statuses. The tenacity retry policy wraps `download`.
- **Platform parsing** (`ConsoleTypes`, `Myrient`). The two `from_string` routines lower-case and trim the input, then match it against a few literals. `MyrientConsole.domains` maps a platform to its listing URLs through the static `MYRENT_DOMAINS` table.
- **The console source registry** (`Registry`). `Console` holds a list of `Source`s, at most one per platform key. It has lookup, add, bulk add and remove operations, plus the `ConsoleFactory`.
- **Listing pages** (`Listing`, `Search`):
  - the `link`, `title` and `file_name` of a listing row;
  - `parse_content`, which skips the header and navigation rows;
  - the title filter of `ConsoleParser.results`;
  - `prepare_results_from_domain` and `prepare_download`.
- **Backend value objects** (`FindQueries`, `Ratings`). `FindQuery` pagination and its validators, and the 1..5 bounds on rating fields.

Every operation is a pure function. Each exception the source raises becomes an `Err` of the `Result` type in `Errors`. The error carries the exception class and the message the source formats.

The model takes these things as parameters instead of performing them:

- the network: a `Transport` value per GET;
- the HTML parser: a function from page text to a structured `Document`;
- `os.path.isfile`;
- `urljoin`.

Behaviour that follows the code rather than its documentation:

- **Substring matching.** Both `from_string` routines test `console in "<literal>"`, so the normalised input must be a substring of a literal. `ConsoleType.from_string` therefore maps `""` and `"cube"` to GAMECUBE. `MyrientConsole.from_string` tests "unknown" first, so `""`, `"n"` and `"own"` give `unknown`, and `"a"` gives `playstation_3` because that branch comes before "gamecube".
- **`download` is never retried.** It catches every `RequestException` itself and returns the failure as a value, so `retry_if_exception_type(RequestException)` never fires. "Fails twice, then succeeds" therefore ends with the first failure.
- **A `download` error response loses its status.** The handler tests `if exception.response`, which is the response's truthiness. An `HTTPError` always carries a 4xx/5xx response, which is falsy, so the result is always 500 with the placeholder text.
- **A row without a title makes `results` raise.** The row is not dropped.
- **`results` raises `NameError` for GameCube.** Its parser class does not exist.
- **`add_source` compares keys only.** A second source under a key fails even when its URL differs. `add_sources` skips that check entirely.
- **`PlayStationTwoConsole` is built as PLAYSTATION_1.**
- **Only PLAYSTATION_1 can be created.** `ConsoleFactory` raises for every other type.
- **`prepare_download` drops the download's result.** It returns `None` whether or not `download` succeeded, so a failed download goes unreported. The model returns the `download` response so that this can be seen.

## Model

| member | source | states |
|---|---|---|
| Text.LowerChar | src/modules/myrient.py:15 | A capital becomes the small letter that `UpperChar` maps back to that capital. Every other character is left alone, and the result is never a capital. |
| Text.LowerMeaning | src/modules/myrient.py:15 | `lower()` keeps the length. At every position a capital becomes its own small letter (`UpperChar` restores it), every other character is kept, and no capital remains. |
| Text.StripStart | src/modules/myrient.py:15 | The result is a suffix of the input. Every removed character is whitespace, and the result does not start with whitespace. So exactly the leading whitespace is cut. |
| Text.StripEnd | src/modules/myrient.py:15 | The result is a prefix of the input. Every removed character is whitespace, and the result does not end with whitespace. So exactly the trailing whitespace is cut. |
| Text.Strip | src/modules/myrient.py:15 | `strip()` never lengthens its input and leaves whitespace at neither end of the result. |
| Text.StripTrims | src/modules/myrient.py:15 | The result of `strip()` is a contiguous slice of the input with only whitespace before and after it. With the end conditions of `Text.Strip`, this pins down the result. |
| Text.NormalizeIsNormal | src/modules/myrient.py:15 | `lower().strip()` leaves no capital and no surrounding whitespace, so normalising a normal form changes nothing. |
| Text.NormalizeFixed | src/modules/myrient.py:15 | A string with no upper-case letter and no surrounding whitespace is its own normal form. |
| Text.NormalizeIgnoresCase | src/modules/myrient.py:15 | Lower-casing before normalising changes nothing. |
| Text.NormalizeIgnoresPadding | src/modules/myrient.py:15 | One more leading or trailing space does not change the normal form. |
| Text.StripStartAppendSpace | src/modules/myrient.py:15 | Stripping the start of `x + " "` gives the stripped start of `x` followed by the space, or the empty string when `x` is all whitespace. |
| Text.NatToString | src/main.py:164 | `str` of a status code is a non-empty string of decimal digits. The digits spell the number (`DigitsValue` reads them back), and there is no leading zero except in "0". |
| Text.IntToString | src/main.py:164 | `str` of an integer starts with a minus sign exactly when the integer is negative. What follows is a decimal numeral (digits only, no leading zero except in "0") that spells the magnitude. |
| Text.DecimalUnique | src/main.py:164 | Two decimal numerals of the same value are the same string. So digits-only, no leading zero and the value together pin what `str` prints. |
| Text.NatToStringUnique | src/main.py:164 | Any decimal numeral worth `n` is exactly `str(n)`. |
| Text.Contains | src/modules/myrient.py:16-21 | Python `needle in hay` on strings: true exactly when the needle occurs at some position. An occurrence needs a needle no longer than the haystack, and the empty needle is in every string. |
| Text.FindFrom | src/modules/myrient.py:16-21 | The scan returns the first position at or after `from` where the needle occurs, or -1 when it occurs at none. |
| Text.ContainsIffFind | src/modules/myrient.py:16-21 | Substring containment holds exactly when the left-to-right scan finds the needle, and the found position is an occurrence. |
| Http.IsFailure | src/modules/core.py:29-43 | A response is a failure exactly when its status is 400, 408, 500, 502 or 504. |
| Http.IsSuccess | src/modules/core.py:45-46 | `is_success` is the exact negation of `is_failure`. |
| Http.FetchUrlContent | src/modules/core.py:100-154 | The URL is kept. A received or error-carried response gives its own status and text. Without a response, the status is 502 for a connection error (connect timeouts included, since that handler comes first), 504 for a read timeout and 400 otherwise, with the placeholder text. |
| Http.Download | src/modules/core.py:74-98 | A successful GET gives 200 with the file path as content. An error status met by `raise_for_status`, or an exception without a truthy response, gives 500 with the placeholder text. Only a raised exception carrying a truthy response passes that response through. |
| Http.DownloadErrorStatusIsFailure | src/modules/core.py:86-98 | Whatever error status the server answers, `download` reports the 500 failure. |
| Http.DownloadSuccessIff | src/modules/core.py:74-98 | `download` succeeds if and only if the GET returned a non-error response, or raised with a truthy response whose status is not a bad-request status. |
| Http.FetchWithoutResponseIsFailure | src/modules/core.py:116-154 | A fetch that raised without a response always reports failure. |
| Http.RetryFrom | src/modules/core.py:69-73 | Every attempt before the last raised a request exception. A value returned by the last attempt ends the call with that value. A non-request exception passes through. Giving up happens only at the third attempt, after a third request exception. |
| Http.Retry | src/modules/core.py:69-73 | The decorated call makes one to three attempts, and every attempt but the last raised a request exception. A returned value is the result, a non-request exception passes through, and the call gives up only after three request exceptions. |
| Http.DownloadWithRetry | src/modules/core.py:69-98 | The retried `download` makes exactly one attempt and returns that attempt's result, whatever later GETs would have done. |
| Http.TransientFailureIsFinal | src/modules/core.py:69-98 | A connection error on the first GET ends the call in failure, even when a second GET would have succeeded. |
| Http.RetryGivesUpAfterThree | src/modules/core.py:69-73 | A call that raises a request exception on every attempt gives up after the third. |
| ConsoleTypes.OrdinalInjective | core/core.py:21-28 | Equal enum values mean equal members, so comparing `key.value`s compares keys. |
| ConsoleTypes.FromString | src/modules/core.py:171-179 | PLAYSTATION_1 is returned if and only if the normal form is "playstation_1" or "playstation 1". GAMECUBE is returned if and only if the normal form is a substring of "gamecube". Every other input raises NotImplementedError naming the normal form. |
| ConsoleTypes.PlayStation1NotInGameCube | core/core.py:33-36 | Neither PlayStation 1 spelling is a substring of "gamecube", so the two branches never overlap. |
| ConsoleTypes.FromStringExact | core/core.py:33-36 | "playstation_1" maps to PLAYSTATION_1 and "gamecube" to GAMECUBE. |
| ConsoleTypes.FromStringPartial | core/core.py:35-36 | "cube" and the empty string map to GAMECUBE. |
| ConsoleTypes.RejectsNormalForm | core/core.py:33-38 | A normal form that is neither PlayStation 1 spelling and whose first character is not in "gamecube" is rejected. |
| ConsoleTypes.PlayStation2Rejected | core/core.py:33-38 | Any input that normalises to "playstation_2" is rejected. |
| ConsoleTypes.PlayStation3Rejected | core/core.py:33-38 | Any input that normalises to "playstation 3" is rejected. |
| ConsoleTypes.FromStringIgnoresCaseAndPadding | core/core.py:32 | Upper case and an extra leading or trailing space do not change the result. |
| Registry.IndexOfKey | core/core.py:114-120 | The position found holds the first source with the key, and no earlier position matches. |
| Registry.HasMultipleSourcesMeaning | core/core.py:110-112 | A console not reported as having several sources answers every key with at most one URL. A successful registration on a non-empty console makes it report several. |
| Registry.GetSourceByKeyOrDefault | core/core.py:114-120 | The result is none exactly when no source has the key. Otherwise it is the first source in list order with that key. |
| Registry.GetSourceAtIndexOfKey | core/core.py:114-120 | The lookup returns exactly the source at the first position holding the key. |
| Registry.GetSourcesByKey | core/core.py:122-128 | A URL is in the answer if and only if some source with that key carries it. |
| Registry.GetSourcesByKeyAppend | core/core.py:122-128 | The lookup in a concatenation is the concatenation of the lookups, so list order is kept. |
| Registry.GetSourcesByKeyHead | core/core.py:114-128 | The URL list is non-empty exactly when the single lookup finds a source, and its first URL is that source's. |
| Registry.UniqueKeysGiveOneSource | core/core.py:122-139 | Under the one-source-per-key invariant, a key yields at most one URL. |
| Registry.AddSource | core/core.py:130-139 | It fails with "Entity already exists." if and only if a source with the same key is registered. Otherwise it appends the source and keeps the rest unchanged. |
| Registry.AddSourcePreservesUniqueKeys | core/core.py:130-139 | `add_source` preserves the one-source-per-key invariant. |
| Registry.AddSourceTwiceFails | core/core.py:130-139 | A second registration under the same key fails, whatever its URL. |
| Registry.AddSources | core/core.py:141-145 | The result has no duplicates and contains exactly the sources of the list and of the batch. |
| Registry.AddSourcesBypassesKeyCheck | core/core.py:130-145 | A batch can add a second source under an occupied key, breaking the invariant that `add_source` would have refused to break. |
| Registry.RemoveFirst | core/core.py:156 | `list.remove` shortens the list by exactly one. |
| Registry.RemoveFirstAt | core/core.py:156 | Removing the first occurrence at position `i` leaves the elements before and after `i`, in order. |
| Registry.RemoveSourceByKey | core/core.py:147-156 | Without a matching key the list is unchanged. Otherwise exactly the first source with the key is removed and the others keep their order. |
| Registry.RemoveSourceByKeyClearsKey | core/core.py:147-156 | Under the invariant, removal keeps it and leaves no source under the removed key. |
| Registry.AddThenRemove | core/core.py:130-156 | Registering a source and then removing its key gives back the original list. |
| Registry.CreateConsole | core/core.py:169-173 | A console is created if and only if the type is PLAYSTATION_1, with that type and no sources. Every other type raises NotImplementedError naming `ConsoleType.<NAME>`. |
| Registry.PlayStationTwoConsole | core/core.py:181-183 | The PlayStation 2 console is the PlayStation 1 console: its type is not PLAYSTATION_2. |
| Myrient.FromString | src/modules/myrient.py:13-23 | The result is Ok exactly when the normal form is a substring of one of the four literals. It is Unknown exactly when it is a substring of "unknown". It is PlayStation 3 exactly when it is not in "unknown" but is in a PlayStation 3 spelling. It is GameCube exactly when only "gamecube" contains it. Any other input raises NotImplementedError naming the normal form. |
| Myrient.GameCubeBranch | src/modules/myrient.py:16-21 | A substring of "gamecube" whose first character occurs in neither earlier literal fails the first two tests and passes the last. |
| Myrient.PlayStation3Branch | src/modules/myrient.py:16-19 | A substring of "playstation_3" whose first character is not in "unknown" fails the first test and passes the second. |
| Myrient.RoutesToGameCube | src/modules/myrient.py:20-21 | A substring of "gamecube" that is part of neither earlier literal routes to GameCube. |
| Myrient.RoutesToPlayStation3 | src/modules/myrient.py:18-19 | A substring of "playstation_3" that is not part of "unknown" routes to PlayStation 3. |
| Myrient.ValueIsNormal | src/modules/myrient.py:8-11 | Every member's value is its own normal form. |
| Myrient.RoutesBack | src/modules/myrient.py:13-21 | Any input that normalises to a member's value routes to that member. |
| Myrient.UnknownRoutesBack | src/modules/myrient.py:16-17 | Any spelling that normalises to "unknown" gives Unknown. |
| Myrient.PlayStation3RoutesBack | src/modules/myrient.py:18-19 | Any spelling that normalises to "playstation_3" gives PlayStation 3. |
| Myrient.GameCubeRoutesBack | src/modules/myrient.py:20-21 | Any spelling that normalises to "gamecube" gives GameCube. |
| Myrient.FromStringValue | src/modules/myrient.py:8-21 | Parsing a member's own value gives back that member. |
| Myrient.RoutesToUnknown | src/modules/myrient.py:16-17 | Any substring of "unknown" routes to Unknown, ahead of every other branch. |
| Myrient.EmptyRoutesToUnknown | src/modules/myrient.py:16-17 | An input that normalises to the empty string routes to Unknown. |
| Myrient.NRoutesToUnknown | src/modules/myrient.py:16-17 | "n" routes to Unknown, although it is also part of "playstation". |
| Myrient.OwnRoutesToUnknown | src/modules/myrient.py:16-17 | "own" routes to Unknown. |
| Myrient.PlaystationRoutesToPlayStation3 | src/modules/myrient.py:18-19 | "playstation" routes to PlayStation 3. |
| Myrient.StationRoutesToPlayStation3 | src/modules/myrient.py:18-19 | "station" routes to PlayStation 3. |
| Myrient.ARoutesToPlayStation3 | src/modules/myrient.py:18-21 | "a" routes to PlayStation 3 ahead of GameCube, although it is part of both literals. |
| Myrient.CubeRoutesToGameCube | src/modules/myrient.py:20-21 | "cube" routes to GameCube. |
| Myrient.GameRoutesToGameCube | src/modules/myrient.py:20-21 | "game" routes to GameCube. |
| Myrient.RejectsOtherNames | src/modules/myrient.py:22-23 | A normal form whose first character occurs in none of the literals raises NotImplementedError with that name. |
| Myrient.DomainsIn | src/modules/myrient.py:25-31 | It fails if and only if the table is non-empty and the name is rejected, with the same error. A URL is in the answer exactly when a row keyed by the parsed platform carries it. |
| Myrient.DomainsInIsFilter | src/modules/myrient.py:25-31 | Once the name is accepted, `domains` is the key filter over the table, in table order. |
| Myrient.Domains | src/modules/myrient.py:25-31 | `domains` raises exactly when `from_string` rejects the name, with the same error. Otherwise it gives the URLs of the static table rows keyed by the parsed platform, in table order. |
| Myrient.UrlsForTable | src/modules/myrient.py:40-53 | In the static table, PlayStation 3 has the two PSN URLs in order, GameCube has the NKit URL, and Unknown has none. |
| Myrient.DomainsOfEachPlatform | src/modules/myrient.py:25-53 | Every spelling of a platform's value yields its URLs: two for PlayStation 3, one for GameCube, none for Unknown. |
| Listing.LinkCellIndex | src/main.py:27 | The position found is the first cell classed `link`, or the end of the row when there is none. |
| Listing.AttributeText | src/main.py:41-48 | A missing attribute raises the "Could not obtain href" error. A string value is returned as is and a list gives its first element. An empty list raises IndexError. |
| Listing.Link | src/main.py:25-48 | A row without a link cell raises "Could not find link tag in table row.". For the first cell classed `link`, a missing anchor raises "Could not find a tag in table data cell." and an anchor gives its `href` as `AttributeText` reads it (missing raises, string as is, list head). So a link is returned exactly when that anchor has a usable `href`. |
| Listing.Title | src/main.py:50-73 | A row without cells raises "Could not find table data cells in table row.". A first cell without an anchor raises "Could not find a tag in table data cell.". Otherwise the result is the first cell's anchor's `title` as `AttributeText` reads it, so a title is returned exactly when that attribute is usable. |
| Listing.ListingRowRoundTrip | src/main.py:25-73 | A row built from a title and a link reads both back. A non-link cell placed in front changes the title (it raises) but not the link. |
| Listing.HexValue | src/main.py:77 | A hex digit's value is below 16, and the lower-case digit that spells that value is the given digit up to case. |
| Listing.HexDigitRoundTrip | src/main.py:77 | Reading back the digit that spells a value below 16 gives that value. |
| Listing.Unquote | src/main.py:77 | Decoding never lengthens the text. Its other properties are stated by the `Listing.Unquote…` lemmas below. |
| Listing.UnquoteWithoutEscapes | src/main.py:77 | Text without `%` is returned unchanged. |
| Listing.UnquoteEscape | src/main.py:77 | A `%` followed by two hex digits decodes to the character of the byte they spell, and decoding carries on after the escape. |
| Listing.UnquoteQuote | src/main.py:77 | Decoding undoes the percent-encoding of `%` and the space, for every string. |
| Listing.UnquotePlainPrefix | src/main.py:77 | A prefix without `%` passes through decoding unchanged. |
| Listing.UnquoteEscapedSpace | src/main.py:77 | `%20` decodes to a space. |
| Listing.DeleteDisallowed | src/main.py:78 | A character survives if and only if it is a word character, whitespace or a hyphen. Text made only of such characters is unchanged. |
| Listing.DeleteDisallowedAppend | src/main.py:78 | The deletion distributes over concatenation, so kept characters keep their order and multiplicity. |
| Listing.DeleteDisallowedChar | src/main.py:78 | A single character is kept exactly when it is allowed. |
| Listing.ReplaceSpaces | src/main.py:78 | Length is kept, every space becomes `_` and every other character is kept. |
| Listing.ReplaceSpacesJoin | src/main.py:78 | Two space-free parts joined by a space come out joined by an underscore. |
| Listing.FileNameOf | src/main.py:75-79 | A derived file name holds only word characters, hyphens and non-space whitespace; in particular no space, `%`, `/` or `.`. |
| Listing.FileName | src/main.py:75-79 | `file_name` fails exactly when `link` does, with the same error. Otherwise it is the file-name transform of the link, and it holds only file-name characters. |
| Listing.FileNameIdempotent | src/main.py:75-79 | Deriving a file name from a derived file name changes nothing. |
| Listing.FileNameOfPlainLink | src/main.py:75-79 | A link of word characters, spaces and hyphens only has its spaces replaced. |
| Listing.FileNameOfEscapedSpace | src/main.py:75-79 | An escaped space between two plain names becomes an underscore. |
| Listing.FileNameOfDecoded | src/main.py:75-79 | A link that decodes to two plain names around a space gives those names joined by an underscore. |
| Listing.KeepFromPastHeader | src/main.py:104-112 | Once past positions 0 and 1, the loop keeps every row. |
| Listing.KeepFromStart | src/main.py:104-112 | The loop drops exactly the first two rows, or everything when there are fewer than two. |
| Listing.ParseContent | src/main.py:96-112 | It fails if and only if the page has no `table#list`, with "Could not find table in provided content.". Otherwise the result has all but the first two rows, in order (none when there are fewer than two). |
| Listing.ParseContentDropsHeaderAndNavigation | src/main.py:104-112 | A header row and a navigation row in front of the data rows leave exactly the data rows. |
| Search.FilterByTitle | src/main.py:137-141 | It fails if and only if some row has no title, with the error of the first such row. Otherwise a row is kept if and only if its normalised title contains the normalised query. |
| Search.EmptyQueryKeepsAll | src/main.py:137-141 | When every row has a title, the empty query keeps every row in order. |
| Search.KeepWhereAll | src/main.py:137-141 | A condition that holds for every row keeps the whole list. |
| Search.FilterByTitleIdempotent | src/main.py:137-141 | Filtering the filtered rows again by the same query changes nothing. |
| Search.FilterByTitleIsKeepWhere | src/main.py:137-141 | When every row has a title, the filter equals the independent, order-keeping reference filter on the match condition. |
| Search.KeepWhereAppend | src/main.py:137-141 | The reference filter distributes over concatenation. |
| Search.FilterByTitleAppend | src/main.py:137-141 | Filtering two titled row lists together is filtering each and concatenating. |
| Search.Results | src/main.py:122-141 | Unknown raises "Unsupported console: MyrientConsole.unknown". GameCube raises NameError. For PlayStation 3, a page without a table raises the missing-table error. A PlayStation 3 page with a table gives exactly the title filter over the rows from position 2 on: the first untitled row's error, or else the matching rows in order. A successful result holds exactly the data rows whose titles match, and equals the order-keeping reference filter over the parsed rows. |
| Search.ResultsEmptyQuery | src/main.py:96-141 | For a PlayStation 3 listing whose data rows all have titles, the empty query gives every data row. |
| Search.PrepareResultsFromDomain | src/main.py:157-169 | A failure response raises RuntimeError with the status code and content in the message. A success is handed to `results`. |
| Search.FailureSkipsParser | src/main.py:157-169 | On a failed fetch the outcome is an error and does not depend on the parser. |
| Search.PrepareResultsStatuses | src/main.py:157-169 | A fetch that raised without a response always ends in the error. A 404 page, which is not a bad-request status, is handed to the parser. |
| Search.PathJoin | src/main.py:147-149 | An absolute second part replaces the first. Otherwise the result starts with the first part and ends with the second. The two are joined directly when the first part is empty or ends in `/`, and through one `/` otherwise. |
| Search.PathJoinSavePath | src/main.py:147-149 | An empty save path gives the relative path `<console>/<file>`. A save path ending in `/` is a plain prefix. Any other save path is followed by one `/`, giving `<save path>/<console>/<file>`. |
| Search.PrepareDownload | src/main.py:144-154 | It fails if and only if the platform name is rejected. An existing target file is left alone. Otherwise the file is downloaded from the joined URL into `<save path>/<console value>/<file>`. |
| Search.PrepareDownloadSkipsExisting | src/main.py:151-154 | An existing file is never downloaded again, whatever the network does. |
| FindQueries.ValidatePagination | backend/core/find_query.py:37-43 | A value passes if and only if it is non-negative, unchanged. A negative value raises ValueError with the unformatted message. |
| FindQueries.CollectOperators | backend/core/find_query.py:48 | Every collected operator is in the supported list and is `<` or `>`. Text without either character collects nothing. |
| FindQueries.ValidateFilter | backend/core/find_query.py:45-53 | The filter validator always returns its input unchanged. |
| FindQueries.NewFindQuery | backend/core/find_query.py:7-53 | Construction succeeds if and only if neither page field is negative, and it keeps every field as given. The ValidationError names each negative field. |
| FindQueries.DefaultIsValid | backend/core/find_query.py:8-11 | The defaults 0, 10, "" and "" pass validation. |
| FindQueries.ConstructionKeepsFields | tests/test_find_query.py:11-17 | `FindQuery(1, 10, "name eq John", "name")` keeps all four fields. |
| FindQueries.FilterNeverRejected | backend/core/find_query.py:45-53 | Whether construction succeeds does not depend on the filter. |
| FindQueries.Skip | backend/core/find_query.py:29-31 | `skip` is non-negative for a valid query, zero on the first page, and at least one page size past the first page. |
| FindQueries.Limit | backend/core/find_query.py:33-35 | `limit` is the page size, so it is non-negative for a valid query. |
| FindQueries.NextPageFollows | backend/core/find_query.py:29-35 | The next page starts where this page ends. |
| FindQueries.SkipCountsEarlierPages | backend/core/find_query.py:29-35 | `skip` is `page_index` full pages of `limit` records, that is `page_index × page_size`. |
| FindQueries.PagesDisjoint | backend/core/find_query.py:29-35 | Distinct pages of the same positive size do not overlap. |
| Ratings.InRangeValues | backend/features/parser_ratings/models.py:10 | The admissible scores are exactly 1 to 5. |
| Ratings.NewReview | backend/features/parser_ratings/models.py:8-10 | A review is created if and only if 0 < rating ≤ 5, with its fields kept. Otherwise it is a ValidationError on `rating`. |
| Ratings.FirstInvalidReview | backend/features/parser_ratings/models.py:17 | The position found holds the first out-of-range review, and all earlier ones are valid. |
| Ratings.NewRating | backend/features/parser_ratings/models.py:13-17 | A rating is created if and only if trust, performance and every review's rating lie in 1..5, with its fields kept. An out-of-range trust is reported first. |
| Ratings.OneBadReviewRejects | backend/features/parser_ratings/models.py:17 | One out-of-range review anywhere in the list rejects the whole rating. |
| Ratings.ConstructedReviewsAccepted | backend/features/parser_ratings/models.py:8-17 | Reviews that passed their own validation are always accepted in a rating with valid scores. |

## Left out

- Network, cache and file system. These are `CachedSession`, `requests.get`, the streamed chunk writes, `makedirs` and `path.isfile`. Each GET is a `Transport` parameter and `isfile` is a predicate parameter. Errors from writing the file are not modelled.
- Tenacity's random wait between attempts. It is time only.
- `urlparse`, the `domain` and `cache_path` properties, and `urljoin`. `urljoin` is a function parameter of `Search.PrepareDownload`.
- HTML parsing. A `Document` stands for the parsed page. `find` is modelled on direct cells and the first anchor of a cell only, and the `NavigableString` and `int` branches are not modelled.
- Text.LowerChar: ASCII only; Python's `lower`, `isspace` and `\w` also cover non-ASCII characters.
- Text.Strip: its own contract gives only the length bound and the end conditions. That the result is the input with its surrounding whitespace cut is the lemma `Text.StripTrims`. Stating it on the function puts an existential on every `Normalize` term, which the literal routing proofs cannot afford.
- Text.Lower: its own contract gives only the length. The character-by-character meaning is the lemma `Text.LowerMeaning`, for the same reason.
- Text.Normalize: it has no contract of its own. Its normal-form property is the lemma `Text.NormalizeIsNormal`.
- Listing.Unquote: its own contract gives only the length bound. Decoding is stated by `Listing.UnquoteEscape`, `Listing.UnquoteWithoutEscapes` and the round trip `Listing.UnquoteQuote`.
- Listing.Unquote: ASCII only. A `%XX` escape of a byte of 0x80 or more decodes to U+FFFD, where Python decodes UTF-8 sequences.
- Registry.AddSources: gives the deduplicated list in first-occurrence order. Python's `set` order is unspecified.
- Registry.AddSources: deduplicates by value. Python deduplicates `Source` objects by identity, since the class defines no `__eq__` or `__hash__`.
- Registry.RemoveSourceByKey: removes by value. Python removes by identity; both remove the first source with the key.
- Registry.CreateConsole: starts every console with an empty source list. `Console.__init__` never assigns `sources`, so on a fresh console the source raises AttributeError on first use.
- `main()`. It is the interactive loop of input, print and exit. It has three defects that are not modelled:
  - it keeps only the last domain's results;
  - it passes `(link, console value, link, title)` to `prepare_download`;
  - its `while` loop never breaks.
- The missing import of `MyrientConsole` in `src/main.py`. It makes the module fail at import; the model assumes the import is present.
- `size` and `date` of a listing row. They return the empty string.
- The Beanie/MongoDB repositories, the FastAPI server, settings loading, the static seed list and the pydantic schemas without logic.
- Pydantic type coercion. Inputs are taken as already typed.
- FindQueries.NewFindQuery: its ValidationError carries only the names of the failing fields, not pydantic's full error report.
- Ratings.NewRating: its ValidationError names only the first failing field in declaration order. Pydantic lists every failing field.
- `Rating.parserId`: reduced to a string id. It is a link to a parser document.
