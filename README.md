# Polar token list: a verified model of list composition and discovery

This project is a Dafny model of the core of the Polar token list for the Sui
chain. The model covers these parts:

- **Records** (`Types`): a token record, the ban list, the two output lists.
- **Validation** (`Validate`): `validateToken`, with its identifier pattern and
  its timestamp pattern.
- **Strict policy** (`Compose`): the strict-list eligibility rule.
- **Composition** (`Index`): the pipeline that loads the discovered and the
  manual records, keeps the valid ones, deduplicates by object identifier with
  the later record winning, drops banned identifiers, splits off the strict list
  and sorts both lists with `cmpToken`.
- **CSV reading** (`Io`): the line parser, the file splitter, and the token and
  ban-list readers.
- **CSV writing** (`Provider`): the fresh rows made from discovered coins and the
  CSV text the discovered list is written as. `CsvRoundTrip` proves that the
  reader gives those rows back.
- **Blockberry discovery** (`Blockberry`): the paged fetch loop, the
  validity and spam filters, and the conversion of a raw coin.
- **The discovery script** (`DiscoverScript`): the known identifiers, the
  page-limit setting, the filter for new coins and the appended file.

Files, clocks, environment variables and the network are parameters:

- a file's text comes in as an `Option<string>`, with `None` for a missing file;
- the current time comes in as `now`;
- the page-limit variable comes in as `env`;
- the provider's page responses come in as a sequence of `FetchResult`s.

A request past the end of that sequence returns an empty page.

Numbers are `Num = Int(value) | NonInteger(text)`. Only text in plain decimal
integer syntax, with an optional sign, reads as an integer. Any other text keeps
the text it came from, and the writer writes that text back. This is coarser than
`Number(text)`: text such as "6.0", "1e1" or "0x6" denotes an integer there but
is `NonInteger` here, and an integer too large for a double stays exact here
where `Number` rounds it (see "## Left out").

A reader cell that is missing because the row is shorter than the header is
modelled as the empty cell. For token rows this changes nothing the core can
observe. Every later use treats `undefined` and `""` alike: validation rejects
both, the writer writes `""` for both, and the known-identifier loop skips both.
For ban-list rows the difference matters and is kept. An entry whose identifier
cell is missing has no identifier, and the composition aborts when it lower-cases
that identifier (`Index.Pipeline`).

## Model

| member | source | states |
|---|---|---|
| Validate.IsHexLower | src/validate.ts:3-5 | the identifier pattern accepts exactly "0x" followed by one or more lower-case hex digits up to the end |
| Validate.UpperHexRejected | src/validate.ts:3-5 | an identifier holding an upper-case A-F anywhere is rejected |
| Validate.IsHexLowerOfLower | src/validate.ts:3-5 | after lower-casing, an identifier passes exactly when it starts "0x" or "0X" and the rest lower-cases to hex digits |
| Validate.IsIsoDate | src/validate.ts:7-10 | the timestamp test is unanchored: it holds exactly when the shape occurs at some position |
| Validate.IsoDateUnanchored | src/validate.ts:7-10 | text around an accepted timestamp keeps it accepted |
| Validate.IsoDateNoRangeCheck | src/validate.ts:7-10 | no field is range-checked: "9999-99-99T99:99:99Z" passes |
| Validate.IsoDateNoFraction | src/validate.ts:7-10 | a timestamp with milliseconds before the Z is rejected |
| Validate.ValidateToken | src/validate.ts:12-22 | one message per failing check, so at most seven, listed in the order the checks are made |
| Validate.MessagesInCheckOrder | src/validate.ts:12-22 | when two checks fail, the earlier check's message comes first in the list |
| Validate.ValidateTokenEmptyIffValid | src/validate.ts:12-22 | no message exactly when every check passes |
| Validate.MessageIffFails | src/validate.ts:12-22 | each message is reported exactly when its own check fails |
| Validate.BlankNameOrSymbolRejected | src/validate.ts:14-19 | a name or symbol that is empty or all white space is reported and nothing else is; the boolean message is never reported |
| Validate.MessagesDistinct | src/validate.ts:14-20 | the seven messages are pairwise different |
| Compose.EligibilityDependsOnlyOnVerified | src/compose.ts:11-14 | strict eligibility is the verified flag and nothing else |
| Compose.AllowTagsIgnored | src/compose.ts:3-14 | an allowed tag does not make an unverified record eligible |
| Index.CmpToken | src/index.ts:13-22 | verified first; the result is 0 exactly when the flag, the primary key and the lower-cased name all agree |
| Index.CmpTokenAntisymmetric | src/index.ts:13-22 | swapping the arguments negates the result |
| Index.CmpTokenTransitive | src/index.ts:13-22 | the comparison is transitive |
| Strings.StrCmpIsUtf16Order | src/index.ts:17-18 | the string comparison is the lexicographic order of the UTF-16 code units, as JavaScript's `<` on strings |
| Strings.AstralBeforeHighBmp | src/index.ts:17-18 | a character outside the Basic Multilingual Plane sorts before U+FFE5, because its high surrogate is the smaller code unit |
| Index.SortTokens | src/index.ts:111-112 | the sorted list is ordered by the comparison and is a permutation of its input |
| Index.SortStable | src/index.ts:111-112 | the sort is stable: for any record x, the records comparing equal to x come out in their input order |
| Index.SortExample | src/index.ts:111-112 | a concrete input is sorted with the verified records first and by symbol |
| Index.SortDocumented | src/index.ts:111-112 | the same records given in another order sort to the same list |
| Index.SortVerifiedFirst | src/index.ts:111-112 | a verified record ahead of an unverified one stays ahead |
| Index.Normalize | src/index.ts:36-62 | a loaded record's name and symbol have no white space at their ends and its identifier is lower-case; a name becomes empty exactly when it was all white space; every other field is unchanged |
| Index.NormalizeIdempotent | src/index.ts:36-62 | normalising a loaded record twice is normalising it once |
| Index.ValidTokens | src/index.ts:68-78 | the loop keeps exactly the input records with no message, in input order |
| Index.Dedupe | src/index.ts:81-83 | one record per identifier, the same identifiers, and each kept record is the last one with its identifier |
| Index.DedupeById | src/index.ts:81-83 | the map loop computes the deduplication |
| Index.FirstIdsOrder | src/index.ts:81-83 | the map's keys are listed in order of first appearance: an earlier key occurs in the input before a later key first does |
| Index.DedupeKeepsFirstPositions | src/index.ts:81-83 | each kept record sits at the position where its identifier first occurs: an earlier kept record's identifier occurs in the input before a later one's first does |
| Index.BannedIds | src/index.ts:100-102 | the ban set is defined exactly when every entry has an identifier, and holds exactly their lower-cased forms |
| Index.Unbanned | src/index.ts:105 | the kept records are exactly the records whose identifier is not banned |
| Index.BuildLists | src/index.ts:65-128 | the imperative composition computes the pipeline |
| Index.Pipeline | src/index.ts:100-102 | the composition fails exactly when some ban-list entry has no identifier |
| Index.PipelineShape | src/index.ts:111-128 | fixed names, chain, timestamp and filters; both lists are sorted |
| Index.ListedIsAccepted | src/index.ts:68-105 | every listed record is an accepted input record |
| Index.PipelineOutputsValid | src/index.ts:36-78 | every listed record passes validation, is normalised, and comes from a discovered or a manual record |
| Index.PipelineNoBanned | src/index.ts:100-108 | no listed record has a banned identifier |
| Index.PipelineStrictIsVerifiedPart | src/index.ts:105-108 | the strict list holds exactly the verified records of the full list |
| Index.PipelineUniqueIds | src/index.ts:81-112 | each list holds at most one record per identifier |
| Index.PipelineLastWins | src/index.ts:64-83 | an accepted manual record overrides discovered ones; otherwise the last accepted discovered record is listed |
| Index.PipelineComplete | src/index.ts:65-105 | every accepted input record whose identifier is not banned has its identifier listed |
| Provider.ToTokenRowFresh | src/discovery/provider.ts:20-35 | a fresh row is unverified, stamped with now, tagged "auto", version 1; its name and symbol are the coin's trimmed, its identifier the coin's lower-cased; coin type, decimals and logo are the coin's; the website extension is present exactly when the coin's website is non-empty and holds that website |
| Provider.ToTokenRowAccepted | src/discovery/provider.ts:20-35 | a fresh row passes validation exactly when name, symbol, decimals, identifier, timestamp and logo meet the checks |
| Provider.ToTokenRows | src/discovery/provider.ts:20-35 | one row per coin, in order: row i is the fresh row of coin i, so it is unverified, stamped with now and carries the coin's lower-cased identifier |
| Provider.QuoteCell | src/discovery/provider.ts:84-88 | a cell is quoted exactly when it holds a quote, a comma or a line feed; a quoted cell is wrapped in quotes and holds a line break exactly when the cell does |
| Provider.DiscoveredCsv | src/discovery/provider.ts:42-93 | the written text is non-empty and ends with a line feed |
| Provider.EscapeQuotes | src/discovery/provider.ts:84-90 | doubling quotes adds no comma and no line break |
| Io.ParseLine | src/io.ts:25-48 | a line gives at least one cell, each without white space at its ends |
| Io.ParseCsvLine | src/io.ts:25-48 | the character loop computes the line parse |
| Io.ParseLineNoQuotes | src/io.ts:25-48 | without quotes, a line parses to its comma-separated pieces, trimmed |
| Io.NotBlankTrim | src/io.ts:52 | a line is kept exactly when it is not all white space |
| Io.Lines | src/io.ts:50-54 | every kept line is non-blank and holds no line feed |
| Io.LinesOfLf | src/io.ts:50-54 | text of lines joined by line feeds splits back into exactly its non-blank lines, in order |
| Io.LinesOfCrLf | src/io.ts:50-54 | text of lines joined by carriage return and line feed splits back into exactly its non-blank lines, in order |
| Io.ReadCsv | src/io.ts:50-54 | one row per kept line, in order, each the parse of its line and with at least one cell |
| Io.FirstMissing | src/io.ts:78-80 | none is missing exactly when every required column is in the header; otherwise a required column absent from it |
| Io.CheckColumns | src/io.ts:78-80 | the loop returns the first missing column, in checking order |
| Io.TagsOf | src/io.ts:84-85 | every tag read is non-empty, without a comma and without white space at its ends |
| Io.TagsOfSpaced | src/io.ts:84-85 | tags joined with " , " read back as exactly those tags |
| Io.NumberOf | src/io.ts:99-112 | text reads as an integer exactly when it is plain decimal integer syntax, and the decimal text of any integer reads as that integer |
| Io.RowToken | src/io.ts:101-113 | a row becomes a record with no coin type, a lower-cased identifier of the cell's length, tags always present, each tag non-empty, and empty logo, verifier and extensions read as absent |
| Io.ExtMap | src/io.ts:86-98 | the extensions are exactly the non-empty social cells under their column names |
| Io.ReadTokens | src/io.ts:56-117 | the read fails exactly when there is no header or a required column is missing, naming that column |
| Io.ReadTokensFromCsv | src/io.ts:56-117 | the method computes the token read |
| Io.ConvertRows | src/io.ts:81-116 | the row loop skips empty rows and turns every other row into a record, in order |
| Io.RowTokensEach | src/io.ts:82-115 | with no empty row, every data row gives one record, in order |
| Io.ReadBanned | src/io.ts:119-133 | the read fails exactly when a column is missing; otherwise one entry per data row, with the identifier lower-cased and absent exactly when its cell is; an empty or missing reason or timestamp cell is read as absent, any other as itself |
| CsvRoundTrip.LineRoundTrip | src/discovery/provider.ts:84-90 | the line parser gives back the trimmed cells of any line the writer quotes |
| CsvRoundTrip.ReadWritten | src/discovery/provider.ts:93 | the file read gives the header and then every row's trimmed cells |
| CsvRoundTrip.IdsReadBack | src/discovery/provider.ts:37-96 | records written as the discovered file, with no line break in any cell and no white space at the ends of any identifier, read back in order with their identifiers lower-cased |
| CsvRoundTrip.PositionsComplete | src/io.ts:78-80 | the written header has every column the reader requires |
| CsvRoundTrip.RowReadBack | src/io.ts:101-113 | a readable record written as a row reads back as itself, without its coin type |
| CsvRoundTrip.ReadTokensBack | src/discovery/provider.ts:37-96 | reading a written discovered file gives back its records, without coin types |
| CsvRoundTrip.FreshReadable | src/discovery/provider.ts:20-35 | the row of a writable coin reads back as itself |
| CsvRoundTrip.DiscoveredReadBack | src/discovery/provider.ts:20-96 | fresh rows written and read back are the rows made, without coin types |
| Blockberry.OnlyXsNeverFires | src/discovery/blockberry.ts:227-231 | the all-x pattern never matches the checked text, which always holds two spaces |
| Blockberry.SpamWordInName | src/discovery/blockberry.ts:219-233 | a name containing test, fake, scam or admin in any case is spam |
| Blockberry.DotsInDescription | src/discovery/blockberry.ts:226-232 | a description containing three dots is spam |
| Blockberry.RocketEmojiNotMatched | src/discovery/blockberry.ts:225 | three rocket emoji do not match the pattern as it is stored |
| Blockberry.NoPatternStartNotSpam | src/discovery/blockberry.ts:219-233 | a coin whose text holds no character a pattern can start with is not spam, so the filter does not reject every coin |
| Blockberry.IsValidToken | src/discovery/blockberry.ts:196-217 | a coin that passes the filter has a name, a symbol, an identifier and integer decimals, and converts to a well-formed coin with exactly those |
| Blockberry.Convert | src/discovery/blockberry.ts:235-251 | the converted coin has a trimmed name and symbol, a lower-cased identifier, no coin type, and decimals 0 when none were given |
| Blockberry.DiscoveredRowAccepted | src/discovery/blockberry.ts:196-217 | the row of a filtered coin passes validation exactly when the timestamp and the logo do |
| Blockberry.PageCoinsWellFormed | src/discovery/blockberry.ts:92-94 | every coin kept from a page is well formed |
| Blockberry.Crawl | src/discovery/blockberry.ts:65-140 | the fetch loop computes the harvest, for any per-page filter |
| Blockberry.Discover | src/discovery/blockberry.ts:65-140 | the fetch loop with the validity filter computes the harvest |
| Blockberry.HarvestGathers | src/discovery/blockberry.ts:82-116 | from any page on, the harvest appends the kept coins of every page fetched, all of which answered |
| Blockberry.DiscoverGathers | src/discovery/blockberry.ts:82-116 | the result is the kept coins of the pages fetched, in order; every page but the last was full |
| Blockberry.DiscoverFails | src/discovery/blockberry.ts:136-139 | a failed discovery reports the error of some failed request |
| Blockberry.DiscoverRespectsLimit | src/discovery/blockberry.ts:118-125 | a page limit n of at least 1 bounds the requests by n |
| Blockberry.DiscoverRespectsReportedTotal | src/discovery/blockberry.ts:103-125 | a page total reported by the first page bounds the requests and is captured |
| Blockberry.ShortPageEndsRun | src/discovery/blockberry.ts:109-113 | a short page ends the run after it is counted |
| DiscoverScript.KnownIdsMembership | src/scripts/discover.ts:16-39 | an identifier is known exactly when it is non-empty and a discovered, validated or banned record carries it |
| DiscoverScript.CollectKnown | src/scripts/discover.ts:34-39 | the two loops compute the known identifiers |
| DiscoverScript.PageLimitSetting | src/scripts/discover.ts:47-51 | a page limit, when one is set, is at least 1 |
| DiscoverScript.PageLimitOfCount | src/scripts/discover.ts:47-51 | a written count n gives all pages for 0 and at least one and at most max(1, n) pages otherwise |
| DiscoverScript.ZeroSpellings | src/scripts/discover.ts:47-51 | only the exact text "0" means all pages; "00", " 0" and "" mean one page; "ALL" means all |
| DiscoverScript.NewCoins | src/scripts/discover.ts:58-61 | exactly the discovered coins whose identifier is not known |
| DiscoverScript.NewCoinsAppend | src/scripts/discover.ts:59-61 | the new coins of a concatenation are the new coins of each part, in order |
| DiscoverScript.NewCoinsSingle | src/scripts/discover.ts:59-61 | a single coin is new exactly when its identifier is not known; with the above, the new coins are the unknown ones in discovered order, repeats kept |
| DiscoverScript.NewCoinsEmpty | src/scripts/discover.ts:58-67 | nothing is new exactly when every discovered identifier is known |
| DiscoverScript.RunDiscovery | src/scripts/discover.ts:16-75 | the imperative script computes the run |
| DiscoverScript.RunFails | src/scripts/discover.ts:19-55 | the run fails exactly when a file read or the discovery fails, with the first failure's message |
| DiscoverScript.RunAppendsUnknown | src/scripts/discover.ts:69-75 | a write keeps the old rows as a prefix and appends exactly the fresh rows of the new coins, one per coin in discovered order, each unknown, unverified and stamped with now |
| DiscoverScript.RunNothingNew | src/scripts/discover.ts:58-67 | nothing is written exactly when the reads and the discovery succeed and every coin found is known |
| DiscoverScript.SecondRunAddsNothing | src/scripts/discover.ts:16-75 | run again on the file it wrote, with the same responses, the script adds nothing, whenever no written cell holds a line break and no identifier has white space at its ends |

## Left out

- Reading and writing files, the clock, the environment and the network are
  parameters. The JSON files (`tokens.json`, `banned.json`) and the JSON output
  lists are not modelled; only the CSV inputs are.
- The API key check and the pause between requests in `discover` are left out.
  The raw HTTP request `fetchTokensPage` is abstracted into the sequence of page
  responses.
- The page loop is modelled for finite listings only: a request past the given
  responses returns an empty page. A provider that returns full pages forever
  with no total is not modelled.
- Logging, including the warnings for skipped records, is left out.
- `Promise.all` in the discovery script is modelled as reading the three files in
  order. When several reads fail, the model reports the first failure in that
  order.
- Index.CmpToken: lower-casing changes only A-Z, and the name tie-break
  `localeCompare` is modelled as UTF-16 code-unit order, the order `<` uses for the
  primary key. The tie-break agrees with the source on names made of ASCII
  letters, digits and spaces only. A locale collation puts punctuation before
  digits and letters, so it orders "a_b" before "a1b", where code-unit order puts
  "a1b" first. It also orders accented letters with their base letter, so "é"
  comes before "f" there and after it here; "É" is not lower-cased here.
- Strings.Lower: only A-Z are lower-cased. This also holds where it is used for
  identifiers in the token reader and in the ban-list reader; non-ASCII upper-case
  letters stay as they are.
- Io.NumberOf: integer-valued spellings other than plain decimal digits ("6.0",
  "1e1", "0x6") read as `NonInteger`, whereas `Number` gives the integer. Such a
  decimals cell therefore fails the integer check, where the source accepts it.
- Io.NumberOf: integers are exact. `Number` keeps 53 bits of precision, so the
  source reads "9007199254740993" as 9007199254740992 and writes that back through
  `String`; the model reads and writes 9007199254740993.
- Provider.NumText: a non-integer number is written back as the text it was read
  from, not as `String(Number(text))`; "6.50" is written as "6.50" rather than
  "6.5".
- DiscoverScript.PageLimitSetting: numeric text that is not a plain decimal
  integer (a fraction, an exponent, hexadecimal) is treated like non-numeric text
  (NaN), that is, as all pages.
- Blockberry.Convert: fractional decimals from the provider are not modelled;
  decimals are an optional integer.
- Validate.ValidateToken: the "verified boolean required" check never fires,
  because the flag is a boolean by type.
- CsvRoundTrip.DiscoveredReadBack: the writer loses information that the round
  trip therefore excludes. Absent or empty tags are written as "auto". An absent
  version is written as 1. The twitter, github, discord and telegram extensions
  are written empty. An empty logo is read back as absent. A cell holding a line
  break splits the line. The coin type is written but never read back.
- Text encoding (UTF-8 bytes, byte-order marks) is not modelled; strings are
  sequences of characters.
