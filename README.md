# tarix in Dafny

tarix builds a byte-offset index for a tar archive, so that one member can
be read back without scanning the archive. The index is written as CSV.
The logic exists twice in the repository: as the library in `tarix.go`,
and nearly verbatim in the command in `main.go`. This project models that
logic once and proves what it promises.

- **Types** (`types.dfy`): the `FileIndex {Start, Size}` and
  `TarIndex {Files}` records of `types.go`. Also Go's `int64` and its
  wrap-around addition (`Wrap64`, `Add64`), used wherever the Go code adds
  `int64` values.
- **PathHash** (`path_hash.dfy`): `hashFilePath`. A key is the first 16
  lowercase hex characters of the md5 digest of a path.
- **Decimal** (`decimal.dfy`): `fmt.Sprintf("%d", …)` and `parseInt64`
  (`strconv.ParseInt(s, 10, 64)`).
- **Csv** (`csv.dfy`): the part of `encoding/csv` the index file uses.
- **Indexer** (`indexer.dfy`): the scan loop of `CreateTarIndex`. It is a
  method (`ScanArchive`) with the cursor and map invariants, proved against
  a declarative specification (`BuildIndex`). `CreateTarIndex` puts the
  scan together with the CSV write loop.
- **IndexStore** (`index_store.dfy`): the CSV write loop (`WriteIndex`) and
  `ReadTarIndex`, plus the save-then-load round trip.
- **Extractor** (`extractor.dfy`): the pieces that read a member back.
  - `ExtractBytesFromTarWithIndex`.
  - The `TarixHandle` class with `ExtractBytesOfFile`, `NewTarixHandle` and
    `ExtractFileFromTar`.
  - The archive is an `ArchiveFile` object: its bytes, plus a mutable seek
    offset.
- **Listing** (`listing.dfy`): the count and the wrapping `int64` size total
  that `listFilesInTar` reports.
- **EndToEnd** (`end_to_end.dfy`): lays out members as one 512-byte header
  block each, then the data the header declares, padded to whole blocks;
  two zero blocks end the archive. For regular files this is the ustar
  layout of POSIX.1 (pax utility). Header-only members (links,
  directories) are covered when they declare size 0 and store no data. The
  top-level lemma proves that indexing such an archive and extracting a
  regular member by its (clean) name returns exactly its data, or the
  `make` panic for a member above 2^48 bytes. It also
  covers the three-file scenario of `main_test.go`.

## Parameters the model leaves open

- md5 and `filepath.Clean` are standard-library functions that the model
  does not define. They are the fields of a `GoLib` value that every
  operation takes as a parameter, so every lemma holds for all choices of
  them. The test scenario needs two facts about them, and states them as a
  hypothesis (`TestNamesFit`):
  - the test's file names are already clean;
  - the three file names get different keys.
- `archive/tar` is represented by what `tr.Next()` returns:
  - a `HeaderStream`: the list of headers (type flag, name, declared size);
  - then either `io.EOF` or an error.
  
  In `EndToEnd`, the bytes of a header block come from an arbitrary
  `encode` function.
- Files are values:
  - the archive is a byte sequence, read through `ArchiveFile`;
  - the index file is its text;
  - the result of `CreateTarIndex` is the text it would write.

## Where the code and its documentation differ

The model follows the code.

- **Extraction does not clean the path.** Extraction hashes the caller's
  path as given (`tarix.go:126`, `tarix.go:172`, `main.go:127`). The indexer
  hashes `filepath.Clean` of the header name (`tarix.go:70-71`). So a path
  such as `./file1.txt` is looked up under a different key, and the result
  is "not found". `EndToEnd.UnindexedPathNotFound` states this;
  `EndToEnd.IndexThenExtract` requires the name to be clean.
- **The index file is validated more strictly than documented.**
  `csv.Reader` takes the number of fields of its first record (the header)
  as the width of every later record. So in a file whose header does not
  have 3 fields:
  - a row of another width fails inside `reader.Read` (`BadRecord`);
  - a row of that width fails the `len(record) != 3` check
    (`UnexpectedFormat`).
  
  In effect, the header row is validated by its width.
- **Some sizes panic.** `make([]byte, size)` panics at run time
  ("len out of range") for a `Size` read from an index file that is
  negative or above the runtime's allocation limit. That limit is 2^48
  bytes on 64-bit Linux (`Extractor.MaxAlloc`). The model returns the error
  `MakePanic` in both cases. So a regular member above 2^48 bytes is
  indexed but cannot be extracted (`EndToEnd.IndexThenExtract`).
- **The cursor trusts every declared size.** The scan loop advances by the
  padded declared size for every member, whatever its type
  (`tarix.go:63-67`). archive/tar reads no data for header-only members
  (links, directories, devices, FIFOs). So a header-only member that
  declares a non-zero size puts the cursor out of step with the real
  header positions. The model has the same cursor (`Indexer.Pos64`,
  `Indexer.PositionsIgnoreType`). Its layout theorem covers only archives
  whose members store exactly the size they declare.

## Model

| member | source | states |
|---|---|---|
| Types.Wrap64 | tarix.go:84-85 | the result is the `int64` congruent to the exact value modulo 2^64, and equals it when it is in range (Go's `int64` arithmetic) |
| Types.Wrap64Add | main.go:207-209 | wrapping after every addition equals wrapping the exact sum once |
| PathHash.HashFilePath | tarix.go:19-23 | a key has `HashLen` = 16 characters, all lowercase hex, and is the hex text of the first 8 digest bytes |
| PathHash.HexEncode | tarix.go:22 | the hex text of n bytes has 2n characters |
| PathHash.HexEncodeInjective | tarix.go:22 | hex encoding is injective |
| PathHash.HexEncodePrefix | tarix.go:22 | cutting the hex text to 2n characters is the same as encoding the first n bytes |
| PathHash.KeysCollideIff | main.go:20-24 | two paths share a key exactly when their digests agree on the first 8 bytes |
| Decimal.FormatNat | tarix.go:112-113 | `%d` of a natural number is a non-empty run of digits, with a leading zero only for 0 |
| Decimal.FormatInt | tarix.go:112-113 | `%d` of an `int64` is digits, with a leading `-` exactly for negative values |
| Decimal.DigitsValueOfFormat | tarix.go:318-320 | reading the digits of `%d` gives back the number |
| Decimal.ParseFormatNat | tarix.go:318-320 | `parseInt64` accepts the digits of any natural number up to the `int64` maximum, and rejects any larger one as out of range |
| Decimal.ParseNegatedFormatNat | main.go:280-282 | a minus sign is accepted down to the least `int64`, and rejected one below it |
| Decimal.ParseFormatRoundTrip | tarix.go:318-320 | every `int64` written with `%d` is read back unchanged |
| Decimal.ParseInt64 | tarix.go:318-320 | a string is accepted exactly when it is an optional sign followed by one or more digits whose value fits `int64` (down to 2^63 after `-`), and then its value is the digits' value, negated after `-` |
| Decimal.ParseInt64Examples | tarix.go:318-320 | leading zeros, `+` and `-0` are accepted; an empty string, a bare sign and a non-digit are rejected |
| Csv.SplitJoin | tarix.go:110-114 | splitting a joined record gives back its fields when no field contains the separator |
| Csv.RecordsOfRender | tarix.go:284-290 | the reader returns exactly the records the writer wrote, when every record has two or more fields and no field needs quoting: no comma, quote, `\r` or `\n`, no leading white space, not `\.` (a one-field empty record is written as an empty line, which the reader skips) |
| IndexStore.WriteIndex | tarix.go:105-115 | writes one header record and one record per key, each key once, in some map order; with plain keys, the text has `len(Files)+1` records and loads back as the same index |
| IndexStore.OrderingSize | tarix.go:109 | a map iteration order visits as many keys as the map has |
| IndexStore.WriteProgressStep | tarix.go:109-115 | one turn of the write loop appends the key's record and moves the key from "to write" to "written" |
| IndexStore.HexKeyIsPlain | tarix.go:111 | a hex key never needs CSV quoting: it holds no comma, quote, `\r` or `\n`, does not start with white space and is not `\.` |
| IndexStore.FormatIntIsPlain | tarix.go:112-113 | a decimal number never needs CSV quoting: it holds no comma, quote, `\r` or `\n`, does not start with white space and is not `\.` |
| IndexStore.RenderedRecords | main.go:107-116 | the records of a written index are the header, then one row per key in iteration order |
| IndexStore.RenderIndexRecordCount | main.go:107-116 | a written index has exactly one header record plus one record per key |
| IndexStore.LoadRenderRoundTrip | tarix.go:106-115 | saving, then loading, gives back the same map, whatever order the rows were written in |
| IndexStore.WrittenIndexReadsBack | tarix.go:272-313 | a text written from the map in any iteration order loads as exactly that map |
| IndexStore.ReadTarIndex | tarix.go:260-316 | the read loop returns what `LoadIndex` specifies: the first error, or the map of all rows |
| IndexStore.LoadRowsOkIff | tarix.go:283-313 | the row loop succeeds exactly when every row has the header's width, 3 fields, and decimal `int64`s in fields 2 and 3 |
| IndexStore.LoadIndexOkIff | tarix.go:272-305 | loading succeeds exactly when there is a header record and every later record is acceptable; otherwise an error and no index |
| IndexStore.LoadRowsContents | tarix.go:307-312 | a loaded key comes verbatim from a key field and holds the values of the last row with that key |
| IndexStore.LoadIndexLastWins | main.go:269-274 | keys are kept verbatim, with no re-hashing, and a repeated key keeps the values of its last row |
| IndexStore.LoadRowsListing | main.go:245-275 | loading the rows of a listing of a map rebuilds exactly that map |
| Indexer.ScanArchive | tarix.go:48-92 | the scan loop computes `BuildIndex`: the first duplicate key aborts; otherwise a header error aborts; otherwise the map of all regular members |
| Indexer.ScanStep | tarix.go:63-85 | one loop turn advances the cursor by 512 plus the padded size; a regular member with a new key is inserted; a repeated key is the first duplicate |
| Indexer.CreateTarIndex | tarix.go:26-121 | on a scan error, nothing is written and the error is returned; otherwise the text is the CSV of the built index, in some map order, and it loads back as that index |
| Indexer.PaddedSize | tarix.go:84 | the padded size is always a multiple of 512; for a size that does not overflow it is at least the size and less than 512 above it |
| Indexer.WrapKeepsAligned | tarix.go:85 | wrapping modulo 2^64 keeps a multiple of 512 a multiple of 512 |
| Indexer.NextPos | tarix.go:85 | from a block-aligned header position, the next position is block-aligned, wrap-around included |
| Indexer.Pos64 | tarix.go:53 | the `int64` cursor at every header is a multiple of 512, even after wrap-around |
| Indexer.AlignDownInRange | tarix.go:65 | clearing the low nine bits stays within `int64` and gives a multiple of 512 |
| Indexer.RoundUp | tarix.go:84 | the rounded size is a multiple of 512, at least `n` and less than `n + 512` |
| Indexer.PaddedSizeIsRoundUp | tarix.go:64-65 | for a size that does not overflow, `(size + 511) &^ 511` is the size rounded up to a multiple of 512 |
| Indexer.RoundUpIsLeast | tarix.go:84 | no smaller multiple of 512 holds the data, so padding is 0 to 511 bytes |
| Indexer.HeaderPosAligned | tarix.go:53 | every header position is a multiple of 512 |
| Indexer.HeaderPosIncreasing | tarix.go:84-85 | header positions strictly increase, by at least one block per member |
| Indexer.HeaderPosBound | tarix.go:66 | a member's header and data end no later than the next header starts |
| Indexer.PositionsIgnoreType | main.go:64-67 | the cursor depends only on the sizes, so regular and non-regular members advance it alike |
| Indexer.Pos64MatchesHeaderPos | tarix.go:84-85 | while the archive fits in `int64`, the wrapping cursor equals the exact block layout |
| Indexer.FirstDupFrom | tarix.go:78-80 | the search returns the first duplicate position at or after i, or the end: no position before the result is a duplicate |
| Indexer.PrefixIndexKeys | tarix.go:63-82 | after n headers, the map's keys are exactly the keys of the regular members among them |
| Indexer.PrefixIndexValue | tarix.go:73-82 | a key's value is the header position and declared size of its last regular member |
| Indexer.FirstDupNone | tarix.go:78-80 | the search finds nothing exactly when no later header repeats a key |
| Indexer.DupAtIff | main.go:79-81 | a header is a duplicate exactly when it is regular and an earlier regular member has its key |
| Indexer.NoDupIffDistinct | tarix.go:78-80 | there is no duplicate exactly when no two regular members share a key |
| Indexer.BuildIndexOkIff | tarix.go:52-92 | indexing succeeds exactly when the headers end with `io.EOF` and no two regular members share a key |
| Indexer.BuildIndexDuplicateIff | tarix.go:78-80 | a duplicate error is returned exactly when two regular members share a key, however the header stream ends: the loop returns before it reads further headers |
| Indexer.BuildIndexDuplicate | main.go:79-81 | a duplicate error names the cleaned path and key of the first regular member whose key an earlier one has; no two members before it share a key |
| Indexer.BuildIndexSound | tarix.go:63-82 | on success every regular member is filed under the hash of its cleaned name, with its header position as `Start` and its declared size as `Size` |
| Indexer.BuildIndexKeys | tarix.go:63-82 | on success the keys are exactly those of the regular members |
| Indexer.PrefixIndexSize | tarix.go:82 | without duplicates, the map has one entry per regular member seen |
| Indexer.BuildIndexSize | tarix.go:117 | on success there is one index entry per regular member |
| Indexer.BuildIndexNoRegular | tarix.go:63-68 | an archive with no regular members indexes to an empty map |
| Indexer.BuiltKeysPlain | tarix.go:71 | every built key is hex, so it is written without quoting |
| Extractor.ArchiveFile.Seek | tarix.go:136 | seeking fails exactly for a negative offset, and otherwise moves the offset there |
| Extractor.ArchiveFile.ReadFull | tarix.go:142 | filling the buffer succeeds exactly when enough bytes remain (or the buffer is empty), gives the bytes at the offset, and moves the offset past what was read |
| Extractor.ExtractBytesFromTarWithIndex | tarix.go:123-147 | returns what `ExtractBytes` specifies, and leaves the offset where `OffsetAfter` says |
| Extractor.TarixHandle.ExtractBytesOfFile | tarix.go:170-193 | the same steps on the handle's file, without changing the handle's index |
| Extractor.NewTarixHandle | tarix.go:154-168 | succeeds exactly when the index loads, and returns a new handle with that index and the archive at offset 0 |
| Extractor.ExtractFileFromTar | tarix.go:196-207 | returns the bytes that would be written out, or the load error or extraction error |
| Extractor.ExtractBytesOkIff | tarix.go:126-146 | extraction succeeds exactly when the path's hash is a key, the data position is not negative, `make` can allocate `Size` bytes (0 to 2^48), and the archive holds all `Size` bytes from `Start + 512` |
| Extractor.ExtractBytesInside | tarix.go:135-146 | for a member whose data lies inside the archive, extraction returns its `Size` bytes from `Start + 512`, or the `make` panic above 2^48 bytes |
| Extractor.ExtractBytesData | main.go:136-147 | on success the result is exactly the `Size` bytes of the archive from `Start + 512` |
| Extractor.ExtractBytesNotFound | tarix.go:129-132 | a missing hash gives an error that names the 16-character hash, not the path |
| Extractor.ExtractDependsOnHash | tarix.go:126 | lookup depends on the path only through its uncleaned hash |
| Extractor.DataPos | tarix.go:135 | while `Start + 512` fits in `int64`, data starts exactly one block after the header; past that the position wraps negative, so the seek fails |
| Extractor.OffsetAfterSuccess | tarix.go:181-192 | after a successful extraction the file offset is `Start + 512 + Size` |
| Listing.SizeSumRemove | main.go:207-209 | the size total does not depend on the order the map is iterated in |
| Listing.SizeSumBounds | tarix.go:244-247 | with no negative sizes, every size is at most the total |
| Listing.TotalIsExact | tarix.go:244-247 | with no negative sizes and no overflow, the reported total is the exact sum |
| Listing.AddWrapped | main.go:208 | adding to a wrapped running total wraps the exact running total |
| Listing.ListTotals | main.go:203-209 | the count is the number of keys, and the total is the sum of all sizes, wrapped to `int64` |
| EndToEnd.LayoutPrefixLength | tarix.go:84-85 | the members before member i take exactly the indexer's header position i |
| EndToEnd.LayoutPlacesData | tarix.go:135 | member i's data sits one block after its header position |
| EndToEnd.LayoutLength | tarix.go:48-92 | the members take exactly the cursor's final value |
| EndToEnd.CursorFindsData | tarix.go:53 | while the archive fits in `int64`, the indexer's cursor stands at each member's header |
| EndToEnd.IndexThenExtract | main_test.go:43-72 | index an archive, then extract a regular member by its clean name: the result is exactly its data, or the `make` panic for a member above 2^48 bytes |
| EndToEnd.SaveLoadExtract | main_test.go:45-61 | the same through the written and re-read index file, whatever order its rows were written in |
| EndToEnd.UnindexedPathNotFound | tarix.go:126-132 | a path whose hash is no regular member's key (such as an unclean path) is not found, and the error names the hash |
| EndToEnd.TestIndexBuilt | main_test.go:22-26 | the three-file test archive indexes to three entries |
| EndToEnd.TestLayoutLength | main_test.go:22-26 | the test archive's members take six blocks |
| EndToEnd.TestFirstEntryExtracts | main_test.go:58-72 | extracting `file1.txt` from the test archive gives `Hello, World!` |
| EndToEnd.ThreeFileScenario | main_test.go:47-72 | indexing the three-file archive succeeds with three entries; the index file has four records; extracting `file1.txt` through it gives `Hello, World!` |

## Left out

- The command line: `cmd/main.go` and `main()` in `main.go:284-405`. This is
  flag parsing, dispatch and exit codes, not index logic.
- OS file handling: `os.Open`, `os.Create`, `Stat`, `Close`, the deferred
  `Flush`, and writing the extracted bytes to stdout or a file. Files are
  byte sequences or text, so these calls cannot fail here, and the errors
  `writer.Write` would return (which the code ignores) do not arise.
- Printing:
  - the progress percentage (`tarix.go:87-91`, `main.go:88-92`), which
    also divides by the archive size;
  - all `fmt.Printf` status messages;
  - the per-key listing loop of `listFilesInTar` (`main.go:214-217`).
- Header decoding in `archive/tar`: octal fields, checksums, PAX and GNU
  extended headers. Each member is assumed to take exactly one 512-byte
  header block, as the cursor arithmetic of the code assumes. An archive
  with extended headers would put the cursor out of step with the real
  positions.
- PathHash.HashFilePath: md5 itself is not modelled; it is any function
  returning 16 bytes. Only the hex encoding and the 16-character cut are
  modelled.
- `filepath.Clean` is not modelled: it is any function. No lemma assumes it
  is idempotent, except that the test names are clean (`TestNamesFit`).
- IndexStore.WriteIndex: RFC 4180 quoting is not modelled. encoding/csv
  quotes a field that contains a comma, a quote, `\r` or `\n`, that
  begins with white space, or that is exactly `\.`. Its round-trip guarantee
  is stated only for keys that need none of this (`PlainKeys`, built on
  `Csv.PlainField`). That covers every
  index `CreateTarIndex` writes (`Indexer.BuiltKeysPlain`).
- IndexStore.ReadTarIndex: on text not written by the indexer, quoted
  fields, `\r\n` line ends and the reader's quote errors are not modelled.
  A quote or a carriage return is read as an ordinary character.
- Extractor.ExtractBytesFromTarWithIndex: the run-time panic of `make` for a
  negative `Size`, or one above 2^48, becomes the error `MakePanic`. The
  limit is the one for 64-bit Linux. A size below the limit that the
  machine's memory cannot hold (a fatal out-of-memory error in Go) is not
  modelled.
- Non-regular member sizes: `Indexer.Header` sizes are non-negative, and
  the layout in `EndToEnd` stores exactly the declared size for every
  member. So the model cannot show the cursor getting out of step on a
  header-only member that declares a non-zero or negative size. The
  assumption is that every member declares exactly the data it stores,
  and never a negative size.
- Listing.ListTotals: only the two values `listFilesInTar` prints are
  modelled. Reading the index comes from `ReadTarIndex`.
- main.go: the duplicate implementation is the same code as `tarix.go`.
  One model covers both, and table rows cite whichever copy states the
  property more plainly.
