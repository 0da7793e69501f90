/// The index file (tarix.go and main.go): the CSV write loop at the end of
/// `CreateTarIndex`, and `ReadTarIndex`, which loads it back.
module IndexStore {
  import opened Types
  import opened Wrappers
  import opened Decimal
  import opened Csv
  import opened PathHash

  /// The first record of every index file.
  const HeaderRecord: seq<string> := ["key", "start", "size"]

  /// One data record: the key verbatim, then start and size in decimal.
  function RowOf(key: string, fi: FileIndex): (r: seq<string>) {
    [key, FormatInt(fi.start), FormatInt(fi.size)]
  }

  /// The data records for the keys in `order`, in that order.
  function Rows(order: seq<string>, files: map<string, FileIndex>): (rows: seq<seq<string>>)
    requires forall i :: 0 <= i < |order| ==> order[i] in files
    ensures |rows| == |order|
    ensures forall i :: 0 <= i < |order| ==> rows[i] == RowOf(order[i], files[order[i]])
  {
    seq(|order|, i requires 0 <= i < |order| => RowOf(order[i], files[order[i]]))
  }

  /// The text the write loop produces when the map iteration visits the keys
  /// in `order`.
  function RenderIndex(order: seq<string>, idx: TarIndex): (r: string)
    requires forall i :: 0 <= i < |order| ==> order[i] in idx.files
  {
    Render([HeaderRecord] + Rows(order, idx.files))
  }

  /// `order` visits every key of `keys` exactly once: one possible iteration
  /// order of a Go map with these keys.
  ghost predicate IsOrdering(order: seq<string>, keys: set<string>) {
    && (forall i, j :: 0 <= i < j < |order| ==> order[i] != order[j])
    && (forall k :: k in keys <==> k in order)
  }

  predicate PlainKeys(files: map<string, FileIndex>) {
    forall k :: k in files ==> PlainField(k)
  }

  lemma {:induction false} OrderingSize(order: seq<string>, keys: set<string>)
    requires IsOrdering(order, keys)
    ensures |order| == |keys|
  {
    if order != [] {
      var last := order[|order| - 1];
      var init := order[..|order| - 1];
      assert order == init + [last];
      forall k ensures k in keys - {last} <==> k in init {
        if k in init {
          var i :| 0 <= i < |init| && init[i] == k;
          assert order[i] != order[|order| - 1];
        }
      }
      OrderingSize(init, keys - {last});
    } else {
      assert forall k :: k !in keys;
      assert keys == {};
    }
  }

  lemma FormatIntIsPlain(n: int64)
    ensures PlainField(FormatInt(n))
  {
    var s := FormatInt(n);
    assert forall i :: 0 <= i < |s| ==> s[i] != ',' && s[i] != '\n';
  }

  /// Keys made by `hashFilePath` never need CSV quoting.
  lemma HexKeyIsPlain(key: string)
    requires IsHexString(key)
    ensures PlainField(key)
  {
    assert forall i :: 0 <= i < |key| ==> key[i] != ',' && key[i] != '\n';
  }

  lemma RowWritable(key: string, fi: FileIndex)
    requires PlainField(key)
    ensures Writable(RowOf(key, fi))
  {
    var row := RowOf(key, fi);
    FormatIntIsPlain(fi.start);
    FormatIntIsPlain(fi.size);
    assert row[0] == key && row[1] == FormatInt(fi.start) && row[2] == FormatInt(fi.size);
  }

  lemma HeaderWritable()
    ensures Writable(HeaderRecord)
  {
    assert forall j :: 0 <= j < 3 ==> PlainField(HeaderRecord[j]);
  }

  lemma WritableCons(head: seq<string>, tail: seq<seq<string>>)
    requires Writable(head)
    requires forall i :: 0 <= i < |tail| ==> Writable(tail[i])
    ensures forall i :: 0 <= i < |[head] + tail| ==> Writable(([head] + tail)[i])
  {
  }

  lemma RowsWritable(order: seq<string>, files: map<string, FileIndex>)
    requires forall i :: 0 <= i < |order| ==> order[i] in files
    requires PlainKeys(files)
    ensures forall i :: 0 <= i < |[HeaderRecord] + Rows(order, files)| ==>
              Writable(([HeaderRecord] + Rows(order, files))[i])
  {
    var rows := Rows(order, files);
    forall i | 0 <= i < |rows| ensures Writable(rows[i]) {
      RowWritable(order[i], files[order[i]]);
    }
    HeaderWritable();
    WritableCons(HeaderRecord, rows);
  }

  /// The write loop over the map (tarix.go:105-115): a header record, then
  /// one record per key in whatever order the map is iterated, picked here by
  /// `:|`. The result reads back as exactly the index it was written from.
  method WriteIndex(idx: TarIndex) returns (text: string, ghost order: seq<string>)
    ensures IsOrdering(order, idx.files.Keys)
    ensures text == RenderIndex(order, idx)
    ensures PlainKeys(idx.files) ==> |Records(text)| == |idx.files| + 1 && Records(text)[0] == HeaderRecord
    ensures PlainKeys(idx.files) ==> LoadIndex(text) == Ok(idx)
  {
    text := RenderRecord(HeaderRecord);
    order := [];
    var rest := idx.files.Keys;
    assert [HeaderRecord] + Rows(order, idx.files) == [HeaderRecord];
    assert Render([HeaderRecord]) == RenderRecord(HeaderRecord) + Render([]);
    while rest != {}
      invariant WriteProgress(idx, rest, order)
      invariant text == RenderIndex(order, idx)
      decreases rest
    {
      var hsh :| hsh in rest;
      var fileInfo := idx.files[hsh];
      WriteProgressStep(idx, rest, order, hsh);
      text := text + RenderRecord(RowOf(hsh, fileInfo));
      order := order + [hsh];
      rest := rest - {hsh};
    }
    WriteProgressDone(idx, order);
    if PlainKeys(idx.files) {
      WrittenIndexReadsBack(order, idx);
    }
  }

  /// The write loop has written the keys of `order`, each once, and has the
  /// keys of `rest` still to write.
  ghost predicate WriteProgress(idx: TarIndex, rest: set<string>, order: seq<string>) {
    && rest <= idx.files.Keys
    && (forall i :: 0 <= i < |order| ==> order[i] in idx.files && order[i] !in rest)
    && (forall i, j :: 0 <= i < j < |order| ==> order[i] != order[j])
    && (forall k :: k in idx.files && k !in rest ==> k in order)
  }

  lemma WriteProgressStep(idx: TarIndex, rest: set<string>, order: seq<string>, k: string)
    requires WriteProgress(idx, rest, order) && k in rest
    ensures WriteProgress(idx, rest - {k}, order + [k])
    ensures RenderIndex(order + [k], idx) == RenderIndex(order, idx) + RenderRecord(RowOf(k, idx.files[k]))
  {
    RowsAppend(order, idx, k);
  }

  lemma WriteProgressDone(idx: TarIndex, order: seq<string>)
    requires WriteProgress(idx, {}, order)
    ensures IsOrdering(order, idx.files.Keys)
  {
  }

  lemma WrittenIndexReadsBack(order: seq<string>, idx: TarIndex)
    requires IsOrdering(order, idx.files.Keys)
    requires PlainKeys(idx.files)
    ensures |Records(RenderIndex(order, idx))| == |idx.files| + 1
    ensures Records(RenderIndex(order, idx))[0] == HeaderRecord
    ensures LoadIndex(RenderIndex(order, idx)) == Ok(idx)
  {
    OrderingSize(order, idx.files.Keys);
    RenderedRecords(order, idx);
    LoadRenderRoundTrip(order, idx);
  }

  lemma RowsAppend(order: seq<string>, idx: TarIndex, k: string)
    requires forall i :: 0 <= i < |order| ==> order[i] in idx.files
    requires k in idx.files
    ensures RenderIndex(order + [k], idx) == RenderIndex(order, idx) + RenderRecord(RowOf(k, idx.files[k]))
  {
    RenderAppend([HeaderRecord] + Rows(order, idx.files), RowOf(k, idx.files[k]));
    assert [HeaderRecord] + Rows(order + [k], idx.files)
        == [HeaderRecord] + Rows(order, idx.files) + [RowOf(k, idx.files[k])];
  }

  /// The records of a written index: the header, then one row per key.
  lemma RenderedRecords(order: seq<string>, idx: TarIndex)
    requires forall i :: 0 <= i < |order| ==> order[i] in idx.files
    requires PlainKeys(idx.files)
    ensures Records(RenderIndex(order, idx)) == [HeaderRecord] + Rows(order, idx.files)
  {
    RowsWritable(order, idx.files);
    RecordsOfRender([HeaderRecord] + Rows(order, idx.files));
  }

  /// The errors `ReadTarIndex` can return; each one discards the whole index.
  datatype LoadError =
    | MissingHeader     // "failed to read CSV header": no record at all
    | BadRecord         // "failed to read CSV record": csv.ErrFieldCount
    | UnexpectedFormat  // a record without exactly 3 fields
    | InvalidStart      // field 2 is not a decimal int64
    | InvalidSize       // field 3 is not a decimal int64

  /// The body of the read loop over the data records. csv.Reader fixes the
  /// number of fields per record from the first record it reads (the header),
  /// so a record of another width fails inside `reader.Read` before the
  /// `len(record) != 3` check is reached.
  function LoadRows(width: nat, rows: seq<seq<string>>, files: map<string, FileIndex>): (r: Result<TarIndex, LoadError>) {
    if rows == [] then Ok(TarIndex(files))
    else
      var record := rows[0];
      if |record| != width then Err(BadRecord)
      else if |record| != 3 then Err(UnexpectedFormat)
      else
        match ParseInt64(record[1])
        case None => Err(InvalidStart)
        case Some(start) =>
          match ParseInt64(record[2])
          case None => Err(InvalidSize)
          case Some(size) => LoadRows(width, rows[1..], files[record[0] := FileIndex(start, size)])
  }

  /// `ReadTarIndex` on the text of an index file: drop the first record, then
  /// insert one entry per record.
  function LoadIndex(text: string): (r: Result<TarIndex, LoadError>) {
    var records := Records(text);
    if records == [] then Err(MissingHeader) else LoadRows(|records[0]|, records[1..], map[])
  }

  /// `ReadTarIndex` (tarix.go:260-316): the loop that inserts rows into the map.
  method ReadTarIndex(text: string) returns (r: Result<TarIndex, LoadError>)
    ensures r == LoadIndex(text)
  {
    var records := Records(text);
    if records == [] {
      return Err(MissingHeader);
    }
    var width := |records[0]|;
    var files: map<string, FileIndex> := map[];
    var i := 1;
    while i < |records|
      invariant 1 <= i <= |records|
      invariant LoadRows(width, records[i..], files) == LoadIndex(text)
    {
      var record := records[i];
      assert records[i..][1..] == records[i + 1..];
      if |record| != width {
        return Err(BadRecord);
      }
      if |record| != 3 {
        return Err(UnexpectedFormat);
      }
      var start := ParseInt64(record[1]);
      if start.None? {
        return Err(InvalidStart);
      }
      var size := ParseInt64(record[2]);
      if size.None? {
        return Err(InvalidSize);
      }
      var key := record[0];
      files := files[key := FileIndex(start.value, size.value)];
      i := i + 1;
    }
    return Ok(TarIndex(files));
  }

  /// A data record `ReadTarIndex` accepts.
  predicate RowOk(width: nat, record: seq<string>) {
    |record| == width && |record| == 3 && ParseInt64(record[1]).Some? && ParseInt64(record[2]).Some?
  }

  function RowValue(record: seq<string>): FileIndex
    requires |record| == 3 && ParseInt64(record[1]).Some? && ParseInt64(record[2]).Some?
  {
    FileIndex(ParseInt64(record[1]).value, ParseInt64(record[2]).value)
  }

  predicate HasKey(record: seq<string>, k: string) {
    |record| >= 1 && record[0] == k
  }

  /// The last record whose key field is `k`, or -1.
  function LastRowFor(rows: seq<seq<string>>, k: string): (j: int)
    ensures -1 <= j < |rows|
    ensures j >= 0 ==> HasKey(rows[j], k)
    ensures forall i :: j < i < |rows| ==> !HasKey(rows[i], k)
  {
    if rows == [] then -1
    else
      var t := LastRowFor(rows[1..], k);
      if t >= 0 then t + 1 else if HasKey(rows[0], k) then 0 else -1
  }

  lemma {:induction false} LoadRowsOkIff(width: nat, rows: seq<seq<string>>, acc: map<string, FileIndex>)
    ensures LoadRows(width, rows, acc).Ok? <==> forall i :: 0 <= i < |rows| ==> RowOk(width, rows[i])
  {
    if rows != [] && RowOk(width, rows[0]) {
      LoadRowsOkIff(width, rows[1..], acc[rows[0][0] := RowValue(rows[0])]);
      assert forall i :: 1 <= i < |rows| ==> rows[i] == rows[1..][i - 1];
    }
  }

  /// Each key of a loaded map comes verbatim from a key field, and holds the
  /// values of the last record with that key; keys of `acc` not mentioned keep
  /// their value.
  lemma {:induction false} LoadRowsContents(width: nat, rows: seq<seq<string>>, acc: map<string, FileIndex>, k: string)
    requires LoadRows(width, rows, acc).Ok?
    ensures var m := LoadRows(width, rows, acc).value.files;
            && (k in m <==> k in acc || LastRowFor(rows, k) >= 0)
            && (k in m && LastRowFor(rows, k) < 0 ==> m[k] == acc[k])
    ensures var m := LoadRows(width, rows, acc).value.files;
            var j := LastRowFor(rows, k);
            j >= 0 ==> RowOk(width, rows[j]) && m[k] == RowValue(rows[j])
  {
    if rows != [] {
      assert RowOk(width, rows[0]);
      var acc' := acc[rows[0][0] := RowValue(rows[0])];
      LoadRowsStep(width, rows, acc);
      LoadRowsContents(width, rows[1..], acc', k);
      var t := LastRowFor(rows[1..], k);
      if t >= 0 {
        assert rows[t + 1] == rows[1..][t];
      }
    }
  }

  lemma LoadRowsStep(width: nat, rows: seq<seq<string>>, acc: map<string, FileIndex>)
    requires rows != [] && RowOk(width, rows[0])
    ensures LoadRows(width, rows, acc) == LoadRows(width, rows[1..], acc[rows[0][0] := RowValue(rows[0])])
  {
  }

  /// `ReadTarIndex` succeeds exactly when there is a header record and every
  /// later record has 3 fields (as many as the header) with decimal int64s in
  /// fields 2 and 3.
  lemma LoadIndexOkIff(text: string)
    ensures LoadIndex(text).Ok? <==>
              && |Records(text)| >= 1
              && forall i :: 1 <= i < |Records(text)| ==> RowOk(|Records(text)[0]|, Records(text)[i])
  {
    var records := Records(text);
    if records != [] {
      LoadRowsOkIff(|records[0]|, records[1..], map[]);
      assert forall i :: 1 <= i < |records| ==> records[i] == records[1..][i - 1];
    }
  }

  /// Keys are taken verbatim from the first field (no re-hashing), and a
  /// repeated key keeps the values of its last record.
  lemma LoadIndexLastWins(text: string, k: string)
    requires LoadIndex(text).Ok?
    ensures var rows := Records(text)[1..];
            var m := LoadIndex(text).value.files;
            && (k in m <==> LastRowFor(rows, k) >= 0)
            && (k in m ==> RowOk(|Records(text)[0]|, rows[LastRowFor(rows, k)])
                           && m[k] == RowValue(rows[LastRowFor(rows, k)]))
  {
    var records := Records(text);
    LoadRowsContents(|records[0]|, records[1..], map[], k);
  }

  lemma ListingRowOk(order: seq<string>, files: map<string, FileIndex>, i: nat)
    requires forall i :: 0 <= i < |order| ==> order[i] in files
    requires i < |order|
    ensures RowOk(3, Rows(order, files)[i]) && RowValue(Rows(order, files)[i]) == files[order[i]]
  {
    ParseFormatRoundTrip(files[order[i]].start);
    ParseFormatRoundTrip(files[order[i]].size);
  }

  lemma ListingKey(order: seq<string>, files: map<string, FileIndex>, k: string)
    requires forall i :: 0 <= i < |order| ==> order[i] in files
    requires forall k :: k in files ==> k in order
    requires LoadRows(3, Rows(order, files), map[]).Ok?
    ensures var m := LoadRows(3, Rows(order, files), map[]).value.files;
            (k in m <==> k in files) && (k in m ==> m[k] == files[k])
  {
    var rows := Rows(order, files);
    LoadRowsContents(3, rows, map[], k);
    if k in files {
      var i :| 0 <= i < |order| && order[i] == k;
      assert HasKey(rows[i], k);
    }
    var j := LastRowFor(rows, k);
    if j >= 0 {
      ListingRowOk(order, files, j);
    }
  }

  lemma ListingRowsOk(order: seq<string>, files: map<string, FileIndex>)
    requires forall i :: 0 <= i < |order| ==> order[i] in files
    ensures LoadRows(3, Rows(order, files), map[]).Ok?
  {
    var rows := Rows(order, files);
    forall i | 0 <= i < |rows| ensures RowOk(3, rows[i]) {
      ListingRowOk(order, files, i);
    }
    LoadRowsOkIff(3, rows, map[]);
  }

  lemma SameMap(m: map<string, FileIndex>, files: map<string, FileIndex>)
    requires forall k :: (k in m <==> k in files) && (k in m ==> m[k] == files[k])
    ensures m == files
  {
  }

  /// Loading the rows of a listing of `files` rebuilds exactly `files`.
  lemma LoadRowsListing(order: seq<string>, files: map<string, FileIndex>)
    requires forall i :: 0 <= i < |order| ==> order[i] in files
    requires forall k :: k in files ==> k in order
    ensures LoadRows(3, Rows(order, files), map[]) == Ok(TarIndex(files))
  {
    ListingRowsOk(order, files);
    var m := LoadRows(3, Rows(order, files), map[]).value.files;
    forall k ensures (k in m <==> k in files) && (k in m ==> m[k] == files[k]) {
      ListingKey(order, files, k);
    }
    SameMap(m, files);
  }

  /// Saving and loading give back the same index, whatever order the map
  /// was written in.
  lemma LoadRenderRoundTrip(order: seq<string>, idx: TarIndex)
    requires forall i :: 0 <= i < |order| ==> order[i] in idx.files
    requires forall k :: k in idx.files ==> k in order
    requires PlainKeys(idx.files)
    ensures LoadIndex(RenderIndex(order, idx)) == Ok(idx)
  {
    var records := Records(RenderIndex(order, idx));
    RenderedRecords(order, idx);
    assert |records[0]| == 3;
    assert records[1..] == Rows(order, idx.files);
    LoadRowsListing(order, idx.files);
  }

  /// A written index has the header record and exactly one record per key.
  lemma RenderIndexRecordCount(order: seq<string>, idx: TarIndex)
    requires IsOrdering(order, idx.files.Keys)
    requires PlainKeys(idx.files)
    ensures |Records(RenderIndex(order, idx))| == |idx.files| + 1
  {
    OrderingSize(order, idx.files.Keys);
    RenderedRecords(order, idx);
  }
}
