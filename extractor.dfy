/// Reading one member back out of the archive by path: tarix.go:123-231 and
/// main.go:124-193. The archive file is a byte sequence with a seek offset.
module Extractor {
  import opened Types
  import opened Wrappers
  import opened PathHash
  import opened IndexStore

  /// The ways extraction fails. `NotFound` carries the hash, not the path,
  /// as the error message does. `MakePanic` is the run-time panic of
  /// `make([]byte, size)` ("len out of range") for a size read from the
  /// index file that is negative or larger than `MaxAlloc`.
  datatype ExtractError = NotFound(key: string) | SeekFailed | MakePanic | ShortRead

  /// The largest byte slice the Go runtime lets `make` allocate on 64-bit
  /// Linux (`maxAlloc`, 2^48 bytes).
  const MaxAlloc: int := 0x1_0000_0000_0000

  /// `make([]byte, size)` does not panic.
  predicate Allocatable(size: int64) {
    0 <= size <= MaxAlloc
  }

  /// `fileInfo.Start + headerSize`: data begins right after the header block
  /// while the sum fits in an `int64`; past that it wraps to a negative
  /// offset, which `Seek` rejects.
  function DataPos(fi: FileIndex): (pos: int64)
    ensures fi.start <= Int64Max - HeaderSize ==> pos == fi.start + HeaderSize
    ensures fi.start > Int64Max - HeaderSize ==> pos < 0
  {
    Add64(fi.start, HeaderSize)
  }

  /// What extraction of `path` returns, given the index and the archive.
  /// The path is hashed as given, without `filepath.Clean`. Seeking beyond
  /// the end is allowed; only a negative offset fails. `io.ReadFull` into an
  /// empty buffer succeeds wherever the file offset is.
  function ExtractBytes(lib: GoLib, idx: TarIndex, archive: seq<byte>, path: string): (r: Result<seq<byte>, ExtractError>) {
    var key := HashFilePath(lib, path);
    if key !in idx.files then Err(NotFound(key))
    else
      var fi := idx.files[key];
      var pos := DataPos(fi);
      if pos < 0 then Err(SeekFailed)
      else if !Allocatable(fi.size) then Err(MakePanic)
      else if fi.size == 0 then Ok([])
      else if pos + fi.size > |archive| then Err(ShortRead)
      else Ok(archive[pos..pos + fi.size])
  }

  /// Where `io.ReadFull` leaves the offset after asking for `len` bytes at
  /// `start` in a file of `total` bytes: past the bytes it got.
  function ReadEnd(start: nat, len: nat, total: nat): nat {
    if start + len <= total then start + len
    else if start < total then total
    else start
  }

  /// The file offset after extraction of `path` from offset `offset`.
  function OffsetAfter(lib: GoLib, idx: TarIndex, archive: seq<byte>, path: string, offset: nat): (r: nat) {
    var key := HashFilePath(lib, path);
    if key !in idx.files then offset
    else
      var fi := idx.files[key];
      var pos := DataPos(fi);
      if pos < 0 then offset
      else if !Allocatable(fi.size) then pos
      else ReadEnd(pos, fi.size, |archive|)
  }

  /// An open archive file: its bytes and the current offset of `Seek` and
  /// `Read`.
  class ArchiveFile {
    const contents: seq<byte>
    var offset: nat

    constructor Open(contents: seq<byte>)
      ensures this.contents == contents && offset == 0
    {
      this.contents := contents;
      offset := 0;
    }

    /// `Seek(pos, io.SeekStart)`: a negative offset is an error.
    method Seek(pos: int64) returns (ok: bool)
      modifies this
      ensures ok <==> pos >= 0
      ensures offset == if ok then pos else old(offset)
    {
      if pos < 0 {
        return false;
      }
      offset := pos;
      return true;
    }

    /// `io.ReadFull(f, buf)`: reads what remains, up to `buf.Length` bytes,
    /// and fails unless it got all of them.
    method ReadFull(buf: array<byte>) returns (ok: bool)
      modifies this, buf
      ensures ok <==> old(offset) + buf.Length <= |contents| || buf.Length == 0
      ensures ok ==> forall j :: 0 <= j < buf.Length ==> buf[j] == contents[old(offset) + j]
      ensures offset == ReadEnd(old(offset), buf.Length, |contents|)
    {
      var n := if offset + buf.Length <= |contents| then buf.Length
               else if offset < |contents| then |contents| - offset
               else 0;
      forall j | 0 <= j < n {
        buf[j] := contents[offset + j];
      }
      offset := offset + n;
      return n == buf.Length;
    }
  }

  /// `ExtractBytesFromTarWithIndex` (tarix.go:123-147, main.go:124-148).
  method ExtractBytesFromTarWithIndex(lib: GoLib, tindex: TarIndex, tarFile: ArchiveFile, filePath: string)
    returns (r: Result<seq<byte>, ExtractError>)
    modifies tarFile
    ensures r == ExtractBytes(lib, tindex, tarFile.contents, filePath)
    ensures tarFile.offset == OffsetAfter(lib, tindex, tarFile.contents, filePath, old(tarFile.offset))
  {
    var cleanFilePathHash := HashFilePath(lib, filePath);
    if cleanFilePathHash !in tindex.files {
      return Err(NotFound(cleanFilePathHash));
    }
    var fileInfo := tindex.files[cleanFilePathHash];
    var dataPos := Add64(fileInfo.start, HeaderSize);
    var ok := tarFile.Seek(dataPos);
    if !ok {
      return Err(SeekFailed);
    }
    if !Allocatable(fileInfo.size) {
      return Err(MakePanic);
    }
    var data := new byte[fileInfo.size](_ => 0);
    ok := tarFile.ReadFull(data);
    if !ok {
      return Err(ShortRead);
    }
    assert fileInfo.size > 0 ==> data[..] == tarFile.contents[dataPos..dataPos + fileInfo.size];
    return Ok(data[..]);
  }

  /// `TarixHandle`: an open archive and the index read for it.
  class TarixHandle {
    const tarFile: ArchiveFile
    const index: TarIndex

    constructor (tarFile: ArchiveFile, index: TarIndex)
      ensures this.tarFile == tarFile && this.index == index
    {
      this.tarFile := tarFile;
      this.index := index;
    }

    /// `ExtractBytesOfFile` (tarix.go:170-193): the same steps as
    /// `ExtractBytesFromTarWithIndex` on the handle's file and index. The
    /// index is never changed; the file offset moves.
    method ExtractBytesOfFile(lib: GoLib, filePath: string) returns (r: Result<seq<byte>, ExtractError>)
      modifies tarFile
      ensures r == ExtractBytes(lib, index, tarFile.contents, filePath)
      ensures tarFile.offset == OffsetAfter(lib, index, tarFile.contents, filePath, old(tarFile.offset))
    {
      r := ExtractBytesFromTarWithIndex(lib, index, tarFile, filePath);
    }
  }

  /// `NewTarixHandle` (tarix.go:154-168): read the index, then open the
  /// archive. Opening the archive cannot fail here.
  method NewTarixHandle(indexText: string, archive: seq<byte>) returns (r: Result<TarixHandle, LoadError>)
    ensures r.Ok? <==> LoadIndex(indexText).Ok?
    ensures r.Err? ==> r.error == LoadIndex(indexText).error
    ensures r.Ok? ==> && fresh(r.value) && fresh(r.value.tarFile)
                      && r.value.index == LoadIndex(indexText).value
                      && r.value.tarFile.contents == archive && r.value.tarFile.offset == 0
  {
    var index := ReadTarIndex(indexText);
    if index.Err? {
      return Err(index.error);
    }
    var tarFile := new ArchiveFile.Open(archive);
    var handle := new TarixHandle(tarFile, index.value);
    return Ok(handle);
  }

  /// Why `ExtractFileFromTar` fails before writing any output.
  datatype ExtractFileError = IndexUnreadable(loadError: LoadError) | ExtractFailed(extractError: ExtractError)

  /// What `ExtractFileFromTar` hands to the output writer.
  function ExtractFile(lib: GoLib, indexText: string, archive: seq<byte>, path: string): Result<seq<byte>, ExtractFileError> {
    var loaded := LoadIndex(indexText);
    if loaded.Err? then Err(IndexUnreadable(loaded.error))
    else
      var r := ExtractBytes(lib, loaded.value, archive, path);
      if r.Err? then Err(ExtractFailed(r.error)) else Ok(r.value)
  }

  /// `ExtractFileFromTar` (tarix.go:196-207) up to the bytes it writes out;
  /// `extractFileFromTar` in main.go:151-169 does the same through
  /// `readTarIndex` and `ExtractBytesFromTarWithIndex`.
  method ExtractFileFromTar(lib: GoLib, indexText: string, archive: seq<byte>, filePath: string)
    returns (r: Result<seq<byte>, ExtractFileError>)
    ensures r == ExtractFile(lib, indexText, archive, filePath)
  {
    var handle := NewTarixHandle(indexText, archive);
    if handle.Err? {
      return Err(IndexUnreadable(handle.error));
    }
    var data := handle.value.ExtractBytesOfFile(lib, filePath);
    if data.Err? {
      return Err(ExtractFailed(data.error));
    }
    return Ok(data.value);
  }

  // ---------------------------------------------------------------------
  // Properties

  /// Extraction succeeds exactly when the hash of the path is a key, the
  /// data position is not negative, `make` can allocate the size, and the
  /// archive holds all `size` bytes from the data position on.
  lemma ExtractBytesOkIff(lib: GoLib, idx: TarIndex, archive: seq<byte>, path: string)
    ensures ExtractBytes(lib, idx, archive, path).Ok? <==>
              var key := HashFilePath(lib, path);
              && key in idx.files
              && DataPos(idx.files[key]) >= 0
              && Allocatable(idx.files[key].size)
              && (idx.files[key].size == 0 || DataPos(idx.files[key]) + idx.files[key].size <= |archive|)
  {
  }

  /// On success the result is exactly `size` bytes read from `Start + 512`.
  lemma ExtractBytesData(lib: GoLib, idx: TarIndex, archive: seq<byte>, path: string)
    requires ExtractBytes(lib, idx, archive, path).Ok?
    ensures var fi := idx.files[HashFilePath(lib, path)];
            var data := ExtractBytes(lib, idx, archive, path).value;
            && |data| == fi.size
            && forall j :: 0 <= j < |data| ==> data[j] == archive[DataPos(fi) + j]
  {
  }

  /// An absent hash is reported by the hash, never by the path.
  lemma ExtractBytesNotFound(lib: GoLib, idx: TarIndex, archive: seq<byte>, path: string)
    requires HashFilePath(lib, path) !in idx.files
    ensures ExtractBytes(lib, idx, archive, path) == Err(NotFound(HashFilePath(lib, path)))
    ensures |ExtractBytes(lib, idx, archive, path).error.key| == HashLen
  {
  }

  /// Lookup depends on the path only through its hash, taken without
  /// cleaning: two paths with the same hash extract the same thing.
  lemma ExtractDependsOnHash(lib: GoLib, idx: TarIndex, archive: seq<byte>, p: string, q: string)
    requires HashFilePath(lib, p) == HashFilePath(lib, q)
    ensures ExtractBytes(lib, idx, archive, p) == ExtractBytes(lib, idx, archive, q)
  {
  }

  /// Extraction of a member whose data lies inside the archive: its `Size`
  /// bytes from `Start + 512`, unless `make` cannot allocate them.
  lemma ExtractBytesInside(lib: GoLib, idx: TarIndex, archive: seq<byte>, path: string)
    requires HashFilePath(lib, path) in idx.files
    requires var fi := idx.files[HashFilePath(lib, path)];
             && 0 <= fi.start <= Int64Max - HeaderSize && 0 <= fi.size
             && fi.start + HeaderSize + fi.size <= |archive|
    ensures var fi := idx.files[HashFilePath(lib, path)];
            ExtractBytes(lib, idx, archive, path)
              == if fi.size <= MaxAlloc then Ok(archive[fi.start + HeaderSize..fi.start + HeaderSize + fi.size])
                 else Err(MakePanic)
  {
    var fi := idx.files[HashFilePath(lib, path)];
    var pos := fi.start + HeaderSize;
    assert DataPos(fi) == pos;
    if fi.size == 0 {
      assert archive[pos..pos] == [];
    }
  }

  /// After a successful extraction the offset is `Start + 512 + Size`.
  lemma OffsetAfterSuccess(lib: GoLib, idx: TarIndex, archive: seq<byte>, path: string, offset: nat)
    requires ExtractBytes(lib, idx, archive, path).Ok?
    ensures OffsetAfter(lib, idx, archive, path, offset) ==
              DataPos(idx.files[HashFilePath(lib, path)]) + idx.files[HashFilePath(lib, path)].size
  {
  }
}
