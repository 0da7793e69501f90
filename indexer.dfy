/// The scan loop of `CreateTarIndex` (tarix.go:26-121, duplicated as
/// `createTarIndex` in main.go:27-122): walk the member headers of an
/// archive with a byte cursor, record every regular file under the hash of
/// its cleaned name, and write the result as CSV.
module Indexer {
  import opened Types
  import opened Wrappers
  import opened PathHash
  import opened Csv
  import opened IndexStore

  /// `tar.TypeReg`.
  const TypeReg: char := '0'

  /// What `tar.Reader.Next` reports about one member: its type flag, its
  /// name and its declared (unpadded) data length. The model takes the
  /// declared size to be non-negative. The reader rejects a negative size
  /// only for members that carry data; for header-only members (links,
  /// directories, devices, FIFOs) it returns the declared size unchecked.
  datatype Header = Header(typeflag: char, name: string, size: size64)

  /// How the header stream ends: `io.EOF`, or any other error of `Next`.
  datatype StreamEnd = EndOfArchive | CorruptHeader

  /// The successive results of `tr.Next()`: the headers it returns, then
  /// the error that stops the loop.
  datatype HeaderStream = HeaderStream(headers: seq<Header>, end: StreamEnd)

  /// The two ways indexing fails after the archive is open.
  datatype IndexError =
    | HeaderError                          // "error reading tar header"
    | DuplicatePath(path: string, key: string)  // the cleaned path and its key

  predicate IsRegular(h: Header) {
    h.typeflag == TypeReg
  }

  /// The key a regular member is filed under: the hash of its cleaned name.
  function IndexKey(lib: GoLib, h: Header): string {
    HashFilePath(lib, lib.clean(h.name))
  }

  lemma AlignDownInRange(x: int64)
    ensures Int64Min <= x - x % 512 <= x
    ensures (x - x % 512) % 512 == 0
  {
    assert Int64Min == -0x40_0000_0000_0000 * 512;
    assert (x - Int64Min) % 512 == x % 512;
  }

  /// `(size + 511) & ^int64(511)` in 64-bit arithmetic: the sum wraps, and
  /// clearing the low nine bits of a two's-complement value subtracts its
  /// (non-negative) remainder modulo 512.
  function PaddedSize(size: int64): (r: int64)
    ensures r % 512 == 0
    ensures 0 <= size <= Int64Max - 511 ==> size <= r < size + 512
  {
    var x := Wrap64(size + 511);
    AlignDownInRange(x);
    x - x % 512
  }

  /// 2^64 is a multiple of 512, so wrapping keeps a block-aligned value
  /// block-aligned.
  lemma WrapKeepsAligned(x: int)
    requires x % 512 == 0
    ensures Wrap64(x) % 512 == 0
  {
    var y := x - Int64Min;
    AlignedSum(x, -Int64Min);
    var q := y / Two64;
    var m := y / 512 - q * 0x80_0000_0000_0000;
    assert y == 512 * (y / 512);
    assert y % Two64 == 512 * m;
    AlignedSum(512 * m, Int64Min);
  }

  lemma Add64KeepsAligned(a: int64, b: int64)
    ensures a % 512 == 0 && b % 512 == 0 ==> Add64(a, b) % 512 == 0
  {
    if a % 512 == 0 && b % 512 == 0 {
      AlignedSum(a, b);
      WrapKeepsAligned(a + b);
    }
  }

  /// `headerPos + headerSize + paddedSize`, each addition wrapping. Even
  /// when it wraps, the next position stays on a block boundary.
  function NextPos(headerPos: int64, size: int64): (r: int64)
    ensures headerPos % 512 == 0 ==> r % 512 == 0
  {
    Add64KeepsAligned(headerPos, HeaderSize);
    var afterHeader := Add64(headerPos, HeaderSize);
    Add64KeepsAligned(afterHeader, PaddedSize(size));
    Add64(afterHeader, PaddedSize(size))
  }

  /// The value of `currentPos` when the loop reaches header `i`: always a
  /// multiple of 512, in 64-bit arithmetic too.
  function Pos64(hs: seq<Header>, i: nat): (r: int64)
    requires i <= |hs|
    ensures r % 512 == 0
  {
    if i == 0 then 0 else NextPos(Pos64(hs, i - 1), hs[i - 1].size)
  }

  /// `n` rounded up to a multiple of 512, in unbounded arithmetic.
  function RoundUp(n: nat): (r: nat)
    ensures r % 512 == 0 && n <= r < n + 512
  {
    var x := n + 511;
    x - x % 512
  }

  /// Where header `i` starts when each earlier member takes a header block
  /// and its data rounded up to whole blocks, in unbounded arithmetic.
  function HeaderPos(hs: seq<Header>, i: nat): (r: nat)
    requires i <= |hs|
  {
    if i == 0 then 0 else HeaderPos(hs, i - 1) + HeaderSize + RoundUp(hs[i - 1].size)
  }

  /// The map after the loop has handled headers `0 .. n-1`.
  function PrefixIndex(lib: GoLib, hs: seq<Header>, n: nat): (r: map<string, FileIndex>)
    requires n <= |hs|
  {
    if n == 0 then map[]
    else
      var m := PrefixIndex(lib, hs, n - 1);
      var h := hs[n - 1];
      if IsRegular(h) then m[IndexKey(lib, h) := FileIndex(Pos64(hs, n - 1), h.size)] else m
  }

  /// Header `i` is regular and its key was already filed.
  predicate DupAt(lib: GoLib, hs: seq<Header>, i: nat)
    requires i < |hs|
  {
    IsRegular(hs[i]) && IndexKey(lib, hs[i]) in PrefixIndex(lib, hs, i)
  }

  /// The first header at or after `i` whose key was already filed, or `|hs|`.
  function FirstDupFrom(lib: GoLib, hs: seq<Header>, i: nat): (d: nat)
    requires i <= |hs|
    ensures i <= d <= |hs|
    ensures d < |hs| ==> DupAt(lib, hs, d)
    ensures forall e :: i <= e < d ==> !DupAt(lib, hs, e)
    decreases |hs| - i
  {
    if i == |hs| then |hs| else if DupAt(lib, hs, i) then i else FirstDupFrom(lib, hs, i + 1)
  }

  /// What the scan loop produces: the first duplicate key aborts; otherwise
  /// a header error aborts; otherwise the map of all regular members.
  function BuildIndex(lib: GoLib, stream: HeaderStream): (r: Result<TarIndex, IndexError>) {
    var hs := stream.headers;
    var d := FirstDupFrom(lib, hs, 0);
    if d < |hs| then Err(DuplicatePath(lib.clean(hs[d].name), IndexKey(lib, hs[d])))
    else if stream.end == CorruptHeader then Err(HeaderError)
    else Ok(TarIndex(PrefixIndex(lib, hs, |hs|)))
  }

  /// The scan loop of tarix.go:48-92 (main.go:49-93). Progress printing is
  /// left out.
  method ScanArchive(lib: GoLib, stream: HeaderStream) returns (r: Result<TarIndex, IndexError>)
    ensures r == BuildIndex(lib, stream)
  {
    var hs := stream.headers;
    var files: map<string, FileIndex> := map[];
    var currentPos: int64 := 0;
    var i := 0;
    while true
      invariant 0 <= i <= |hs|
      invariant currentPos == Pos64(hs, i)
      invariant files == PrefixIndex(lib, hs, i)
      invariant FirstDupFrom(lib, hs, i) == FirstDupFrom(lib, hs, 0)
      decreases |hs| - i
    {
      var headerPos := currentPos;
      if i == |hs| {
        if stream.end == EndOfArchive {
          break;
        }
        return Err(HeaderError);
      }
      var header := hs[i];
      ScanStep(lib, hs, i);
      i := i + 1;
      if header.typeflag != TypeReg {
        var paddedSize := PaddedSize(header.size);
        currentPos := Add64(Add64(headerPos, HeaderSize), paddedSize);
        continue;
      }
      var cleanFilePath := lib.clean(header.name);
      var cleanFilePathHash := HashFilePath(lib, cleanFilePath);
      var fileIndex := FileIndex(headerPos, header.size);
      if cleanFilePathHash in files {
        return Err(DuplicatePath(cleanFilePath, cleanFilePathHash));
      }
      files := files[cleanFilePathHash := fileIndex];
      var paddedSize := PaddedSize(header.size);
      currentPos := Add64(Add64(headerPos, HeaderSize), paddedSize);
    }
    return Ok(TarIndex(files));
  }

  /// What one turn of the scan loop does to the cursor, the map and the
  /// search for a duplicate.
  lemma ScanStep(lib: GoLib, hs: seq<Header>, i: nat)
    requires i < |hs|
    ensures Pos64(hs, i + 1) == NextPos(Pos64(hs, i), hs[i].size)
    ensures !IsRegular(hs[i]) ==>
              PrefixIndex(lib, hs, i + 1) == PrefixIndex(lib, hs, i) && FirstDupFrom(lib, hs, i) == FirstDupFrom(lib, hs, i + 1)
    ensures IsRegular(hs[i]) && IndexKey(lib, hs[i]) !in PrefixIndex(lib, hs, i) ==>
              && PrefixIndex(lib, hs, i + 1) == PrefixIndex(lib, hs, i)[IndexKey(lib, hs[i]) := FileIndex(Pos64(hs, i), hs[i].size)]
              && FirstDupFrom(lib, hs, i) == FirstDupFrom(lib, hs, i + 1)
    ensures IsRegular(hs[i]) && IndexKey(lib, hs[i]) in PrefixIndex(lib, hs, i) ==> FirstDupFrom(lib, hs, i) == i
  {
  }

  /// `CreateTarIndex` after the archive is open: scan, then write the CSV
  /// text. On any error nothing is written. `order` is the map iteration
  /// order the write loop happened to use.
  method CreateTarIndex(lib: GoLib, stream: HeaderStream) returns (r: Result<string, IndexError>, ghost order: seq<string>)
    ensures BuildIndex(lib, stream).Err? ==> r == Err(BuildIndex(lib, stream).error)
    ensures BuildIndex(lib, stream).Ok? ==>
              && r.Ok?
              && IsOrdering(order, BuildIndex(lib, stream).value.files.Keys)
              && r.value == RenderIndex(order, BuildIndex(lib, stream).value)
              && |Records(r.value)| == |BuildIndex(lib, stream).value.files| + 1
              && Records(r.value)[0] == HeaderRecord
              && LoadIndex(r.value) == Ok(BuildIndex(lib, stream).value)
  {
    var built := ScanArchive(lib, stream);
    if built.Err? {
      return Err(built.error), [];
    }
    BuiltKeysPlain(lib, stream);
    var text;
    text, order := WriteIndex(built.value);
    return Ok(text), order;
  }

  // ---------------------------------------------------------------------
  // Cursor arithmetic

  /// For a size that does not overflow, the padded size is `size` rounded
  /// up to a multiple of 512, so the padding is 0 to 511 bytes.
  lemma PaddedSizeIsRoundUp(size: size64)
    requires size <= Int64Max - 511
    ensures PaddedSize(size) == RoundUp(size)
  {
    assert Wrap64(size + 511) == size + 511;
  }

  /// No smaller multiple of 512 holds `n` bytes.
  lemma RoundUpIsLeast(n: nat, m: int)
    requires m >= n && m % 512 == 0
    ensures RoundUp(n) <= m
  {
  }

  /// Every header starts on a block boundary.
  lemma {:induction false} HeaderPosAligned(hs: seq<Header>, i: nat)
    requires i <= |hs|
    ensures HeaderPos(hs, i) % 512 == 0
  {
    if i > 0 {
      HeaderPosAligned(hs, i - 1);
      AlignedSum(HeaderPos(hs, i - 1), HeaderSize);
      AlignedSum(HeaderPos(hs, i - 1) + HeaderSize, RoundUp(hs[i - 1].size));
    }
  }

  lemma AlignedSum(a: int, b: int)
    requires a % 512 == 0 && b % 512 == 0
    ensures (a + b) % 512 == 0
  {
    assert a + b == 512 * (a / 512 + b / 512);
  }

  /// Header positions strictly increase, by at least one block per member.
  lemma {:induction false} HeaderPosIncreasing(hs: seq<Header>, i: nat, j: nat)
    requires i < j <= |hs|
    ensures HeaderPos(hs, i) + HeaderSize * (j - i) <= HeaderPos(hs, j)
  {
    if j - 1 > i {
      HeaderPosIncreasing(hs, i, j - 1);
    }
  }

  /// The cursor ignores the type of a member: two header lists with the
  /// same sizes give the same cursor values, so no member is skipped
  /// without consuming its space.
  lemma {:induction false} PositionsIgnoreType(hs: seq<Header>, gs: seq<Header>, i: nat)
    requires |hs| == |gs| && i <= |hs|
    requires forall j :: 0 <= j < |hs| ==> hs[j].size == gs[j].size
    ensures Pos64(hs, i) == Pos64(gs, i)
  {
    if i > 0 {
      PositionsIgnoreType(hs, gs, i - 1);
    }
  }

  /// Data of member `i - 1` ends no later than header `i` begins.
  lemma HeaderPosBound(hs: seq<Header>, i: nat)
    requires 0 < i <= |hs|
    ensures HeaderPos(hs, i - 1) + HeaderSize + hs[i - 1].size <= HeaderPos(hs, i)
  {
  }

  /// While the archive fits in an `int64`, the wrapping cursor is the exact
  /// block layout.
  lemma {:induction false} Pos64MatchesHeaderPos(hs: seq<Header>, i: nat)
    requires i <= |hs|
    requires HeaderPos(hs, i) <= Int64Max
    ensures Pos64(hs, i) == HeaderPos(hs, i)
  {
    if i > 0 {
      var s := hs[i - 1].size;
      HeaderPosBound(hs, i);
      Pos64MatchesHeaderPos(hs, i - 1);
      PaddedSizeIsRoundUp(s);
      assert Add64(Pos64(hs, i - 1), HeaderSize) == HeaderPos(hs, i - 1) + HeaderSize;
    }
  }

  // ---------------------------------------------------------------------
  // What the map holds

  /// A key is in the map exactly when some regular member among the first
  /// `n` has it.
  lemma {:induction false} PrefixIndexKeys(lib: GoLib, hs: seq<Header>, n: nat, k: string)
    requires n <= |hs|
    ensures k in PrefixIndex(lib, hs, n) <==>
              exists j :: 0 <= j < n && IsRegular(hs[j]) && IndexKey(lib, hs[j]) == k
  {
    if n > 0 {
      PrefixIndexKeys(lib, hs, n - 1, k);
      if k in PrefixIndex(lib, hs, n - 1) {
        var j :| 0 <= j < n - 1 && IsRegular(hs[j]) && IndexKey(lib, hs[j]) == k;
        assert 0 <= j < n;
      }
    }
  }

  /// The last regular member with key `k` among the first `n` decides the
  /// value filed under `k`: its header position and declared size.
  lemma {:induction false} PrefixIndexValue(lib: GoLib, hs: seq<Header>, n: nat, j: nat)
    requires j < n <= |hs|
    requires IsRegular(hs[j])
    requires forall i :: j < i < n && IsRegular(hs[i]) ==> IndexKey(lib, hs[i]) != IndexKey(lib, hs[j])
    ensures IndexKey(lib, hs[j]) in PrefixIndex(lib, hs, n)
    ensures PrefixIndex(lib, hs, n)[IndexKey(lib, hs[j])] == FileIndex(Pos64(hs, j), hs[j].size)
  {
    if n - 1 > j {
      PrefixIndexValue(lib, hs, n - 1, j);
    }
  }

  /// No header from `i` on repeats a key exactly when `FirstDupFrom(i)`
  /// finds nothing.
  lemma {:induction false} FirstDupNone(lib: GoLib, hs: seq<Header>, i: nat)
    requires i <= |hs|
    ensures FirstDupFrom(lib, hs, i) == |hs| <==> forall d :: i <= d < |hs| ==> !DupAt(lib, hs, d)
    decreases |hs| - i
  {
    if i < |hs| {
      FirstDupNone(lib, hs, i + 1);
    }
  }

  /// `DupAt` in terms of the headers: an earlier regular member has the
  /// same key.
  lemma DupAtIff(lib: GoLib, hs: seq<Header>, d: nat)
    requires d < |hs|
    ensures DupAt(lib, hs, d) <==>
              IsRegular(hs[d]) && exists j :: 0 <= j < d && IsRegular(hs[j]) && IndexKey(lib, hs[j]) == IndexKey(lib, hs[d])
  {
    PrefixIndexKeys(lib, hs, d, IndexKey(lib, hs[d]));
  }

  /// No two regular members share a key.
  predicate DistinctKeys(lib: GoLib, hs: seq<Header>) {
    forall i, j :: 0 <= i < j < |hs| && IsRegular(hs[i]) && IsRegular(hs[j]) ==>
      IndexKey(lib, hs[i]) != IndexKey(lib, hs[j])
  }

  lemma NoDupIffDistinct(lib: GoLib, hs: seq<Header>)
    ensures FirstDupFrom(lib, hs, 0) == |hs| <==> DistinctKeys(lib, hs)
  {
    FirstDupNone(lib, hs, 0);
    forall d | 0 <= d < |hs| {
      DupAtIff(lib, hs, d);
    }
  }

  /// Indexing succeeds exactly when the header stream ends cleanly and no
  /// two regular members have the same key.
  lemma BuildIndexOkIff(lib: GoLib, stream: HeaderStream)
    ensures BuildIndex(lib, stream).Ok? <==>
              stream.end == EndOfArchive && DistinctKeys(lib, stream.headers)
  {
    NoDupIffDistinct(lib, stream.headers);
  }

  /// A duplicate error is returned exactly when two regular members share
  /// a key, whether the header stream then ends cleanly or not: the loop
  /// returns at the duplicate before it reads any later header.
  lemma BuildIndexDuplicateIff(lib: GoLib, stream: HeaderStream)
    ensures (BuildIndex(lib, stream).Err? && BuildIndex(lib, stream).error.DuplicatePath?)
              <==> !DistinctKeys(lib, stream.headers)
  {
    NoDupIffDistinct(lib, stream.headers);
  }

  /// A duplicate error names the cleaned path and the key of the first
  /// regular member whose key an earlier regular member already has: no
  /// two regular members before it share a key.
  lemma BuildIndexDuplicate(lib: GoLib, stream: HeaderStream)
    requires BuildIndex(lib, stream).Err? && BuildIndex(lib, stream).error.DuplicatePath?
    ensures exists j :: 0 <= j < |stream.headers|
              && (exists i :: 0 <= i < j && IsRegular(stream.headers[i]) && IsRegular(stream.headers[j])
                              && IndexKey(lib, stream.headers[i]) == IndexKey(lib, stream.headers[j]))
              && DistinctKeys(lib, stream.headers[..j])
              && BuildIndex(lib, stream).error == DuplicatePath(lib.clean(stream.headers[j].name), IndexKey(lib, stream.headers[j]))
  {
    var hs := stream.headers;
    var d := FirstDupFrom(lib, hs, 0);
    DupAtIff(lib, hs, d);
    forall a, b | 0 <= a < b < d && IsRegular(hs[..d][a]) && IsRegular(hs[..d][b])
      ensures IndexKey(lib, hs[..d][a]) != IndexKey(lib, hs[..d][b])
    {
      DupAtIff(lib, hs, b);
    }
  }

  /// On success the index has a key exactly for each regular member, and
  /// it maps that key to the member's header position and declared size.
  lemma BuildIndexSound(lib: GoLib, stream: HeaderStream, j: nat)
    requires BuildIndex(lib, stream).Ok?
    requires j < |stream.headers| && IsRegular(stream.headers[j])
    ensures IndexKey(lib, stream.headers[j]) in BuildIndex(lib, stream).value.files
    ensures BuildIndex(lib, stream).value.files[IndexKey(lib, stream.headers[j])]
              == FileIndex(Pos64(stream.headers, j), stream.headers[j].size)
  {
    var hs := stream.headers;
    BuildIndexOkIff(lib, stream);
    PrefixIndexValue(lib, hs, |hs|, j);
  }

  lemma BuildIndexKeys(lib: GoLib, stream: HeaderStream, k: string)
    requires BuildIndex(lib, stream).Ok?
    ensures k in BuildIndex(lib, stream).value.files <==>
              exists j :: 0 <= j < |stream.headers| && IsRegular(stream.headers[j]) && IndexKey(lib, stream.headers[j]) == k
  {
    PrefixIndexKeys(lib, stream.headers, |stream.headers|, k);
  }

  /// The number of regular members among the first `n` headers.
  function RegularCount(hs: seq<Header>, n: nat): nat
    requires n <= |hs|
  {
    if n == 0 then 0 else RegularCount(hs, n - 1) + (if IsRegular(hs[n - 1]) then 1 else 0)
  }

  lemma {:induction false} PrefixIndexSize(lib: GoLib, hs: seq<Header>, n: nat)
    requires n <= |hs|
    requires forall d :: 0 <= d < n ==> !DupAt(lib, hs, d)
    ensures |PrefixIndex(lib, hs, n)| == RegularCount(hs, n)
  {
    if n > 0 {
      PrefixIndexSize(lib, hs, n - 1);
      var m := PrefixIndex(lib, hs, n - 1);
      if IsRegular(hs[n - 1]) {
        assert !DupAt(lib, hs, n - 1);
        assert |m[IndexKey(lib, hs[n - 1]) := FileIndex(Pos64(hs, n - 1), hs[n - 1].size)]| == |m| + 1;
      }
    }
  }

  /// On success there is one index entry per regular member.
  lemma BuildIndexSize(lib: GoLib, stream: HeaderStream)
    requires BuildIndex(lib, stream).Ok?
    ensures |BuildIndex(lib, stream).value.files| == RegularCount(stream.headers, |stream.headers|)
  {
    FirstDupNone(lib, stream.headers, 0);
    PrefixIndexSize(lib, stream.headers, |stream.headers|);
  }

  /// An archive whose members are all non-regular (directories, links)
  /// indexes successfully to an empty map.
  lemma BuildIndexNoRegular(lib: GoLib, stream: HeaderStream)
    requires stream.end == EndOfArchive
    requires forall j :: 0 <= j < |stream.headers| ==> !IsRegular(stream.headers[j])
    ensures BuildIndex(lib, stream) == Ok(TarIndex(map[]))
  {
    BuildIndexOkIff(lib, stream);
    var files := BuildIndex(lib, stream).value.files;
    forall k ensures k !in files {
      BuildIndexKeys(lib, stream, k);
    }
    assert files == map[];
  }

  /// Every key of a built index is the 16-character hex hash of a path, so
  /// it is written without CSV quoting.
  lemma BuiltKeysPlain(lib: GoLib, stream: HeaderStream)
    requires BuildIndex(lib, stream).Ok?
    ensures PlainKeys(BuildIndex(lib, stream).value.files)
  {
    forall k | k in BuildIndex(lib, stream).value.files ensures PlainField(k) {
      BuildIndexKeys(lib, stream, k);
      var j :| 0 <= j < |stream.headers| && IsRegular(stream.headers[j]) && IndexKey(lib, stream.headers[j]) == k;
      HexKeyIsPlain(k);
    }
  }
}
