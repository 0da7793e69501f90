/// From archive contents to extracted bytes: members laid out as a header
/// block followed by their data padded to whole blocks, indexed, saved,
/// loaded and extracted again. Every member stores exactly the data its
/// header declares. For regular files this is the ustar layout of POSIX.1
/// (pax utility); header-only members (links, directories) are covered when
/// they carry no data and declare size 0, as archive writers emit them.
/// The scenario of main_test.go is the last lemma.
module EndToEnd {
  import opened Types
  import opened Wrappers
  import opened PathHash
  import opened Csv
  import opened IndexStore
  import opened Indexer
  import opened Extractor

  /// A member as handed to the archive writer; its header declares
  /// `|data|` as its size.
  datatype Entry = Entry(typeflag: char, name: string, data: seq<byte>)

  /// One 512-byte block.
  type Block = b: seq<byte> | |b| == 512 witness Zeros(512)

  function Zeros(n: nat): (z: seq<byte>)
    ensures |z| == n
  {
    seq(n, _ => 0)
  }

  /// A member's bytes: its header block (however the writer encodes it),
  /// its data, and zero padding up to a block boundary.
  function EntryBytes(encode: Entry -> Block, e: Entry): (bytes: seq<byte>)
    ensures |bytes| == HeaderSize + RoundUp(|e.data|)
  {
    encode(e) + e.data + Zeros(RoundUp(|e.data|) - |e.data|)
  }

  function Layout(encode: Entry -> Block, es: seq<Entry>): (r: seq<byte>) {
    if es == [] then [] else EntryBytes(encode, es[0]) + Layout(encode, es[1..])
  }

  /// The whole archive: the members, then the two zero blocks that end it.
  function Archive(encode: Entry -> Block, es: seq<Entry>): (r: seq<byte>) {
    Layout(encode, es) + Zeros(2 * HeaderSize)
  }

  predicate SizesFit(es: seq<Entry>) {
    forall i :: 0 <= i < |es| ==> |es[i].data| <= Int64Max
  }

  /// What the tar reader reports for each member, one header per member.
  function HeadersOf(es: seq<Entry>): (hs: seq<Header>)
    requires SizesFit(es)
    ensures |hs| == |es|
    ensures forall i :: 0 <= i < |es| ==> hs[i] == Header(es[i].typeflag, es[i].name, |es[i].data|)
  {
    seq(|es|, i requires 0 <= i < |es| => Header(es[i].typeflag, es[i].name, |es[i].data|))
  }

  function StreamOf(es: seq<Entry>): HeaderStream
    requires SizesFit(es)
  {
    HeaderStream(HeadersOf(es), EndOfArchive)
  }

  lemma {:induction false} LayoutAppend(encode: Entry -> Block, a: seq<Entry>, b: seq<Entry>)
    ensures Layout(encode, a + b) == Layout(encode, a) + Layout(encode, b)
  {
    if a == [] {
      assert a + b == b;
    } else {
      assert (a + b)[0] == a[0];
      assert (a + b)[1..] == a[1..] + b;
      LayoutAppend(encode, a[1..], b);
    }
  }

  /// The members before member `i` take exactly `HeaderPos(i)` bytes.
  lemma {:induction false} LayoutPrefixLength(encode: Entry -> Block, es: seq<Entry>, i: nat)
    requires SizesFit(es) && i <= |es|
    ensures |Layout(encode, es[..i])| == HeaderPos(HeadersOf(es), i)
  {
    if i > 0 {
      LayoutPrefixLength(encode, es, i - 1);
      assert es[..i] == es[..i - 1] + [es[i - 1]];
      LayoutAppend(encode, es[..i - 1], [es[i - 1]]);
      assert Layout(encode, [es[i - 1]]) == EntryBytes(encode, es[i - 1]);
    }
  }

  /// The layout splits around member `i`.
  lemma {:induction false} LayoutSplit(encode: Entry -> Block, es: seq<Entry>, i: nat)
    requires i < |es|
    ensures Layout(encode, es) == Layout(encode, es[..i]) + EntryBytes(encode, es[i]) + Layout(encode, es[i + 1..])
  {
    assert es == es[..i] + ([es[i]] + es[i + 1..]);
    LayoutAppend(encode, es[..i], [es[i]] + es[i + 1..]);
    assert ([es[i]] + es[i + 1..])[1..] == es[i + 1..];
  }

  lemma {:induction false} SliceOfMiddle(p: seq<byte>, e: seq<byte>, q: seq<byte>, lo: nat, hi: nat)
    requires lo <= hi <= |e|
    ensures (p + e + q)[|p| + lo..|p| + hi] == e[lo..hi]
  {
  }

  /// Member `i`'s data sits one block after `HeaderPos(i)`.
  lemma {:induction false} LayoutPlacesData(encode: Entry -> Block, es: seq<Entry>, i: nat)
    requires SizesFit(es) && i < |es|
    ensures HeaderPos(HeadersOf(es), i) + HeaderSize + |es[i].data| <= |Layout(encode, es)|
    ensures var pos := HeaderPos(HeadersOf(es), i) + HeaderSize;
            Layout(encode, es)[pos..pos + |es[i].data|] == es[i].data
  {
    var p := Layout(encode, es[..i]);
    var e := EntryBytes(encode, es[i]);
    var q := Layout(encode, es[i + 1..]);
    LayoutPrefixLength(encode, es, i);
    LayoutSplit(encode, es, i);
    SliceOfMiddle(p, e, q, HeaderSize, HeaderSize + |es[i].data|);
    assert e[HeaderSize..HeaderSize + |es[i].data|] == es[i].data;
  }

  /// The whole layout takes `HeaderPos(|es|)` bytes.
  lemma {:induction false} LayoutLength(encode: Entry -> Block, es: seq<Entry>)
    requires SizesFit(es)
    ensures |Layout(encode, es)| == HeaderPos(HeadersOf(es), |es|)
  {
    LayoutPrefixLength(encode, es, |es|);
    assert es[..|es|] == es;
  }

  /// While the archive fits in an `int64`, the indexer's cursor stands at
  /// each member's header block, and its data starts one block later.
  lemma {:induction false} CursorFindsData(encode: Entry -> Block, es: seq<Entry>, i: nat)
    requires SizesFit(es) && i < |es|
    requires |Layout(encode, es)| <= Int64Max
    ensures Pos64(HeadersOf(es), i) == HeaderPos(HeadersOf(es), i)
    ensures Pos64(HeadersOf(es), i) + HeaderSize + |es[i].data| <= |Layout(encode, es)|
  {
    var hs := HeadersOf(es);
    LayoutLength(encode, es);
    LayoutPlacesData(encode, es, i);
    Pos64MatchesHeaderPos(hs, i);
  }

  /// The top-level property: index the archive; then extracting a regular
  /// member by its name, when the name is already clean, returns exactly
  /// its data, unless the member is too large for `make` to allocate.
  lemma {:induction false} IndexThenExtract(lib: GoLib, encode: Entry -> Block, es: seq<Entry>, i: nat)
    requires SizesFit(es) && |Layout(encode, es)| <= Int64Max
    requires BuildIndex(lib, StreamOf(es)).Ok?
    requires i < |es| && es[i].typeflag == TypeReg && lib.clean(es[i].name) == es[i].name
    ensures ExtractBytes(lib, BuildIndex(lib, StreamOf(es)).value, Archive(encode, es), es[i].name)
              == if |es[i].data| <= MaxAlloc then Ok(es[i].data) else Err(MakePanic)
  {
    var hs := HeadersOf(es);
    var idx := BuildIndex(lib, StreamOf(es)).value;
    var data := es[i].data;
    BuildIndexSound(lib, StreamOf(es), i);
    CursorFindsData(encode, es, i);
    LayoutPlacesData(encode, es, i);
    var fi := idx.files[HashFilePath(lib, es[i].name)];
    assert fi == FileIndex(HeaderPos(hs, i), |data|);
    ArchiveExtendsLayout(encode, es, HeaderPos(hs, i) + HeaderSize, |data|);
    ExtractBytesInside(lib, idx, Archive(encode, es), es[i].name);
  }

  /// The end-of-archive blocks come after the members, so a slice within
  /// the members reads the same in the whole archive.
  lemma ArchiveExtendsLayout(encode: Entry -> Block, es: seq<Entry>, pos: nat, n: nat)
    requires pos + n <= |Layout(encode, es)|
    ensures pos + n <= |Archive(encode, es)|
    ensures Archive(encode, es)[pos..pos + n] == Layout(encode, es)[pos..pos + n]
  {
  }

  /// The same through the saved index: whatever order the rows were written
  /// in, loading the text and extracting gives the member's data (or the
  /// panic of `make` for a member above `MaxAlloc` bytes).
  lemma {:induction false} SaveLoadExtract(lib: GoLib, encode: Entry -> Block, es: seq<Entry>, i: nat, order: seq<string>)
    requires SizesFit(es) && |Layout(encode, es)| <= Int64Max
    requires BuildIndex(lib, StreamOf(es)).Ok?
    requires IsOrdering(order, BuildIndex(lib, StreamOf(es)).value.files.Keys)
    requires i < |es| && es[i].typeflag == TypeReg && lib.clean(es[i].name) == es[i].name
    ensures ExtractFile(lib, RenderIndex(order, BuildIndex(lib, StreamOf(es)).value), Archive(encode, es), es[i].name)
              == if |es[i].data| <= MaxAlloc then Ok(es[i].data) else Err(ExtractFailed(MakePanic))
  {
    BuiltKeysPlain(lib, StreamOf(es));
    LoadRenderRoundTrip(order, BuildIndex(lib, StreamOf(es)).value);
    IndexThenExtract(lib, encode, es, i);
  }

  /// A path whose hash is not the key of any regular member is not found,
  /// and the error names the hash. In particular a path that differs from
  /// its cleaned form is looked up under its own hash.
  lemma {:induction false} UnindexedPathNotFound(lib: GoLib, es: seq<Entry>, archive: seq<byte>, path: string)
    requires SizesFit(es) && BuildIndex(lib, StreamOf(es)).Ok?
    requires forall j :: 0 <= j < |es| && es[j].typeflag == TypeReg ==>
               HashFilePath(lib, lib.clean(es[j].name)) != HashFilePath(lib, path)
    ensures ExtractBytes(lib, BuildIndex(lib, StreamOf(es)).value, archive, path) == Err(NotFound(HashFilePath(lib, path)))
  {
    var hs := HeadersOf(es);
    BuildIndexKeys(lib, StreamOf(es), HashFilePath(lib, path));
  }

  /// The bytes of an ASCII string, as `[]byte(s)` gives them.
  function AsciiBytes(s: string): (bs: seq<byte>)
    requires forall i :: 0 <= i < |s| ==> s[i] < 128 as char
    ensures |bs| == |s|
    ensures forall i :: 0 <= i < |s| ==> bs[i] == s[i] as int
  {
    seq(|s|, i requires 0 <= i < |s| => s[i] as int)
  }

  /// The contents of the three files of the test.
  const HelloWorld: seq<byte> := AsciiBytes("Hello, World!")
  const ThisIsATest: seq<byte> := AsciiBytes("This is a test.")
  const AnotherFile: seq<byte> := AsciiBytes("Another file.")

  /// The three regular files the test archives, in the order the directory
  /// walk visits them.
  function TestEntries(): seq<Entry> {
    [ Entry(TypeReg, "file1.txt", HelloWorld),
      Entry(TypeReg, "file2.txt", ThisIsATest),
      Entry(TypeReg, "file3.txt", AnotherFile) ]
  }

  /// The three test members are regular, with 13, 15 and 13 bytes of data.
  lemma TestEntriesShape()
    ensures |TestEntries()| == 3 && SizesFit(TestEntries())
    ensures forall j :: 0 <= j < 3 ==> TestEntries()[j].typeflag == TypeReg
    ensures TestEntries()[0].name == "file1.txt" && TestEntries()[1].name == "file2.txt" && TestEntries()[2].name == "file3.txt"
    ensures |TestEntries()[0].data| == 13 && |TestEntries()[1].data| == 15 && |TestEntries()[2].data| == 13
  {
  }

  /// What the model needs of md5 and `filepath.Clean` on the test's names:
  /// the names are clean and their keys differ.
  predicate TestNamesFit(lib: GoLib) {
    && lib.clean("file1.txt") == "file1.txt"
    && lib.clean("file2.txt") == "file2.txt"
    && lib.clean("file3.txt") == "file3.txt"
    && HashFilePath(lib, "file1.txt") != HashFilePath(lib, "file2.txt")
    && HashFilePath(lib, "file1.txt") != HashFilePath(lib, "file3.txt")
    && HashFilePath(lib, "file2.txt") != HashFilePath(lib, "file3.txt")
  }

  /// Three regular members with three different keys have distinct keys.
  lemma {:induction false} ThreeKeysDistinct(lib: GoLib, hs: seq<Header>)
    requires |hs| == 3 && IsRegular(hs[0]) && IsRegular(hs[1]) && IsRegular(hs[2])
    requires IndexKey(lib, hs[0]) != IndexKey(lib, hs[1])
    requires IndexKey(lib, hs[0]) != IndexKey(lib, hs[2])
    requires IndexKey(lib, hs[1]) != IndexKey(lib, hs[2])
    ensures DistinctKeys(lib, hs)
  {
    forall i, j | 0 <= i < j < |hs| && IsRegular(hs[i]) && IsRegular(hs[j])
      ensures IndexKey(lib, hs[i]) != IndexKey(lib, hs[j])
    {
      if i == 0 && j == 1 {
        assert hs[i] == hs[0] && hs[j] == hs[1];
      } else if i == 0 {
        assert j == 2;
        assert hs[i] == hs[0] && hs[j] == hs[2];
      } else {
        assert i == 1 && j == 2;
        assert hs[i] == hs[1] && hs[j] == hs[2];
      }
    }
  }

  /// Three regular members with distinct keys index to three entries.
  lemma {:induction false} ThreeDistinctIndexed(lib: GoLib, hs: seq<Header>)
    requires |hs| == 3 && IsRegular(hs[0]) && IsRegular(hs[1]) && IsRegular(hs[2])
    requires DistinctKeys(lib, hs)
    ensures BuildIndex(lib, HeaderStream(hs, EndOfArchive)).Ok?
    ensures |BuildIndex(lib, HeaderStream(hs, EndOfArchive)).value.files| == 3
  {
    BuildIndexOkIff(lib, HeaderStream(hs, EndOfArchive));
    BuildIndexSize(lib, HeaderStream(hs, EndOfArchive));
    assert RegularCount(hs, 1) == 1;
    assert RegularCount(hs, 2) == 2;
  }

  /// Under those assumptions, indexing the test archive succeeds with one
  /// entry per file.
  lemma {:induction false} TestIndexBuilt(lib: GoLib)
    requires TestNamesFit(lib)
    ensures SizesFit(TestEntries())
    ensures BuildIndex(lib, StreamOf(TestEntries())).Ok?
    ensures |BuildIndex(lib, StreamOf(TestEntries())).value.files| == 3
  {
    TestEntriesShape();
    var hs := HeadersOf(TestEntries());
    assert IsRegular(hs[0]) && IndexKey(lib, hs[0]) == HashFilePath(lib, "file1.txt");
    assert IsRegular(hs[1]) && IndexKey(lib, hs[1]) == HashFilePath(lib, "file2.txt");
    assert IsRegular(hs[2]) && IndexKey(lib, hs[2]) == HashFilePath(lib, "file3.txt");
    ThreeKeysDistinct(lib, hs);
    ThreeDistinctIndexed(lib, hs);
  }

  /// The test archive's members take three header blocks and three data
  /// blocks.
  lemma {:induction false} TestLayoutLength(encode: Entry -> Block)
    ensures SizesFit(TestEntries())
    ensures |Layout(encode, TestEntries())| == 6 * HeaderSize
  {
    TestEntriesShape();
    var hs := HeadersOf(TestEntries());
    LayoutLength(encode, TestEntries());
    assert HeaderPos(hs, 1) == 1024;
    assert HeaderPos(hs, 2) == 2048;
    assert HeaderPos(hs, 3) == 3072;
  }

  /// Extracting "file1.txt" through the saved index of the test archive.
  lemma {:induction false} TestFirstEntryExtracts(lib: GoLib, encode: Entry -> Block, order: seq<string>)
    requires SizesFit(TestEntries()) && BuildIndex(lib, StreamOf(TestEntries())).Ok?
    requires IsOrdering(order, BuildIndex(lib, StreamOf(TestEntries())).value.files.Keys)
    requires lib.clean("file1.txt") == "file1.txt"
    ensures ExtractFile(lib, RenderIndex(order, BuildIndex(lib, StreamOf(TestEntries())).value),
                        Archive(encode, TestEntries()), "file1.txt")
              == Ok(HelloWorld)
  {
    var es := TestEntries();
    TestLayoutLength(encode);
    TestEntriesShape();
    assert es[0] == Entry(TypeReg, "file1.txt", HelloWorld);
    SaveLoadExtract(lib, encode, es, 0, order);
  }

  /// The scenario of main_test.go: indexing the three-file archive succeeds
  /// with three entries, the written index has a header row and three data
  /// rows, and extracting "file1.txt" through it gives "Hello, World!".
  /// The model leaves md5 and `filepath.Clean` open, so the lemma assumes
  /// `TestNamesFit` of them.
  lemma {:induction false} ThreeFileScenario(lib: GoLib, encode: Entry -> Block, order: seq<string>)
    requires TestNamesFit(lib)
    requires SizesFit(TestEntries()) && BuildIndex(lib, StreamOf(TestEntries())).Ok? ==>
               IsOrdering(order, BuildIndex(lib, StreamOf(TestEntries())).value.files.Keys)
    ensures SizesFit(TestEntries())
    ensures BuildIndex(lib, StreamOf(TestEntries())).Ok?
    ensures |BuildIndex(lib, StreamOf(TestEntries())).value.files| == 3
    ensures |Records(RenderIndex(order, BuildIndex(lib, StreamOf(TestEntries())).value))| == 4
    ensures ExtractFile(lib, RenderIndex(order, BuildIndex(lib, StreamOf(TestEntries())).value),
                        Archive(encode, TestEntries()), "file1.txt")
              == Ok(HelloWorld)
  {
    var es := TestEntries();
    TestIndexBuilt(lib);
    var idx := BuildIndex(lib, StreamOf(es)).value;
    BuiltKeysPlain(lib, StreamOf(es));
    RenderIndexRecordCount(order, idx);
    TestFirstEntryExtracts(lib, encode, order);
  }
}
