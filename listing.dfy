/// The totals `listFilesInTar` reports for a loaded index (main.go:195-220,
/// tarix.go:233-258): how many keys, and the sum of their sizes.
module Listing {
  import opened Types

  /// The sum of the declared sizes of all members in `files`.
  ghost function SizeSum(files: map<string, FileIndex>): (r: int)
    decreases |files|
  {
    if files == map[] then 0
    else
      var k :| k in files;
      files[k].size + SizeSum(files - {k})
  }

  /// The sum does not depend on which key is taken first, so it is the same
  /// whatever order the map is iterated in.
  lemma {:induction false} SizeSumRemove(files: map<string, FileIndex>, k: string)
    requires k in files
    ensures SizeSum(files) == files[k].size + SizeSum(files - {k})
    decreases |files|
  {
    var k' :| k' in files && SizeSum(files) == files[k'].size + SizeSum(files - {k'});
    if k' != k {
      var rest := files - {k} - {k'};
      assert files - {k'} - {k} == rest;
      assert |files - {k'}| < |files|;
      assert |files - {k}| < |files|;
      SizeSumRemove(files - {k'}, k);
      SizeSumRemove(files - {k}, k');
    }
  }

  /// With no negative sizes, every size is at most the total.
  lemma {:induction false} SizeSumBounds(files: map<string, FileIndex>, k: string)
    requires forall j :: j in files ==> files[j].size >= 0
    requires k in files
    ensures files[k].size <= SizeSum(files)
    decreases |files|
  {
    SizeSumRemove(files, k);
    SizeSumNonNegative(files - {k});
  }

  lemma {:induction false} SizeSumNonNegative(files: map<string, FileIndex>)
    requires forall j :: j in files ==> files[j].size >= 0
    ensures SizeSum(files) >= 0
    decreases |files|
  {
    if files != map[] {
      var k :| k in files;
      SizeSumRemove(files, k);
      SizeSumNonNegative(files - {k});
    }
  }

  /// When no size is negative and the sum fits in an `int64`, the reported
  /// total is the exact sum, and no single size exceeds it.
  lemma TotalIsExact(files: map<string, FileIndex>)
    requires forall j :: j in files ==> files[j].size >= 0
    requires SizeSum(files) <= Int64Max
    ensures Wrap64(SizeSum(files)) == SizeSum(files)
    ensures forall k :: k in files ==> files[k].size <= Wrap64(SizeSum(files))
  {
    SizeSumNonNegative(files);
    forall k | k in files {
      SizeSumBounds(files, k);
    }
  }

  /// Adding to a wrapped running total wraps the exact total.
  lemma AddWrapped(total: int64, exact: int, size: int64)
    requires total == Wrap64(exact)
    ensures Add64(total, size) == Wrap64(exact + size)
  {
    Wrap64Add(exact, size);
  }

  /// The count and the running `totalSize += fileInfo.Size` of
  /// main.go:203-209, in whatever order the map is iterated (picked here by
  /// `:|`). The total wraps like Go's `int64`.
  method ListTotals(index: TarIndex) returns (count: nat, totalSize: int64)
    ensures count == |index.files|
    ensures totalSize == Wrap64(SizeSum(index.files))
  {
    count := |index.files|;
    totalSize := 0;
    ghost var exact := 0;
    var rest := index.files;
    while rest != map[]
      invariant totalSize == Wrap64(exact)
      invariant exact + SizeSum(rest) == SizeSum(index.files)
      decreases rest.Keys
    {
      var k :| k in rest;
      var fileInfo := rest[k];
      SizeSumRemove(rest, k);
      AddWrapped(totalSize, exact, fileInfo.size);
      totalSize := Add64(totalSize, fileInfo.size);
      exact := exact + fileInfo.size;
      rest := rest - {k};
    }
  }
}
