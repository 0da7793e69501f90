/// The records of types.go and the 64-bit integer arithmetic that the Go code
/// performs on them.
module Types {

  const Int64Min: int := -0x8000_0000_0000_0000
  const Int64Max: int := 0x7FFF_FFFF_FFFF_FFFF
  const Two64: int := 0x1_0000_0000_0000_0000

  /// Go's `int64`.
  type int64 = x: int | -0x8000_0000_0000_0000 <= x <= 0x7FFF_FFFF_FFFF_FFFF

  /// A non-negative `int64`: the declared size of an archive member.
  type size64 = x: int | 0 <= x <= 0x7FFF_FFFF_FFFF_FFFF

  /// Go's `byte`.
  type byte = x: int | 0 <= x < 256

  /// `headerSize`: one tar header block.
  const HeaderSize: int := 512

  /// `HashLen`: number of hex characters kept from the path digest.
  const HashLen: nat := 16

  /// Two's-complement wrap-around of an `int64` addition: the unique `int64`
  /// congruent to `x` modulo 2^64.
  function Wrap64(x: int): (r: int64)
    ensures (r - x) % Two64 == 0
    ensures Int64Min <= x <= Int64Max ==> r == x
  {
    (x - Int64Min) % Two64 + Int64Min
  }

  /// Go's `+` on two `int64` operands.
  function Add64(a: int64, b: int64): (r: int64) {
    Wrap64(a + b)
  }

  /// Wrapping is insensitive to multiples of 2^64, so a running sum can be
  /// wrapped after every step or once at the end.
  lemma Wrap64Add(a: int, b: int)
    ensures Wrap64(Wrap64(a) + b) == Wrap64(a + b)
  {
    var k := (Wrap64(a) - a) / Two64;
    assert Wrap64(a) == a + k * Two64;
    var x := a + b - Int64Min;
    assert Wrap64(a) + b - Int64Min == x + k * Two64;
    assert (x + k * Two64) % Two64 == x % Two64;
  }

  /// `FileIndex`: where a member's header block starts and how many data
  /// bytes it declares.
  datatype FileIndex = FileIndex(start: int64, size: int64)

  /// `TarIndex`: the member key of every indexed member, with its location.
  datatype TarIndex = TarIndex(files: map<string, FileIndex>)
}
