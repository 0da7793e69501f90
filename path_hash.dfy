/// `hashFilePath` (tarix.go and main.go): a member key is the first `HashLen`
/// lowercase hex characters of the md5 digest of a path.
module PathHash {
  import opened Types

  /// An md5 digest: 16 bytes.
  type Digest = d: seq<byte> | |d| == 16 witness [0, 0, 0, 0, 0, 0, 0, 0, 0, 0, 0, 0, 0, 0, 0, 0]

  /// The two Go standard-library functions the core calls but the model does
  /// not define: `md5` (crypto/md5 over the path's bytes) and `clean`
  /// (path/filepath.Clean). Every theorem holds for all choices of them.
  datatype GoLib = GoLib(md5: string -> Digest, clean: string -> string)

  const HexDigits: string := "0123456789abcdef"

  /// Lowercase hex digit of a nibble, as encoding/hex writes it.
  function HexDigit(n: int): (c: char)
    requires 0 <= n < 16
    ensures c in HexDigits
  {
    HexDigits[n]
  }

  /// `hex.EncodeToString`: two characters per byte, high nibble first.
  function HexEncode(bs: seq<byte>): (s: string)
    ensures |s| == 2 * |bs|
  {
    seq(2 * |bs|, j requires 0 <= j < 2 * |bs| =>
      if j % 2 == 0 then HexDigit(bs[j / 2] / 16) else HexDigit(bs[j / 2] % 16))
  }

  predicate IsHexString(s: string) {
    forall i :: 0 <= i < |s| ==> s[i] in HexDigits
  }

  lemma HexEncodeAt(bs: seq<byte>, i: nat)
    requires i < |bs|
    ensures HexEncode(bs)[2 * i] == HexDigit(bs[i] / 16)
    ensures HexEncode(bs)[2 * i + 1] == HexDigit(bs[i] % 16)
  {
    assert (2 * i) / 2 == i && (2 * i) % 2 == 0;
    assert (2 * i + 1) / 2 == i && (2 * i + 1) % 2 == 1;
  }

  lemma HexEncodeIsHex(bs: seq<byte>)
    ensures IsHexString(HexEncode(bs))
  {
  }

  /// Encoding a prefix of the bytes gives the same-proportion prefix of the text.
  lemma HexEncodePrefix(bs: seq<byte>, n: nat)
    requires n <= |bs|
    ensures HexEncode(bs)[..2 * n] == HexEncode(bs[..n])
  {
    forall j | 0 <= j < 2 * n ensures HexEncode(bs)[j] == HexEncode(bs[..n])[j] {
      assert j / 2 < n;
    }
  }

  lemma HexDigitInjective(a: int, b: int)
    requires 0 <= a < 16 && 0 <= b < 16
    requires HexDigit(a) == HexDigit(b)
    ensures a == b
  {
  }

  /// Hex encoding loses nothing: different byte strings give different text.
  lemma HexEncodeInjective(a: seq<byte>, b: seq<byte>)
    requires HexEncode(a) == HexEncode(b)
    ensures a == b
  {
    assert |a| == |b|;
    forall i | 0 <= i < |a| ensures a[i] == b[i] {
      HexEncodeAt(a, i);
      HexEncodeAt(b, i);
      HexDigitInjective(a[i] / 16, b[i] / 16);
      HexDigitInjective(a[i] % 16, b[i] % 16);
    }
  }

  /// `hashFilePath`: the key of a path is the hex text of the first 8 of the
  /// 16 digest bytes (a 64-bit truncation), 16 lowercase hex characters.
  function HashFilePath(lib: GoLib, path: string): (key: string)
    ensures |key| == HashLen
    ensures IsHexString(key)
    ensures key == HexEncode(lib.md5(path)[..8])
  {
    var digest := lib.md5(path);
    HexEncodePrefix(digest, 8);
    HexEncodeIsHex(digest[..8]);
    HexEncode(digest)[..HashLen]
  }

  /// Two paths share a key exactly when their digests share the first 8 bytes.
  lemma KeysCollideIff(lib: GoLib, p: string, q: string)
    ensures HashFilePath(lib, p) == HashFilePath(lib, q) <==> lib.md5(p)[..8] == lib.md5(q)[..8]
  {
    if HashFilePath(lib, p) == HashFilePath(lib, q) {
      HexEncodeInjective(lib.md5(p)[..8], lib.md5(q)[..8]);
    }
  }
}
