/** Bytes and little-endian integers. */
module Bytes {

  type byte = b: int | 0 <= b < 256

  function Pow256(width: nat): (p: nat)
    ensures p > 0
  {
    if width == 0 then 1 else 256 * Pow256(width - 1)
  }

  /** The low `width` bytes of n, least significant first. */
  function LittleEndian(n: nat, width: nat): (s: seq<byte>)
    ensures |s| == width
  {
    if width == 0 then [] else [n % 256] + LittleEndian(n / 256, width - 1)
  }

  function FromLittleEndian(s: seq<byte>): (n: nat)
    ensures n < Pow256(|s|)
  {
    if s == [] then 0 else s[0] + 256 * FromLittleEndian(s[1..])
  }

  lemma {:induction false} FromToLittleEndian(n: nat, width: nat)
    requires n < Pow256(width)
    ensures FromLittleEndian(LittleEndian(n, width)) == n
  {
    if width > 0 {
      assert LittleEndian(n, width)[1..] == LittleEndian(n / 256, width - 1);
      FromToLittleEndian(n / 256, width - 1);
    }
  }

  lemma {:induction false} ToFromLittleEndian(s: seq<byte>)
    ensures LittleEndian(FromLittleEndian(s), |s|) == s
  {
    if s != [] {
      ToFromLittleEndian(s[1..]);
      assert FromLittleEndian(s) % 256 == s[0];
      assert FromLittleEndian(s) / 256 == FromLittleEndian(s[1..]);
    }
  }

  /** Overwriting byte j changes the number stored at [lo..hi) exactly if j lies there. */
  lemma OneByteChangesNumber(s: seq<byte>, j: nat, x: byte, lo: nat, hi: nat)
    requires j < |s| && x != s[j] && lo <= hi <= |s|
    ensures FromLittleEndian(s[j := x][lo..hi]) == FromLittleEndian(s[lo..hi]) <==> !(lo <= j < hi)
  {
    var t := s[j := x];
    if lo <= j < hi {
      ToFromLittleEndian(t[lo..hi]);
      ToFromLittleEndian(s[lo..hi]);
      assert t[lo..hi][j - lo] != s[lo..hi][j - lo];
    } else {
      assert t[lo..hi] == s[lo..hi];
    }
  }
}
