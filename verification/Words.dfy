/** The unsigned machine words of the source and their little-endian storage. */
module Words {
  import opened Bytes

  const MODULUS := 0x1_0000_0000

  type u16 = n: int | 0 <= n < 0x1_0000
  type u32 = n: int | 0 <= n < MODULUS
  type u64 = n: int | 0 <= n < 0x1_0000_0000_0000_0000

  lemma Widths()
    ensures Pow256(2) == 0x1_0000 && Pow256(4) == MODULUS && Pow256(8) == 0x1_0000_0000_0000_0000
  {
    assert Pow256(4) == MODULUS;
    assert Pow256(6) == 0x1_0000_0000_0000;
  }

  function Get16(s: seq<byte>): (n: u16)
    requires |s| == 2
    ensures LittleEndian(n, 2) == s
  {
    Widths();
    ToFromLittleEndian(s);
    FromLittleEndian(s)
  }

  function Get32(s: seq<byte>): (n: u32)
    requires |s| == 4
    ensures LittleEndian(n, 4) == s
  {
    Widths();
    ToFromLittleEndian(s);
    FromLittleEndian(s)
  }

  function Get64(s: seq<byte>): (n: u64)
    requires |s| == 8
    ensures LittleEndian(n, 8) == s
  {
    Widths();
    ToFromLittleEndian(s);
    FromLittleEndian(s)
  }

  lemma GetWhatWasPut(a: u16, b: u32, c: u64)
    ensures Get16(LittleEndian(a, 2)) == a
    ensures Get32(LittleEndian(b, 4)) == b
    ensures Get64(LittleEndian(c, 8)) == c
  {
    Widths();
    FromToLittleEndian(a, 2);
    FromToLittleEndian(b, 4);
    FromToLittleEndian(c, 8);
  }

  /** The bytes at i and i + 1 as a number. */
  function Figures(s: seq<byte>, i: nat): int
    requires i + 1 < |s|
  {
    s[i] as int + s[i + 1] as int * 0x100
  }

  /** Least significant byte first, in figures. */
  lemma LeastByteFirst(a: seq<byte>, b: seq<byte>, c: seq<byte>)
    requires |a| == 2 && |b| == 4 && |c| == 8
    ensures Get16(a) == Figures(a, 0)
    ensures Get32(b) == Figures(b, 0) + 0x1_0000 * Figures(b, 2)
    ensures Get64(c) == Figures(c, 0) + 0x1_0000 * Figures(c, 2)
      + 0x1_0000_0000 * Figures(c, 4) + 0x1_0000_0000_0000 * Figures(c, 6)
  {
    UnfoldTwo(a);
    UnfoldTwo(b);
    UnfoldTwo(b[2..]);
    UnfoldTwo(c);
    UnfoldTwo(c[2..]);
    UnfoldTwo(c[4..]);
    UnfoldTwo(c[6..]);
    hide FromLittleEndian;
    assert b[2..][2..] == a[2..] == [] && c[2..][2..] == c[4..] && c[4..][2..] == c[6..] && c[6..][2..] == [];
  }

  lemma UnfoldTwo(s: seq<byte>)
    requires |s| >= 2
    ensures FromLittleEndian(s) == Figures(s, 0) + 0x1_0000 * FromLittleEndian(s[2..])
    ensures FromLittleEndian([]) == 0
  {
    assert s[1..][1..] == s[2..];
  }
}
