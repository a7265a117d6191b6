/** The 32-bit FNV-1a hash that journal, TCP frames and replay files store beside each payload. */
module Checksum {
  import opened Bytes
  import opened Words

  const OFFSET_BASIS := 2166136261
  const PRIME := 16777619
  /** PRIME * PRIME_INVERSE == 1 modulo 2^32. */
  const PRIME_INVERSE := 899433627

  /** Bitwise exclusive or. */
  function Xor(a: nat, b: nat): nat {
    if a == 0 && b == 0 then 0 else (a + b) % 2 + 2 * Xor(a / 2, b / 2)
  }

  function PowerOfTwo(bits: nat): (p: nat)
    ensures p > 0
  {
    if bits == 0 then 1 else 2 * PowerOfTwo(bits - 1)
  }

  lemma {:induction false} XorBound(a: nat, b: nat, bits: nat)
    requires a < PowerOfTwo(bits) && b < PowerOfTwo(bits)
    ensures Xor(a, b) < PowerOfTwo(bits)
  {
    if bits > 0 {
      XorBound(a / 2, b / 2, bits - 1);
    }
  }

  lemma LowBitAndRest(bit: nat, rest: nat)
    requires bit < 2
    ensures (bit + 2 * rest) % 2 == bit && (bit + 2 * rest) / 2 == rest
  {
  }

  lemma XorUnfolds(a: nat, b: nat)
    ensures Xor(a, b) == (a + b) % 2 + 2 * Xor(a / 2, b / 2)
    ensures Xor(a, b) % 2 == (a + b) % 2 && Xor(a, b) / 2 == Xor(a / 2, b / 2)
  {
    if a == 0 && b == 0 {
      assert Xor(0, 0) == 0;
    } else {
      var bit, rest := (a + b) % 2, Xor(a / 2, b / 2);
      assert Xor(a, b) == bit + 2 * rest;
      hide Xor;
      LowBitAndRest(bit, rest);
    }
  }

  lemma ParityCancels(a: nat, b: nat, x: nat)
    requires x % 2 == (a + b) % 2
    ensures (x + b) % 2 == a % 2
  {
    assert (x + b) % 2 == (x % 2 + b) % 2;
    assert ((a + b) % 2 + b) % 2 == (a + 2 * b) % 2;
  }

  lemma {:induction false} XorCancels(a: nat, b: nat)
    ensures Xor(Xor(a, b), b) == a
  {
    if a != 0 || b != 0 {
      XorCancels(a / 2, b / 2);
      hide Xor;
      var x := Xor(a, b);
      XorUnfolds(a, b);
      XorUnfolds(x, b);
      ParityCancels(a, b, x);
    }
  }

  lemma {:induction false} XorCommutes(a: nat, b: nat)
    ensures Xor(a, b) == Xor(b, a)
  {
    if a != 0 || b != 0 {
      XorCommutes(a / 2, b / 2);
    }
  }

  function Times(h: u32): u32 {
    (h * PRIME) % MODULUS
  }

  lemma RemainderIsUnique(n: int, q: int, r: u32)
    requires n == q * MODULUS + r
    ensures n % MODULUS == r
  {
    assert (n / MODULUS - q) * MODULUS == r - n % MODULUS;
  }

  lemma TimesIsInvertible(h: u32)
    ensures (Times(h) * PRIME_INVERSE) % MODULUS == h
  {
    var q := (h * PRIME) / MODULUS;
    assert h * PRIME == q * MODULUS + Times(h);
    assert PRIME * PRIME_INVERSE == 3513497 * MODULUS + 1;
    RemainderIsUnique(Times(h) * PRIME_INVERSE, 3513497 * h - q * PRIME_INVERSE, h);
  }

  lemma XorIsWord(h: u32, b: byte)
    ensures 0 <= Xor(h, b) < MODULUS
  {
    assert PowerOfTwo(8) == 0x100;
    assert PowerOfTwo(16) == 0x1_0000;
    assert PowerOfTwo(24) == 0x100_0000;
    assert PowerOfTwo(32) == MODULUS;
    XorBound(h, b, 32);
  }

  function Mix(h: u32, b: byte): u32 {
    XorIsWord(h, b);
    Times(Xor(h, b))
  }

  /** The hash of the bytes seen so far: one Mix per byte, left to right. */
  function Fnv(data: seq<byte>): u32 {
    if data == [] then OFFSET_BASIS else Mix(Fnv(data[..|data| - 1]), data[|data| - 1])
  }

  method ComputeChecksum(data: seq<byte>) returns (hash: u32)
    ensures hash == Fnv(data)
  {
    hash := OFFSET_BASIS;
    for i := 0 to |data|
      invariant hash == Fnv(data[..i])
    {
      assert data[..i + 1][..i] == data[..i];
      XorIsWord(hash, data[i]);
      hash := Xor(hash, data[i]);
      hash := (hash * PRIME) % MODULUS;
    }
    assert data[..|data|] == data;
  }

  /** One mixing step loses nothing: from the new hash, either argument determines the other. */
  lemma MixIsInjective(h: u32, g: u32, a: byte, b: byte)
    requires Mix(h, a) == Mix(g, b)
    ensures h == g <==> a == b
  {
    XorIsWord(h, a);
    XorIsWord(g, b);
    TimesIsInvertible(Xor(h, a));
    TimesIsInvertible(Xor(g, b));
    assert Xor(h, a) == Xor(g, b);
    XorCancels(h, a);
    XorCancels(g, b);
    XorCommutes(h, a);
    XorCommutes(g, b);
    XorCancels(a, h);
    XorCancels(b, g);
  }

  /** Any change of a single byte, anywhere in data of any length, changes the checksum. */
  lemma {:induction false} SingleByteChangesChecksum(data: seq<byte>, i: nat, x: byte)
    requires i < |data| && x != data[i]
    ensures Fnv(data[i := x]) != Fnv(data)
  {
    var n := |data| - 1;
    var changed := data[i := x];
    if i == n {
      assert changed[..n] == data[..n];
      if Fnv(changed) == Fnv(data) {
        MixIsInjective(Fnv(data[..n]), Fnv(data[..n]), x, data[n]);
      }
    } else {
      assert changed[..n] == data[..n][i := x];
      SingleByteChangesChecksum(data[..n], i, x);
      if Fnv(changed) == Fnv(data) {
        MixIsInjective(Fnv(changed[..n]), Fnv(data[..n]), data[n], data[n]);
      }
    }
  }

  lemma {:induction false} XorZero(n: nat)
    ensures Xor(n, 0) == n
  {
    if n > 0 { XorZero(n / 2); }
  }

  /** The published test vectors of the hash for the empty text and for "a". */
  lemma KnownHashes()
    ensures Fnv([]) == 0x811C_9DC5 && Fnv([97]) == 0xE40C_292C
  {
    assert [97][..0] == [];
    assert Fnv([]) == OFFSET_BASIS;
    hide Xor;
    XorZero(16922939);
    XorUnfolds(33845879, 1);
    XorUnfolds(67691758, 3);
    XorUnfolds(135383516, 6);
    XorUnfolds(270767032, 12);
    XorUnfolds(541534065, 24);
    XorUnfolds(1083068130, 48);
    XorUnfolds(2166136261, 97);
    assert Xor(2166136261, 97) == 2166136228;
  }
}
