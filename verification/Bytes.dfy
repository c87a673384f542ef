/** Bytes and machine integers shared by the components. */
module Bytes {

  type Byte = x: int | 0 <= x < 256
  type UInt32 = x: int | 0 <= x < 0x1_0000_0000

  /** The characters of a name. */
  type Name = seq<Byte>

  const INT64_MAX: int := 0x7fff_ffff_ffff_ffff

  /** The value a 32-bit signed variable keeps of an integer. */
  function ToInt32(x: int): (r: int)
    ensures -0x8000_0000 <= r < 0x8000_0000
    ensures -0x8000_0000 <= x < 0x8000_0000 ==> r == x
  {
    (x + 0x8000_0000) % 0x1_0000_0000 - 0x8000_0000
  }

  /** The value kept differs from the integer by a multiple of 2^32. */
  lemma ToInt32Wraps(x: int)
    ensures (ToInt32(x) - x) % 0x1_0000_0000 == 0
  {
  }

  // ----------------------------------------------------------------- byte order

  function Pow256(k: nat): (p: nat)
    ensures p > 0
  {
    if k == 0 then 1 else 256 * Pow256(k - 1)
  }

  /** The k low bytes of n, the least significant first. */
  function Little(n: nat, k: nat): (s: seq<Byte>)
    ensures |s| == k
  {
    if k == 0 then [] else [n % 256] + Little(n / 256, k - 1)
  }

  /** The number whose bytes, the least significant first, are s. */
  function FromLittle(s: seq<Byte>): (n: nat)
    decreases |s|
  {
    if s == [] then 0 else s[0] + 256 * FromLittle(s[1..])
  }

  /** The byte in the first place counts once, the next 256 times, and so on. */
  lemma FromLittleIs(a: Byte, b: Byte, c: Byte, d: Byte)
    ensures FromLittle([a, b]) == a + 0x100 * b
    ensures FromLittle([a, b, c, d]) == a + 0x100 * b + 0x1_0000 * c + 0x100_0000 * d
  {
    FromLittleNext(a, [b]);
    FromLittleNext(b, []);
    assert [a] + [b] == [a, b] && [b] + [] == [b];
    FromLittleFour(a, b, c, d);
  }

  lemma FromLittleFour(a: Byte, b: Byte, c: Byte, d: Byte)
    ensures FromLittle([a, b, c, d]) == a + 0x100 * b + 0x1_0000 * c + 0x100_0000 * d
  {
    FromLittleNext(a, [b, c, d]);
    FromLittleNext(b, [c, d]);
    FromLittleNext(c, [d]);
    FromLittleNext(d, []);
    assert [a] + [b, c, d] == [a, b, c, d] && [b] + [c, d] == [b, c, d] && [c] + [d] == [c, d] && [d] + [] == [d];
  }

  lemma FromLittleNext(a: Byte, rest: seq<Byte>)
    ensures FromLittle([a] + rest) == a + 256 * FromLittle(rest)
  {
    assert ([a] + rest)[1..] == rest;
  }

  /** The k low bytes of n, the most significant first. */
  function Big(n: nat, k: nat): (s: seq<Byte>)
    ensures |s| == k
  {
    if k == 0 then [] else Big(n / 256, k - 1) + [n % 256]
  }

  lemma SplitLowByte(lo: nat, rest: nat)
    ensures (lo + 256 * rest) % 256 == lo % 256
    ensures (lo + 256 * rest) / 256 == lo / 256 + rest
  {
  }

  lemma {:induction false} FromLittleInverts(n: nat, k: nat)
    requires n < Pow256(k)
    ensures FromLittle(Little(n, k)) == n
  {
    if k > 0 {
      FromLittleInverts(n / 256, k - 1);
      assert Little(n, k)[1..] == Little(n / 256, k - 1);
    }
  }

  /** Two words next to each other are one word of both widths. */
  lemma {:induction false} LittleConcat(lo: nat, hi: nat, k: nat, j: nat)
    requires lo < Pow256(k)
    ensures Little(lo, k) + Little(hi, j) == Little(lo + Pow256(k) * hi, k + j)
  {
    if k == 0 {
      assert Little(lo, 0) + Little(hi, j) == Little(hi, j);
    } else {
      var rest := Pow256(k - 1) * hi;
      LittleConcat(lo / 256, hi, k - 1, j);
      Scaled(k, hi, rest);
      SplitLowByte(lo, rest);
      LowByteFirst(lo + 256 * rest, lo % 256, lo / 256 + rest, k + j);
      LowByteFirst(lo, lo % 256, lo / 256, k);
      assert [lo % 256] + Little(lo / 256, k - 1) + Little(hi, j)
          == [lo % 256] + (Little(lo / 256, k - 1) + Little(hi, j));
    }
  }

  lemma Scaled(k: nat, hi: nat, rest: nat)
    requires k > 0 && rest == Pow256(k - 1) * hi
    ensures Pow256(k) * hi == 256 * rest
  {
  }

  lemma LowByteFirst(n: nat, low: nat, high: nat, k: nat)
    requires k > 0 && n % 256 == low && n / 256 == high
    ensures Little(n, k) == [low] + Little(high, k - 1)
  {
  }

  lemma {:induction false} BigConcat(lo: nat, hi: nat, k: nat, j: nat)
    requires lo < Pow256(k)
    ensures Big(hi, j) + Big(lo, k) == Big(lo + Pow256(k) * hi, k + j)
  {
    if k == 0 {
      assert Big(hi, j) + Big(lo, 0) == Big(hi, j);
    } else {
      BigConcat(lo / 256, hi, k - 1, j);
      var rest := Pow256(k - 1) * hi;
      assert Pow256(k) * hi == 256 * rest;
      SplitLowByte(lo, rest);
      assert Big(hi, j) + Big(lo, k) == Big(hi, j) + Big(lo / 256, k - 1) + [lo % 256];
    }
  }

  lemma Pow256Of4()
    ensures Pow256(4) == 0x1_0000_0000
  {
    assert Pow256(2) == 0x1_0000;
  }

  lemma LittlePair(lo: UInt32, hi: UInt32)
    ensures Little(lo, 4) + Little(hi, 4) == Little(lo + 0x1_0000_0000 * hi, 8)
  {
    Pow256Of4();
    LittleConcat(lo, hi, 4, 4);
  }

  lemma BigPair(lo: UInt32, hi: UInt32)
    ensures Big(hi, 4) + Big(lo, 4) == Big(lo + 0x1_0000_0000 * hi, 8)
  {
    Pow256Of4();
    BigConcat(lo, hi, 4, 4);
  }
}
