/** 32-bit words as the hash functions of the server compute with them: sums that wrap around and rotations
    (src/mongoose.cc, MD5STEP and rol). */
module Words {
  import opened Bytes
  import opened Bits

  function Plus(x: UInt32, y: UInt32): UInt32 { (x + y) % 0x1_0000_0000 }

  lemma PlusAssociates(x: UInt32, y: UInt32, z: UInt32)
    ensures Plus(Plus(x, y), z) == Plus(x, Plus(y, z))
  {
    PlusOf(x + y, z);
    PlusOf(y + z, x);
  }

  lemma PlusOf(s: nat, z: nat)
    ensures (s % 0x1_0000_0000 + z) % 0x1_0000_0000 == (s + z) % 0x1_0000_0000
    ensures (z + s % 0x1_0000_0000) % 0x1_0000_0000 == (s + z) % 0x1_0000_0000
  {
  }

  lemma WordIs32Bits()
    ensures Pow2(32) == 0x1_0000_0000
  {
    PowerSums(16, 16);
    PowerSums(8, 8);
    ByteIs8Bits();
  }

  lemma {:induction false} PowerSums(a: nat, b: nat)
    ensures Pow2(a + b) == Pow2(a) * Pow2(b)
  {
    if a > 0 {
      PowerSums(a - 1, b);
      TwiceProduct(Pow2(a - 1), Pow2(b));
    }
  }

  lemma TwiceProduct(p: nat, q: nat)
    ensures 2 * p * q == 2 * (p * q)
  {
  }

  lemma OrFits(x: UInt32, y: UInt32)
    ensures Or(x, y) < 0x1_0000_0000
  {
    WordIs32Bits();
    OrBound(x, y, 32);
  }

  lemma XorFits(x: UInt32, y: UInt32)
    ensures Xor(x, y) < 0x1_0000_0000
  {
    WordIs32Bits();
    XorBound(x, y, 32);
  }

  /** The operators << and >>, without a limit to the left. */
  function Shl(x: nat, s: nat): nat { if s == 0 then x else 2 * Shl(x, s - 1) }

  function Shr(x: nat, s: nat): (r: nat)
    ensures r <= x
    decreases s
  {
    if s == 0 then x else Shr(x / 2, s - 1)
  }

  /** x << s | x >> (32 - s) */
  function Rol(x: UInt32, s: nat): UInt32
    requires s <= 32
  {
    OrFits(Shl(x, s) % 0x1_0000_0000, Shr(x, 32 - s));
    Or(Shl(x, s) % 0x1_0000_0000, Shr(x, 32 - s))
  }

  lemma {:induction false} BitOfXor(x: nat, y: nat, j: nat)
    ensures Bit(Xor(x, y), j) == (Bit(x, j) != Bit(y, j))
    decreases j
  {
    if x == 0 {
      BitOfZero(j);
    } else {
      Halves(Odd(x) != Odd(y), Xor(x / 2, y / 2));
      if j > 0 {
        BitOfXor(x / 2, y / 2, j - 1);
      }
    }
  }

  lemma {:induction false} XorBound(x: nat, y: nat, k: nat)
    requires x < Pow2(k) && y < Pow2(k)
    ensures Xor(x, y) < Pow2(k)
    decreases k
  {
    if x > 0 {
      XorBound(x / 2, y / 2, k - 1);
    }
  }

  lemma {:induction false} BitOfShr(x: nat, s: nat, i: nat)
    ensures Bit(Shr(x, s), i) == Bit(x, i + s)
    decreases s
  {
    if s > 0 {
      BitOfShr(x / 2, s - 1, i);
    }
  }

  lemma {:induction false} BitOfShl(x: nat, s: nat, i: nat)
    ensures Bit(Shl(x, s), i) == (i >= s && Bit(x, i - s))
    decreases s
  {
    if s > 0 {
      Halves(false, Shl(x, s - 1));
      if i > 0 {
        BitOfShl(x, s - 1, i - 1);
      }
    }
  }

  lemma {:induction false} BitOfRemainder(x: nat, k: nat, i: nat)
    ensures Bit(x % Pow2(k), i) == (i < k && Bit(x, i))
    decreases k
  {
    if k == 0 {
      BitOfZero(i);
    } else {
      HalfOfRemainder(x, Pow2(k - 1));
      if i > 0 {
        BitOfRemainder(x / 2, k - 1, i - 1);
      }
    }
  }

  lemma HalfOfRemainder(x: nat, p: nat)
    requires p > 0
    ensures x % (2 * p) / 2 == x / 2 % p && Odd(x % (2 * p)) == Odd(x)
  {
    var q, r := x / 2 / p, x / 2 % p;
    assert x / 2 == p * q + r;
    RemainderOf(x, 2 * p, q, 2 * r + x % 2);
  }

  lemma RemainderOf(x: nat, d: nat, q: nat, r: nat)
    requires r < d && x == d * q + r
    ensures x % d == r
  {
    Quotient(x, d, q, r);
  }

  lemma BitOfLow(x: nat, i: nat)
    ensures Bit(x % 0x1_0000_0000, i) == (i < 32 && Bit(x, i))
  {
    WordIs32Bits();
    BitOfRemainder(x, 32, i);
  }

  lemma BitOfUpper(x: UInt32, s: nat, i: nat)
    ensures Bit(Shl(x, s) % 0x1_0000_0000, i) == (s <= i < 32 && Bit(x, i - s))
  {
    BitOfLow(Shl(x, s), i);
    BitOfShl(x, s, i);
  }

  lemma BitOfLower(x: UInt32, s: nat, i: nat)
    requires s <= 32
    ensures Bit(Shr(x, 32 - s), i) == (i < s && Bit(x, i + 32 - s))
  {
    BitPushedOut(x, 32 - s, i);
  }

  lemma BitPushedOut(x: UInt32, k: nat, i: nat)
    ensures Bit(Shr(x, k), i) == (i + k < 32 && Bit(x, i + k))
  {
    BitOfShr(x, k, i);
    BitOfLow(x, i + k);
  }

  lemma BitOfParts(up: nat, down: nat, x: UInt32, s: nat, i: nat)
    requires s <= 32 && i < 32 && up == Shl(x, s) % 0x1_0000_0000 && down == Shr(x, 32 - s)
    ensures Bit(Or(up, down), i) == if i < s then Bit(x, i + 32 - s) else Bit(x, i - s)
  {
    BitOfUpper(x, s, i);
    BitOfLower(x, s, i);
    BitOfOr(up, down, i);
  }

  /** A rotation moves bit j to place j + s, counted round the word. */
  lemma BitOfRol(x: UInt32, s: nat, j: nat)
    requires s <= 32 && j < 32
    ensures Bit(Rol(x, s), if j + s < 32 then j + s else j + s - 32) == Bit(x, j)
  {
    BitOfParts(Shl(x, s) % 0x1_0000_0000, Shr(x, 32 - s), x, s, if j + s < 32 then j + s else j + s - 32);
  }
}
