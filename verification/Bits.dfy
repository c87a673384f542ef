/** The bits of machine words, taken as natural numbers. */
module Bits {
  import opened Bytes

  function Digit(b: bool): nat { if b then 1 else 0 }

  function Odd(x: nat): bool { x % 2 == 1 }

  /** Bit j of x, bit 0 being the lowest. */
  function Bit(x: nat, j: nat): bool
    decreases j
  {
    if j == 0 then Odd(x) else Bit(x / 2, j - 1)
  }

  /** The operators & | ^ of C++ on unsigned words. */
  function And(x: nat, y: nat): nat {
    if x == 0 then 0 else Digit(Odd(x) && Odd(y)) + 2 * And(x / 2, y / 2)
  }

  function Or(x: nat, y: nat): nat {
    if x == 0 then y else Digit(Odd(x) || Odd(y)) + 2 * Or(x / 2, y / 2)
  }

  function Xor(x: nat, y: nat): nat {
    if x == 0 then y else Digit(Odd(x) != Odd(y)) + 2 * Xor(x / 2, y / 2)
  }

  function Pow2(j: nat): (p: nat)
    ensures p > 0
  {
    if j == 0 then 1 else 2 * Pow2(j - 1)
  }

  lemma Halves(b: bool, h: nat)
    ensures Odd(Digit(b) + 2 * h) == b
    ensures (Digit(b) + 2 * h) / 2 == h
  {
  }

  lemma {:induction false} BitOfZero(j: nat)
    ensures !Bit(0, j)
  {
    if j > 0 {
      BitOfZero(j - 1);
    }
  }

  lemma {:induction false} BitOfAnd(x: nat, y: nat, j: nat)
    ensures Bit(And(x, y), j) == (Bit(x, j) && Bit(y, j))
    decreases j
  {
    if x == 0 {
      BitOfZero(j);
    } else {
      Halves(Odd(x) && Odd(y), And(x / 2, y / 2));
      if j > 0 {
        BitOfAnd(x / 2, y / 2, j - 1);
      }
    }
  }

  lemma {:induction false} BitOfOr(x: nat, y: nat, j: nat)
    ensures Bit(Or(x, y), j) == (Bit(x, j) || Bit(y, j))
    decreases j
  {
    if x == 0 {
      BitOfZero(j);
    } else {
      Halves(Odd(x) || Odd(y), Or(x / 2, y / 2));
      if j > 0 {
        BitOfOr(x / 2, y / 2, j - 1);
      }
    }
  }

  lemma {:induction false} BitOfPow2(m: nat, j: nat)
    ensures Bit(Pow2(m), j) == (j == m)
    decreases m
  {
    if m == 0 {
      if j > 0 {
        BitOfZero(j - 1);
      }
    } else {
      Halves(false, Pow2(m - 1));
      if j > 0 {
        BitOfPow2(m - 1, j - 1);
      }
    }
  }

  /** Neither operator makes a byte longer. */
  lemma {:induction false} AndBound(x: nat, y: nat, k: nat)
    requires x < Pow2(k)
    ensures And(x, y) < Pow2(k)
    decreases k
  {
    if x > 0 {
      AndBound(x / 2, y / 2, k - 1);
    }
  }

  lemma {:induction false} OrBound(x: nat, y: nat, k: nat)
    requires x < Pow2(k) && y < Pow2(k)
    ensures Or(x, y) < Pow2(k)
    decreases k
  {
    if x > 0 {
      OrBound(x / 2, y / 2, k - 1);
    }
  }

  lemma ByteIs8Bits()
    ensures Pow2(8) == 256
  {
    assert Pow2(4) == 16;
  }

  // ----------------------------------------------------------------- the lowest bit

  function LowBit(x: nat): nat
    requires x > 0
  {
    if Odd(x) then 1 else 2 * LowBit(x / 2)
  }

  /** __builtin_ctz. */
  function Ctz(x: nat): nat
    requires x > 0
  {
    if Odd(x) then 0 else 1 + Ctz(x / 2)
  }

  lemma {:induction false} XorSelf(x: nat)
    ensures Xor(x, x) == 0
  {
    if x > 0 {
      XorSelf(x / 2);
    }
  }

  lemma AndOne(x: nat)
    requires Odd(x)
    ensures And(x, 1) == 1
  {
    AndZero(x / 2);
  }

  lemma {:induction false} AndZero(x: nat)
    ensures And(x, 0) == 0
  {
    if x > 0 {
      AndZero(x / 2);
    }
  }

  /** x & (x ^ (x - 1)) is the lowest set bit of x. */
  lemma {:induction false} IsolatesLowBit(x: nat)
    requires x > 0
    ensures And(x, Xor(x, x - 1)) == LowBit(x)
  {
    var h := x / 2;
    if Odd(x) {
      XorSelf(h);
      assert Xor(x, x - 1) == 1 + 2 * Xor(h, h);
      AndOne(x);
    } else {
      IsolatesLowBit(h);
      EvenPred(x);
      Halves(true, Xor(h, h - 1));
    }
  }

  lemma EvenPred(x: nat)
    requires x > 0 && !Odd(x)
    ensures x / 2 > 0 && (x - 1) / 2 == x / 2 - 1 && Odd(x - 1)
  {
  }

  /** Taking the lowest bit away clears that bit and no other; below it there is none. */
  lemma {:induction false} TakesLowBit(x: nat, k: nat)
    requires x > 0
    ensures 0 < LowBit(x) <= x
    ensures Ctz(LowBit(x)) == Ctz(x)
    ensures Bit(x, k) ==> Ctz(x) <= k
    ensures Bit(x, Ctz(x))
    ensures Bit(x - LowBit(x), k) == (Bit(x, k) && k != Ctz(x))
    decreases x
  {
    var h := x / 2;
    if Odd(x) {
      assert (x - 1) / 2 == h;
    } else {
      EvenPred(x);
      TakesLowBit(h, if k > 0 then k - 1 else 0);
      Halves(false, LowBit(h));
      Halves(false, h - LowBit(h));
    }
  }

  /** x >> j & 1. */
  lemma {:induction false} ShiftBit(x: nat, j: nat)
    ensures x / Pow2(j) % 2 == Digit(Bit(x, j))
    decreases j
  {
    if j > 0 {
      ShiftBit(x / 2, j - 1);
      DivTwice(x, Pow2(j - 1));
    }
  }

  lemma DivTwice(x: nat, p: nat)
    requires p > 0
    ensures x / (2 * p) == x / 2 / p
  {
    var q, r := x / 2 / p, x / 2 % p;
    assert x / 2 == q * p + r;
    var s := 2 * r + x % 2;
    assert x == q * (2 * p) + s && 0 <= s < 2 * p;
    Quotient(x, 2 * p, q, s);
  }

  lemma Quotient(x: nat, d: nat, q: nat, r: nat)
    requires d > 0 && x == q * d + r && r < d
    ensures x / d == q
  {
    var k := x / d;
    assert x == k * d + x % d;
    LessTimes(k, q + 1, d);
    LessTimes(q, k + 1, d);
  }

  lemma LessTimes(a: nat, b: nat, d: nat)
    requires a * d < b * d
    ensures a < b
  {
    if a >= b {
      Monotone(b, a, d);
    }
  }

  lemma Monotone(a: nat, b: nat, d: nat)
    requires a <= b
    ensures a * d <= b * d
  {
  }

  // ----------------------------------------------------------------- words of bytes

  datatype Op = AndOp | OrOp

  function Apply(op: Op, x: nat, y: nat): nat {
    match op
    case AndOp => And(x, y)
    case OrOp => Or(x, y)
  }

  function ApplyBool(op: Op, x: bool, y: bool): bool {
    match op
    case AndOp => x && y
    case OrOp => x || y
  }

  lemma BitOfApply(op: Op, x: nat, y: nat, j: nat)
    ensures Bit(Apply(op, x, y), j) == ApplyBool(op, Bit(x, j), Bit(y, j))
  {
    BitOfAnd(x, y, j);
    BitOfOr(x, y, j);
  }

  lemma ApplyBound(op: Op, x: Byte, y: Byte)
    ensures Apply(op, x, y) < 256
  {
    ByteIs8Bits();
    AndBound(x, y, 8);
    OrBound(x, y, 8);
  }

  function ApplyByte(op: Op, x: Byte, y: Byte): Byte {
    ApplyBound(op, x, y);
    Apply(op, x, y)
  }

  /** The operator on two runs of bytes of the same length. */
  function Zip(op: Op, s: seq<Byte>, t: seq<Byte>): (r: seq<Byte>)
    requires |s| == |t|
    ensures |r| == |s|
  {
    seq(|s|, i requires 0 <= i < |s| => ApplyByte(op, s[i], t[i]))
  }

  lemma ApplyDouble(op: Op, b: bool, c: bool, h: nat, g: nat)
    ensures Apply(op, Digit(b) + 2 * h, Digit(c) + 2 * g) == Digit(ApplyBool(op, b, c)) + 2 * Apply(op, h, g)
  {
    Halves(b, h);
    Halves(c, g);
    if op == AndOp {
      AndStep(Digit(b) + 2 * h, Digit(c) + 2 * g);
    } else {
      OrStep(Digit(b) + 2 * h, Digit(c) + 2 * g);
    }
  }

  lemma AndStep(x: nat, y: nat)
    ensures And(x, y) == Digit(Odd(x) && Odd(y)) + 2 * And(x / 2, y / 2)
  {
  }

  lemma OrStep(x: nat, y: nat)
    ensures Or(x, y) == Digit(Odd(x) || Odd(y)) + 2 * Or(x / 2, y / 2)
  {
  }

  /** The low k bits and the others are combined on their own. */
  lemma {:induction false} ApplySplits(op: Op, x: nat, y: nat, h: nat, g: nat, k: nat)
    requires x < Pow2(k) && y < Pow2(k)
    ensures Apply(op, x + Pow2(k) * h, y + Pow2(k) * g) == Apply(op, x, y) + Pow2(k) * Apply(op, h, g)
    decreases k
  {
    if k > 0 {
      var p := Pow2(k - 1);
      ApplySplits(op, x / 2, y / 2, h, g, k - 1);
      SplitStep(op, x, y, h, g, p, Apply(op, h, g));
    }
  }

  lemma SplitStep(op: Op, x: nat, y: nat, h: nat, g: nat, p: nat, high: nat)
    requires Apply(op, x / 2 + p * h, y / 2 + p * g) == Apply(op, x / 2, y / 2) + p * high
    ensures Apply(op, x + 2 * p * h, y + 2 * p * g) == Apply(op, x, y) + 2 * p * high
  {
    SplitHalf(op, x, y, p * h, p * g);
    TwiceTimes(p, h);
    TwiceTimes(p, g);
    TwiceTimes(p, high);
  }

  lemma TwiceTimes(p: nat, h: nat)
    ensures 2 * p * h == 2 * (p * h)
  {
  }

  lemma SplitHalf(op: Op, x: nat, y: nat, h: nat, g: nat)
    ensures Apply(op, x + 2 * h, y + 2 * g) - 2 * Apply(op, x / 2 + h, y / 2 + g)
         == Apply(op, x, y) - 2 * Apply(op, x / 2, y / 2)
  {
    ApplyDouble(op, Odd(x), Odd(y), x / 2 + h, y / 2 + g);
    ApplyDouble(op, Odd(x), Odd(y), x / 2, y / 2);
  }

  /** Words read from memory and combined are the bytes combined. */
  lemma {:induction false} WordsAreBytes(op: Op, s: seq<Byte>, t: seq<Byte>)
    requires |s| == |t|
    ensures Apply(op, FromLittle(s), FromLittle(t)) == FromLittle(Zip(op, s, t))
    decreases |s|
  {
    if s != [] {
      WordsAreBytes(op, s[1..], t[1..]);
      ByteIs8Bits();
      ApplySplits(op, s[0], t[0], FromLittle(s[1..]), FromLittle(t[1..]), 8);
      assert Zip(op, s, t)[1..] == Zip(op, s[1..], t[1..]);
    }
  }

  lemma {:induction false} LittleInverts(s: seq<Byte>)
    ensures Little(FromLittle(s), |s|) == s
    decreases |s|
  {
    if s != [] {
      LittleInverts(s[1..]);
      SplitLowByte(s[0], FromLittle(s[1..]));
    }
  }

  /** A word combined and written back puts the combined bytes in place. */
  lemma WordOp(op: Op, s: seq<Byte>, t: seq<Byte>)
    requires |s| == |t| == 8
    ensures Little(Apply(op, FromLittle(s), FromLittle(t)), 8) == Zip(op, s, t)
  {
    WordsAreBytes(op, s, t);
    LittleInverts(Zip(op, s, t));
  }
}
