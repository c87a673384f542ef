/** Percent-encoding (src/mongoose.cc, mg_url_encode and mg_url_decode; section 2.1 of RFC 3986). */
module UrlCodec {
  import opened Bytes

  predicate IsDigit(b: Byte) { 48 <= b <= 57 }

  predicate IsXDigit(b: Byte) { IsDigit(b) || 65 <= b <= 70 || 97 <= b <= 102 }

  predicate IsAlnum(b: Byte) { IsDigit(b) || 65 <= b <= 90 || 97 <= b <= 122 }

  function ToLower(b: Byte): Byte { if 65 <= b <= 90 then b + 32 else b }

  /** The characters besides letters and digits that are not escaped: . _ - $ , ; ~ ( ) */
  const DONT_ESCAPE: seq<Byte> := [46, 95, 45, 36, 44, 59, 126, 40, 41]

  predicate Kept(b: Byte) { IsAlnum(b) || b in DONT_ESCAPE }

  /** The digit for a value below 16, in lower case. */
  function HexDigit(v: nat): Byte
    requires v < 16
  {
    if v < 10 then 48 + v else 87 + v
  }

  /** The value of a lower-case digit. */
  function HexValue(b: Byte): int { if IsDigit(b) then b - 48 else b - 87 }

  function EncodeByte(b: Byte): seq<Byte> {
    if Kept(b) then [b] else [37, HexDigit(b / 16), HexDigit(b % 16)]
  }

  function Encode(s: seq<Byte>): seq<Byte> {
    if s == [] then [] else EncodeByte(s[0]) + Encode(s[1..])
  }

  /** A percent sign with two hex digits behind it stands at position i. */
  predicate EscapeAt(s: seq<Byte>, i: nat) {
    i + 2 < |s| && s[i] == 37 && IsXDigit(s[i + 1]) && IsXDigit(s[i + 2])
  }

  function EscapedByte(hi: Byte, lo: Byte): Byte
    requires IsXDigit(hi) && IsXDigit(lo)
  {
    16 * HexValue(ToLower(hi)) + HexValue(ToLower(lo))
  }

  function DecodedAt(s: seq<Byte>, i: nat, form: bool): Byte
    requires i < |s|
  {
    if EscapeAt(s, i) then EscapedByte(s[i + 1], s[i + 2]) else if form && s[i] == 43 then 32 else s[i]
  }

  function NextAt(s: seq<Byte>, i: nat): nat { if EscapeAt(s, i) then i + 3 else i + 1 }

  function Decode(s: seq<Byte>, form: bool): seq<Byte> {
    if s == [] then [] else [DecodedAt(s, 0, form)] + Decode(s[NextAt(s, 0)..], form)
  }

  // --------------------------------------------------- the characters, one by one

  /** Letters and digits are kept, and nine characters besides. */
  lemma KeptAre(b: Byte)
    ensures Kept(b) <==>
      || 'a' as int <= b <= 'z' as int || 'A' as int <= b <= 'Z' as int || '0' as int <= b <= '9' as int
      || (b < 128 && b as char in "._-$,;~()")
  {
  }

  /** Any other byte becomes a percent sign and its two digits, the higher one first, letters in lower case. */
  lemma EscapedAre(b: Byte)
    requires !Kept(b)
    ensures EncodeByte(b) == ['%' as int, "0123456789abcdef"[b / 16] as int, "0123456789abcdef"[b % 16] as int]
  {
    DigitIs(b / 16);
    DigitIs(b % 16);
  }

  lemma DigitIs(v: nat)
    requires v < 16
    ensures HexDigit(v) == "0123456789abcdef"[v] as int
  {
  }

  /** Two digits, in either case each, are read as the byte they stand for. */
  lemma DigitsRead(hi: Byte, lo: Byte, v: nat, w: nat, rest: seq<Byte>, form: bool)
    requires v < 16 && w < 16 && IsDigitOf(hi, v) && IsDigitOf(lo, w)
    ensures Decode(['%' as int, hi, lo] + rest, form) == [16 * v + w] + Decode(rest, form)
  {
    DigitValue(v);
    DigitValue(w);
    DecodeTriple(hi, lo, rest, form);
  }

  predicate IsDigitOf(b: Byte, v: nat)
    requires v < 16
  {
    b == "0123456789abcdef"[v] as int || b == "0123456789ABCDEF"[v] as int
  }

  lemma DigitValue(v: nat)
    requires v < 16
    ensures forall b: Byte :: IsDigitOf(b, v) ==> IsXDigit(b) && HexValue(ToLower(b)) == v
  {
  }

  /** No other byte is a digit. */
  lemma NoOtherDigit(b: Byte)
    ensures IsXDigit(b) <==> b < 128 && (b as char in "0123456789abcdef" || b as char in "0123456789ABCDEF")
  {
  }

  /** In a form a plus sign is a space; any other byte that starts no escape is itself. */
  lemma PlusIsSpace(b: Byte, rest: seq<Byte>, form: bool)
    requires b != '%' as int
    ensures Decode([b] + rest, form) ==
      [if form && b == '+' as int then ' ' as int else b] + Decode(rest, form)
  {
    assert !EscapeAt([b] + rest, 0) && ([b] + rest)[1..] == rest;
  }

  lemma EncodeUnfolds(s: seq<Byte>, i: nat)
    requires i < |s|
    ensures Encode(s[i..]) == EncodeByte(s[i]) + Encode(s[i + 1..])
  {
    assert s[i..][1..] == s[i + 1..];
  }

  lemma DecodeUnfolds(s: seq<Byte>, i: nat, form: bool)
    requires i < |s|
    ensures NextAt(s, i) <= |s|
    ensures Decode(s[i..], form) == [DecodedAt(s, i, form)] + Decode(s[NextAt(s, i)..], form)
  {
    assert EscapeAt(s, i) == EscapeAt(s[i..], 0);
    assert s[i..][1..] == s[i + 1..];
    assert EscapeAt(s, i) ==> s[i..][3..] == s[i + 3..];
  }

  /** One more piece of output, in front of what is still to come. */
  lemma Regroup(done: seq<Byte>, piece: seq<Byte>, rest: seq<Byte>)
    ensures done + (piece + rest) == (done + piece) + rest
  {
  }

  /** The bytes of piece are written behind the first d bytes of dst. */
  method Put(dst: array<Byte>, d: nat, piece: seq<Byte>)
    requires d + |piece| <= dst.Length
    modifies dst
    ensures dst[..d] == old(dst[..d]) && dst[..d + |piece|] == old(dst[..d]) + piece
    ensures forall k :: d + |piece| <= k < dst.Length ==> dst[k] == old(dst[k])
  {
    forall k | 0 <= k < |piece| {
      dst[d + k] := piece[k];
    }
  }

  /** src is a C string, given without its terminator; end is where the terminator went. */
  method UrlEncode(src: seq<Byte>, dst: array<Byte>, dstLen: nat) returns (end: nat)
    requires 0 !in src && 1 <= dstLen <= dst.Length
    modifies dst
    ensures end < dstLen && dst[end] == 0
    ensures |Encode(src)| < dstLen ==> dst[..end] == Encode(src)
    ensures forall k :: dstLen <= k < dst.Length ==> dst[k] == old(dst[k])
  {
    var last := dstLen - 1;
    var i, d := 0, 0;
    ghost var fits := |Encode(src)| < dstLen;
    assert src[0..] == src;
    while i < |src| && d < last
      invariant 0 <= i <= |src| && 0 <= d <= last
      invariant fits ==> dst[..d] + Encode(src[i..]) == Encode(src)
      invariant forall k :: dstLen <= k < dst.Length ==> dst[k] == old(dst[k])
      decreases |src| - i
    {
      EncodeUnfolds(src, i);
      Regroup(dst[..d], EncodeByte(src[i]), Encode(src[i + 1..]));
      if Kept(src[i]) {
        Put(dst, d, [src[i]]);
      } else if d + 2 < last {
        Put(dst, d, [37, HexDigit(src[i] / 16), HexDigit(src[i] % 16)]);
        d := d + 2;
      }
      i, d := i + 1, d + 1;
    }
    if i < |src| {
      EncodeUnfolds(src, i);
    }
    end := d;
    ghost var filled := dst[..end];
    dst[end] := 0;
    assert dst[..end] == filled;
  }

  /** One turn of the decoding loop.  was is the source as it was before the loop; what is still to
      be read has not changed. */
  method DecodeOne(src: array<Byte>, srcLen: nat, dst: array<Byte>, i: nat, j: nat, form: bool, ghost was: seq<Byte>)
    returns (next: nat)
    requires |was| == srcLen <= src.Length && j <= i < srcLen && j < dst.Length
    requires forall k :: i <= k < srcLen ==> src[k] == was[k]
    modifies dst
    ensures next == NextAt(was, i)
    ensures dst[..j + 1] == old(dst[..j]) + [DecodedAt(was, i, form)]
    ensures forall k :: i < k < srcLen ==> src[k] == was[k]
  {
    if src[i] == 37 && i < srcLen - 2 && IsXDigit(src[i + 1]) && IsXDigit(src[i + 2]) {
      var a, b := ToLower(src[i + 1]), ToLower(src[i + 2]);
      dst[j] := 16 * HexValue(a) + HexValue(b);
      return i + 3;
    } else if form && src[i] == 43 {
      dst[j] := 32;
    } else {
      dst[j] := src[i];
    }
    return i + 1;
  }

  /** src and dst may be the same array: decoding in place overwrites only what has been read. */
  method UrlDecode(src: array<Byte>, srcLen: nat, dst: array<Byte>, dstLen: nat, form: bool) returns (res: int)
    requires srcLen <= src.Length && 1 <= dstLen <= dst.Length
    modifies dst
    ensures var decoded := Decode(old(src[..srcLen]), form);
      if |decoded| < dstLen
      then res == |decoded| && dst[..res] == decoded && dst[res] == 0
      else res == -1 && dst[..dstLen - 1] == decoded[..dstLen - 1] && dst[dstLen - 1] == 0
  {
    ghost var was := src[..srcLen];
    var i, j := 0, 0;
    assert was[0..] == was;
    while i < srcLen && j < dstLen - 1
      invariant 0 <= j <= i <= srcLen && j <= dstLen - 1
      invariant forall k :: i <= k < srcLen ==> src[k] == was[k]
      invariant dst[..j] + Decode(was[i..], form) == Decode(was, form)
      decreases srcLen - i
    {
      DecodeUnfolds(was, i, form);
      Regroup(dst[..j], [DecodedAt(was, i, form)], Decode(was[NextAt(was, i)..], form));
      i := DecodeOne(src, srcLen, dst, i, j, form, was);
      j := j + 1;
    }
    if i < srcLen {
      DecodeUnfolds(was, i, form);
    }
    ghost var filled := dst[..j];
    dst[j] := 0;
    assert dst[..j] == filled;
    return if i >= srcLen then j else -1;
  }

  lemma {:induction false} EncodeLength(s: seq<Byte>)
    ensures |s| <= |Encode(s)| <= 3 * |s|
  {
    if s != [] {
      EncodeLength(s[1..]);
    }
  }

  /** Only unreserved characters, the kept punctuation and percent signs come out. */
  lemma {:induction false} EncodeIsSafe(s: seq<Byte>)
    ensures forall b :: b in Encode(s) ==> Kept(b) || b == 37
  {
    if s != [] {
      EncodeIsSafe(s[1..]);
    }
  }

  lemma EscapeOfByte(b: Byte)
    ensures IsXDigit(HexDigit(b / 16)) && IsXDigit(HexDigit(b % 16))
    ensures EscapedByte(HexDigit(b / 16), HexDigit(b % 16)) == b
  {
  }

  /** Decoding undoes encoding, whether or not '+' is read as a space. */
  lemma {:induction false} DecodeInvertsEncode(s: seq<Byte>, form: bool)
    ensures Decode(Encode(s), form) == s
  {
    if s != [] {
      DecodeInvertsEncode(s[1..], form);
      if Kept(s[0]) {
        DecodeKept(s[0], Encode(s[1..]), form);
      } else {
        DecodeEscape(s[0], Encode(s[1..]), form);
      }
      assert [s[0]] + s[1..] == s;
    }
  }

  lemma DecodeKept(b: Byte, rest: seq<Byte>, form: bool)
    requires Kept(b)
    ensures Decode([b] + rest, form) == [b] + Decode(rest, form)
  {
    assert !EscapeAt([b] + rest, 0) && ([b] + rest)[1..] == rest;
  }

  lemma DecodeEscape(b: Byte, rest: seq<Byte>, form: bool)
    ensures Decode([37, HexDigit(b / 16), HexDigit(b % 16)] + rest, form) == [b] + Decode(rest, form)
  {
    EscapeOfByte(b);
    DecodeTriple(HexDigit(b / 16), HexDigit(b % 16), rest, form);
  }

  lemma DecodeTriple(hi: Byte, lo: Byte, rest: seq<Byte>, form: bool)
    requires IsXDigit(hi) && IsXDigit(lo)
    ensures Decode([37, hi, lo] + rest, form) == [EscapedByte(hi, lo)] + Decode(rest, form)
  {
    assert EscapeAt([37, hi, lo] + rest, 0) && ([37, hi, lo] + rest)[3..] == rest;
  }

  /** The whole round trip through one buffer of 3n + 1 bytes. */
  method EncodeThenDecodeInPlace(src: seq<Byte>, buffer: array<Byte>, form: bool) returns (n: int)
    requires 0 !in src && buffer.Length >= 3 * |src| + 1
    modifies buffer
    ensures n == |src| && buffer[..n] == src && buffer[n] == 0
  {
    EncodeLength(src);
    DecodeInvertsEncode(src, form);
    var end := UrlEncode(src, buffer, buffer.Length);
    n := UrlDecode(buffer, end, buffer, end + 1, form);
  }
}
