/** A binary file with a cursor, as stdio gives it, and the numbers and names stored in it. */
module Files {
  import opened Bytes

  /** The bytes with s written over them from position pos on. */
  function Overwritten(bytes: seq<Byte>, pos: nat, s: seq<Byte>): (r: seq<Byte>)
    requires pos <= |bytes|
    ensures |r| == if pos + |s| < |bytes| then |bytes| else pos + |s|
  {
    bytes[..pos] + s + if pos + |s| < |bytes| then bytes[pos + |s|..] else []
  }

  /** s stands at position pos. */
  predicate At(bytes: seq<Byte>, pos: nat, s: seq<Byte>) {
    pos + |s| <= |bytes| && bytes[pos..pos + |s|] == s
  }

  lemma OverwrittenTwice(bytes: seq<Byte>, pos: nat, s: seq<Byte>, t: seq<Byte>)
    requires pos <= |bytes|
    ensures Overwritten(Overwritten(bytes, pos, s), pos + |s|, t) == Overwritten(bytes, pos, s + t)
  {
  }

  lemma WrittenIsThere(bytes: seq<Byte>, pos: nat, s: seq<Byte>)
    requires pos <= |bytes|
    ensures At(Overwritten(bytes, pos, s), pos, s)
  {
  }

  /** Writing elsewhere leaves what is there. */
  lemma OverwrittenElsewhere(bytes: seq<Byte>, pos: nat, s: seq<Byte>, at: nat, t: seq<Byte>)
    requires pos <= |bytes| && At(bytes, at, t)
    requires pos + |s| <= at || at + |t| <= pos
    ensures At(Overwritten(bytes, pos, s), at, t)
  {
    var after := Overwritten(bytes, pos, s);
    forall k | at <= k < at + |t| ensures after[k] == bytes[k] {
    }
    SameSlice(bytes, after, at, |t|);
  }

  lemma SameSlice(a: seq<Byte>, b: seq<Byte>, at: nat, n: nat)
    requires at + n <= |a| && at + n <= |b|
    requires forall k :: at <= k < at + n ==> a[k] == b[k]
    ensures a[at..at + n] == b[at..at + n]
  {
  }

  lemma AtConcat(bytes: seq<Byte>, pos: nat, s: seq<Byte>, t: seq<Byte>)
    ensures At(bytes, pos, s + t) <==> At(bytes, pos, s) && At(bytes, pos + |s|, t)
  {
    if pos + |s| + |t| <= |bytes| {
      var u := bytes[pos..pos + |s| + |t|];
      assert u[..|s|] == bytes[pos..pos + |s|] && u[|s|..] == bytes[pos + |s|..pos + |s| + |t|];
      assert u == u[..|s|] + u[|s|..];
      assert (s + t)[..|s|] == s && (s + t)[|s|..] == t;
    }
  }

  lemma AtThree(bytes: seq<Byte>, pos: nat, a: seq<Byte>, b: seq<Byte>, c: seq<Byte>)
    requires At(bytes, pos, a + (b + c))
    ensures At(bytes, pos, a) && At(bytes, pos + |a|, b) && At(bytes, pos + |a| + |b|, c)
  {
    AtConcat(bytes, pos, a, b + c);
    AtConcat(bytes, pos + |a|, b, c);
  }

  // ----------------------------------------------------------------- reading

  /** What reading gives: a value and the position behind it, or the code of an error. */
  datatype Parsed<T> = Fail(code: int) | Done(value: T, next: nat)

  /** n bytes. */
  function GetBytes(bytes: seq<Byte>, pos: nat, n: nat): Parsed<seq<Byte>> {
    if pos + n <= |bytes| then Done(bytes[pos..pos + n], pos + n) else Fail(1)
  }

  /** A number of k bytes, as a little-endian host reads it. */
  function GetNumber(bytes: seq<Byte>, pos: nat, k: nat): Parsed<nat> {
    match GetBytes(bytes, pos, k)
    case Fail(code) => Fail(code)
    case Done(s, next) => Done(FromLittle(s), next)
  }

  /** n numbers of k bytes each. */
  function GetNumbers(bytes: seq<Byte>, pos: nat, k: nat, n: nat): Parsed<seq<nat>> {
    if n == 0 then Done([], pos)
    else
      match GetNumbers(bytes, pos, k, n - 1)
      case Fail(code) => Fail(code)
      case Done(s, next) =>
        match GetNumber(bytes, next, k)
        case Fail(code) => Fail(code)
        case Done(x, last) => Done(s + [x], last)
  }

  /** A name: its length and its characters. */
  function GetName(bytes: seq<Byte>, pos: nat): Parsed<Name> {
    match GetNumber(bytes, pos, 4)
    case Fail(code) => Fail(code)
    case Done(n, next) => GetBytes(bytes, next, n)
  }

  // ----------------------------------------------------------------- the bytes of values

  function PutNumbers(s: seq<nat>, k: nat): (r: seq<Byte>)
    ensures |r| == k * |s|
  {
    if s == [] then [] else PutNumbers(s[..|s| - 1], k) + Little(s[|s| - 1], k)
  }

  function PutName(name: Name): seq<Byte> { Little(|name|, 4) + name }

  /** Numbers that fit k bytes. */
  ghost predicate AllFit(s: seq<nat>, bound: nat) {
    forall i :: 0 <= i < |s| ==> s[i] < bound
  }

  lemma GetBytesInverts(bytes: seq<Byte>, pos: nat, s: seq<Byte>)
    ensures At(bytes, pos, s) ==> GetBytes(bytes, pos, |s|) == Done(s, pos + |s|)
  {
  }

  lemma GetNumberInverts(bytes: seq<Byte>, pos: nat, x: nat, k: nat)
    requires At(bytes, pos, Little(x, k)) && x < Pow256(k)
    ensures GetNumber(bytes, pos, k) == Done(x, pos + k)
  {
    FromLittleInverts(x, k);
  }

  lemma {:induction false} GetNumbersInverts(bytes: seq<Byte>, pos: nat, s: seq<nat>, k: nat)
    requires At(bytes, pos, PutNumbers(s, k)) && AllFit(s, Pow256(k))
    ensures GetNumbers(bytes, pos, k, |s|) == Done(s, pos + k * |s|)
    decreases |s|
  {
    if s != [] {
      var n := |s| - 1;
      var next := pos + |PutNumbers(s[..n], k)|;
      AtConcat(bytes, pos, PutNumbers(s[..n], k), Little(s[n], k));
      GetNumbersInverts(bytes, pos, s[..n], k);
      GetNumberInverts(bytes, next, s[n], k);
      LastNumber(bytes, pos, s, k, next);
    }
  }

  lemma LastNumber(bytes: seq<Byte>, pos: nat, s: seq<nat>, k: nat, next: nat)
    requires s != [] && next == pos + k * (|s| - 1)
    requires GetNumbers(bytes, pos, k, |s| - 1) == Done(s[..|s| - 1], next)
    requires GetNumber(bytes, next, k) == Done(s[|s| - 1], next + k)
    ensures GetNumbers(bytes, pos, k, |s|) == Done(s, pos + k * |s|)
  {
    OneMoreTime(k, |s| - 1);
    assert s == s[..|s| - 1] + [s[|s| - 1]];
  }

  lemma OneMoreTime(k: nat, n: nat)
    ensures k * n + k == k * (n + 1)
  {
  }

  /** What k bytes hold, for the widths that occur. */
  ghost predicate Holds(k: nat, bound: nat) {
    (k == 2 && bound == 0x1_0000) || (k == 4 && bound == 0x1_0000_0000) || (k == 8 && bound == 0x1_0000_0000_0000_0000)
  }

  lemma HoldsIs(k: nat, bound: nat)
    requires Holds(k, bound)
    ensures Pow256(k) == bound
  {
    assert Pow256(2) == 0x1_0000;
    assert Pow256(4) == 0x1_0000_0000;
    assert Pow256(6) == 0x1_0000_0000_0000;
  }

  lemma NumberInverts(bytes: seq<Byte>, pos: nat, x: nat, k: nat, bound: nat)
    requires Holds(k, bound) && x < bound
    ensures At(bytes, pos, Little(x, k)) ==> GetNumber(bytes, pos, k) == Done(x, pos + k)
  {
    HoldsIs(k, bound);
    if At(bytes, pos, Little(x, k)) {
      GetNumberInverts(bytes, pos, x, k);
    }
  }

  lemma NumbersInvert(bytes: seq<Byte>, pos: nat, s: seq<nat>, k: nat, bound: nat)
    requires Holds(k, bound) && AllFit(s, bound)
    ensures At(bytes, pos, PutNumbers(s, k)) ==> GetNumbers(bytes, pos, k, |s|) == Done(s, pos + |PutNumbers(s, k)|)
  {
    HoldsIs(k, bound);
    if At(bytes, pos, PutNumbers(s, k)) {
      GetNumbersInverts(bytes, pos, s, k);
    }
  }

  lemma GetNameInverts(bytes: seq<Byte>, pos: nat, name: Name)
    requires |name| < 0x1_0000_0000
    ensures At(bytes, pos, PutName(name)) ==> GetName(bytes, pos) == Done(name, pos + |PutName(name)|)
  {
    AtConcat(bytes, pos, Little(|name|, 4), name);
    NumberInverts(bytes, pos, |name|, 4, 0x1_0000_0000);
    GetBytesInverts(bytes, pos + 4, name);
  }

  // ----------------------------------------------------------------- the file

  class ByteFile {
    var bytes: seq<Byte>
    var pos: nat

    /** A file that does not exist yet. */
    constructor ()
      ensures bytes == [] && pos == 0
    {
      bytes, pos := [], 0;
    }

    /** fopen for writing: what was there is gone. */
    method Truncate()
      modifies this
      ensures bytes == [] && pos == 0
    {
      bytes, pos := [], 0;
    }

    /** fseek from the start; a position that is no signed 64-bit number is refused. */
    method Seek(offset: nat) returns (ok: bool)
      modifies this`pos
      ensures ok <==> offset <= INT64_MAX
      ensures pos == if ok then offset else old(pos)
    {
      ok := offset <= INT64_MAX;
      if ok {
        pos := offset;
      }
    }

    /** fwrite of all the bytes of s, not past the end of the file. */
    method Write(s: seq<Byte>)
      requires pos <= |bytes|
      modifies this
      ensures bytes == Overwritten(old(bytes), old(pos), s) && pos == old(pos) + |s|
    {
      bytes := bytes[..pos] + s + if pos + |s| < |bytes| then bytes[pos + |s|..] else [];
      pos := pos + |s|;
    }

    /** fread of one item of n bytes. */
    method Read(n: nat) returns (ok: bool, s: seq<Byte>)
      modifies this`pos
      ensures (if ok then Done(s, pos) else Fail(1)) == GetBytes(bytes, old(pos), n)
    {
      ok := pos + n <= |bytes|;
      if ok {
        s := bytes[pos..pos + n];
        pos := pos + n;
      } else {
        s := [];
        pos := if pos < |bytes| then |bytes| else pos;
      }
    }

    /** fread of up to n bytes. */
    method ReadSome(n: nat) returns (s: seq<Byte>)
      modifies this`pos
      ensures s == Some(bytes, old(pos), n) && pos == old(pos) + |s|
    {
      s := Some(bytes, pos, n);
      pos := pos + |s|;
    }

    method ReadNumber(k: nat) returns (ok: bool, x: nat)
      modifies this`pos
      ensures (if ok then Done(x, pos) else Fail(1)) == GetNumber(bytes, old(pos), k)
    {
      var s;
      ok, s := Read(k);
      x := FromLittle(s);
    }

    /** A loop that reads n numbers. */
    method ReadNumbers(k: nat, n: nat) returns (ok: bool, s: seq<nat>)
      modifies this`pos
      ensures (if ok then Done(s, pos) else Fail(1)) == GetNumbers(bytes, old(pos), k, n)
    {
      s := [];
      var i := 0;
      while i < n
        invariant i <= n && GetNumbers(bytes, old(pos), k, i) == Done(s, pos)
      {
        var x;
        ok, x := ReadNumber(k);
        if !ok {
          NumbersFail(bytes, old(pos), k, i + 1, n);
          return;
        }
        s := s + [x];
        i := i + 1;
      }
      ok := true;
    }

    /** The length of a name and its characters, one at a time. */
    method ReadName() returns (ok: bool, name: Name)
      modifies this`pos
      ensures (if ok then Done(name, pos) else Fail(1)) == GetName(bytes, old(pos))
    {
      name := [];
      var n;
      ok, n := ReadNumber(4);
      if !ok {
        return;
      }
      ghost var start := pos;
      var i := 0;
      while i < n
        invariant i <= n && pos == start + i
        invariant i > 0 ==> pos <= |bytes|
        invariant start <= |bytes| ==> pos <= |bytes| && name == bytes[start..pos]
      {
        var ch;
        ok, ch := Read(1);
        if !ok {
          return;
        }
        name := name + ch;
        i := i + 1;
      }
    }
  }

  /** Up to n bytes, as many as there are. */
  function Some(bytes: seq<Byte>, pos: nat, n: nat): (s: seq<Byte>)
    ensures |s| <= n
  {
    if |bytes| <= pos then [] else if pos + n <= |bytes| then bytes[pos..pos + n] else bytes[pos..]
  }

  lemma {:induction false} NumbersFail(bytes: seq<Byte>, pos: nat, k: nat, i: nat, n: nat)
    requires i <= n && GetNumbers(bytes, pos, k, i) == Fail(1)
    ensures GetNumbers(bytes, pos, k, n) == Fail(1)
    decreases n
  {
    if i < n {
      NumbersFail(bytes, pos, k, i, n - 1);
    }
  }
}
