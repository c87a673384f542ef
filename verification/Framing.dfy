/** Finding the end of a request in a growing buffer (src/mongoose.cc, get_request_len and
    read_request). */
module Framing {
  import opened Bytes

  const LF: Byte := 10
  const CR: Byte := 13

  /** Control characters other than CR and LF are not allowed; bytes from 128 on are. */
  predicate Malformed(b: Byte) {
    b < 128 && !(32 <= b < 127) && b != CR && b != LF
  }

  /** The prefix of length n ends a request: with LF LF or with LF CR LF. */
  predicate BlankLineEnds(buf: seq<Byte>, n: nat) {
    && n <= |buf|
    && (|| (n >= 2 && buf[n - 2] == LF && buf[n - 1] == LF)
        || (n >= 3 && buf[n - 3] == LF && buf[n - 2] == CR && buf[n - 1] == LF))
  }

  /** What the scan concludes at position s: -1, the request length, or 0 to go on. */
  function Verdict(buf: seq<Byte>, s: nat): int
    requires s + 1 < |buf|
  {
    if Malformed(buf[s]) then -1
    else if buf[s] == LF && buf[s + 1] == LF then s + 2
    else if buf[s] == LF && s + 2 < |buf| && buf[s + 1] == CR && buf[s + 2] == LF then s + 3
    else 0
  }

  /** The first verdict at or after s.  The last byte of the buffer is never looked at alone. */
  function Scan(buf: seq<Byte>, s: nat): int
    requires s <= |buf|
    decreases |buf| - s
  {
    if s + 1 >= |buf| then 0
    else if Verdict(buf, s) != 0 then Verdict(buf, s)
    else Scan(buf, s + 1)
  }

  function RequestLen(buf: seq<Byte>): int { Scan(buf, 0) }

  method GetRequestLen(buf: array<Byte>, buflen: nat) returns (len: int)
    requires buflen <= buf.Length
    ensures len == RequestLen(buf[..buflen])
  {
    len := 0;
    var s := 0;
    ghost var window := buf[..buflen];
    while len <= 0 && s + 1 < buflen
      invariant 0 <= s <= buflen
      invariant len == 0 ==> Scan(window, s) == Scan(window, 0)
      invariant len != 0 ==> len > 0 && len == Scan(window, 0)
      decreases buflen - s
    {
      if Malformed(buf[s]) {
        len := -1;
        break;
      } else if buf[s] == LF && buf[s + 1] == LF {
        len := s + 2;
      } else if buf[s] == LF && s + 1 < buflen - 1 && buf[s + 1] == CR && buf[s + 2] == LF {
        len := s + 3;
      }
      s := s + 1;
    }
  }

  // --------------------------------------------------------------- what the length means

  lemma {:induction false} ScanFindsFirst(buf: seq<Byte>, s: nat, at: nat)
    requires s <= at && at + 1 < |buf|
    requires forall r :: s <= r < at ==> Verdict(buf, r) == 0
    requires Verdict(buf, at) != 0
    ensures Scan(buf, s) == Verdict(buf, at)
    decreases at - s
  {
    if s < at {
      ScanFindsFirst(buf, s + 1, at);
    }
  }

  lemma {:induction false} ScanIsAVerdict(buf: seq<Byte>, s: nat) returns (at: nat)
    requires s <= |buf|
    ensures s <= at
    ensures forall r :: s <= r < at && r + 1 < |buf| ==> Verdict(buf, r) == 0
    ensures Scan(buf, s) != 0 ==> at + 1 < |buf| && Verdict(buf, at) == Scan(buf, s)
    ensures Scan(buf, s) == 0 ==> at + 1 >= |buf|
    decreases |buf| - s
  {
    at := s;
    if s + 1 < |buf| && Verdict(buf, s) == 0 {
      at := ScanIsAVerdict(buf, s + 1);
    }
  }

  /** A blank line that ends at n gives a verdict where it starts, unless an earlier byte has. */
  lemma BlankLineStarts(buf: seq<Byte>, n: nat) returns (s: nat)
    requires BlankLineEnds(buf, n)
    ensures s + 1 < n <= s + 3 && s + 1 < |buf| && Verdict(buf, s) > 0
    ensures forall i :: s <= i < n ==> !Malformed(buf[i])
  {
    s := if buf[n - 2] == LF then n - 2 else n - 3;
  }

  /** A positive result is the length of the shortest prefix that ends with a blank line, and
      there is no malformed byte in that prefix. */
  lemma PositiveMeansShortestRequest(buf: seq<Byte>, n: nat)
    requires n > 0
    ensures RequestLen(buf) == n <==>
      && BlankLineEnds(buf, n)
      && (forall m :: 0 <= m < n ==> !BlankLineEnds(buf, m))
      && (forall i :: 0 <= i < n ==> !Malformed(buf[i]))
  {
    var at := ScanIsAVerdict(buf, 0);
    if RequestLen(buf) == n {
      forall m | 0 <= m < n ensures !BlankLineEnds(buf, m) {
        if BlankLineEnds(buf, m) {
          var s := BlankLineStarts(buf, m);
        }
      }
      forall i | 0 <= i < n ensures !Malformed(buf[i]) {
        assert i < at ==> Verdict(buf, i) == 0;
      }
    } else if BlankLineEnds(buf, n) && forall i :: 0 <= i < n ==> !Malformed(buf[i]) {
      var s := BlankLineStarts(buf, n);
      assert Verdict(buf, at) > 0;
      assert BlankLineEnds(buf, Verdict(buf, at));
    }
  }

  /** A negative result means that a malformed byte, not the last one buffered, comes before the
      end of every request in the buffer. */
  lemma NegativeMeansMalformedFirst(buf: seq<Byte>)
    ensures RequestLen(buf) < 0 <==>
      exists i :: 0 <= i && i + 1 < |buf| && Malformed(buf[i]) && forall m :: 0 <= m <= i ==> !BlankLineEnds(buf, m)
  {
    var at := ScanIsAVerdict(buf, 0);
    if RequestLen(buf) < 0 {
      forall m | 0 <= m <= at ensures !BlankLineEnds(buf, m) {
        if BlankLineEnds(buf, m) {
          var s := BlankLineStarts(buf, m);
        }
      }
    } else if i :| 0 <= i && i + 1 < |buf| && Malformed(buf[i]) && forall m :: 0 <= m <= i ==> !BlankLineEnds(buf, m) {
      assert Verdict(buf, i) == -1;
      PositiveMeansShortestRequest(buf, RequestLen(buf));
    }
  }

  /** Once the length is known, bytes that arrive later do not change it. */
  lemma LengthIsStable(buf: seq<Byte>, more: seq<Byte>)
    requires RequestLen(buf) != 0
    ensures RequestLen(buf + more) == RequestLen(buf)
  {
    var at := ScanIsAVerdict(buf, 0);
    var longer := buf + more;
    forall r | 0 <= r < at ensures Verdict(longer, r) == 0 {
      assert Verdict(buf, r) == 0;
    }
    ScanFindsFirst(longer, 0, at);
  }

  // -------------------------------------------------------------- the lengths, byte by byte

  /** Bytes that may stand in a request: line feed, carriage return, and those printed or from 128 on. */
  predicate Wholesome(buf: seq<Byte>) {
    forall i :: 0 <= i < |buf| ==> buf[i] == 10 || buf[i] == 13 || 32 <= buf[i] <= 126 || 128 <= buf[i]
  }

  /** A line feed with another one behind it, or with a carriage return and another one behind it, ends
      before the last byte. */
  predicate EndsEarlier(buf: seq<Byte>) {
    || (exists i :: 0 <= i < |buf| - 2 && buf[i] == 10 && buf[i + 1] == 10)
    || (exists i :: 0 <= i < |buf| - 3 && buf[i] == 10 && buf[i + 1] == 13 && buf[i + 2] == 10)
  }

  lemma NoneEndsEarlier(buf: seq<Byte>, all: seq<Byte>, m: nat)
    requires buf <= all && m < |buf|
    ensures BlankLineEnds(all, m) ==> EndsEarlier(buf)
  {
    if BlankLineEnds(all, m) {
      if all[m - 2] == 10 {
        assert buf[m - 2] == 10 && buf[m - 1] == 10;
      } else {
        assert buf[m - 3] == 10 && buf[m - 2] == 13 && buf[m - 1] == 10;
      }
    }
  }

  lemma EndIsLength(request: seq<Byte>, more: seq<Byte>)
    requires request != [] && Wholesome(request) && !EndsEarlier(request) && BlankLineEnds(request, |request|)
    ensures RequestLen(request + more) == |request|
  {
    var all := request + more;
    forall m | 0 <= m < |request| ensures !BlankLineEnds(all, m) {
      NoneEndsEarlier(request, all, m);
    }
    forall i | 0 <= i < |request| ensures !Malformed(all[i]) {
      assert all[i] == request[i];
    }
    var n := |request|;
    assert n >= 3 ==> all[n - 3] == request[n - 3];
    assert all[n - 2] == request[n - 2] && all[n - 1] == request[n - 1];
    PositiveMeansShortestRequest(all, n);
  }

  /** Lines ended by carriage return and line feed, the last one empty: the length is that of all of them. */
  lemma HeadEndsWithCrLf(head: seq<Byte>, more: seq<Byte>)
    requires Wholesome(head) && !EndsEarlier(head + [13, 10, 13, 10])
    ensures RequestLen(head + [13, 10, 13, 10] + more) == |head| + 4
  {
    EndIsLength(head + [13, 10, 13, 10], more);
  }

  /** The same for lines ended by a line feed alone. */
  lemma HeadEndsWithLf(head: seq<Byte>, more: seq<Byte>)
    requires Wholesome(head) && !EndsEarlier(head + [10, 10])
    ensures RequestLen(head + [10, 10] + more) == |head| + 2
  {
    EndIsLength(head + [10, 10], more);
  }

  /** A control character before the end of a request. */
  lemma ControlCharacterFails(head: seq<Byte>, b: Byte, more: seq<Byte>)
    requires (b < 32 && b != 10 && b != 13) || b == 127
    requires !EndsEarlier(head + [b]) && more != []
    ensures RequestLen(head + [b] + more) == -1
  {
    var start, all := head + [b], head + [b] + more;
    forall m | 0 <= m <= |head| ensures !BlankLineEnds(all, m) {
      NoneEndsEarlier(start, all, m);
    }
    assert Malformed(all[|head|]);
    NegativeMeansMalformedFirst(all);
    ScanWithin(all, 0);
  }

  // ------------------------------------------------------------------------ reading it in

  /** What read_request returns, as a function of all the bytes: those buffered on entry and
      those that arrive, cut at the buffer size. */
  function Framed(buffered: seq<Byte>, arriving: seq<Byte>, bufsiz: nat): int
    requires |buffered| <= bufsiz
  {
    var all := buffered + arriving;
    var kept := if |all| <= bufsiz then all else all[..bufsiz];
    if RequestLen(kept) != 0 then RequestLen(kept)
    else if |kept| == bufsiz && |buffered| < bufsiz then 0
    else -1
  }

  lemma KeptIsStable(buffered: seq<Byte>, arriving: seq<Byte>, bufsiz: nat, n: nat)
    requires |buffered| <= n <= bufsiz && n <= |buffered| + |arriving|
    requires RequestLen((buffered + arriving)[..n]) != 0
    ensures RequestLen((buffered + arriving)[..n]) == Framed(buffered, arriving, bufsiz)
  {
    var all := buffered + arriving;
    var kept := if |all| <= bufsiz then all else all[..bufsiz];
    assert kept == all[..n] + kept[n..];
    LengthIsStable(all[..n], kept[n..]);
  }

  /** How many of the waiting bytes each read returns is not determined, and neither is how the end
      of the stream shows (0 or an error); the result and the bytes kept are. */
  method ReadRequest(buf: array<Byte>, buffered: nat, arriving: seq<Byte>) returns (len: int, nread: nat)
    requires buffered <= buf.Length
    modifies buf
    ensures len == Framed(old(buf[..buffered]), arriving, buf.Length)
    ensures buffered <= nread <= buf.Length && nread <= buffered + |arriving|
    ensures buf[..nread] == (old(buf[..buffered]) + arriving)[..nread]
    ensures len > 0 ==> len <= nread
  {
    nread := buffered;
    var n := 0;
    ghost var was := buf[..buffered];
    ghost var all := was + arriving;
    assert all[..nread] == was;
    len := GetRequestLen(buf, nread);
    while nread < buf.Length && len == 0
      invariant buffered <= nread <= buf.Length && nread <= |all|
      invariant buf[..nread] == all[..nread]
      invariant len == RequestLen(all[..nread])
      invariant n > 0 <==> nread > buffered
      decreases buf.Length - nread
    {
      n := Pull(buf.Length - nread, |arriving| - (nread - buffered));
      if n <= 0 {
        assert all[..nread] == all;
        break;
      }
      forall k | 0 <= k < n {
        buf[nread + k] := arriving[nread - buffered + k];
      }
      nread := nread + n;
      len := GetRequestLen(buf, nread);
    }
    if len != 0 {
      KeptIsStable(was, arriving, buf.Length, nread);
      ScanWithin(all[..nread], 0);
    } else {
      assert all[..|all|] == all;
    }
    return if len <= 0 && n <= 0 then -1 else len, nread;
  }

  lemma {:induction false} ScanWithin(buf: seq<Byte>, s: nat)
    requires s <= |buf|
    ensures -1 <= Scan(buf, s) <= |buf|
    decreases |buf| - s
  {
    if s + 1 < |buf| && Verdict(buf, s) == 0 {
      ScanWithin(buf, s + 1);
    }
  }

  /** One read from the connection: some of the waiting bytes, or nothing more. */
  method Pull(capacity: nat, waiting: nat) returns (n: int)
    requires capacity > 0
    ensures waiting == 0 ==> n <= 0
    ensures waiting > 0 ==> 1 <= n <= capacity && n <= waiting
  {
    if waiting == 0 {
      n :| n == 0 || n == -1;
    } else {
      n :| 1 <= n <= capacity && n <= waiting;
    }
  }
}
