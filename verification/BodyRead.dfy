/** Delivering a request body (src/mongoose.cc, mg_read and pull_all), and the loop that collects
    it into the request buffer (src/mg_thread_handler.cc).

    The bytes of a body come first from what was buffered behind the headers and then from the
    socket.  The socket is the sequence of bytes that will arrive on it and a position; each read
    returns some bytes from that position, or 0 at the end, or an error, and an error may lose
    bytes. */
module BodyRead {
  import opened Bytes

  class Connection {
    /** The connection's buffer, which reading the body does not change. */
    const buf: seq<Byte>
    const dataLen: nat
    const requestLen: nat
    /** Everything the socket will ever deliver. */
    const incoming: seq<Byte>
    var taken: nat
    var contentLen: int
    var consumedContent: nat
    var mustClose: bool
    var stopFlag: bool

    constructor (buf: seq<Byte>, dataLen: nat, requestLen: nat, contentLen: int, incoming: seq<Byte>)
      requires requestLen <= dataLen <= |buf| <= 0x7fff_ffff && contentLen <= INT64_MAX
      ensures Valid() && consumedContent == 0 && this.contentLen == contentLen
      ensures Source() == buf[requestLen..dataLen] + incoming
    {
      this.buf, this.dataLen, this.requestLen, this.incoming := buf, dataLen, requestLen, incoming;
      this.contentLen, this.consumedContent, this.taken := contentLen, 0, 0;
      this.mustClose, this.stopFlag := false, false;
    }

    /** How many bytes were behind the headers when the request was read. */
    ghost function Buffered(): int { dataLen - requestLen }

    ghost predicate Sized() {
      requestLen <= dataLen <= |buf| <= 0x7fff_ffff
    }

    /** All bytes that follow the headers, whenever they arrive. */
    ghost function Source(): seq<Byte>
      requires Sized()
    {
      buf[requestLen..dataLen] + incoming
    }

    /** Nothing is taken from the socket before the buffered bytes are used up, and no byte of it
        is passed over. */
    ghost predicate Valid()
      reads this
    {
      && Sized() && contentLen <= INT64_MAX
      && consumedContent <= Buffered() + |incoming|
      && taken == (if consumedContent <= Buffered() then 0 else consumedContent - Buffered())
      && (consumedContent > 0 ==> consumedContent <= contentLen)
    }

    /** The length the body is cut at; without a Content-Length, the largest there is. */
    ghost function Limit(): int
      reads this`consumedContent, this`contentLen
    {
      if consumedContent == 0 && contentLen == 0 then INT64_MAX else contentLen
    }

    /** The count bytes in dst from at on are the body bytes from position first on. */
    ghost predicate Delivered(dst: array<Byte>, at: nat, first: nat, count: nat)
      requires Sized() && at + count <= dst.Length && first + count <= Buffered() + |incoming|
      reads dst
    {
      forall p :: at <= p < at + count ==> dst[p] == Source()[first + (p - at)]
    }

    /** One read from the socket.  A stop request turns any result into an error. */
    method Pull(capacity: nat) returns (n: int)
      requires capacity > 0 && taken <= |incoming|
      modifies this`taken, this`stopFlag
      ensures n >= 0 ==> taken == old(taken) && n <= capacity && taken + n <= |incoming|
      ensures n == 0 ==> taken == |incoming|
    {
      stopFlag := *;
      var failed: bool := *;
      if stopFlag || failed {
        taken := *;
        n := -1;
      } else if taken == |incoming| {
        n := 0;
      } else {
        n :| 1 <= n <= capacity && taken + n <= |incoming|;
      }
    }

    /** The n bytes that a read has found. */
    method CopyIncoming(dst: array<Byte>, at: nat, n: nat)
      requires at + n <= dst.Length && taken + n <= |incoming|
      modifies dst
      ensures forall p :: at <= p < at + n ==> dst[p] == incoming[taken + (p - at)]
      ensures forall p :: 0 <= p < at ==> dst[p] == old(dst[p])
    {
      forall k | 0 <= k < n {
        dst[at + k] := incoming[taken + k];
      }
    }

    /** Reads into dst from position at on, until there is no room, no data, an error or a stop. */
    method PullAll(dst: array<Byte>, at: nat, len: int) returns (nread: int)
      requires Valid() && at <= dst.Length && at + len <= dst.Length
      requires len > 0 ==> Buffered() <= consumedContent && consumedContent + len <= contentLen
      modifies this`consumedContent, this`taken, this`stopFlag, dst
      ensures nread <= 0 || nread <= len
      ensures forall k :: 0 <= k < at ==> dst[k] == old(dst[k])
      ensures nread >= 0 ==>
        && Valid() && consumedContent == old(consumedContent) + nread
        && Delivered(dst, at, old(consumedContent), nread)
        && (nread >= len || stopFlag || taken == |incoming|)
    {
      nread := 0;
      var left := len;
      ghost var before := consumedContent;
      while left > 0 && !stopFlag
        invariant Valid() && nread >= 0 && nread + left == len && (left >= 0 || nread == 0)
        invariant at + nread <= dst.Length
        invariant consumedContent == before + nread
        invariant forall k :: 0 <= k < at ==> dst[k] == old(dst[k])
        invariant Delivered(dst, at, before, nread)
        decreases left
      {
        var n := Pull(left);
        if n < 0 {
          return n;
        } else if n == 0 {
          break;
        }
        CopyIncoming(dst, at + nread, n);
        taken := taken + n;
        consumedContent := consumedContent + n;
        nread := nread + n;
        left := left - n;
      }
    }

    /** The buffered part of a read.  The number of buffered bytes left is a difference of pointers
        stored in an int. */
    method CopyBuffered(dst: array<Byte>, at: nat, len: nat) returns (count: nat)
      requires Valid() && at + len <= dst.Length && consumedContent + len <= contentLen
      requires DifferenceFits(Buffered(), consumedContent)
      modifies this`consumedContent, dst
      ensures Valid() && count <= len && count <= 0x7fff_ffff && consumedContent == old(consumedContent) + count
      ensures forall k :: 0 <= k < at ==> dst[k] == old(dst[k])
      ensures Delivered(dst, at, old(consumedContent), count)
      ensures count < len ==> Buffered() <= consumedContent
    {
      StoredDifferenceIsSafe(Buffered(), consumedContent);
      var body := requestLen + consumedContent;
      count := CopyCount(dataLen - body, len);
      if count > 0 {
        forall k | 0 <= k < count {
          dst[at + k] := buf[body + k];
        }
        consumedContent := consumedContent + count;
      }
    }

    /** mg_read: the body bytes that come next.  What is left of the size after the buffered bytes is cast
        to an int, and so is the result: for sizes from 2^31 on less may be read, or the sum comes out
        negative. */
    method Read(dst: array<Byte>, at: nat, size: nat) returns (nread: int)
      requires Valid() && at + size <= dst.Length
      requires DifferenceFits(Buffered(), consumedContent)
      modifies this`contentLen, this`mustClose, this`consumedContent, this`taken, this`stopFlag, dst
      ensures if old(consumedContent) == 0 && old(contentLen) == 0
              then mustClose && contentLen == 0x7fff_ffff_ffff_ffff
              else mustClose == old(mustClose) && contentLen == old(contentLen)
      ensures nread <= size
      ensures forall k :: 0 <= k < at ==> dst[k] == old(dst[k])
      ensures nread >= 0 ==>
        && Valid() && Limit() == old(Limit())
        && consumedContent == old(consumedContent) + nread
        && Delivered(dst, at, old(consumedContent), nread)
        && (size <= 0x7fff_ffff ==>
              nread == size || stopFlag || consumedContent == Buffered() + |incoming| || consumedContent >= Limit())
    {
      if consumedContent == 0 && contentLen == 0 {
        contentLen := INT64_MAX;
        mustClose := true;
      }
      nread := 0;
      if consumedContent < contentLen {
        var toRead := contentLen - consumedContent;
        nread := ReadUpTo(dst, at, if toRead < size then toRead else size);
      }
    }

    /** The part of mg_read behind the adjustment of the size. */
    method ReadUpTo(dst: array<Byte>, at: nat, len: nat) returns (nread: int)
      requires Valid() && at + len <= dst.Length && consumedContent + len <= contentLen
      requires DifferenceFits(Buffered(), consumedContent)
      modifies this`consumedContent, this`taken, this`stopFlag, dst
      ensures nread <= len
      ensures forall k :: 0 <= k < at ==> dst[k] == old(dst[k])
      ensures nread >= 0 ==>
        && Valid() && consumedContent == old(consumedContent) + nread
        && Delivered(dst, at, old(consumedContent), nread)
        && (len <= 0x7fff_ffff ==> nread == len || stopFlag || consumedContent == Buffered() + |incoming|)
    {
      var count := CopyBuffered(dst, at, len);
      CastIsNoMore(len - count);
      var n := PullAll(dst, at + count, ToInt32(len - count));
      SumCast(count, n);
      nread := if n >= 0 then ToInt32(count + n) else n;
    }
  }

  lemma CastIsNoMore(x: nat)
    ensures ToInt32(x) <= x && ToInt32(x) <= 0x7fff_ffff
    ensures x <= 0x7fff_ffff ==> ToInt32(x) == x
  {
  }

  lemma SumCast(x: nat, y: int)
    requires x <= 0x7fff_ffff && y <= 0x7fff_ffff
    ensures y >= 0 && ToInt32(x + y) >= 0 ==> ToInt32(x + y) == x + y
  {
  }

  /** How many of len bytes are copied from the buffer, with a difference of pointers to its end. */
  function CopyCount(difference: int, len: nat): nat {
    var bufferedLen := ToInt32(difference);
    if bufferedLen <= 0 then 0 else if len < bufferedLen then len else bufferedLen
  }

  /** The amounts consumed for which the difference keeps its sign in an int, or is taken for none. */
  predicate DifferenceFits(buffered: nat, consumed: nat) {
    consumed <= buffered || (consumed - buffered) % 0x1_0000_0000 <= 0x8000_0000
  }

  /** When storing the difference in an int is safe: it comes out positive only if it is, exactly then. */
  lemma StoredDifferenceIsSafe(buffered: nat, consumed: nat)
    requires buffered <= 0x7fff_ffff
    ensures (ToInt32(buffered - consumed) > 0 ==> buffered > consumed) <==> DifferenceFits(buffered, consumed)
    ensures consumed <= buffered ==> ToInt32(buffered - consumed) == buffered - consumed
    ensures consumed <= buffered + 0x8000_0000 ==> DifferenceFits(buffered, consumed)
  {
  }

  /** What a nonempty read copies stays inside the buffer exactly for those amounts; for the others it
      starts behind it. */
  lemma CopyStaysInside(size: nat, dataLen: nat, requestLen: nat, consumed: nat, len: nat)
    requires requestLen <= dataLen <= size <= 0x7fff_ffff && len > 0
    ensures var body := requestLen + consumed; var count := CopyCount(dataLen - body, len);
            && (DifferenceFits(dataLen - requestLen, consumed) <==> (count > 0 ==> body + count <= dataLen))
            && (!DifferenceFits(dataLen - requestLen, consumed) ==> count > 0 && body > size)
  {
    StoredDifferenceIsSafe(dataLen - requestLen, consumed);
  }

  /** The first amount for which it is not safe: one byte more than 2^31 past the buffered ones.  A further
      read copies from behind the buffer. */
  lemma LongBodyReadsOutside(size: nat, dataLen: nat, requestLen: nat, len: nat)
    requires requestLen <= dataLen <= size <= 0x7fff_ffff && len > 0
    ensures var consumed := dataLen - requestLen + 0x8000_0001;
            && !DifferenceFits(dataLen - requestLen, consumed)
            && CopyCount(dataLen - (requestLen + consumed), len) == (if len < 0x7fff_ffff then len else 0x7fff_ffff)
            && requestLen + consumed > size
  {
  }

  /** What has been delivered so far is the beginning of the body, and the counter is its length. */
  ghost predicate Streamed(conn: Connection, got: seq<Byte>, limit: int)
    reads conn
  {
    && conn.Valid() && conn.Limit() == limit && conn.consumedContent == |got|
    && got <= conn.Source() && (|got| <= limit || got == [])
  }

  /** One more read, into any place of any buffer. */
  method ReadMore(conn: Connection, dst: array<Byte>, at: nat, size: nat, ghost got: seq<Byte>, ghost limit: int)
    returns (n: int)
    requires Streamed(conn, got, limit) && at + size <= dst.Length
    requires DifferenceFits(conn.Buffered(), |got|)
    modifies conn, dst
    ensures if old(conn.consumedContent) == 0 && old(conn.contentLen) == 0 then conn.mustClose
            else conn.mustClose == old(conn.mustClose)
    ensures n <= size
    ensures forall k :: 0 <= k < at ==> dst[k] == old(dst[k])
    ensures n >= 0 ==> Streamed(conn, got + dst[at..at + n], limit)
    ensures n >= 0 && size <= 0x7fff_ffff ==>
      n == size || conn.stopFlag || |got| + n == |conn.Source()| || |got| + n >= limit
  {
    n := conn.Read(dst, at, size);
    if n >= 0 {
      PrefixGrows(conn.Source(), got, dst[at..at + n]);
    }
  }

  lemma PrefixGrows(all: seq<Byte>, got: seq<Byte>, more: seq<Byte>)
    requires got <= all && |got| + |more| <= |all|
    requires forall k :: 0 <= k < |more| ==> more[k] == all[|got| + k]
    ensures got + more <= all
  {
  }

  /** Any sequence of reads, each into any place of one buffer that is used again and again: as long as
      they succeed they deliver the body from its beginning, with nothing lost, repeated or reordered,
      and the counter says how much.  It goes on for as long as the difference of pointers fits. */
  method ReadSequence(conn: Connection, dst: array<Byte>, places: seq<(nat, nat)>)
    returns (got: seq<Byte>, done: nat, last: int)
    requires conn.Valid() && conn.consumedContent == 0
    requires forall k :: 0 <= k < |places| ==> places[k].0 + places[k].1 <= dst.Length
    modifies conn, dst
    ensures done <= |places| && (last >= 0 ==> Streamed(conn, got, old(conn.Limit())))
    ensures last >= 0 && done < |places| ==>
      !DifferenceFits(conn.Buffered(), |got|) && |got| > conn.Buffered() + 0x8000_0000
  {
    got, done, last := [], 0, 0;
    ghost var limit := conn.Limit();
    while done < |places|
      invariant last >= 0 && done <= |places| && Streamed(conn, got, limit)
    {
      StoredDifferenceIsSafe(conn.Buffered(), |got|);
      if !DifferenceFits(conn.dataLen - conn.requestLen, |got|) {
        return;
      }
      var (at, size) := places[done];
      last := ReadMore(conn, dst, at, size, got, limit);
      if last < 0 {
        return;
      }
      got, done := got + dst[at..at + last], done + 1;
    }
  }

  /** The handler's loop: it reads until nothing more comes, an error, or its buffer is full. */
  method ReceiveBody(conn: Connection, requestBuffer: array<Byte>) returns (total: nat, last: int)
    requires conn.Valid() && conn.consumedContent == 0 && requestBuffer.Length <= 0x7fff_ffff
    modifies conn, requestBuffer
    ensures total <= requestBuffer.Length && total <= |conn.Source()| && last <= 0
    ensures requestBuffer[..total] == conn.Source()[..total]
    ensures total <= old(conn.Limit()) || total == 0
    ensures last == 0 ==> conn.Valid() && conn.consumedContent == total
    ensures last == 0 && !conn.stopFlag && total < requestBuffer.Length ==>
      total == |conn.Source()| || (old(conn.contentLen) != 0 && total >= old(conn.contentLen))
    ensures old(conn.contentLen) == 0 ==> conn.mustClose
  {
    total, last := 0, 1;
    ghost var limit, got: seq<Byte> := conn.Limit(), [];
    while last > 0
      invariant 0 <= total <= requestBuffer.Length && got == requestBuffer[..total]
      invariant got <= conn.Source() && (|got| <= limit || got == [])
      invariant last >= 0 ==> Streamed(conn, got, limit)
      invariant old(conn.contentLen) == 0 ==> conn.mustClose || (last > 0 && conn.contentLen == 0 && total == 0)
      invariant last == 0 && !conn.stopFlag && total < requestBuffer.Length ==>
        total == |conn.Source()| || total >= limit
      decreases requestBuffer.Length - total, last
    {
      StoredDifferenceIsSafe(conn.Buffered(), |got|);
      last := ReadMore(conn, requestBuffer, total, requestBuffer.Length - total, got, limit);
      if last > 0 {
        FrontGrows(requestBuffer[..], total, last);
        total := total + last;
        got := requestBuffer[..total];
      }
    }
  }

  lemma FrontGrows(all: seq<Byte>, n: nat, more: nat)
    requires n + more <= |all|
    ensures all[..n + more] == all[..n] + all[n..n + more]
  {
  }
}
