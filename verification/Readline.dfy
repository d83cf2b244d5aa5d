/**
 * Two versions of readline: one that calls read for every byte, and one that reads through a
 * static buffer of 4096 bytes. Both are proved against the same function of the byte stream.
 * Source: unpv13e/test/readline1.c, unpv13e/lib/readline.c.
 */
module Readline {
  import opened Counting

  const MAXLINE := 4096
  const NUL := 0 as char

  // ----- what a call returns, as a function of the bytes still to come -----

  /** How many bytes a call stores: up to and including a newline, at most `room`, or all there are. */
  function Stored(s: seq<char>, room: nat): (k: nat)
    ensures k <= |s| && k <= room
  {
    if s == [] || room == 0 then 0
    else if s[0] == '\n' then 1
    else 1 + Stored(s[1..], room - 1)
  }

  predicate EndsLine(s: seq<char>, k: nat)
    requires k <= |s|
  {
    k > 0 && s[k - 1] == '\n'
  }

  /** The return value; a full buffer without a newline returns maxlen, one more than was stored. */
  function Returned(s: seq<char>, maxlen: nat): nat
    requires maxlen >= 1
  {
    var k := Stored(s, maxlen - 1);
    if EndsLine(s, k) then k else if k == maxlen - 1 then maxlen else k
  }

  /** The stored bytes are the longest prefix that fits and has no newline except possibly its last byte. */
  lemma {:induction false} StoredIsTheLine(s: seq<char>, room: nat)
    ensures var k := Stored(s, room);
            && (forall i :: 0 <= i < k - 1 ==> s[i] != '\n')
            && (EndsLine(s, k) || k == room || k == |s|)
  {
    if s != [] && room > 0 && s[0] != '\n' {
      StoredIsTheLine(s[1..], room - 1);
      var k := Stored(s[1..], room - 1);
      forall i | 0 <= i < k ensures s[i] != '\n' {
        assert i > 0 ==> s[i] == s[1..][i - 1];
      }
    }
  }

  /** Nothing else is: these conditions determine the number of bytes. */
  lemma {:induction false} OnlyTheLineIsStored(s: seq<char>, room: nat, k: nat)
    requires k <= |s| && k <= room
    requires forall i :: 0 <= i < k - 1 ==> s[i] != '\n'
    requires EndsLine(s, k) || k == room || k == |s|
    ensures Stored(s, room) == k
  {
    if s != [] && room > 0 && s[0] != '\n' {
      assert k > 0;
      assert k > 1 ==> s[1..][k - 2] == s[k - 1];
      OnlyTheLineIsStored(s[1..], room - 1, k - 1);
    }
  }

  /** A newline among the first `room` bytes. */
  predicate NewlineWithin(s: seq<char>, room: nat)
  {
    exists i :: 0 <= i < |s| && i < room && s[i] == '\n'
  }

  /**
   * The return value is the number of bytes stored if and only if the stream ends or has a newline
   * before the buffer is full. Otherwise maxlen - 1 bytes are stored and maxlen is returned.
   */
  lemma {:induction false} ReturnedCountsStored(s: seq<char>, maxlen: nat)
    requires maxlen >= 1
    ensures Returned(s, maxlen) == Stored(s, maxlen - 1) <==> |s| < maxlen - 1 || NewlineWithin(s, maxlen - 1)
    ensures |s| < maxlen - 1 || NewlineWithin(s, maxlen - 1) ||
            (Stored(s, maxlen - 1) == maxlen - 1 && Returned(s, maxlen) == maxlen)
  {
    StoredIsTheLine(s, maxlen - 1);
    var k := Stored(s, maxlen - 1);
    if EndsLine(s, k) {
      assert s[k - 1] == '\n';
    } else {
      assert forall i :: 0 <= i < k ==> s[i] != '\n';
    }
  }

  /** The bytes "ab" and a buffer of two: one byte is stored and 2 is returned. */
  lemma {:induction false} FullBufferReturnsOneMore()
    ensures Stored("ab", 1) == 1 && Returned("ab", 2) == 2
  {
    assert "ab"[1..] == "b";
  }

  // ----- the descriptor -----

  /** What the kernel does with one read: deliver up to n bytes (at least one), fail with EINTR, or fail. */
  datatype Event = Chunk(n: nat) | Interrupted | Failed

  predicate NoFailure(plan: seq<Event>)
  {
    forall i :: 0 <= i < |plan| ==> !plan[i].Failed?
  }

  datatype ReadResult = Bytes(data: seq<char>) | Eintr | Error

  /** A stream of bytes and an arbitrary plan of how reads will be answered; after the plan, fully. */
  class Source {
    var data: seq<char>
    var plan: seq<Event>

    constructor (data: seq<char>, plan: seq<Event>)
      ensures this.data == data && this.plan == plan
    {
      this.data, this.plan := data, plan;
    }

    /** read(fd, ..., room): an empty result is end of file. */
    method Read(room: nat) returns (r: ReadResult)
      requires room > 0
      modifies this
      ensures r.Bytes? ==> old(data) == r.data + data && |r.data| <= room && (r.data == [] ==> data == [])
      ensures !r.Bytes? ==> data == old(data)
      ensures r.Eintr? ==> |plan| < |old(plan)|
      ensures NoFailure(old(plan)) ==> NoFailure(plan) && !r.Error?
    {
      var n := room;
      if plan != [] {
        var e := plan[0];
        plan := plan[1..];
        if e.Interrupted? {
          return Eintr;
        }
        if e.Failed? {
          return Error;
        }
        n := if e.n == 0 then 1 else e.n;
      }
      n := if n < room then n else room;
      n := if n < |data| then n else |data|;
      r := Bytes(data[..n]);
      data := data[n..];
    }
  }

  // ----- one byte at a time -----

  /**
   * A successful call on the stream `s`: it returns and consumes what the functions above say,
   * and leaves the line and a NUL in the buffer, nothing else changed.
   */
  ghost predicate LineRead(s: seq<char>, rest: seq<char>, maxlen: nat, ret: int, was: seq<char>, buf: seq<char>)
    requires maxlen >= 1
  {
    var k := Stored(s, maxlen - 1);
    && ret == Returned(s, maxlen)
    && rest == s[k..]
    && k < |was|
    && buf == s[..k] + [NUL] + was[k + 1..]
  }

  /** In the loop: ptr bytes without a newline (but perhaps the last) were copied from `s`. */
  ghost predicate Copying(s: seq<char>, ptr: nat, rest: seq<char>, was: seq<char>, buf: seq<char>)
  {
    && ptr <= |s| && ptr < |was|
    && rest == s[ptr..]
    && buf == s[..ptr] + was[ptr..]
    && forall i :: 0 <= i < ptr - 1 ==> s[i] != '\n'
  }

  lemma {:induction false} CopyNone(s: seq<char>, was: seq<char>)
    requires was != []
    ensures Copying(s, 0, s, was, was)
  {
  }

  lemma {:induction false} CopyOne(s: seq<char>, ptr: nat, c: char, rest: seq<char>, was: seq<char>, buf: seq<char>)
    requires Copying(s, ptr, [c] + rest, was, buf) && ptr + 1 < |was| && !EndsLine(s, ptr)
    ensures Copying(s, ptr + 1, rest, was, buf[ptr := c]) && s[ptr] == c
  {
    assert s[ptr..][0] == c && s[ptr..][1..] == s[ptr + 1..] == rest;
    assert buf[ptr := c] == s[..ptr + 1] + was[ptr + 1..];
  }

  lemma {:induction false} LineDone(s: seq<char>, ptr: nat, rest: seq<char>, was: seq<char>, buf: seq<char>,
                                    maxlen: nat)
    requires Copying(s, ptr, rest, was, buf) && ptr < maxlen
    requires EndsLine(s, ptr) || ptr == maxlen - 1 || ptr == |s|
    ensures Returned(s, maxlen) == if !EndsLine(s, ptr) && ptr == maxlen - 1 then maxlen else ptr
    ensures LineRead(s, rest, maxlen, Returned(s, maxlen), was, buf[ptr := NUL])
  {
    OnlyTheLineIsStored(s, maxlen - 1, ptr);
    assert buf[ptr := NUL] == s[..ptr] + [NUL] + was[ptr + 1..];
  }

  class SlowReader {
    const src: Source

    constructor (src: Source)
      ensures this.src == src
    {
      this.src := src;
    }

    /** The `again` loop around a one-byte read: 1 with a byte, 0 at end of file, -1 on an error. */
    method ReadByte() returns (rc: int, c: char)
      modifies src
      ensures rc == 1 ==> old(src.data) == [c] + src.data
      ensures rc == 0 ==> old(src.data) == src.data == []
      ensures rc in {1, 0, -1}
      ensures NoFailure(old(src.plan)) ==> NoFailure(src.plan) && rc != -1
    {
      c := NUL;
      while true
        invariant src.data == old(src.data)
        invariant NoFailure(old(src.plan)) ==> NoFailure(src.plan)
        decreases |src.plan|
      {
        var r := src.Read(1);
        match r
        case Eintr =>
        case Error => return -1, c;
        case Bytes(data) =>
          if data == [] {
            return 0, c;
          }
          assert data == [data[0]];
          return 1, data[0];
      }
    }

    /** readline over unbuffered one-byte reads; -1 is the error return. */
    method ReadLine(buf: array<char>, maxlen: nat) returns (ret: int)
      requires 1 <= maxlen <= buf.Length
      modifies src, buf
      ensures NoFailure(old(src.plan)) ==> NoFailure(src.plan) && ret != -1
      ensures ret != -1 ==> LineRead(old(src.data), src.data, maxlen, ret, old(buf[..]), buf[..])
    {
      ghost var s, was := src.data, buf[..];
      var ptr, n := 0, 1;
      while n < maxlen
        invariant 1 <= n <= maxlen && ptr == n - 1
        invariant Copying(s, ptr, src.data, was, buf[..]) && !EndsLine(s, ptr)
        invariant NoFailure(old(src.plan)) ==> NoFailure(src.plan)
      {
        var rc, c := ReadByte();
        if rc == -1 {
          return -1;
        }
        if rc == 0 {
          LineDone(s, ptr, src.data, was, buf[..], maxlen);
          PutAt(buf, ptr, NUL);
          return n - 1;
        }
        CopyOne(s, ptr, c, src.data, was, buf[..]);
        PutAt(buf, ptr, c);
        ptr := ptr + 1;
        if c == '\n' {
          break;
        }
        n := n + 1;
      }
      LineDone(s, ptr, src.data, was, buf[..], maxlen);
      PutAt(buf, ptr, NUL);
      return n;
    }
  }

  /** *ptr = c. */
  method PutAt(buf: array<char>, ptr: nat, c: char)
    requires ptr < buf.Length
    modifies buf
    ensures buf[..] == old(buf[..])[ptr := c]
  {
    buf[ptr] := c;
  }

  // ----- through the static buffer -----

  class BufferedReader {
    const src: Source
    const readBuf: array<char>
    var readCnt: int
    var readPtr: nat

    ghost predicate Valid()
      reads this
    {
      readBuf.Length == MAXLINE && (readCnt > 0 ==> readPtr + readCnt <= MAXLINE)
    }

    /** The bytes read ahead. */
    ghost function Window(): seq<char>
      requires Valid()
      reads this, readBuf
    {
      if readCnt > 0 then readBuf[readPtr..readPtr + readCnt] else []
    }

    /** The bytes still to be consumed: what was read ahead, then the rest of the stream. */
    ghost function Ahead(): seq<char>
      requires Valid()
      reads this, readBuf, src
    {
      Window() + src.data
    }

    constructor (src: Source)
      ensures Valid() && this.src == src && readCnt == 0 && fresh(readBuf)
    {
      this.src := src;
      readBuf := new char[MAXLINE];
      readCnt, readPtr := 0, 0;
    }

    /** The `again` loop: refill the buffer; leaves read_cnt as read returned it. */
    method Refill()
      requires Valid() && readCnt <= 0
      modifies this, readBuf, src
      ensures Valid() && -1 <= readCnt
      ensures readCnt > 0 ==> readPtr == 0
      ensures Ahead() == old(src.data)
      ensures readCnt == 0 ==> src.data == []
      ensures NoFailure(old(src.plan)) ==> NoFailure(src.plan) && readCnt >= 0
    {
      while true
        invariant Valid() && readCnt <= 0
        invariant src.data == old(src.data)
        invariant NoFailure(old(src.plan)) ==> NoFailure(src.plan)
        decreases |src.plan|
      {
        var r := src.Read(MAXLINE);
        match r
        case Eintr =>
          readCnt := -1;
        case Error =>
          readCnt := -1;
          return;
        case Bytes(data) =>
          forall k | 0 <= k < |data| {
            readBuf[k] := data[k];
          }
          readCnt, readPtr := |data|, 0;
          assert Window() == data;
          return;
      }
    }

    /** my_read: 1 with a byte, 0 at end of file, -1 on an error. */
    method MyRead() returns (rc: int, c: char)
      requires Valid()
      modifies this, readBuf, src
      ensures Valid()
      ensures rc == 1 ==> old(Ahead()) == [c] + Ahead()
      ensures rc == 0 ==> old(Ahead()) == Ahead() == []
      ensures rc == -1 ==> Ahead() == old(Ahead())
      ensures rc in {1, 0, -1}
      ensures NoFailure(old(src.plan)) ==> NoFailure(src.plan) && rc != -1
    {
      c := NUL;
      if readCnt <= 0 {
        assert Ahead() == src.data;
        hide Window;
        Refill();
        if readCnt < 0 {
          return -1, c;
        }
        if readCnt == 0 {
          return 0, c;
        }
      }
      c := TakeByte();
      rc := 1;
    }

    /** The last three lines of my_read. */
    method TakeByte() returns (c: char)
      requires Valid() && readCnt > 0
      modifies this`readCnt, this`readPtr
      ensures Valid()
      ensures old(Ahead()) == [c] + Ahead()
    {
      ghost var before := Window();
      readCnt := readCnt - 1;
      c := readBuf[readPtr];
      readPtr := readPtr + 1;
      assert before == [c] + Window();
      Regroup([c], Window(), src.data);
    }

    /** readline over the static buffer; -1 is the error return. */
    method ReadLine(buf: array<char>, maxlen: nat) returns (ret: int)
      requires Valid() && buf != readBuf
      requires 1 <= maxlen <= buf.Length
      modifies this, readBuf, src, buf
      ensures Valid()
      ensures NoFailure(old(src.plan)) ==> NoFailure(src.plan) && ret != -1
      ensures ret != -1 ==> LineRead(old(Ahead()), Ahead(), maxlen, ret, old(buf[..]), buf[..])
    {
      hide LineRead, Stored, Returned, Window, Ahead;
      ghost var s, was := Ahead(), buf[..];
      CopyNone(s, was);
      var ptr, n := 0, 1;
      while n < maxlen
        invariant Valid() && 1 <= n <= maxlen && ptr == n - 1
        invariant Copying(s, ptr, Ahead(), was, buf[..]) && !EndsLine(s, ptr)
        invariant NoFailure(old(src.plan)) ==> NoFailure(src.plan)
      {
        var rc, c := MyRead();
        if rc == -1 {
          return -1;
        }
        if rc == 0 {
          LineDone(s, ptr, Ahead(), was, buf[..], maxlen);
          PutAt(buf, ptr, NUL);
          return n - 1;
        }
        CopyOne(s, ptr, c, Ahead(), was, buf[..]);
        PutAt(buf, ptr, c);
        ptr := ptr + 1;
        if c == '\n' {
          break;
        }
        n := n + 1;
      }
      LineDone(s, ptr, Ahead(), was, buf[..], maxlen);
      PutAt(buf, ptr, NUL);
      return n;
    }

    /** readlinebuf: the window of read-ahead bytes and its size. */
    method ReadLineBuf() returns (cnt: int, window: seq<char>)
      requires Valid()
      ensures cnt == readCnt && (cnt >= 0 ==> |window| == cnt) && window == Window()
    {
      cnt := readCnt;
      window := if readCnt > 0 then readBuf[readPtr..readPtr + readCnt] else [];
    }
  }

  // ----- whole sequences of calls -----

  /** One completed call: the caller's buffer, which held only NULs before, and the return value. */
  datatype Line = Line(buf: seq<char>, ret: int)

  function Nuls(n: nat): seq<char>
  {
    seq(n, _ => NUL)
  }

  predicate Positive(maxlens: seq<nat>)
  {
    forall i :: 0 <= i < |maxlens| ==> maxlens[i] >= 1
  }

  /** What a sequence of calls on the stream `s` produces. */
  function Lines(s: seq<char>, maxlens: seq<nat>): (lines: seq<Line>)
    requires Positive(maxlens)
    ensures |lines| == |maxlens|
    decreases |maxlens|
  {
    if maxlens == [] then []
    else
      var k := Stored(s, maxlens[0] - 1);
      [Line(s[..k] + Nuls(maxlens[0] - k), Returned(s, maxlens[0]))] + Lines(s[k..], maxlens[1..])
  }

  /** The bytes it stores, all lines together, and what it leaves of the stream. */
  function Text(s: seq<char>, maxlens: seq<nat>): seq<char>
    requires Positive(maxlens)
    decreases |maxlens|
  {
    if maxlens == [] then []
    else
      var k := Stored(s, maxlens[0] - 1);
      s[..k] + Text(s[k..], maxlens[1..])
  }

  function Rest(s: seq<char>, maxlens: seq<nat>): seq<char>
    requires Positive(maxlens)
    decreases |maxlens|
  {
    if maxlens == [] then s else Rest(s[Stored(s, maxlens[0] - 1)..], maxlens[1..])
  }

  lemma {:induction false} NothingLost(s: seq<char>, maxlens: seq<nat>)
    requires Positive(maxlens)
    ensures Text(s, maxlens) + Rest(s, maxlens) == s
    decreases |maxlens|
  {
    if maxlens != [] {
      var k := Stored(s, maxlens[0] - 1);
      NothingLost(s[k..], maxlens[1..]);
      Regroup(s[..k], Text(s[k..], maxlens[1..]), Rest(s[k..], maxlens[1..]));
      assert s[..k] + s[k..] == s;
    }
  }

  /** One more call at the front of `maxlens`. */
  lemma {:induction false} NextLine(s: seq<char>, rest: seq<char>, maxlens: seq<nat>, ret: int, buf: seq<char>)
    requires Positive(maxlens) && maxlens != []
    requires LineRead(s, rest, maxlens[0], ret, Nuls(maxlens[0]), buf)
    ensures Lines(s, maxlens) == [Line(buf, ret)] + Lines(rest, maxlens[1..])
    ensures Rest(s, maxlens) == Rest(rest, maxlens[1..])
  {
    var k := Stored(s, maxlens[0] - 1);
    assert buf == s[..k] + Nuls(maxlens[0] - k);
  }

  lemma {:induction false} NoMoreLines(s: seq<char>, maxlens: seq<nat>)
    requires maxlens == []
    ensures Lines(s, maxlens) == [] && Rest(s, maxlens) == s
  {
  }

  method SlowLines(reader: SlowReader, maxlens: seq<nat>) returns (lines: seq<Line>)
    requires NoFailure(reader.src.plan) && Positive(maxlens)
    modifies reader.src
    ensures lines == Lines(old(reader.src.data), maxlens)
    ensures reader.src.data == Rest(old(reader.src.data), maxlens)
  {
    hide Lines, Rest, LineRead;
    lines := [];
    var i := 0;
    assert maxlens[0..] == maxlens;
    while i < |maxlens|
      invariant 0 <= i <= |maxlens| && NoFailure(reader.src.plan)
      invariant lines + Lines(reader.src.data, maxlens[i..]) == Lines(old(reader.src.data), maxlens)
      invariant Rest(reader.src.data, maxlens[i..]) == Rest(old(reader.src.data), maxlens)
    {
      ghost var s := reader.src.data;
      var buf := new char[maxlens[i]](_ => NUL);
      assert buf[..] == Nuls(maxlens[i]);
      var ret := reader.ReadLine(buf, maxlens[i]);
      NextLine(s, reader.src.data, maxlens[i..], ret, buf[..]);
      assert maxlens[i..][1..] == maxlens[i + 1..];
      Regroup(lines, [Line(buf[..], ret)], Lines(reader.src.data, maxlens[i + 1..]));
      lines := lines + [Line(buf[..], ret)];
      i := i + 1;
    }
    NoMoreLines(reader.src.data, maxlens[i..]);
  }

  method BufferedLines(reader: BufferedReader, maxlens: seq<nat>) returns (lines: seq<Line>)
    requires reader.Valid() && NoFailure(reader.src.plan) && Positive(maxlens)
    modifies reader, reader.readBuf, reader.src
    ensures reader.Valid()
    ensures lines == Lines(old(reader.Ahead()), maxlens)
    ensures reader.Ahead() == Rest(old(reader.Ahead()), maxlens)
  {
    hide Lines, Rest, LineRead;
    lines := [];
    var i := 0;
    assert maxlens[0..] == maxlens;
    while i < |maxlens|
      invariant 0 <= i <= |maxlens| && reader.Valid() && NoFailure(reader.src.plan)
      invariant lines + Lines(reader.Ahead(), maxlens[i..]) == Lines(old(reader.Ahead()), maxlens)
      invariant Rest(reader.Ahead(), maxlens[i..]) == Rest(old(reader.Ahead()), maxlens)
    {
      ghost var s := reader.Ahead();
      var buf := new char[maxlens[i]](_ => NUL);
      assert buf[..] == Nuls(maxlens[i]);
      var ret := reader.ReadLine(buf, maxlens[i]);
      NextLine(s, reader.Ahead(), maxlens[i..], ret, buf[..]);
      assert maxlens[i..][1..] == maxlens[i + 1..];
      Regroup(lines, [Line(buf[..], ret)], Lines(reader.Ahead(), maxlens[i + 1..]));
      lines := lines + [Line(buf[..], ret)];
      i := i + 1;
    }
    NoMoreLines(reader.Ahead(), maxlens[i..]);
  }

  /**
   * The refinement: on the same bytes, however each version's reads are chunked or interrupted,
   * every sequence of calls gives the same buffers and return values, and for the buffered
   * version consumed bytes ++ readlinebuf window ++ unread bytes is the stream.
   */
  method SameLines(stream: seq<char>, plan1: seq<Event>, plan2: seq<Event>, maxlens: seq<nat>)
      returns (slow: seq<Line>, buffered: seq<Line>, window: seq<char>, unread: seq<char>)
    requires NoFailure(plan1) && NoFailure(plan2) && Positive(maxlens)
    ensures slow == buffered == Lines(stream, maxlens)
    ensures Text(stream, maxlens) + window + unread == stream
  {
    hide Lines, Rest, Text;
    var src1 := new Source(stream, plan1);
    var reader1 := new SlowReader(src1);
    slow := SlowLines(reader1, maxlens);
    var src2 := new Source(stream, plan2);
    var reader2 := new BufferedReader(src2);
    assert [] + stream == stream;
    buffered := BufferedLines(reader2, maxlens);
    var cnt;
    cnt, window := reader2.ReadLineBuf();
    unread := src2.data;
    NothingLost(stream, maxlens);
    Regroup(Text(stream, maxlens), window, unread);
  }
}
