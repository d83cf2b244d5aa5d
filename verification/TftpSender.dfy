/**
 * The TFTP read request (sections 2 and 6 of RFC 1350): what read_data sends for a file.
 * Source: server.c.
 */
module TftpSender {
  import opened Counting

  const BLOCK := 512
  const MAXTIMEOUTS := 10

  datatype Packet = Data(block: nat, data: seq<int>) | NotFound

  // ----- the blocks of a file -----

  /** What successive freads of 512 bytes return, up to and including the first short one. */
  function Chunks(f: seq<int>): (cs: seq<seq<int>>)
    ensures |cs| > 0
  {
    if |f| < BLOCK then [f] else [f[..BLOCK]] + Chunks(f[BLOCK..])
  }

  function Concat(cs: seq<seq<int>>): seq<int>
  {
    if cs == [] then [] else cs[0] + Concat(cs[1..])
  }

  /** The blocks are the file, all but the last have 512 bytes, the last is shorter (possibly empty). */
  lemma {:induction false} ChunksAreTheFile(f: seq<int>)
    ensures var cs := Chunks(f);
            && Concat(cs) == f
            && |cs| == |f| / BLOCK + 1
            && (forall i :: 0 <= i < |cs| - 1 ==> |cs[i]| == BLOCK)
            && |cs[|cs| - 1]| == |f| % BLOCK
  {
    if |f| < BLOCK {
      assert Concat([f]) == f + Concat([]);
    } else {
      ChunksAreTheFile(f[BLOCK..]);
      assert Chunks(f)[1..] == Chunks(f[BLOCK..]);
    }
  }

  /** The packet for block i (from 0): numbered from 1, modulo 2^16. */
  function Nth(f: seq<int>, i: nat): Packet
    requires i < |Chunks(f)|
  {
    Data((i + 1) % 0x10000, Chunks(f)[i])
  }

  function Copies(p: Packet, n: nat): seq<Packet>
  {
    seq(n, _ => p)
  }

  /** The first blocks of f, block i sent times[i] times in a row. */
  function Transcript(f: seq<int>, times: seq<nat>): seq<Packet>
    requires |times| <= |Chunks(f)|
  {
    if times == [] then []
    else Transcript(f, times[..|times| - 1]) + Copies(Nth(f, |times| - 1), times[|times| - 1])
  }

  /** All transmissions beyond the first of each block. */
  function Repeats(times: seq<nat>): int
  {
    if times == [] then 0 else Repeats(times[..|times| - 1]) + times[|times| - 1] - 1
  }

  lemma {:induction false} TranscriptLength(f: seq<int>, times: seq<nat>)
    requires |times| <= |Chunks(f)|
    ensures |Transcript(f, times)| == |times| + Repeats(times)
  {
    if times != [] {
      TranscriptLength(f, times[..|times| - 1]);
    }
  }

  lemma {:induction false} OneMoreBlock(f: seq<int>, times: seq<nat>, n: nat)
    requires |times| < |Chunks(f)|
    ensures Transcript(f, times + [n]) == Transcript(f, times) + Copies(Nth(f, |times|), n)
    ensures Repeats(times + [n]) == Repeats(times) + n - 1
  {
    assert (times + [n])[..|times|] == times;
  }

  /** The fread after i blocks, when `rest` is what the earlier ones left. */
  lemma {:induction false} NextFread(f: seq<int>, i: nat, rest: seq<int>)
    requires i < |Chunks(f)| && Chunks(f)[i..] == Chunks(rest)
    ensures |rest| < BLOCK ==> Chunks(f)[i] == rest && i + 1 == |Chunks(f)|
    ensures |rest| >= BLOCK ==>
              Chunks(f)[i] == rest[..BLOCK] && i + 1 < |Chunks(f)| && Chunks(f)[i + 1..] == Chunks(rest[BLOCK..])
  {
    assert Chunks(f)[i] == Chunks(f)[i..][0];
    assert Chunks(f)[i + 1..] == Chunks(f)[i..][1..];
  }

  /**
   * The client's side: how many timeouts pass before a datagram arrives after the first sending of
   * block i (from 0). A script that is too short means none.
   */
  function Timeouts(script: seq<nat>, i: nat): (n: nat)
    ensures i < |script| ==> n == script[i]
    ensures i >= |script| ==> n == 0
  {
    if i < |script| then script[i] else 0
  }

  /**
   * Lines 82-102: one packet, sent again after each of `wait` timeouts, or until the tenth timeout of
   * the transfer.
   */
  method SendBlock(packet: Packet, noData: nat, wait: nat) returns (sent: seq<Packet>, copies: nat, timeouts: nat)
    requires noData < MAXTIMEOUTS
    ensures sent == Copies(packet, copies)
    ensures copies == 1 + if noData + wait <= MAXTIMEOUTS then wait else MAXTIMEOUTS - noData
    ensures timeouts == noData + copies - 1
  {
    sent, copies, timeouts := [packet], 1, noData;
    while copies <= wait
      invariant sent == Copies(packet, copies) && 1 <= copies <= wait + 1
      invariant timeouts == noData + copies - 1 < MAXTIMEOUTS
      decreases MAXTIMEOUTS - timeouts
    {
      timeouts := timeouts + 1;
      sent := sent + [packet];
      copies := copies + 1;
      if timeouts == MAXTIMEOUTS {
        return;
      }
    }
  }

  /** How often each block is sent: once and once more per timeout, cut off at the tenth in all. */
  ghost predicate Repeated(times: seq<nat>, script: seq<nat>)
  {
    forall i :: 0 <= i < |times| ==>
      var before := Repeats(times[..i]);
      times[i] == 1 + if before + Timeouts(script, i) <= MAXTIMEOUTS then Timeouts(script, i) else MAXTIMEOUTS - before
  }

  lemma {:induction false} RepeatedSnoc(times: seq<nat>, script: seq<nat>, n: nat)
    requires Repeated(times, script)
    requires var before := Repeats(times);
             n == 1 + if before + Timeouts(script, |times|) <= MAXTIMEOUTS then Timeouts(script, |times|)
                      else MAXTIMEOUTS - before
    ensures Repeated(times + [n], script)
  {
    hide Repeats;
    assert (times + [n])[..|times|] == times;
    forall i | 0 <= i < |times| ensures (times + [n])[..i] == times[..i] && (times + [n])[i] == times[i] {
    }
  }

  /**
   * read_data for a file with contents f (None: fopen failed). Any datagram ends the wait for an
   * acknowledgement; a timeout resends the same packet, and the tenth one of the whole transfer
   * ends it. `sent` is everything sent, `times` how often each block was sent.
   */
  method ReadData(f: Option<seq<int>>, script: seq<nat>) returns (sent: seq<Packet>, times: seq<nat>, timeouts: nat)
    ensures f == None ==> sent == [NotFound] && times == [] && timeouts == 0
    ensures f.Some? ==>
              && 1 <= |times| <= |Chunks(f.value)|
              && Repeated(times, script) && (forall i :: 0 <= i < |times| ==> times[i] >= 1)
              && sent == Transcript(f.value, times)
              && timeouts == Repeats(times) <= MAXTIMEOUTS
              && (timeouts < MAXTIMEOUTS ==> |times| == |Chunks(f.value)|)
              && |sent| <= |f.value| / BLOCK + 11
  {
    hide Chunks, Transcript, Repeats, Repeated;
    sent, times, timeouts := [], [], 0;
    if f == None {
      sent := [NotFound];
      return;
    }
    NothingSent(f.value, script);
    var rest := f.value;
    var block, done := 1, false;
    while !done
      invariant block == |times| + 1 && |times| <= |Chunks(f.value)|
      invariant !done ==>
                  |times| < |Chunks(f.value)| && Chunks(f.value)[|times|..] == Chunks(rest) && timeouts < MAXTIMEOUTS
      invariant done ==> |times| >= 1 && (timeouts < MAXTIMEOUTS ==> |times| == |Chunks(f.value)|)
      invariant Repeated(times, script) && forall i :: 0 <= i < |times| ==> times[i] >= 1
      invariant sent == Transcript(f.value, times)
      invariant timeouts == Repeats(times) <= MAXTIMEOUTS
      decreases !done, |Chunks(f.value)| - |times|
    {
      var numGet := if |rest| < BLOCK then |rest| else BLOCK;
      NextFread(f.value, |times|, rest);
      done := numGet < BLOCK;
      assert |rest| < BLOCK ==> rest[..numGet] == rest;
      var packet := Data(block % 0x10000, rest[..numGet]);
      rest := rest[numGet..];
      block := block + 1;
      var more, copies;
      more, copies, timeouts := SendBlock(packet, timeouts, Timeouts(script, |times|));
      OneMoreBlock(f.value, times, copies);
      RepeatedSnoc(times, script, copies);
      sent := sent + more;
      times := times + [copies];
      done := done || timeouts == MAXTIMEOUTS;
    }
    TranscriptLength(f.value, times);
    ChunksAreTheFile(f.value);
  }

  // ----- the packets themselves -----

  /** The i-th block is the bytes of the file from 512 i on. */
  lemma {:induction false} ChunkAt(f: seq<int>, i: nat)
    requires i < |Chunks(f)|
    ensures 512 * i <= |f|
    ensures Chunks(f)[i] == f[512 * i..if 512 * (i + 1) <= |f| then 512 * (i + 1) else |f|]
  {
    if |f| >= BLOCK && i > 0 {
      ChunkAt(f[BLOCK..], i - 1);
    }
  }

  /** Copy j of block i, wherever it is in the transmission: its number and its bytes. */
  lemma {:induction false} PacketAt(f: seq<int>, times: seq<nat>, i: nat, j: nat)
    requires |times| <= |Chunks(f)| && i < |times| && j < times[i]
    ensures var at := i + Repeats(times[..i]) + j;
            && 0 <= at < |Transcript(f, times)| && 512 * i <= |f|
            && Transcript(f, times)[at].Data?
            && Transcript(f, times)[at].block == (i + 1) % 65536
            && Transcript(f, times)[at].data == f[512 * i..if 512 * (i + 1) <= |f| then 512 * (i + 1) else |f|]
    decreases |times|
  {
    hide Chunks;
    var n := |times| - 1;
    TranscriptLength(f, times[..n]);
    if i < n {
      PacketAt(f, times[..n], i, j);
      assert times[..n][..i] == times[..i];
    } else {
      ChunkAt(f, i);
    }
  }

  lemma {:induction false} NothingSent(f: seq<int>, script: seq<nat>)
    ensures Transcript(f, []) == [] && Repeats([]) == 0 && Chunks(f)[0..] == Chunks(f) && Repeated([], script)
  {
  }
}
