/**
 * The reliable UDP client: sequence numbers, time stamps and retransmission over a channel that
 * loses, duplicates and reorders, with an echo server at the other end.
 * Source: unpv13e/rtt/dg_send_recv.c.
 */
module ReliableUdp {
  import opened Rtt

  const TWO32 := 0x1_0000_0000
  const HDRSIZE := 8
  const MAXLINE := 4096

  /**
   * A request: the two header words and the payload, with the number of the call that sent it
   * and the true time of sending, in milliseconds.
   */
  datatype Packet = Packet(seqno: nat, ts: nat, data: seq<int>, call: nat, at: nat)

  function Truncate(data: seq<int>, n: nat): seq<int>
  {
    if |data| <= n then data else data[..n]
  }

  /** The payload of a reply: the server echoes the datagram, cut to its own buffer. */
  function Echo(p: Packet): seq<int>
  {
    Truncate(p.data, MAXLINE - HDRSIZE)
  }

  datatype Outcome =
    | Received(data: seq<int>)   // the normal return
    | GaveUp                     // -1 with ETIMEDOUT
    | Waiting                    // still blocked when the observation ended

  /** `data` is the request, cut to the server's 4096 bytes with the header, and to the caller's buffer. */
  predicate IsReplyTo(data: seq<int>, request: seq<int>, inbytes: nat)
  {
    && data <= request && |data| <= 4088 && |data| <= inbytes
    && (|data| == |request| || |data| == 4088 || |data| == inbytes)
  }

  lemma {:induction false} TwiceCut(request: seq<int>, inbytes: nat)
    ensures IsReplyTo(Truncate(Truncate(request, MAXLINE - HDRSIZE), inbytes), request, inbytes)
  {
  }

  // ----- the channel and the alarm -----

  /**
   * What happens next while the client waits: a datagram shorter than the header, an echo of request
   * k, or the alarm. The channel loses, repeats and reorders, so k is any request sent so far. An
   * alarm right after a matching reply, before alarm(0), is a `late` one.
   */
  datatype Delivery = Runt | Echoed(k: nat, late: bool) | Alarm

  datatype Wait = Accepted(k: nat) | Expired | Patient

  datatype Verdict = Verdict(wait: Wait, rest: seq<Delivery>)

  /** Requests are known here by the sequence numbers they were sent with. */
  predicate Matches(d: Delivery, seqs: seq<nat>, seqno: nat)
  {
    d.Echoed? && d.k < |seqs| && seqs[d.k] == seqno
  }

  predicate Decides(d: Delivery, seqs: seq<nat>, seqno: nat)
  {
    d.Alarm? || Matches(d, seqs, seqno)
  }

  /** One wait: the first matching reply or alarm decides it. */
  function Judge(script: seq<Delivery>, seqs: seq<nat>, seqno: nat): Verdict
  {
    if script == [] then Verdict(Patient, [])
    else if !Decides(script[0], seqs, seqno) then Judge(script[1..], seqs, seqno)
    else if script[0].Alarm? || script[0].late then Verdict(Expired, script[1..])
    else Verdict(Accepted(script[0].k), script[1..])
  }

  /** Nothing in `junk` ends the wait. */
  predicate Ignored(junk: seq<Delivery>, seqs: seq<nat>, seqno: nat)
  {
    forall i :: 0 <= i < |junk| ==> !Decides(junk[i], seqs, seqno)
  }

  lemma {:induction false} JudgeSkips(junk: seq<Delivery>, more: seq<Delivery>, seqs: seq<nat>, seqno: nat)
    requires Ignored(junk, seqs, seqno)
    ensures Judge(junk + more, seqs, seqno) == Judge(more, seqs, seqno)
  {
    if junk == [] {
      assert junk + more == more;
    } else {
      JudgeSkips(junk[1..], more, seqs, seqno);
      assert (junk + more)[1..] == junk[1..] + more;
    }
  }

  datatype Played = Played(wait: Wait, sends: nat)

  /** From `sendagain` on: after `tries` alarms, one more transmission and wait, up to the fourth alarm. */
  function Play(script: seq<Delivery>, seqs: seq<nat>, seqno: nat, tries: nat): Played
    requires tries <= MAXNREXMT
    decreases MAXNREXMT - tries
  {
    var v := Judge(script, seqs + [seqno], seqno);
    if !v.wait.Expired? || tries == MAXNREXMT then Played(v.wait, tries + 1)
    else Play(v.rest, seqs + [seqno], seqno, tries + 1)
  }

  /** A matching reply before the alarm is accepted, with no further transmission. */
  lemma {:induction false} AnswerIsAccepted(junk: seq<Delivery>, k: nat, more: seq<Delivery>, seqs: seq<nat>,
                                            seqno: nat, tries: nat)
    requires tries <= MAXNREXMT && Ignored(junk, seqs + [seqno], seqno)
    requires Matches(Echoed(k, false), seqs + [seqno], seqno)
    ensures Play(junk + ([Echoed(k, false)] + more), seqs, seqno, tries) == Played(Accepted(k), tries + 1)
  {
    JudgeSkips(junk, [Echoed(k, false)] + more, seqs + [seqno], seqno);
  }

  /** An alarm first means another transmission, or after the fourth transmission the end. */
  lemma {:induction false} AlarmSendsAgain(junk: seq<Delivery>, d: Delivery, more: seq<Delivery>, seqs: seq<nat>,
                                           seqno: nat, tries: nat)
    requires tries <= MAXNREXMT && Ignored(junk, seqs + [seqno], seqno)
    requires d.Alarm? || (Matches(d, seqs + [seqno], seqno) && d.late)
    ensures Play(junk + ([d] + more), seqs, seqno, tries) ==
            if tries == 3 then Played(Expired, 4) else Play(more, seqs + [seqno], seqno, tries + 1)
  {
    JudgeSkips(junk, [d] + more, seqs + [seqno], seqno);
    assert ([d] + more)[1..] == more;
  }

  /** Neither: the client is still waiting. */
  lemma {:induction false} NothingIsWaitedFor(junk: seq<Delivery>, seqs: seq<nat>, seqno: nat, tries: nat)
    requires tries <= MAXNREXMT && Ignored(junk, seqs + [seqno], seqno)
    ensures Play(junk, seqs, seqno, tries) == Played(Patient, tries + 1)
  {
    JudgeSkips(junk, [], seqs + [seqno], seqno);
    assert junk + [] == junk;
  }

  function Seqs(wire: seq<Packet>): (seqs: seq<nat>)
    ensures |seqs| == |wire|
  {
    seq(|wire|, k requires 0 <= k < |wire| => wire[k].seqno)
  }

  function Total(xs: seq<int>): int
  {
    if xs == [] then 0 else Total(xs[..|xs| - 1]) + xs[|xs| - 1]
  }

  /** The alarms of a call that started with timeout `rto`. */
  ghost predicate Armed(rto: real, timers: seq<int>)
  {
    forall k :: 0 <= k < |timers| ==> timers[k] == Round(Doubled(rto, k))
  }

  lemma {:induction false} ArmedBounds(rto: real, timers: seq<int>)
    requires RXTMIN <= rto <= RXTMAX && Armed(rto, timers) && |timers| <= MAXNREXMT + 1
    ensures forall k :: 0 <= k < |timers| ==> 2 <= timers[k] <= 480
    ensures Total(timers) <= 900
  {
    TimersBounded(rto);
    ArmedTotal(rto, timers);
  }

  lemma {:induction false} ArmedTotal(rto: real, timers: seq<int>)
    requires Armed(rto, timers) && |timers| <= MAXNREXMT + 1
    requires forall k :: 0 <= k <= MAXNREXMT ==> Round(Doubled(rto, k)) >= 0
    ensures Total(timers) <=
            Round(Doubled(rto, 0)) + Round(Doubled(rto, 1)) + Round(Doubled(rto, 2)) + Round(Doubled(rto, 3))
    ensures |timers| <= 3 ==>
              Total(timers) <= Round(Doubled(rto, 0)) + Round(Doubled(rto, 1)) + Round(Doubled(rto, 2))
    ensures |timers| <= 2 ==> Total(timers) <= Round(Doubled(rto, 0)) + Round(Doubled(rto, 1))
    ensures |timers| <= 1 ==> Total(timers) <= Round(Doubled(rto, 0))
  {
    if timers != [] {
      ArmedTotal(rto, timers[..|timers| - 1]);
    }
  }

  lemma {:induction false} ArmedNone(rto: real)
    ensures Armed(rto, []) && Doubled(rto, 0) == rto
  {
  }

  lemma {:induction false} ArmedSnoc(rto: real, timers: seq<int>)
    requires Armed(rto, timers)
    ensures Armed(rto, timers + [Round(Doubled(rto, |timers|))])
  {
  }

  lemma {:induction false} DoubledNext(rto: real, k: nat)
    ensures Doubled(rto, k + 1) == 2.0 * Doubled(rto, k)
  {
  }

  /** Below 2^32 calls, equal sequence numbers mean the same call. */
  lemma {:induction false} SameCall(a: nat, b: nat)
    requires a <= b < TWO32 && a % TWO32 == b % TWO32
    ensures a == b
  {
  }

  class Client {
    const rttinfo: RttInfo
    var rttinit: bool
    var seqno: nat
    /** How many calls were made, and every request the channel was ever given. */
    var calls: nat
    var wire: seq<Packet>

    ghost predicate WireInv()
      reads this
    {
      && seqno == calls % TWO32
      && forall k :: 0 <= k < |wire| ==> wire[k].seqno == wire[k].call % TWO32 && 1 <= wire[k].call <= calls
    }

    /** What holds between calls. */
    ghost predicate Valid()
      reads this, rttinfo
    {
      (rttinit ==> RXTMIN <= rttinfo.rto <= RXTMAX) && WireInv()
    }

    constructor ()
      ensures Valid() && calls == 0 && wire == [] && !rttinit && fresh(rttinfo)
    {
      rttinfo := new RttInfo();
      rttinit, seqno, calls, wire := false, 0, 0, [];
    }

    /** The requests from position `from` on belong to the current call. */
    ghost predicate OwnRequests(from: nat, outbuff: seq<int>)
      reads this, rttinfo
    {
      && from <= |wire|
      && forall k :: from <= k < |wire| ==>
           && wire[k].call == calls && wire[k].data == outbuff && wire[k].seqno == seqno
           && wire[k].ts == rttinfo.Timestamp(wire[k].at)
    }

    /** The estimate a call starts with: the last one, or the initial one at first and after giving up. */
    ghost function StartEstimate(): Est
      reads this, rttinfo
    {
      if rttinit then rttinfo.Estimate() else INITIAL
    }

    ghost function StartTimeout(): real
      reads this, rttinfo
    {
      if rttinit then rttinfo.rto else 3.0
    }

    /** The start of a call: the estimator if needed, a new sequence number, no retransmissions yet. */
    method Begin()
      requires Valid()
      modifies this`rttinit, this`seqno, this`calls, rttinfo
      ensures rttinit && RXTMIN <= rttinfo.rto <= RXTMAX && rttinfo.nrexmt == 0
      ensures rttinfo.Estimate() == old(StartEstimate()) && rttinfo.rto == old(StartTimeout())
      ensures calls == old(calls) + 1 && WireInv() && OwnRequests(|wire|, [])
    {
      if !rttinit {
        var now: nat := *;
        rttinfo.Init(now);
        rttinit := true;
      }
      seqno := (seqno + 1) % TWO32;
      calls := calls + 1;
      rttinfo.NewPack();
    }

    /** One transmission, stamped with the current time. */
    method Transmit(outbuff: seq<int>, ghost from: nat)
      requires WireInv() && calls >= 1 && OwnRequests(from, outbuff)
      modifies this`wire
      ensures WireInv() && OwnRequests(from, outbuff)
      ensures |wire| == |old(wire)| + 1 && old(wire) <= wire && Seqs(wire) == Seqs(old(wire)) + [seqno]
    {
      var now: nat := *;
      wire := wire + [Packet(seqno, rttinfo.Timestamp(now), outbuff, calls, now)];
    }

    /** The matching reply: its time stamp against the clock gives the sample. */
    method Accept(k: nat) returns (sample: nat, end: nat)
      requires k < |wire|
      modifies rttinfo`rtt, rttinfo`srtt, rttinfo`rttvar, rttinfo`rto
      ensures RXTMIN <= rttinfo.rto <= RXTMAX && rttinfo.rtt == sample as real / 1000.0
      ensures rttinfo.Estimate() == Update(old(rttinfo.Estimate()), sample as real / 1000.0)
      ensures wire[k].ts == rttinfo.Timestamp(wire[k].at) ==> sample == (end - wire[k].at) % TWO32
    {
      end := *;
      sample := (rttinfo.Timestamp(end) - wire[k].ts) % TWO32;
      TimestampAge(rttinfo.base, wire[k].at, end);
      rttinfo.Stop(sample);
    }

    /** The receive loop, until a matching reply, the alarm, or the end of the script. */
    method AwaitReply(script: seq<Delivery>) returns (w: Wait, rest: seq<Delivery>)
      ensures Verdict(w, rest) == Judge(script, Seqs(wire), seqno)
      ensures w.Accepted? ==> w.k < |wire| && wire[w.k].seqno == seqno
    {
      var i := 0;
      assert script[0..] == script;
      while i < |script|
        invariant 0 <= i <= |script|
        invariant Judge(script[i..], Seqs(wire), seqno) == Judge(script, Seqs(wire), seqno)
      {
        var d := script[i];
        i := i + 1;
        assert script[i - 1..][1..] == script[i..];
        match d
        case Alarm =>
          return Expired, script[i..];
        case Runt =>
        case Echoed(k, late) =>
          if k < |wire| && wire[k].seqno == seqno {
            return if late then Expired else Accepted(k), script[i..];
          }
      }
      return Patient, [];
    }

    /**
     * From `sendagain` on: transmit, wait, retransmit with a doubled timeout, until a matching
     * reply, the fourth alarm (Expired) or the end of the script.
     */
    method Exchange(outbuff: seq<int>, script: seq<Delivery>, ghost from: nat) returns (w: Wait, timers: seq<int>)
      requires WireInv() && calls >= 1 && from == |wire|
      requires RXTMIN <= rttinfo.rto <= RXTMAX && rttinfo.nrexmt == 0
      modifies this`wire, rttinfo`rto, rttinfo`nrexmt
      ensures WireInv() && old(wire) <= wire && OwnRequests(from, outbuff)
      ensures Played(w, |timers|) == Play(script, Seqs(old(wire)), seqno, 0)
      ensures 1 <= |wire| - from == |timers| <= MAXNREXMT + 1
      ensures Armed(old(rttinfo.rto), timers)
      ensures (forall k :: 0 <= k < |timers| ==> 2 <= timers[k] <= 480) && Total(timers) <= 900
      ensures w.Expired? ==> |timers| == MAXNREXMT + 1
      ensures w.Accepted? ==> w.k < |wire| && wire[w.k].seqno == seqno
    {
      hide Doubled, Round, Total, Armed, Judge, Seqs;
      timers := [];
      ghost var first := rttinfo.rto;
      ArmedNone(first);
      var left := script;
      while true
        invariant WireInv() && old(wire) <= wire && OwnRequests(from, outbuff)
        invariant rttinfo.nrexmt == |timers| == |wire| - from <= MAXNREXMT
        invariant rttinfo.rto == Doubled(first, |timers|) && Armed(first, timers)
        invariant Play(left, Seqs(wire), seqno, |timers|) == Play(script, Seqs(old(wire)), seqno, 0)
        decreases MAXNREXMT - rttinfo.nrexmt
      {
        Transmit(outbuff, from);
        ArmedSnoc(first, timers);
        timers := timers + [rttinfo.Start()];
        ArmedBounds(first, timers);
        w, left := AwaitReply(left);
        if !w.Expired? {
          return;
        }
        DoubledNext(first, |timers| - 1);
        var giveUp := rttinfo.Timeout();
        if giveUp {
          return;
        }
      }
    }

    /**
     * dg_send_recv. The clock is arbitrary, and so is the script of deliveries and alarms. `timers`
     * lists the alarms armed; for a received reply, `reply` is the request it echoes, `end` the true
     * time of acceptance and `sample` the milliseconds handed to the estimator.
     */
    method SendRecv(outbuff: seq<int>, inbytes: nat, script: seq<Delivery>)
        returns (r: Outcome, timers: seq<int>, sample: nat, reply: nat, end: nat)
      requires Valid()
      modifies this, rttinfo
      ensures WireInv() && (!r.Waiting? ==> Valid())
      ensures calls == old(calls) + 1
      // This call sent one to four requests, all with its payload and its sequence number.
      ensures old(wire) <= wire && OwnRequests(|old(wire)|, outbuff)
      ensures 1 <= |wire| - |old(wire)| == |timers| <= MAXNREXMT + 1
      // How it ends, and after how many requests, is what the script says.
      ensures var p := Play(script, Seqs(old(wire)), calls % TWO32, 0);
              && p.sends == |timers|
              && (r.Received? <==> p.wait.Accepted?) && (r.GaveUp? <==> p.wait.Expired?)
              && (r.Received? ==> reply == p.wait.k)
      // Each timer is twice the one before, between 2 and 480 seconds, together at most 900.
      ensures Armed(old(StartTimeout()), timers)
      ensures (forall k :: 0 <= k < |timers| ==> 2 <= timers[k] <= 480) && Total(timers) <= 900
      ensures rttinit <==> !r.GaveUp?
      // An accepted reply has this call's sequence number ...
      ensures r.Received? ==> reply < |wire| && wire[reply].seqno == calls % TWO32
      ensures r.Received? ==> IsReplyTo(r.data, wire[reply].data, inbytes)
      // ... so below 2^32 calls it answers one of this call's own transmissions, and the sample is its age.
      ensures r.Received? && calls < TWO32 ==>
                && |old(wire)| <= reply && IsReplyTo(r.data, outbuff, inbytes)
                && sample == (end - wire[reply].at) % TWO32
      ensures r.Received? ==> rttinfo.Estimate() == Update(old(StartEstimate()), sample as real / 1000.0)
    {
      hide Play, Judge, Armed, Total;
      timers, sample, reply, end := [], 0, 0, 0;
      Begin();
      var w;
      w, timers := Exchange(outbuff, script, |wire|);
      match w
      case Patient =>
        r := Waiting;
      case Expired =>
        rttinit := false;
        r := GaveUp;
      case Accepted(k) =>
        reply := k;
        sample, end := Accept(k);
        if calls < TWO32 {
          SameCall(wire[k].call, calls);
        }
        TwiceCut(wire[k].data, inbytes);
        r := Received(Truncate(Echo(wire[k]), inbytes));
    }

    /**
     * A whole session of fewer than 2^32 calls: whatever the channel does, each reply that is
     * accepted carries the payload of its own call.
     */
    method Session(requests: seq<seq<int>>, inbytes: nat, scripts: seq<seq<Delivery>>) returns (outcomes: seq<Outcome>)
      requires Valid() && calls + |requests| < TWO32 && |scripts| == |requests|
      modifies this, rttinfo
      ensures |outcomes| <= |requests|
      ensures |outcomes| < |requests| ==> outcomes != [] && outcomes[|outcomes| - 1].Waiting?
      ensures forall i :: 0 <= i < |outcomes| && outcomes[i].Received? ==>
                IsReplyTo(outcomes[i].data, requests[i], inbytes)
    {
      hide IsReplyTo, Play;
      outcomes := [];
      while |outcomes| < |requests|
        invariant |outcomes| <= |requests|
        invariant Valid() && calls == old(calls) + |outcomes|
        invariant forall i :: 0 <= i < |outcomes| && outcomes[i].Received? ==>
                    IsReplyTo(outcomes[i].data, requests[i], inbytes)
      {
        var i := |outcomes|;
        var r, timers, sample, reply, end := SendRecv(requests[i], inbytes, scripts[i]);
        outcomes := outcomes + [r];
        if r.Waiting? {
          return;
        }
      }
    }
  }
}
