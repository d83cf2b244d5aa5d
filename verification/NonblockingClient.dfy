/**
 * The nonblocking str_cli: one select loop copies stdin to the socket and the socket to stdout
 * through two buffers with an input and an output pointer each.
 * Source: unpv13e/nonblock/strclinonb.c.
 */
module NonblockingClient {
  import opened Counting

  const MAXLINE := 4096

  /** What the loop does to the socket's sending side. */
  datatype Action = Wrote(bytes: seq<int>) | Fin

  function Payload(acts: seq<Action>): seq<int>
  {
    if acts == [] then []
    else Payload(acts[..|acts| - 1]) + match acts[|acts| - 1] case Wrote(b) => b case Fin => []
  }

  function Fins(acts: seq<Action>): nat
  {
    if acts == [] then 0
    else Fins(acts[..|acts| - 1]) + if acts[|acts| - 1].Fin? then 1 else 0
  }

  lemma {:induction false} Snoc(acts: seq<Action>, a: Action)
    ensures Payload(acts + [a]) == Payload(acts) + match a case Wrote(b) => b case Fin => []
    ensures Fins(acts + [a]) == Fins(acts) + if a.Fin? then 1 else 0
  {
    assert (acts + [a])[..|acts|] == acts;
  }

  /** No byte is written after the FIN. */
  ghost predicate NothingAfterFin(acts: seq<Action>)
  {
    forall i :: 0 <= i < |acts| - 1 ==> !acts[i].Fin?
  }

  lemma {:induction false} NoFinYet(acts: seq<Action>)
    requires Fins(acts) == 0
    ensures forall i :: 0 <= i < |acts| ==> !acts[i].Fin?
  {
    if acts != [] {
      NoFinYet(acts[..|acts| - 1]);
    }
  }

  lemma {:induction false} MoveBoundary(p: seq<int>, w: seq<int>, n: nat)
    requires n <= |w|
    ensures p + w == (p + w[..n]) + w[n..]
  {
  }

  /** What the kernel answers to a read: the bytes it offers are cut to the room in the buffer. */
  datatype Answer = WouldBlock | Failed | Eof | Data(first: int, rest: seq<int>)

  function Delivered(a: Answer, room: nat): (data: seq<int>)
    requires room > 0
    ensures if a.Data?
            then data <= [a.first] + a.rest && 1 <= |data| <= room && (|data| == 1 + |a.rest| || |data| == room)
            else data == []
  {
    match a
    case Data(first, rest) => var offer := [first] + rest; if |offer| <= room then offer else offer[..room]
    case _ => []
  }

  /** The socket's side of one write: n bytes of the window, then FIN if that was all there will ever be. */
  function Sent(acts: seq<Action>, window: seq<int>, n: nat, stdineof: bool): seq<Action>
    requires n <= |window|
  {
    if stdineof && n == |window| then acts + [Wrote(window[..n])] + [Fin] else acts + [Wrote(window[..n])]
  }

  /** What the kernel answers to a write: it takes n bytes or as many as there are. */
  datatype Taken = WWouldBlock | WFailed | Took(n: nat)

  function Accepted(t: Taken, window: nat): (n: nat)
    ensures n <= window
    ensures if t.Took? then n <= t.n && (n == t.n || n == window) else n == 0
  {
    if t.Took? then (if t.n <= window then t.n else window) else 0
  }

  /** The kernel's part in one pass: what select reports and how the calls are answered. */
  datatype Kernel = Kernel(
    stdinReady: bool, socketReadable: bool, socketWritable: bool, stdoutReady: bool,
    stdin: Answer, socket: Answer, toStdout: Taken, toSocket: Taken)

  datatype Status =
    | Running
    | Returned    // "normal termination"
    | Died        // err_sys or err_quit

  // ----- what the loop does, on values -----

  /**
   * The two pending windows with the fill of their buffers, and the histories: bytes read from
   * stdin and from the socket, bytes written to stdout, and what was done to the socket.
   */
  datatype Flow = Flow(
    up: seq<int>, toi: nat, down: seq<int>, fri: nat, stdineof: bool,
    typed: seq<int>, received: seq<int>, shown: seq<int>, acts: seq<Action>)

  datatype Outcome = Outcome(flow: Flow, status: Status)

  function AfterStdin(f: Flow, res: Answer): Flow
    requires f.toi < MAXLINE
  {
    match res
    case Eof => f.(stdineof := true, acts := if f.up == [] then f.acts + [Fin] else f.acts)
    case _ =>
      var data := Delivered(res, MAXLINE - f.toi);
      f.(up := f.up + data, toi := f.toi + |data|, typed := f.typed + data)
  }

  function AfterSocket(f: Flow, res: Answer): Flow
    requires f.fri < MAXLINE
  {
    var data := Delivered(res, MAXLINE - f.fri);
    f.(down := f.down + data, fri := f.fri + |data|, received := f.received + data)
  }

  function SocketStatus(stdineof: bool, res: Answer): Status
  {
    if res.Failed? then Died else if !res.Eof? then Running else if stdineof then Returned else Died
  }

  function AfterStdout(f: Flow, res: Taken): Flow
  {
    var n := Accepted(res, |f.down|);
    f.(down := f.down[n..], fri := if n == |f.down| then 0 else f.fri, shown := f.shown + f.down[..n])
  }

  function AfterSend(f: Flow, res: Taken): Flow
  {
    if !res.Took? then f
    else
      var n := Accepted(res, |f.up|);
      f.(up := f.up[n..], toi := if n == |f.up| then 0 else f.toi, acts := Sent(f.acts, f.up, n, f.stdineof))
  }

  function WriteStatus(res: Taken): Status
  {
    if res.WFailed? then Died else Running
  }

  /** The two reads; a failing one ends the program before the next. */
  function ReadsFlow(f: Flow, rStdin: bool, rSock: bool, k: Kernel): Outcome
    requires (rStdin ==> f.toi < MAXLINE) && (rSock ==> f.fri < MAXLINE)
  {
    if rStdin && k.stdin.Failed? then Outcome(f, Died)
    else
      var g := if rStdin then AfterStdin(f, k.stdin) else f;
      if rSock then Outcome(AfterSocket(g, k.socket), SocketStatus(g.stdineof, k.socket)) else Outcome(g, Running)
  }

  /** The two writes, each only of a nonempty window. */
  function WritesFlow(f: Flow, wStdout: bool, wSock: bool, k: Kernel): Outcome
  {
    var out := wStdout && f.down != [];
    if out && k.toStdout.WFailed? then Outcome(f, Died)
    else
      var g := if out then AfterStdout(f, k.toStdout) else f;
      if wSock && g.up != [] then Outcome(AfterSend(g, k.toSocket), WriteStatus(k.toSocket)) else Outcome(g, Running)
  }

  /** One pass of the loop. What was read is tried for writing at once. */
  function PassFlow(f: Flow, k: Kernel): Outcome
    requires f.toi <= MAXLINE && f.fri <= MAXLINE
  {
    var rStdin := k.stdinReady && !f.stdineof && f.toi < MAXLINE;
    var rSock := k.socketReadable && f.fri < MAXLINE;
    var r := ReadsFlow(f, rStdin, rSock, k);
    if !r.status.Running? then r
    else
      WritesFlow(r.flow, (k.stdoutReady && f.down != []) || (rSock && k.socket.Data?),
                 (k.socketWritable && f.up != []) || (rStdin && k.stdin.Data?), k)
  }

  /** Passes until one of them ends the program. */
  ghost function RunFlow(f: Flow, ks: seq<Kernel>): Outcome
    requires Inv(f)
    decreases |ks|
  {
    if ks == [] then Outcome(f, Running)
    else
      PassKeeps(f, ks[0]);
      var r := PassFlow(f, ks[0]);
      if r.status.Running? then RunFlow(r.flow, ks[1..]) else r
  }

  // ----- what every pass keeps -----

  /**
   * Nothing is lost in either direction, an empty window is rewound, and FIN goes out once, exactly
   * when stdin has ended and all of it is written, with nothing after it.
   */
  ghost predicate Inv(f: Flow)
  {
    && |f.up| <= f.toi <= MAXLINE && (f.up == [] ==> f.toi == 0)
    && |f.down| <= f.fri <= MAXLINE && (f.down == [] ==> f.fri == 0)
    && f.typed == Payload(f.acts) + f.up
    && Fins(f.acts) == (if f.stdineof && f.up == [] then 1 else 0)
    && NothingAfterFin(f.acts)
    && f.received == f.shown + f.down
  }

  lemma {:induction false} StdinKeeps(f: Flow, res: Answer)
    requires Inv(f) && !f.stdineof && f.toi < MAXLINE
    ensures Inv(AfterStdin(f, res))
  {
    hide Payload, Fins;
    NoFinYet(f.acts);
    if res.Eof? {
      Snoc(f.acts, Fin);
      assert Payload(f.acts) + [] == Payload(f.acts);
    } else {
      Regroup(Payload(f.acts), f.up, Delivered(res, MAXLINE - f.toi));
    }
  }

  lemma {:induction false} SocketKeeps(f: Flow, res: Answer)
    requires Inv(f) && f.fri < MAXLINE
    ensures Inv(AfterSocket(f, res))
  {
    hide Payload, Fins;
    Regroup(f.shown, f.down, Delivered(res, MAXLINE - f.fri));
  }

  lemma {:induction false} StdoutKeeps(f: Flow, res: Taken)
    requires Inv(f) && f.down != []
    ensures Inv(AfterStdout(f, res))
  {
    hide Payload, Fins;
    MoveBoundary(f.shown, f.down, Accepted(res, |f.down|));
  }

  lemma {:induction false} SendKeeps(f: Flow, res: Taken)
    requires Inv(f) && f.up != []
    ensures Inv(AfterSend(f, res))
  {
    hide Payload, Fins;
    if res.Took? {
      var n := Accepted(res, |f.up|);
      var wrote := f.acts + [Wrote(f.up[..n])];
      NoFinYet(f.acts);
      Snoc(f.acts, Wrote(f.up[..n]));
      Snoc(wrote, Fin);
      MoveBoundary(Payload(f.acts), f.up, n);
      assert Payload(wrote) + [] == Payload(wrote);
    }
  }

  lemma {:induction false} ReadsKeep(f: Flow, rStdin: bool, rSock: bool, k: Kernel)
    requires Inv(f) && (rStdin ==> !f.stdineof && f.toi < MAXLINE) && (rSock ==> f.fri < MAXLINE)
    ensures Inv(ReadsFlow(f, rStdin, rSock, k).flow)
  {
    hide Inv, Delivered;
    var g := if rStdin then AfterStdin(f, k.stdin) else f;
    if rStdin {
      StdinKeeps(f, k.stdin);
    }
    if rSock {
      SocketKeeps(g, k.socket);
    }
  }

  lemma {:induction false} WritesKeep(f: Flow, wStdout: bool, wSock: bool, k: Kernel)
    requires Inv(f)
    ensures Inv(WritesFlow(f, wStdout, wSock, k).flow)
  {
    hide Inv, Accepted, Sent;
    var out := wStdout && f.down != [];
    var g := if out then AfterStdout(f, k.toStdout) else f;
    if out {
      StdoutKeeps(f, k.toStdout);
    }
    if wSock && g.up != [] {
      SendKeeps(g, k.toSocket);
    }
  }

  /** Select is never called with nothing to wait for, and whatever it answers, a pass keeps the invariant. */
  lemma {:induction false} PassKeeps(f: Flow, k: Kernel)
    requires Inv(f)
    ensures (!f.stdineof && f.toi < MAXLINE) || f.fri < MAXLINE || f.up != [] || f.down != []
    ensures Inv(PassFlow(f, k).flow)
    ensures PassFlow(f, k).status.Returned? ==> PassFlow(f, k).flow.stdineof
  {
    hide AfterStdin, AfterSocket, AfterStdout, AfterSend, Payload, Fins, NothingAfterFin;
    var rStdin := k.stdinReady && !f.stdineof && f.toi < MAXLINE;
    var rSock := k.socketReadable && f.fri < MAXLINE;
    ReadsKeep(f, rStdin, rSock, k);
    var r := ReadsFlow(f, rStdin, rSock, k);
    WritesKeep(r.flow, (k.stdoutReady && f.down != []) || (rSock && k.socket.Data?),
               (k.socketWritable && f.up != []) || (rStdin && k.stdin.Data?), k);
    SocketLeavesEof(r.flow, rStdin, rSock, f, k);
  }

  lemma {:induction false} SocketLeavesEof(g: Flow, rStdin: bool, rSock: bool, f: Flow, k: Kernel)
    requires (rStdin ==> f.toi < MAXLINE) && (rSock ==> f.fri < MAXLINE)
    requires g == ReadsFlow(f, rStdin, rSock, k).flow
    ensures ReadsFlow(f, rStdin, rSock, k).status.Returned? ==> g.stdineof
  {
  }

  // ----- what a pass moves -----

  /** What one pass reads from stdin and from the socket, when the buffers are filled up to toi and fri. */
  function Typed(k: Kernel, toi: nat, stdineof: bool): seq<int>
    requires toi <= MAXLINE
  {
    if k.stdinReady && !stdineof && toi < MAXLINE then Delivered(k.stdin, MAXLINE - toi) else []
  }

  function Incoming(k: Kernel, fri: nat): seq<int>
    requires fri <= MAXLINE
  {
    if k.socketReadable && fri < MAXLINE then Delivered(k.socket, MAXLINE - fri) else []
  }

  /** The socket's side after a pass: FIN if stdin ended with nothing to write, or a write of part of the window. */
  function SocketSide(acts: seq<Action>, window: seq<int>, eofNow: bool, stdineof: bool, write: bool,
                      res: Taken): seq<Action>
  {
    if eofNow && window == [] then acts + [Fin]
    else if write && res.Took? && window != [] then Sent(acts, window, Accepted(res, |window|), stdineof)
    else acts
  }

  /** Exactly what one pass that goes on reads, writes and sends. */
  lemma {:induction false} PassMoves(f: Flow, k: Kernel)
    requires f.toi <= MAXLINE && f.fri <= MAXLINE
    ensures var g, up, down := PassFlow(f, k).flow, Typed(k, f.toi, f.stdineof), Incoming(k, f.fri);
            && g.typed == f.typed + up
            && g.stdineof == (f.stdineof || (k.stdinReady && f.toi < MAXLINE && k.stdin.Eof?))
            && (PassFlow(f, k).status.Running? ==>
                  && g.received == f.received + down
                  && g.shown == f.shown + (if (k.stdoutReady && f.down != []) || down != []
                                           then (f.down + down)[..Accepted(k.toStdout, |f.down + down|)] else [])
                  && g.acts == SocketSide(f.acts, f.up + up, g.stdineof && !f.stdineof, g.stdineof,
                                          (k.socketWritable && f.up != []) || up != [], k.toSocket))
  {
    hide Sent, Accepted, Delivered, AfterStdin, AfterSocket, AfterStdout, AfterSend;
    var rStdin := k.stdinReady && !f.stdineof && f.toi < MAXLINE;
    var rSock := k.socketReadable && f.fri < MAXLINE;
    assert f.typed + [] == f.typed && f.received + [] == f.received && f.shown + [] == f.shown;
    assert f.up + [] == f.up && f.down + [] == f.down;
    ReadsMove(f, rStdin, rSock, k);
    var r := ReadsFlow(f, rStdin, rSock, k);
    WritesMove(r.flow, (k.stdoutReady && f.down != []) || (rSock && k.socket.Data?),
               (k.socketWritable && f.up != []) || (rStdin && k.stdin.Data?), k);
    hide ReadsFlow, WritesFlow;
  }

  lemma {:induction false} ReadsMove(f: Flow, rStdin: bool, rSock: bool, k: Kernel)
    requires (rStdin ==> f.toi < MAXLINE) && (rSock ==> f.fri < MAXLINE)
    ensures var r := ReadsFlow(f, rStdin, rSock, k);
            var up := if rStdin then Delivered(k.stdin, MAXLINE - f.toi) else [];
            var down := if rSock && !(rStdin && k.stdin.Failed?) then Delivered(k.socket, MAXLINE - f.fri) else [];
            && r.flow.typed == f.typed + up && r.flow.up == f.up + up
            && r.flow.received == f.received + down && r.flow.down == f.down + down
            && r.flow.stdineof == (f.stdineof || (rStdin && k.stdin.Eof?)) && r.flow.shown == f.shown
            && r.flow.acts == (if rStdin && k.stdin.Eof? && f.up == [] then f.acts + [Fin] else f.acts)
            && (r.status.Running? ==> !(rStdin && k.stdin.Failed?))
  {
    assert f.typed + [] == f.typed && f.received + [] == f.received && f.up + [] == f.up && f.down + [] == f.down;
  }

  lemma {:induction false} WritesMove(f: Flow, wStdout: bool, wSock: bool, k: Kernel)
    ensures var r := WritesFlow(f, wStdout, wSock, k);
            && r.flow.typed == f.typed && r.flow.stdineof == f.stdineof && r.flow.received == f.received
            && r.flow.shown == f.shown + (if wStdout then f.down[..Accepted(k.toStdout, |f.down|)] else [])
            && (r.status.Running? ==> r.flow.acts == SocketSide(f.acts, f.up, false, f.stdineof, wSock, k.toSocket))
  {
    assert f.shown + [] == f.shown;
  }

  /** Whether a pass reads stdin, reads the socket, and has bytes for stdout and for the socket to write. */
  predicate AsksStdin(f: Flow, k: Kernel) { k.stdinReady && !f.stdineof && f.toi < MAXLINE }

  predicate AsksSocket(f: Flow, k: Kernel) { k.socketReadable && f.fri < MAXLINE }

  predicate WritesOut(f: Flow, k: Kernel)
  {
    (k.stdoutReady && f.down != []) || (AsksSocket(f, k) && k.socket.Data?)
  }

  predicate WritesUp(f: Flow, k: Kernel)
  {
    (k.socketWritable && f.up != []) || (AsksStdin(f, k) && k.stdin.Data?)
  }

  /** End of file from the socket, in a pass that reads it and has not failed on stdin before. */
  predicate SocketEnds(f: Flow, k: Kernel)
  {
    AsksSocket(f, k) && k.socket.Eof? && !(AsksStdin(f, k) && k.stdin.Failed?)
  }

  /** Stdin has ended, before this pass or in it. */
  predicate StdinEnded(f: Flow, k: Kernel)
  {
    f.stdineof || (AsksStdin(f, k) && k.stdin.Eof?)
  }

  /** A read that fails, or a write of a nonempty window that does. */
  predicate CallFails(f: Flow, k: Kernel)
  {
    || (AsksStdin(f, k) && k.stdin.Failed?)
    || (AsksSocket(f, k) && k.socket.Failed?)
    || (WritesOut(f, k) && k.toStdout.WFailed? && !SocketEnds(f, k))
    || (WritesUp(f, k) && k.toSocket.WFailed? && !SocketEnds(f, k))
  }

  /**
   * How a pass ends: it returns if and only if the socket ended after stdin had; it dies if and only
   * if a call failed or the socket ended before stdin; otherwise the loop goes on.
   */
  lemma {:induction false} PassEnds(f: Flow, k: Kernel)
    requires Inv(f)
    ensures var st := PassFlow(f, k).status;
            && (st.Returned? <==> SocketEnds(f, k) && StdinEnded(f, k))
            && (st.Died? <==> CallFails(f, k) || (SocketEnds(f, k) && !StdinEnded(f, k)))
  {
    hide Payload, Fins, NothingAfterFin, Sent, Delivered, Accepted;
    ReadsMove(f, AsksStdin(f, k), AsksSocket(f, k), k);
    ReadsStatus(f, AsksStdin(f, k), AsksSocket(f, k), k);
    hide ReadsFlow, WritesFlow;
    var r := ReadsFlow(f, AsksStdin(f, k), AsksSocket(f, k), k);
    if r.status.Running? {
      WritesStatus(r.flow, WritesOut(f, k), WritesUp(f, k), k);
    }
  }

  lemma {:induction false} ReadsStatus(f: Flow, rStdin: bool, rSock: bool, k: Kernel)
    requires (rStdin ==> f.toi < MAXLINE) && (rSock ==> f.fri < MAXLINE)
    ensures var st := ReadsFlow(f, rStdin, rSock, k).status;
            var ended := f.stdineof || (rStdin && k.stdin.Eof?);
            if rStdin && k.stdin.Failed? then st.Died?
            else if rSock && k.socket.Failed? then st.Died?
            else if rSock && k.socket.Eof? then (if ended then st.Returned? else st.Died?)
            else st.Running?
    ensures rStdin && k.stdin.Data? ==> ReadsFlow(f, rStdin, rSock, k).flow.up != []
    ensures rSock && k.socket.Data? && !(rStdin && k.stdin.Failed?) ==> ReadsFlow(f, rStdin, rSock, k).flow.down != []
  {
  }

  lemma {:induction false} WritesStatus(f: Flow, wStdout: bool, wSock: bool, k: Kernel)
    requires (wStdout ==> f.down != []) && (wSock ==> f.up != [])
    ensures var st := WritesFlow(f, wStdout, wSock, k).status;
            if (wStdout && k.toStdout.WFailed?) || (wSock && k.toSocket.WFailed?) then st.Died? else st.Running?
  {
  }

  /**
   * What is ready moves: bytes offered on stdin are read when there is room, bytes offered on the
   * socket too, and a pending window shrinks when its writer takes bytes.
   */
  lemma {:induction false} PassProgresses(f: Flow, k: Kernel)
    requires Inv(f)
    ensures var r := PassFlow(f, k);
            && (AsksStdin(f, k) && k.stdin.Data? ==> |r.flow.typed| > |f.typed|)
            && (r.status.Running? ==>
                  && (AsksSocket(f, k) && k.socket.Data? ==> |r.flow.received| > |f.received|)
                  && (k.stdoutReady && f.down != [] && k.toStdout.Took? && k.toStdout.n > 0 ==>
                        |r.flow.shown| > |f.shown|)
                  && (k.socketWritable && f.up != [] && k.toSocket.Took? && k.toSocket.n > 0 ==>
                        |r.flow.acts| > |f.acts|))
  {
    PassMoves(f, k);
    hide PassFlow, Payload, Fins, NothingAfterFin, Delivered;
    assert Typed(k, f.toi, f.stdineof) == [] || AsksStdin(f, k);
  }

  // ----- what a run achieves -----

  /** A run is its passes one after the other, up to one that ends the program. */
  lemma {:induction false} RunIsPasses(f: Flow, ks: seq<Kernel>, k: Kernel)
    requires Inv(f)
    ensures Inv(RunFlow(f, ks).flow)
    ensures RunFlow(f, []) == Outcome(f, Running)
    ensures RunFlow(f, ks + [k]) ==
            if RunFlow(f, ks).status.Running? then PassFlow(RunFlow(f, ks).flow, k) else RunFlow(f, ks)
    decreases |ks|
  {
    hide PassFlow, Payload, Fins;
    PassKeeps(f, if ks == [] then k else ks[0]);
    if ks == [] {
      assert ks + [k] == [k];
    } else {
      assert (ks + [k])[1..] == ks[1..] + [k];
      var p := PassFlow(f, ks[0]);
      if p.status.Running? {
        RunIsPasses(p.flow, ks[1..], k);
      }
    }
  }

  /** The whole run's end, by the pass that ended it. */
  lemma {:induction false} RunEnds(f: Flow, ks: seq<Kernel>)
    requires Inv(f)
    ensures var r := RunFlow(f, ks);
            !r.status.Running? ==>
              exists i, g :: 0 <= i < |ks| && Inv(g) && RunFlow(f, ks[..i]) == Outcome(g, Running) &&
                r == PassFlow(g, ks[i]) &&
                (r.status.Returned? <==> SocketEnds(g, ks[i]) && StdinEnded(g, ks[i])) &&
                (r.status.Died? <==> CallFails(g, ks[i]) || (SocketEnds(g, ks[i]) && !StdinEnded(g, ks[i])))
    decreases |ks|
  {
    hide PassFlow, Payload, Fins, SocketEnds, StdinEnded, CallFails;
    if ks != [] {
      PassKeeps(f, ks[0]);
      PassEnds(f, ks[0]);
      var p := PassFlow(f, ks[0]);
      if p.status.Running? {
        RunEnds(p.flow, ks[1..]);
        if !RunFlow(f, ks).status.Running? {
          var i, g :| 0 <= i < |ks[1..]| && Inv(g) && RunFlow(p.flow, ks[1..][..i]) == Outcome(g, Running) &&
            RunFlow(p.flow, ks[1..]) == PassFlow(g, ks[1..][i]);
          assert ks[..i + 1][0] == ks[0] && ks[..i + 1][1..] == ks[1..][..i];
          assert ks[i + 1] == ks[1..][i];
          PassEnds(g, ks[i + 1]);
          assert RunFlow(f, ks[..i + 1]) == Outcome(g, Running);
        }
      } else {
        assert ks[..0] == [] && RunFlow(f, []) == Outcome(f, Running);
      }
    }
  }

  /**
   * Runs of any length, whatever the kernel does: stdout gets a prefix of what the socket delivered,
   * the socket a prefix of stdin; at most one FIN, when stdin has ended and the socket has all of it.
   */
  lemma {:induction false} RunKeeps(f: Flow, ks: seq<Kernel>)
    requires Inv(f)
    ensures var r := RunFlow(f, ks);
            && Inv(r.flow)
            && r.flow.shown <= r.flow.received && Payload(r.flow.acts) <= r.flow.typed
            && Fins(r.flow.acts) <= 1
            && (Fins(r.flow.acts) == 1 ==> r.flow.stdineof && Payload(r.flow.acts) == r.flow.typed)
            && (r.status.Returned? ==> r.flow.stdineof)
    decreases |ks|
  {
    hide PassFlow, Payload, Fins;
    if ks != [] {
      PassKeeps(f, ks[0]);
      var r := PassFlow(f, ks[0]);
      if r.status.Running? {
        RunKeeps(r.flow, ks[1..]);
      }
    }
  }

  // ----- the two buffers in place -----

  /** What read leaves in a buffer behind its input pointer. */
  method Fill(buf: array<int>, ghost first: nat, at: nat, data: seq<int>)
    requires first <= at && at + |data| <= buf.Length
    modifies buf
    ensures buf[first..at + |data|] == old(buf[first..at]) + data
  {
    forall k | 0 <= k < |data| {
      buf[at + k] := data[k];
    }
  }

  class StrCli {
    const to: array<int>
    const fr: array<int>
    var toi: nat
    var too: nat
    var fri: nat
    var fro: nat
    var stdineof: bool
    ghost var typed: seq<int>
    ghost var received: seq<int>
    ghost var shown: seq<int>
    ghost var acts: seq<Action>

    ghost predicate Pointers()
      reads this`toi, this`too, this`fri, this`fro
    {
      to != fr && to.Length == fr.Length == MAXLINE && too <= toi <= MAXLINE && fro <= fri <= MAXLINE
    }

    ghost function View(): Flow
      requires Pointers()
      reads this, to, fr
    {
      Flow(to[too..toi], toi, fr[fro..fri], fri, stdineof, typed, received, shown, acts)
    }

    ghost predicate Valid()
      reads this, to, fr
    {
      Pointers() && Inv(View())
    }

    constructor ()
      ensures Valid() && fresh(to) && fresh(fr)
      ensures View() == Flow([], 0, [], 0, false, [], [], [], [])
    {
      to := new int[MAXLINE];
      fr := new int[MAXLINE];
      toi, too, fri, fro, stdineof := 0, 0, 0, 0, false;
      typed, received, shown, acts := [], [], [], [];
    }

    /** Lines 43-61: one read from stdin, answered by the kernel with `res`. */
    method ReadStdin(res: Answer) returns (st: Status, gotData: bool)
      requires Pointers() && toi < MAXLINE
      modifies this`toi, this`stdineof, this`typed, this`acts, to
      ensures Pointers() && View() == AfterStdin(old(View()), res)
      ensures st == (if res.Failed? then Died else Running) && (gotData <==> res.Data?)
    {
      hide Delivered;
      assert typed + [] == typed && to[too..toi] + [] == to[too..toi];
      gotData := false;
      st := Running;
      match res
      case Failed =>
        st := Died;
      case WouldBlock =>
      case Eof =>
        stdineof := true;
        if too == toi {
          acts := acts + [Fin];
        }
      case Data(_, _) =>
        var data := Delivered(res, MAXLINE - toi);
        Fill(to, too, toi, data);
        toi := toi + |data|;
        typed := typed + data;
        gotData := true;
    }

    /** Lines 65-84: one read from the socket. End of file is the normal return only after stdin has ended. */
    method ReadSocket(res: Answer) returns (st: Status, gotData: bool)
      requires Pointers() && fri < MAXLINE
      modifies this`fri, this`received, fr
      ensures Pointers() && View() == AfterSocket(old(View()), res)
      ensures st == SocketStatus(stdineof, res) && (gotData <==> res.Data?)
    {
      hide Delivered;
      assert received + [] == received && fr[fro..fri] + [] == fr[fro..fri];
      gotData := false;
      st := Running;
      match res
      case Failed =>
        st := Died;
      case WouldBlock =>
      case Eof =>
        st := if stdineof then Returned else Died;
      case Data(_, _) =>
        var data := Delivered(res, MAXLINE - fri);
        Fill(fr, fro, fri, data);
        fri := fri + |data|;
        received := received + data;
        gotData := true;
    }

    /** Lines 90-102: one write to stdout of the whole window, of which the kernel takes a part. */
    method WriteStdout(res: Taken) returns (st: Status)
      requires Pointers() && fro < fri
      modifies this`fro, this`fri, this`shown
      ensures Pointers() && View() == AfterStdout(old(View()), res)
      ensures st == WriteStatus(res)
    {
      ghost var window := fr[fro..fri];
      st := if res.WFailed? then Died else Running;
      if res.Took? {
        var n := Accepted(res, fri - fro);
        assert window[..n] == fr[fro..fro + n] && window[n..] == fr[fro + n..fri];
        shown := shown + fr[fro..fro + n];
        fro := fro + n;
        if fro == fri {
          fro, fri := 0, 0;
        }
      } else {
        assert shown + window[..0] == shown && window[0..] == window;
      }
    }

    /** Lines 106-121. When the window drains after the end of stdin the FIN goes out. */
    method WriteSocket(res: Taken) returns (st: Status)
      requires Pointers() && too < toi
      modifies this`too, this`toi, this`acts
      ensures Pointers() && View() == AfterSend(old(View()), res)
      ensures st == WriteStatus(res)
    {
      ghost var window := to[too..toi];
      st := if res.WFailed? then Died else Running;
      if res.Took? {
        var n := Accepted(res, toi - too);
        assert window[..n] == to[too..too + n] && window[n..] == to[too + n..toi];
        acts := acts + [Wrote(to[too..too + n])];
        too := too + n;
        if too == toi {
          toi, too := 0, 0;
          if stdineof {
            acts := acts + [Fin];
          }
        }
      }
    }

    /** Lines 42-86: the two reads, each only if reported ready. They may ask for a write below. */
    method Reads(rStdin: bool, rSock: bool, k: Kernel) returns (st: Status, typedMore: bool, receivedMore: bool)
      requires Pointers() && (rStdin ==> toi < MAXLINE) && (rSock ==> fri < MAXLINE)
      modifies this`toi, this`stdineof, this`typed, this`acts, this`fri, this`received, to, fr
      ensures Pointers() && Outcome(View(), st) == ReadsFlow(old(View()), rStdin, rSock, k)
      ensures typedMore <==> rStdin && k.stdin.Data?
      ensures st.Running? ==> (receivedMore <==> rSock && k.socket.Data?)
    {
      hide AfterStdin, AfterSocket;
      typedMore, receivedMore := false, false;
      st := Running;
      if rStdin {
        if k.stdin.Failed? {
          FailureChangesNothing(View(), k.stdin);
        }
        st, typedMore := ReadStdin(k.stdin);
        if st.Died? {
          return;
        }
      }
      if rSock {
        st, receivedMore := ReadSocket(k.socket);
      }
    }

    /** Lines 89-122: the two writes. */
    method Writes(wStdout: bool, wSock: bool, k: Kernel) returns (st: Status)
      requires Pointers()
      modifies this`too, this`toi, this`acts, this`fro, this`fri, this`shown
      ensures Pointers() && Outcome(View(), st) == WritesFlow(old(View()), wStdout, wSock, k)
    {
      hide AfterStdout, AfterSend;
      st := Running;
      if wStdout && fri - fro > 0 {
        if !k.toStdout.Took? {
          FailureWritesNothing(View(), k.toStdout);
        }
        st := WriteStdout(k.toStdout);
        if st.Died? {
          return;
        }
      }
      if wSock && toi - too > 0 {
        st := WriteSocket(k.toSocket);
      }
    }

    /**
     * One pass of the loop, lines 28-122, for an arbitrary kernel. Select may report any part of
     * what was asked for; it is never called with nothing to wait for, and no read is issued
     * without room.
     */
    method Pass(k: Kernel) returns (st: Status)
      requires Valid()
      modifies this, to, fr
      ensures Valid() && Outcome(View(), st) == PassFlow(old(View()), k)
    {
      hide ReadsFlow, WritesFlow, Payload, Fins, NothingAfterFin;
      PassKeeps(View(), k);
      var rStdin := !stdineof && toi < MAXLINE;
      var rSock := fri < MAXLINE;
      var wSock := too != toi;
      var wStdout := fro != fri;
      assert rStdin || rSock || wSock || wStdout;
      rStdin, rSock := rStdin && k.stdinReady, rSock && k.socketReadable;
      wSock, wStdout := wSock && k.socketWritable, wStdout && k.stdoutReady;
      var typedMore, receivedMore;
      st, typedMore, receivedMore := Reads(rStdin, rSock, k);
      if st.Running? {
        st := Writes(wStdout || receivedMore, wSock || typedMore, k);
      }
    }

    /** The loop, for as many passes as the kernel's script has or until one of them ends the program. */
    method Run(kernel: seq<Kernel>) returns (st: Status)
      requires Valid()
      modifies this, to, fr
      ensures Valid() && Outcome(View(), st) == RunFlow(old(View()), kernel)
      ensures shown <= received && Payload(acts) <= typed
      ensures Fins(acts) <= 1 && (Fins(acts) == 1 ==> stdineof && Payload(acts) == typed)
      ensures st.Returned? ==> stdineof
    {
      hide PassFlow, Payload, Fins, NothingAfterFin;
      RunKeeps(View(), kernel);
      st := Running;
      var k := 0;
      assert kernel[0..] == kernel;
      while k < |kernel| && st.Running?
        invariant 0 <= k <= |kernel| && Valid()
        invariant RunFlow(old(View()), kernel) ==
                  if st.Running? then RunFlow(View(), kernel[k..]) else Outcome(View(), st)
      {
        assert kernel[k..][1..] == kernel[k + 1..];
        st := Pass(kernel[k]);
        k := k + 1;
      }
    }
  }

  /** A failed read changes nothing. */
  lemma {:induction false} FailureChangesNothing(f: Flow, res: Answer)
    requires f.toi < MAXLINE && res.Failed?
    ensures AfterStdin(f, res) == f
  {
    assert f.up + [] == f.up && f.typed + [] == f.typed;
  }

  lemma {:induction false} FailureWritesNothing(f: Flow, res: Taken)
    requires f.down != [] && !res.Took?
    ensures AfterStdout(f, res) == f
  {
    assert f.down[0..] == f.down && f.shown + f.down[..0] == f.shown;
  }
}
