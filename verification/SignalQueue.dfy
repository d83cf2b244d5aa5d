/**
 * The UDP echo server driven by SIGIO: the signal handler reads datagrams into a ring of eight
 * slots, the main loop sends them back and unblocks SIGIO only around the send.
 * Source: unpv13e/sigio/dgecho01.c.
 */
module SignalQueue {
  import opened Counting
  import opened Ring

  const QSIZE := 8

  datatype Datagram = Datagram(data: seq<int>, from: int)

  /** Consecutive puts starting at slot `at`. */
  function StoreAll(slots: seq<Datagram>, at: nat, ds: seq<Datagram>): (r: seq<Datagram>)
    requires |slots| == QSIZE && at < QSIZE
    ensures |r| == QSIZE
    decreases |ds|
  {
    if ds == [] then slots else StoreAll(slots[at := ds[0]], Next(at, QSIZE), ds[1..])
  }

  lemma {:induction false} StoreAllSnoc(slots: seq<Datagram>, k: nat, ds: seq<Datagram>, d: Datagram)
    requires |slots| == QSIZE
    ensures StoreAll(slots, Slot(k, QSIZE), ds + [d]) == StoreAll(slots, Slot(k, QSIZE), ds)[Slot(k + |ds|, QSIZE) := d]
    decreases |ds|
  {
    hide Slot;
    if ds == [] {
      assert (ds + [d])[1..] == [];
    } else {
      SlotNext(k, QSIZE);
      assert (ds + [d])[1..] == ds[1..] + [d];
      StoreAllSnoc(slots[Slot(k, QSIZE) := ds[0]], k + 1, ds[1..], d);
    }
  }

  /** The ring holds the datagrams of `xs` from position lo on. */
  ghost predicate Holds(slots: seq<Datagram>, xs: seq<Datagram>, lo: int)
  {
    |slots| == QSIZE && 0 <= lo && forall k :: lo <= k < |xs| ==> slots[Slot(k, QSIZE)] == xs[k]
  }

  /** Puts that fit keep what the ring held and add themselves behind it. */
  lemma {:induction false} StoreAllHolds(slots: seq<Datagram>, xs: seq<Datagram>, lo: nat, ds: seq<Datagram>)
    requires Holds(slots, xs, lo) && lo <= |xs| && |xs| - lo + |ds| <= QSIZE
    ensures Holds(StoreAll(slots, Slot(|xs|, QSIZE), ds), xs + ds, lo)
    decreases |ds|
  {
    hide Slot;
    if ds == [] {
      assert xs + ds == xs;
    } else {
      var ys := xs + [ds[0]];
      var slots' := slots[Slot(|xs|, QSIZE) := ds[0]];
      forall k | lo <= k < |ys| ensures slots'[Slot(k, QSIZE)] == ys[k] {
        if k < |xs| {
          SlotsDiffer(k, |xs|, QSIZE);
        }
      }
      SlotNext(|xs|, QSIZE);
      StoreAllHolds(slots', ys, lo, ds[1..]);
      assert ys + ds[1..] == xs + ds;
    }
  }

  /** How many datagrams one handler run reads before it stops or quits. */
  function Reads(nqueue: nat, available: nat): (n: nat)
    requires nqueue <= QSIZE
    ensures n <= available && n <= QSIZE - nqueue
  {
    if available < QSIZE - nqueue then available else QSIZE - nqueue
  }

  // ----- the handler and the main loop's statements, in place -----

  class EchoQueue {
    const dg: array<Datagram>
    const cntread: array<nat>
    var iget: nat
    var iput: nat
    var nqueue: nat

    ghost predicate Valid()
      reads this
    {
      dg.Length == QSIZE && cntread.Length == QSIZE + 1 && iput < QSIZE && iget <= QSIZE && nqueue <= QSIZE
    }

    constructor (blank: Datagram)
      ensures Valid() && fresh(dg) && fresh(cntread)
      ensures iget == iput == nqueue == 0 && cntread[..] == seq(QSIZE + 1, _ => 0)
    {
      dg := new Datagram[QSIZE](_ => blank);
      cntread := new nat[QSIZE + 1](_ => 0);
      iget, iput, nqueue := 0, 0, 0;
    }

    /** Lines 89-104: one datagram into slot iput. */
    method StoreOne(d: Datagram)
      requires Valid() && nqueue < QSIZE
      modifies this`iput, this`nqueue, dg
      ensures Valid() && nqueue == old(nqueue) + 1 && iput == Next(old(iput), QSIZE)
      ensures dg[..] == old(dg[..])[old(iput) := d]
    {
      dg[iput] := d;
      nqueue := nqueue + 1;
      iput := iput + 1;
      if iput >= QSIZE {
        iput := 0;
      }
    }

    /**
     * sig_io. `arriving` is every datagram that recvfrom can return before it would block.
     * `overflow` is the err_quit exit, taken as soon as eight datagrams are queued.
     */
    method SigIo(arriving: seq<Datagram>) returns (overflow: bool, nread: nat)
      requires Valid()
      modifies this`iput, this`nqueue, dg, cntread
      ensures Valid()
      ensures nread == Reads(old(nqueue), |arriving|)
      ensures nqueue == old(nqueue) + nread
      ensures overflow <==> nqueue == QSIZE
      ensures iput == Slot(old(iput) + nread, QSIZE)
      ensures dg[..] == StoreAll(old(dg[..]), old(iput), arriving[..nread])
      ensures cntread[..] == if overflow then old(cntread[..]) else old(cntread[..])[nread := old(cntread[nread]) + 1]
    {
      nread := 0;
      SlotSmall(iput, QSIZE);
      assert StoreAll(dg[..], iput, arriving[..0]) == dg[..];
      hide Slot, StoreAll;
      while true
        invariant Valid() && nread <= |arriving| && nread <= QSIZE - old(nqueue)
        invariant nqueue == old(nqueue) + nread
        invariant iput == Slot(old(iput) + nread, QSIZE)
        invariant dg[..] == StoreAll(old(dg[..]), old(iput), arriving[..nread])
        invariant cntread[..] == old(cntread[..])
        decreases |arriving| - nread
      {
        if nqueue >= QSIZE {
          return true, nread;
        }
        if nread == |arriving| {
          break;
        }
        StoreAllSnoc(old(dg[..]), old(iput), arriving[..nread], arriving[nread]);
        assert arriving[..nread] + [arriving[nread]] == arriving[..nread + 1];
        SlotNext(old(iput) + nread, QSIZE);
        StoreOne(arriving[nread]);
        nread := nread + 1;
      }
      ghost var was := cntread[..];
      cntread[nread] := cntread[nread] + 1;
      assert cntread[..] == was[nread := was[nread] + 1];
      overflow := false;
    }

    /** `xs` was read so far, the main loop is done with its first `lo` datagrams, the ring holds the rest. */
    ghost predicate Rings(xs: seq<Datagram>, lo: nat)
      reads this, dg
    {
      Valid() && lo + nqueue == |xs| && iput == Slot(|xs|, QSIZE) && Holds(dg[..], xs, lo)
    }

    /** A signal between two statements of the main loop appends what has arrived. */
    method Interrupted(arriving: seq<Datagram>, ghost xs: seq<Datagram>, ghost lo: nat) returns (overflow: bool)
      requires Rings(xs, lo) && nqueue < QSIZE
      modifies this`iput, this`nqueue, dg, cntread
      ensures overflow <==> |xs| - lo + |arriving| >= QSIZE
      ensures !overflow ==> Rings(xs + arriving, lo) && nqueue < QSIZE
    {
      hide Slot, StoreAll;
      ghost var n := Reads(nqueue, |arriving|);
      SlotAdd(iput, n, QSIZE);
      SlotAdd(|xs|, n, QSIZE);
      SlotSmall(iput, QSIZE);
      StoreAllHolds(dg[..], xs, lo, arriving[..n]);
      var nread;
      overflow, nread := SigIo(arriving);
      assert !overflow ==> arriving[..n] == arriving;
    }

    /**
     * Lines 62-72: one pass of the main loop after nqueue was seen positive, with a signal before
     * Sendto, one after it and one after ++iget. The head is sent, nothing is lost or reordered;
     * None is the err_quit exit of one of the signals.
     */
    method EchoOne(a: seq<Datagram>, b: seq<Datagram>, c: seq<Datagram>, ghost xs: seq<Datagram>, ghost lo: nat)
        returns (sent: Option<Datagram>)
      requires Rings(xs, lo) && iget == Slot(lo, QSIZE) && 0 < nqueue < QSIZE
      modifies this`iget, this`iput, this`nqueue, dg, cntread
      ensures sent == None <==> |xs| - lo + |a| + |b| + |c| >= QSIZE
      ensures sent.Some? ==> Rings(xs + a + b + c, lo + 1) && iget == Slot(lo + 1, QSIZE) && sent.value == xs[lo]
    {
      hide Slot;
      var overflow := Interrupted(a, xs, lo);
      if overflow {
        return None;
      }
      var head := dg[iget];
      assert head == (xs + a)[lo];
      overflow := Interrupted(b, xs + a, lo);
      if overflow {
        return None;
      }
      SlotNext(lo, QSIZE);
      iget := iget + 1;
      if iget >= QSIZE {
        iget := 0;
      }
      overflow := Interrupted(c, xs + a + b, lo);
      if overflow {
        return None;
      }
      nqueue := nqueue - 1;
      return Some(head);
    }
  }

  // ----- main loop and handler, interleaved statement by statement -----

  /** SIGIO is delivered only at the points marked open. */
  datatype Pc =
    | Checking          // while (nqueue == 0), blocked
    | Suspended         // sigsuspend, open
    | Unblocking        // Sigprocmask(SIG_SETMASK), blocked
    | Sending           // Sendto, open
    | Incrementing      // ++iget, open
    | Wrapping          // if (iget >= QSIZE) iget = 0, open
    | Blocking          // Sigprocmask(SIG_BLOCK), open
    | Decrementing      // nqueue--, blocked
    | Quit              // err_quit in the handler

  predicate Open(pc: Pc)
  {
    pc.Suspended? || pc.Sending? || pc.Incrementing? || pc.Wrapping? || pc.Blocking?
  }

  /** `kernel` is the socket's receive queue; arrived, received and sent are histories. */
  datatype State = State(
    slots: seq<Datagram>, iget: nat, iput: nat, nqueue: nat, cntread: seq<nat>, pc: Pc,
    kernel: seq<Datagram>, pending: bool,
    arrived: seq<Datagram>, received: seq<Datagram>, sent: seq<Datagram>)

  /** `Signal(late)` is one run of sig_io, with `late` arriving during it; `Hangup` is SIGHUP, never blocked. */
  datatype Event = Arrive(d: Datagram) | MainStep | Signal(late: seq<Datagram>) | Hangup

  function Init(blank: Datagram): State
  {
    State(seq(QSIZE, _ => blank), 0, 0, 0, seq(QSIZE + 1, _ => 0), Checking, [], false, [], [], [])
  }

  predicate Enabled(s: State, e: Event)
  {
    && !s.pc.Quit?
    && match e
       case Arrive(_) => true
       case MainStep => !s.pc.Suspended?
       case Signal(_) => Open(s.pc)
       case Hangup => true
  }

  function StepMain(s: State): State
    requires |s.slots| == QSIZE && (s.pc.Sending? ==> s.iget < QSIZE) && (s.pc.Decrementing? ==> s.nqueue > 0)
  {
    match s.pc
    case Checking => s.(pc := if s.nqueue == 0 then Suspended else Unblocking)
    case Unblocking => s.(pc := Sending)
    case Sending => s.(sent := s.sent + [s.slots[s.iget]], pc := Incrementing)
    case Incrementing => s.(iget := s.iget + 1, pc := Wrapping)
    case Wrapping => s.(iget := if s.iget >= QSIZE then 0 else s.iget, pc := Blocking)
    case Blocking => s.(pc := Decrementing)
    case Decrementing => s.(nqueue := s.nqueue - 1, pc := Checking)
    case _ => s
  }

  predicate CanSignal(s: State)
  {
    |s.slots| == QSIZE && |s.cntread| == QSIZE + 1 && s.iput < QSIZE && s.nqueue < QSIZE
  }

  /** One handler run, as SigIo performs it; sigsuspend returns after it. */
  function StepSignal(s: State, late: seq<Datagram>): State
    requires CanSignal(s)
  {
    var arriving := s.kernel + late;
    var n := Reads(s.nqueue, |arriving|);
    var overflow := s.nqueue + n == QSIZE;
    s.(slots := StoreAll(s.slots, s.iput, arriving[..n]),
       iput := Slot(s.iput + n, QSIZE),
       nqueue := s.nqueue + n,
       cntread := if overflow then s.cntread else s.cntread[n := s.cntread[n] + 1],
       kernel := arriving[n..],
       pending := false,
       arrived := s.arrived + late,
       received := s.received + arriving[..n],
       pc := if overflow then Quit else if s.pc.Suspended? then Checking else s.pc)
  }

  // ----- invariants -----

  /** The datagram in slot iget has been sent but is still counted by nqueue. */
  predicate SentUncounted(pc: Pc)
  {
    pc.Incrementing? || pc.Wrapping? || pc.Blocking? || pc.Decrementing?
  }

  predicate InWindow(pc: Pc)
  {
    pc.Unblocking? || pc.Sending? || SentUncounted(pc)
  }

  /** The number of datagrams the main loop is completely done with. */
  function Done(s: State): int
  {
    |s.received| - s.nqueue
  }

  ghost predicate RingInv(s: State)
  {
    && |s.slots| == QSIZE
    && 0 <= Done(s)
    && s.nqueue <= QSIZE && (s.nqueue == QSIZE <==> s.pc.Quit?)
    && (InWindow(s.pc) ==> s.nqueue > 0)
    && s.iput == Slot(|s.received|, QSIZE)
    && (!s.pc.Quit? ==>
          && |s.sent| == Done(s) + (if SentUncounted(s.pc) then 1 else 0)
          && s.iget == (if s.pc.Incrementing? then Slot(Done(s), QSIZE)
                        else if s.pc.Wrapping? then Slot(Done(s), QSIZE) + 1
                        else Slot(|s.sent|, QSIZE)))
    && Holds(s.slots, s.received, Done(s))
    && Done(s) <= |s.sent|
    && s.sent <= s.received
  }

  /** The sum of k * cntread[k] from index i on. */
  function Weighted(c: seq<nat>, i: nat): nat
    requires i <= |c|
    decreases |c| - i
  {
    if i == |c| then 0 else i * c[i] + Weighted(c, i + 1)
  }

  ghost predicate HistoryInv(s: State)
  {
    && s.arrived == s.received + s.kernel
    && (s.kernel != [] ==> s.pending || s.pc.Quit?)
    && (s.pc.Suspended? ==> s.nqueue == 0)
    && |s.cntread| == QSIZE + 1
    && (!s.pc.Quit? ==> Weighted(s.cntread, 0) == |s.received|)
  }

  ghost predicate Inv(s: State)
  {
    RingInv(s) && HistoryInv(s)
  }

  function Apply(s: State, e: Event): State
    requires Inv(s) && Enabled(s, e)
  {
    match e
    case Arrive(d) => s.(kernel := s.kernel + [d], pending := true, arrived := s.arrived + [d])
    case MainStep => StepMain(s)
    case Signal(late) => StepSignal(s, late)
    case Hangup => s.(pc := if s.pc.Suspended? then Checking else s.pc)
  }

  lemma {:induction false} WeightedUpdate(c: seq<nat>, i: nat, n: nat)
    requires i <= n < |c|
    ensures Weighted(c[n := c[n] + 1], i) == Weighted(c, i) + n
    decreases |c| - i
  {
    if i == n {
      WeightedTail(c, c[n := c[n] + 1], i + 1);
      assert i * (c[i] + 1) == i * c[i] + i;
    } else {
      WeightedUpdate(c, i + 1, n);
    }
  }

  lemma {:induction false} WeightedTail(c: seq<nat>, d: seq<nat>, i: nat)
    requires |c| == |d| && i <= |c| && forall k :: i <= k < |c| ==> c[k] == d[k]
    ensures Weighted(c, i) == Weighted(d, i)
    decreases |c| - i
  {
    if i < |c| {
      WeightedTail(c, d, i + 1);
    }
  }

  lemma {:induction false} MainKeeps(s: State)
    requires Inv(s) && Enabled(s, MainStep)
    ensures Inv(StepMain(s))
  {
    hide Slot, Weighted;
    SlotNext(Done(s), QSIZE);
    if s.pc.Sending? {
      assert s.slots[Slot(Done(s), QSIZE)] == s.received[Done(s)];
    }
  }

  lemma {:induction false} PrefixGrows(a: seq<Datagram>, b: seq<Datagram>, c: seq<Datagram>)
    requires a <= b
    ensures a <= b + c
  {
  }

  lemma {:induction false} SignalKeepsRing(s: State, late: seq<Datagram>)
    requires Inv(s) && Enabled(s, Signal(late))
    ensures RingInv(StepSignal(s, late))
  {
    hide Slot, Weighted, StoreAll, Holds, HistoryInv;
    var arriving := s.kernel + late;
    var n := Reads(s.nqueue, |arriving|);
    StoreAllHolds(s.slots, s.received, Done(s), arriving[..n]);
    PrefixGrows(s.sent, s.received, arriving[..n]);
    SlotAdd(|s.received|, n, QSIZE);
    SlotAdd(s.iput, n, QSIZE);
    SlotSmall(s.iput, QSIZE);
  }

  lemma {:induction false} SignalKeepsHistory(s: State, late: seq<Datagram>)
    requires Inv(s) && Enabled(s, Signal(late))
    ensures HistoryInv(StepSignal(s, late))
  {
    hide Slot, Weighted, StoreAll, Holds;
    var arriving := s.kernel + late;
    var n := Reads(s.nqueue, |arriving|);
    assert arriving == arriving[..n] + arriving[n..];
    Regroup(s.received, s.kernel, late);
    Regroup(s.received, arriving[..n], arriving[n..]);
    WeightedUpdate(s.cntread, 0, n);
  }

  lemma {:induction false} Preserved(s: State, e: Event)
    requires Inv(s) && Enabled(s, e)
    ensures Inv(Apply(s, e))
  {
    match e
    case Arrive(d) =>
    case Hangup =>
    case MainStep => MainKeeps(s);
    case Signal(late) =>
      SignalKeepsRing(s, late);
      SignalKeepsHistory(s, late);
  }

  // ----- whole runs -----

  /** Executes a schedule, any interleaving of arrivals, signals and the main loop. */
  ghost function Run(s: State, es: seq<Event>): (r: State)
    requires Inv(s)
    decreases |es|
  {
    if es == [] then s
    else if Enabled(s, es[0]) then
      Preserved(s, es[0]);
      Run(Apply(s, es[0]), es[1..])
    else Run(s, es[1..])
  }

  lemma {:induction false} RunKeeps(s: State, es: seq<Event>)
    requires Inv(s)
    ensures Inv(Run(s, es))
    decreases |es|
  {
    hide Inv, Apply, Enabled;
    if es != [] {
      if Enabled(s, es[0]) {
        Preserved(s, es[0]);
        RunKeeps(Apply(s, es[0]), es[1..]);
      } else {
        RunKeeps(s, es[1..]);
      }
    }
  }

  lemma {:induction false} InitInv(blank: Datagram)
    ensures Inv(Init(blank))
  {
    WeightedZero(Init(blank).cntread, 0);
  }

  /** The state after schedule `es`. */
  ghost function Reached(blank: Datagram, es: seq<Event>): State
  {
    InitInv(blank);
    Run(Init(blank), es)
  }

  /** The invariant holds in every reachable state. */
  lemma {:induction false} Always(blank: Datagram, es: seq<Event>)
    ensures Inv(Reached(blank, es))
  {
    InitInv(blank);
    RunKeeps(Init(blank), es);
  }

  lemma {:induction false} WeightedZero(c: seq<nat>, i: nat)
    requires i <= |c| && forall k :: 0 <= k < |c| ==> c[k] == 0
    ensures Weighted(c, i) == 0
    decreases |c| - i
  {
    if i < |c| {
      WeightedZero(c, i + 1);
    }
  }

  /** Echoed in order, each once: what was sent is a prefix of what was read, itself a prefix of what arrived. */
  lemma {:induction false} EchoedInOrder(blank: Datagram, es: seq<Event>)
    ensures var s := Reached(blank, es);
            && s.sent <= s.received <= s.arrived
            && |s.received| - |s.sent| <= QSIZE
  {
    Always(blank, es);
  }

  /**
   * The ring indices: iput == (iget + nqueue) mod 8, one more than that after ++iget until
   * nqueue-- has caught up.
   */
  lemma {:induction false} IndicesAgree(blank: Datagram, es: seq<Event>)
    ensures var s := Reached(blank, es);
            && (s.pc in {Checking, Suspended, Unblocking, Sending, Incrementing} ==>
                  s.iput == (s.iget + s.nqueue) % QSIZE)
            && (s.pc in {Wrapping, Blocking, Decrementing} ==> s.iput == (s.iget + s.nqueue - 1) % QSIZE)
  {
    Always(blank, es);
    var s := Reached(blank, es);
    if !s.pc.Quit? {
      SlotAdd(Done(s), s.nqueue, QSIZE);
      if SentUncounted(s.pc) {
        SlotAdd(|s.sent|, s.nqueue - 1, QSIZE);
      }
    }
  }

  /** No signal changes the datagram being sent: its slot keeps its contents through the whole window. */
  lemma {:induction false} SlotBeingSentIsStable(blank: Datagram, es: seq<Event>, late: seq<Datagram>)
    ensures var s := Reached(blank, es);
            Open(s.pc) && InWindow(s.pc) ==>
              && CanSignal(s) && 0 <= Done(s) < |s.received|
              && StepSignal(s, late).slots[Slot(Done(s), QSIZE)] == s.slots[Slot(Done(s), QSIZE)] == s.received[Done(s)]
              && (s.pc.Sending? ==> s.iget == Slot(Done(s), QSIZE))
  {
    Always(blank, es);
    var s := Reached(blank, es);
    if Open(s.pc) && InWindow(s.pc) {
      SignalKeepsRing(s, late);
      var s' := StepSignal(s, late);
      assert s'.slots[Slot(Done(s'), QSIZE)] == s'.received[Done(s')];
    }
  }

  /** The histogram accounts for every datagram read by a completed handler run. */
  lemma {:induction false} HistogramAddsUp(blank: Datagram, es: seq<Event>)
    ensures var s := Reached(blank, es);
            !s.pc.Quit? ==> |s.cntread| == QSIZE + 1 && Weighted(s.cntread, 0) == |s.received|
  {
    Always(blank, es);
  }

  /** The main loop never sleeps through a datagram: if one waits while it is suspended, SIGIO is pending. */
  lemma {:induction false} NoLostSignal(blank: Datagram, es: seq<Event>)
    ensures var s := Reached(blank, es);
            s.pc.Suspended? ==> s.nqueue == 0 && s.sent == s.received && (s.sent != s.arrived ==> s.pending)
  {
    Always(blank, es);
    var s := Reached(blank, es);
    if s.pc.Suspended? {
      assert s.sent == s.received;
      assert s.kernel == [] ==> s.received + s.kernel == s.received;
    }
  }

  // ----- progress of the main loop -----

  /** A schedule whose events are each enabled when they happen. */
  ghost predicate IsRun(s: State, es: seq<Event>)
    requires Inv(s)
    decreases |es|
  {
    es == [] || (Enabled(s, es[0]) && (Preserved(s, es[0]); IsRun(Apply(s, es[0]), es[1..])))
  }

  predicate IsMainStep(e: Event) { e.MainStep? }

  predicate IsWakeup(e: Event) { e.Signal? || e.Hangup? }

  /** The statements the main loop has before it, seven for each queued datagram, until it suspends itself. */
  function Work(s: State): int
  {
    7 * s.nqueue +
    match s.pc
    case Suspended => 0
    case Quit => -5
    case Checking => 1
    case Unblocking => 0
    case Sending => -1
    case Incrementing => -2
    case Wrapping => -3
    case Blocking => -4
    case Decrementing => -5
  }

  /** Each statement of the main loop uses up work; only what a handler reads and its wake-up add some. */
  lemma {:induction false} WorkStep(s: State, e: Event)
    requires Inv(s) && Enabled(s, e)
    ensures var s' := Apply(s, e);
            && 0 <= Work(s)
            && (e.MainStep? ==> Work(s') < Work(s) && s'.received == s.received)
            && (IsWakeup(e) ==> Work(s') <= Work(s) + 7 * (|s'.received| - |s.received|) + 1)
            && (e.Arrive? ==> Work(s') == Work(s) && s'.received == s.received)
            && (IsWakeup(e) && s.pc.Suspended? ==> s'.pc.Checking? || s'.pc.Quit?)
            && (IsWakeup(e) && !s.pc.Suspended? ==> s'.pc == s.pc || s'.pc.Quit?)
  {
    hide Slot, StoreAll, Holds, HistoryInv;
  }

  /** The main loop makes at most seven steps per datagram, one per signal, and one to start. */
  lemma {:induction false} MainStepsAreBounded(s: State, es: seq<Event>)
    requires Inv(s) && IsRun(s, es)
    ensures Tally(IsMainStep, es) <= Work(s) + 7 * (|Run(s, es).received| - |s.received|) + Tally(IsWakeup, es)
    decreases |es|
  {
    hide RingInv, HistoryInv, Apply, Enabled, Work;
    if es == [] {
      WorkNonnegative(s);
    } else {
      Preserved(s, es[0]);
      WorkStep(s, es[0]);
      MainStepsAreBounded(Apply(s, es[0]), es[1..]);
    }
  }

  lemma {:induction false} WorkNonnegative(s: State)
    requires Inv(s)
    ensures Work(s) >= 0
  {
  }

  /**
   * So the loop always comes to rest, and a run in which neither it nor a pending signal can do
   * anything more has echoed everything that arrived, unless a handler overflowed.
   */
  lemma {:induction false} EverythingEchoed(blank: Datagram, es: seq<Event>)
    requires (InitInv(blank); IsRun(Init(blank), es))
    requires !Enabled(Reached(blank, es), MainStep)
    requires Reached(blank, es).pending ==> forall late :: !Enabled(Reached(blank, es), Signal(late))
    ensures var s := Reached(blank, es);
            s.pc.Quit? || (s.pc.Suspended? && s.sent == s.received == Delivered(es) && s.nqueue == 0)
  {
    InitInv(blank);
    RunArrives(Init(blank), es);
    NoLostSignal(blank, es);
    var s := Reached(blank, es);
    if s.pc.Suspended? {
      assert Enabled(s, Signal([]));
    }
  }

  /** What arrived is what the schedule delivered, in order. */
  function Delivered(es: seq<Event>): seq<Datagram>
  {
    if es == [] then []
    else (match es[0] case Arrive(d) => [d] case Signal(late) => late case _ => []) + Delivered(es[1..])
  }

  lemma {:induction false} RunArrives(s: State, es: seq<Event>)
    requires Inv(s) && IsRun(s, es)
    ensures Run(s, es).arrived == s.arrived + Delivered(es)
    decreases |es|
  {
    hide RingInv, HistoryInv, Enabled, StoreAll;
    if es != [] {
      Preserved(s, es[0]);
      ArriveStep(s, es[0]);
      RunArrives(Apply(s, es[0]), es[1..]);
      Regroup(s.arrived, match es[0] case Arrive(d) => [d] case Signal(late) => late case _ => [], Delivered(es[1..]));
    }
  }

  lemma {:induction false} ArriveStep(s: State, e: Event)
    requires Inv(s) && Enabled(s, e)
    ensures Apply(s, e).arrived == s.arrived + match e case Arrive(d) => [d] case Signal(late) => late case _ => []
  {
    hide StoreAll, Holds;
    assert s.arrived + [] == s.arrived;
  }
}
