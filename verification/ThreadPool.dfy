/**
 * The prethreaded server: the main thread accepts connections and puts them on a ring of 32
 * descriptors, N worker threads take them off under one mutex and one condition variable.
 * Source: unpv13e/server/serv08.c, unpv13e/server/pthread08.c.
 */
module ThreadPool {
  import opened Counting
  import opened Ring

  const MAXNCLI := 32

  // ----- the critical sections, in place on the shared array -----

  function Count(iget: nat, iput: nat): (n: nat)
    requires iget < MAXNCLI && iput < MAXNCLI
    ensures n < MAXNCLI && Wrap(iget + n, MAXNCLI) == iput
  {
    if iget <= iput then iput - iget else iput - iget + MAXNCLI
  }

  /** The descriptors between iget and iput, oldest first. */
  function Pending(slots: seq<int>, iget: nat, iput: nat): (q: seq<int>)
    requires |slots| == MAXNCLI && iget < MAXNCLI && iput < MAXNCLI
  {
    seq(Count(iget, iput), j requires 0 <= j < Count(iget, iput) => slots[Wrap(iget + j, MAXNCLI)])
  }

  lemma {:induction false} PendingPut(slots: seq<int>, iget: nat, iput: nat, fd: int)
    requires |slots| == MAXNCLI && iget < MAXNCLI && iput < MAXNCLI
    ensures Next(iput, MAXNCLI) == iget <==> Count(iget, iput) == MAXNCLI - 1
    ensures Next(iput, MAXNCLI) != iget ==>
              Pending(slots[iput := fd], iget, Next(iput, MAXNCLI)) == Pending(slots, iget, iput) + [fd]
    ensures Pending(slots[iput := fd], iget, iput) == Pending(slots, iget, iput)
  {
    var before := Pending(slots, iget, iput);
    forall j | 0 <= j < |before| ensures Pending(slots[iput := fd], iget, iput)[j] == before[j] {
      assert Wrap(iget + j, MAXNCLI) != iput;
    }
    if Next(iput, MAXNCLI) != iget {
      var after := Pending(slots[iput := fd], iget, Next(iput, MAXNCLI));
      assert |after| == |before| + 1;
      forall j | 0 <= j < |after| ensures after[j] == (before + [fd])[j] {
        assert Wrap(iget + j, MAXNCLI) == iput <==> j == |before|;
      }
    }
  }

  lemma {:induction false} PendingTake(slots: seq<int>, iget: nat, iput: nat)
    requires |slots| == MAXNCLI && iget < MAXNCLI && iput < MAXNCLI && iget != iput
    ensures [slots[iget]] + Pending(slots, Next(iget, MAXNCLI), iput) == Pending(slots, iget, iput)
  {
    var before, after := Pending(slots, iget, iput), Pending(slots, Next(iget, MAXNCLI), iput);
    assert |before| == |after| + 1;
    forall j | 0 <= j < |before| ensures before[j] == ([slots[iget]] + after)[j] {
      assert j > 0 ==> Wrap(Next(iget, MAXNCLI) + (j - 1), MAXNCLI) == Wrap(iget + j, MAXNCLI);
    }
  }

  class ConnRing {
    const clifd: array<int>
    var iget: nat
    var iput: nat

    ghost predicate Valid()
      reads this
    {
      clifd.Length == MAXNCLI && iget < MAXNCLI && iput < MAXNCLI
    }

    ghost function Queue(): seq<int>
      requires Valid()
      reads this, clifd
    {
      Pending(clifd[..], iget, iput)
    }

    constructor ()
      ensures Valid() && fresh(clifd) && Queue() == []
    {
      clifd := new int[MAXNCLI];
      iget, iput := 0, 0;
    }

    /** Lines 40-44 of the main loop; `full` is the err_quit exit. */
    method Put(connfd: int) returns (full: bool)
      requires Valid()
      modifies this`iput, clifd
      ensures Valid()
      ensures full <==> |old(Queue())| == MAXNCLI - 1
      ensures !full ==> Queue() == old(Queue()) + [connfd]
      ensures full ==> Pending(clifd[..], iget, old(iput)) == old(Queue())
    {
      PendingPut(clifd[..], iget, iput, connfd);
      clifd[iput] := connfd;
      assert clifd[..] == old(clifd[..])[iput := connfd];
      iput := iput + 1;
      if iput == MAXNCLI {
        iput := 0;
      }
      full := iput == iget;
    }

    /** Lines 24-26 of a worker, after the wait loop has seen iget != iput. */
    method Take() returns (connfd: int)
      requires Valid() && iget != iput
      modifies this`iget
      ensures Valid()
      ensures [connfd] + Queue() == old(Queue())
    {
      PendingTake(clifd[..], iget, iput);
      connfd := clifd[iget];
      iget := iget + 1;
      if iget == MAXNCLI {
        iget := 0;
      }
    }
  }

  // ----- the interleaved system, one statement at a time -----

  datatype Owner = Free | MainThread | Worker(i: nat)

  /** Where the main thread is; the comments give the statement it executes next. */
  datatype MainPc =
    | Accepting              // Accept
    | Locking(fd: int)       // Pthread_mutex_lock
    | Storing(fd: int)       // clifd[iput] = connfd
    | Advancing(fd: int)     // ++iput
    | Testing                // iput == iget
    | Signalling             // Pthread_cond_signal
    | Unlocking              // Pthread_mutex_unlock
    | Quit                   // err_quit

  datatype Thread =
    | Idle                   // Pthread_mutex_lock
    | Checking(woken: bool)  // while (iget == iput)
    | Parking                // Pthread_cond_wait, still holding the mutex
    | Waiting                // blocked in Pthread_cond_wait
    | Woken                  // signalled, must reacquire the mutex
    | Getting                // connfd = clifd[iget]
    | Removing(fd: int)      // ++iget
    | Releasing(fd: int)     // Pthread_mutex_unlock
    | Tallying(fd: int)      // thread_count++
    | Serving(fd: int)       // web_child, Close

  /**
   * Histories: every descriptor accepted, every one put on the ring, every one removed and the
   * worker that removed it, and those that each worker has served.
   */
  datatype State = State(
    slots: seq<int>, iget: nat, iput: nat,
    owner: Owner, main: MainPc, threads: seq<Thread>, counts: seq<nat>,
    accepted: seq<int>, stored: seq<int>, taken: seq<int>, takers: seq<nat>, served: seq<seq<int>>)

  function Init(n: nat): State
  {
    State(seq(MAXNCLI, _ => 0), 0, 0, Free, Accepting, seq(n, _ => Idle), seq(n, _ => 0),
          [], [], [], [], seq(n, _ => []))
  }

  datatype Event =
    | Accept(fd: int)
    | MainStep
    | SignalWakes(i: nat)    // the signal, delivered to waiting thread i
    | ThreadStep(i: nat)
    | SpuriousWakeup(i: nat)

  predicate IsWaiting(t: Thread) { t.Waiting? }
  /** Awake because of a signal and not yet back at the test of the wait loop. */
  predicate IsSignalled(t: Thread) { t.Woken? || (t.Checking? && t.woken) }
  /** Past the test, not yet past ++iget. */
  predicate IsTaking(t: Thread) { t.Getting? || t.Removing? }
  /** Has removed a descriptor that thread_count does not show yet. */
  predicate IsUncounted(t: Thread) { t.Releasing? || t.Tallying? }
  predicate HoldsMutex(t: Thread) { t.Checking? || t.Parking? || t.Getting? || t.Removing? || t.Releasing? }
  predicate MainHoldsMutex(m: MainPc) { m.Storing? || m.Advancing? || m.Testing? || m.Signalling? || m.Unlocking? }

  predicate WellTyped(s: State)
  {
    |s.slots| == MAXNCLI && s.iget < MAXNCLI && s.iput < MAXNCLI && |s.counts| == |s.served| == |s.threads|
  }

  /** Which events can happen next. A thread that needs the mutex must find it free. */
  predicate Enabled(s: State, e: Event)
  {
    && !s.main.Quit?
    && match e
       case Accept(_) => s.main.Accepting?
       case MainStep =>
         && !s.main.Accepting?
         && (s.main.Locking? ==> s.owner == Free)
         && (s.main.Signalling? ==> Tally(IsWaiting, s.threads) == 0)
       case SignalWakes(i) => s.main.Signalling? && i < |s.threads| && s.threads[i].Waiting?
       case ThreadStep(i) =>
         && i < |s.threads|
         && !s.threads[i].Waiting?
         && (s.threads[i].Idle? || s.threads[i].Woken? ==> s.owner == Free)
       case SpuriousWakeup(i) => i < |s.threads| && s.threads[i].Waiting?
  }

  function StepMain(s: State): State
    requires WellTyped(s)
  {
    match s.main
    case Locking(fd) => s.(owner := MainThread, main := Storing(fd))
    case Storing(fd) => s.(slots := s.slots[s.iput := fd], main := Advancing(fd))
    case Advancing(fd) => s.(iput := Next(s.iput, MAXNCLI), stored := s.stored + [fd], main := Testing)
    case Testing => s.(main := if s.iput == s.iget then Quit else Signalling)
    case Signalling => s.(main := Unlocking)
    case Unlocking => s.(owner := Free, main := Accepting)
    case _ => s
  }

  function StepThread(s: State, i: nat): State
    requires WellTyped(s) && i < |s.threads|
  {
    match s.threads[i]
    case Idle => s.(owner := Worker(i), threads := s.threads[i := Checking(false)])
    case Woken => s.(owner := Worker(i), threads := s.threads[i := Checking(true)])
    case Checking(_) => s.(threads := s.threads[i := if s.iget == s.iput then Parking else Getting])
    case Parking => s.(owner := Free, threads := s.threads[i := Waiting])
    case Waiting => s
    case Getting => s.(threads := s.threads[i := Removing(s.slots[s.iget])])
    case Removing(fd) =>
      s.(iget := Next(s.iget, MAXNCLI), taken := s.taken + [fd], takers := s.takers + [i],
         threads := s.threads[i := Releasing(fd)])
    case Releasing(fd) => s.(owner := Free, threads := s.threads[i := Tallying(fd)])
    case Tallying(fd) => s.(counts := s.counts[i := s.counts[i] + 1], threads := s.threads[i := Serving(fd)])
    case Serving(fd) => s.(served := s.served[i := s.served[i] + [fd]], threads := s.threads[i := Idle])
  }

  function Apply(s: State, e: Event): State
    requires WellTyped(s) && Enabled(s, e)
  {
    match e
    case Accept(fd) => s.(accepted := s.accepted + [fd], main := Locking(fd))
    case MainStep => StepMain(s)
    case SignalWakes(i) => s.(main := Unlocking, threads := s.threads[i := Woken])
    case ThreadStep(i) => StepThread(s, i)
    case SpuriousWakeup(i) => s.(threads := s.threads[i := Woken])
  }

  // ----- invariants -----

  /** The number of connections on the ring. */
  function Depth(s: State): int
  {
    |s.stored| - |s.taken|
  }

  /** The ring holds exactly the descriptors stored and not yet taken, in order. */
  ghost predicate RingInv(s: State)
  {
    && WellTyped(s)
    && s.iget == Slot(|s.taken|, MAXNCLI) && s.iput == Slot(|s.stored|, MAXNCLI)
    && 0 <= Depth(s) <= MAXNCLI
    && (Depth(s) == MAXNCLI ==> s.main.Testing? || s.main.Quit?)
    && (forall k :: |s.taken| <= k < |s.stored| ==> s.slots[Slot(k, MAXNCLI)] == s.stored[k])
    && (s.main.Testing? || s.main.Signalling? ==> Depth(s) > 0)
    && (s.main.Quit? ==> Depth(s) == MAXNCLI)
    && (s.main.Advancing? ==> s.slots[s.iput] == s.main.fd)
    && (forall k :: 0 <= k < |s.taken| ==> s.taken[k] == s.stored[k])
  }

  /** Mutual exclusion, and what the holder of the mutex may rely on. */
  ghost predicate LockInv(s: State)
  {
    && WellTyped(s)
    && (s.owner == MainThread <==> MainHoldsMutex(s.main) || s.main.Quit?)
    && (s.owner.Worker? ==> s.owner.i < |s.threads|)
    && (forall i :: 0 <= i < |s.threads| ==> (s.owner == Worker(i) <==> HoldsMutex(s.threads[i])))
    && (forall i :: 0 <= i < |s.threads| && s.threads[i].Parking? ==> Depth(s) == 0)
    && (forall i :: 0 <= i < |s.threads| && IsTaking(s.threads[i]) ==> 0 < Depth(s) < MAXNCLI)
    && (forall i :: 0 <= i < |s.threads| && s.threads[i].Removing? ==> s.threads[i].fd == s.slots[s.iget])
  }

  /** Stored but not yet announced by a signal. */
  function Unannounced(m: MainPc): nat
  {
    if m.Testing? || m.Signalling? || m.Quit? then 1 else 0
  }

  /**
   * No lost wake-up: while some thread sleeps, every connection on the ring is covered by a
   * thread already signalled, a thread already taking, or the signal about to be sent.
   */
  ghost predicate WakeInv(s: State)
  {
    Tally(IsWaiting, s.threads) > 0 ==>
      Depth(s) <= Tally(IsSignalled, s.threads) + Tally(IsTaking, s.threads) + Unannounced(s.main)
  }

  ghost predicate CountInv(s: State)
  {
    |s.counts| == |s.threads| && Sum(s.counts) + Tally(IsUncounted, s.threads) == |s.taken|
  }

  /** What main has accepted and not yet put on the ring. */
  function InFlight(m: MainPc): seq<int>
  {
    if m.Locking? || m.Storing? || m.Advancing? then [m.fd] else []
  }

  /** What a worker has removed from the ring and not yet finished serving. */
  function Hand(t: Thread): seq<int>
  {
    if t.Releasing? || t.Tallying? || t.Serving? then [t.fd] else []
  }

  /** Of the descriptors taken, those that worker i took, in order. */
  function Share(taken: seq<int>, takers: seq<nat>, i: nat): seq<int>
    requires |taken| == |takers|
  {
    if taken == [] then []
    else
      var n := |taken| - 1;
      Share(taken[..n], takers[..n], i) + if takers[n] == i then [taken[n]] else []
  }

  lemma {:induction false} ShareSnoc(taken: seq<int>, takers: seq<nat>, fd: int, w: nat, i: nat)
    requires |taken| == |takers|
    ensures Share(taken + [fd], takers + [w], i) == Share(taken, takers, i) + if w == i then [fd] else []
  {
    assert (taken + [fd])[..|taken|] == taken && (takers + [w])[..|takers|] == takers;
  }

  /** Worker i has served, in order, what it took, but for what it still holds; its count is of those it started. */
  ghost predicate WorkerHistory(s: State, i: nat)
    requires WellTyped(s) && |s.takers| == |s.taken| && i < |s.threads|
  {
    && Share(s.taken, s.takers, i) == s.served[i] + Hand(s.threads[i])
    && s.counts[i] == |s.served[i]| + One(s.threads[i].Serving?)
  }

  /** Every accepted descriptor goes to the ring as it is, and every one taken is served by its taker. */
  ghost predicate ServedInv(s: State)
  {
    && WellTyped(s)
    && s.accepted == s.stored + InFlight(s.main)
    && |s.takers| == |s.taken| && (forall k :: 0 <= k < |s.takers| ==> s.takers[k] < |s.threads|)
    && forall i :: 0 <= i < |s.threads| ==> WorkerHistory(s, i)
  }

  ghost predicate Inv(s: State)
  {
    RingInv(s) && LockInv(s) && WakeInv(s) && CountInv(s) && ServedInv(s)
  }

  lemma {:induction false} RingStoring(s: State)
    requires RingInv(s) && LockInv(s) && s.main.Storing?
    ensures RingInv(StepMain(s))
  {
    hide Slot;
    forall k | |s.taken| <= k < |s.stored| ensures Slot(k, MAXNCLI) != s.iput {
      SlotsDiffer(k, |s.stored|, MAXNCLI);
    }
  }

  lemma {:induction false} RingAdvancing(s: State)
    requires RingInv(s) && LockInv(s) && s.main.Advancing?
    ensures RingInv(StepMain(s))
  {
    hide Slot;
    SlotNext(|s.stored|, MAXNCLI);
  }

  lemma {:induction false} RingTesting(s: State)
    requires RingInv(s) && LockInv(s) && s.main.Testing?
    ensures RingInv(StepMain(s))
  {
    hide Slot;
    if Depth(s) == MAXNCLI {
      SlotsMeet(|s.taken|, MAXNCLI);
    } else {
      SlotsDiffer(|s.taken|, |s.stored|, MAXNCLI);
    }
  }

  lemma {:induction false} RingMainStep(s: State)
    requires RingInv(s) && LockInv(s) && Enabled(s, MainStep)
    ensures RingInv(StepMain(s))
  {
    match s.main
    case Storing(_) => RingStoring(s);
    case Advancing(_) => RingAdvancing(s);
    case Testing => RingTesting(s);
    case _ =>
  }

  lemma {:induction false} RingRemoving(s: State, i: nat)
    requires RingInv(s) && LockInv(s) && i < |s.threads| && s.threads[i].Removing?
    ensures RingInv(StepThread(s, i))
  {
    hide Slot;
    SlotNext(|s.taken|, MAXNCLI);
    assert IsTaking(s.threads[i]);
    assert s.slots[Slot(|s.taken|, MAXNCLI)] == s.stored[|s.taken|];
    assert !MainHoldsMutex(s.main) && !s.main.Quit?;
  }

  lemma {:induction false} RingThreadStep(s: State, i: nat)
    requires RingInv(s) && LockInv(s) && Enabled(s, ThreadStep(i))
    ensures RingInv(StepThread(s, i))
  {
    if s.threads[i].Removing? {
      RingRemoving(s, i);
    } else {
      hide LockInv;
      var s' := StepThread(s, i);
      assert s'.slots == s.slots && s'.iget == s.iget && s'.iput == s.iput && s'.main == s.main;
      assert s'.stored == s.stored && s'.taken == s.taken;
    }
  }

  lemma {:induction false} RingStep(s: State, e: Event)
    requires RingInv(s) && LockInv(s) && Enabled(s, e)
    ensures RingInv(Apply(s, e))
  {
    match e
    case MainStep => RingMainStep(s);
    case ThreadStep(i) => RingThreadStep(s, i);
    case _ =>
  }

  lemma {:induction false} LockMainStep(s: State)
    requires RingInv(s) && LockInv(s) && Enabled(s, MainStep)
    ensures LockInv(StepMain(s))
  {
  }

  /** A thread outside the mutex takes it, or stays outside. */
  lemma {:induction false} LockOutside(s: State, i: nat)
    requires RingInv(s) && LockInv(s) && Enabled(s, ThreadStep(i)) && !HoldsMutex(s.threads[i])
    ensures LockInv(StepThread(s, i))
  {
    hide RingInv, Slot;
    var s' := StepThread(s, i);
    assert Depth(s') == Depth(s) && s'.slots == s.slots && s'.iget == s.iget;
    assert forall j :: 0 <= j < |s.threads| && j != i ==> s'.threads[j] == s.threads[j];
  }

  /** The holder of the mutex goes on, or gives it up. */
  lemma {:induction false} LockInside(s: State, i: nat)
    requires RingInv(s) && LockInv(s) && Enabled(s, ThreadStep(i)) && HoldsMutex(s.threads[i])
    ensures LockInv(StepThread(s, i))
  {
    hide Slot;
    var s' := StepThread(s, i);
    assert s.owner == Worker(i);
    forall j | 0 <= j < |s.threads| && j != i ensures s'.threads[j] == s.threads[j] && !HoldsMutex(s'.threads[j]) {
    }
    if s.threads[i].Checking? {
      HolderSeesDepth(s);
    }
  }

  /** With the mutex held by a worker, the test iget == iput tells whether the ring is empty. */
  lemma {:induction false} HolderSeesDepth(s: State)
    requires RingInv(s) && !MainHoldsMutex(s.main) && !s.main.Quit?
    ensures 0 <= Depth(s) < MAXNCLI
    ensures s.iget == s.iput <==> Depth(s) == 0
  {
    hide Slot;
    if Depth(s) > 0 {
      SlotsDiffer(|s.taken|, |s.stored|, MAXNCLI);
    }
  }

  lemma {:induction false} LockThreadStep(s: State, i: nat)
    requires RingInv(s) && LockInv(s) && Enabled(s, ThreadStep(i))
    ensures LockInv(StepThread(s, i))
  {
    hide RingInv, LockInv, StepThread;
    if HoldsMutex(s.threads[i]) {
      LockInside(s, i);
    } else {
      LockOutside(s, i);
    }
  }

  lemma {:induction false} LockStep(s: State, e: Event)
    requires RingInv(s) && LockInv(s) && Enabled(s, e)
    ensures LockInv(Apply(s, e))
  {
    match e
    case MainStep => LockMainStep(s);
    case ThreadStep(i) => LockThreadStep(s, i);
    case _ =>
  }

  /** How the four counts change when thread i moves to `t`. */
  lemma {:induction false} TallyThread(ts: seq<Thread>, i: nat, t: Thread)
    requires i < |ts|
    ensures var us := ts[i := t];
            && Tally(IsWaiting, us) == Tally(IsWaiting, ts) - One(IsWaiting(ts[i])) + One(IsWaiting(t))
            && Tally(IsSignalled, us) == Tally(IsSignalled, ts) - One(IsSignalled(ts[i])) + One(IsSignalled(t))
            && Tally(IsTaking, us) == Tally(IsTaking, ts) - One(IsTaking(ts[i])) + One(IsTaking(t))
            && Tally(IsUncounted, us) == Tally(IsUncounted, ts) - One(IsUncounted(ts[i])) + One(IsUncounted(t))
  {
    TallyUpdate(IsWaiting, ts, i, t);
    TallyUpdate(IsSignalled, ts, i, t);
    TallyUpdate(IsTaking, ts, i, t);
    TallyUpdate(IsUncounted, ts, i, t);
  }

  lemma {:induction false} WakeThreadStep(s: State, i: nat)
    requires RingInv(s) && LockInv(s) && WakeInv(s) && Enabled(s, ThreadStep(i))
    ensures WakeInv(StepThread(s, i))
  {
    hide Tally;
    var t := StepThread(s, i).threads[i];
    TallyThread(s.threads, i, t);
    assert Tally(IsWaiting, s.threads[i := t]) > Tally(IsWaiting, s.threads) ==> Depth(s) == 0;
  }

  lemma {:induction false} WakeStep(s: State, e: Event)
    requires RingInv(s) && LockInv(s) && WakeInv(s) && Enabled(s, e)
    ensures WakeInv(Apply(s, e))
  {
    hide Tally;
    match e
    case Accept(_) =>
    case MainStep =>
    case SignalWakes(i) => TallyThread(s.threads, i, Woken);
    case SpuriousWakeup(i) => TallyThread(s.threads, i, Woken);
    case ThreadStep(i) => WakeThreadStep(s, i);
  }

  lemma {:induction false} CountThreadStep(s: State, i: nat)
    requires WellTyped(s) && CountInv(s) && i < |s.threads|
    ensures CountInv(StepThread(s, i))
  {
    hide Tally, Sum;
    var t := StepThread(s, i).threads[i];
    TallyThread(s.threads, i, t);
    assert s.threads[i] == t ==> s.threads[i := t] == s.threads;
    SumUpdate(s.counts, i, s.counts[i] + 1);
  }

  lemma {:induction false} CountStep(s: State, e: Event)
    requires RingInv(s) && CountInv(s) && Enabled(s, e)
    ensures CountInv(Apply(s, e))
  {
    hide Tally, Sum, StepThread;
    match e
    case Accept(_) =>
    case MainStep =>
    case SignalWakes(i) => TallyThread(s.threads, i, Woken);
    case SpuriousWakeup(i) => TallyThread(s.threads, i, Woken);
    case ThreadStep(i) => CountThreadStep(s, i);
  }

  lemma {:induction false} ServedThreadStep(s: State, i: nat)
    requires ServedInv(s) && i < |s.threads|
    ensures ServedInv(StepThread(s, i))
  {
    hide Share;
    var s' := StepThread(s, i);
    assert s'.accepted == s.accepted && s'.stored == s.stored && s'.main == s.main;
    forall j | 0 <= j < |s.threads| ensures WorkerHistory(s', j) {
      assert WorkerHistory(s, j);
      WorkerStep(s, i, j);
    }
  }

  lemma {:induction false} WorkerStep(s: State, i: nat, j: nat)
    requires WellTyped(s) && |s.takers| == |s.taken| && i < |s.threads| && j < |s.threads| && WorkerHistory(s, j)
    ensures WorkerHistory(StepThread(s, i), j)
  {
    hide Share;
    if s.threads[i].Removing? {
      ShareSnoc(s.taken, s.takers, s.threads[i].fd, i, j);
    }
  }

  lemma {:induction false} ServedStep(s: State, e: Event)
    requires RingInv(s) && ServedInv(s) && Enabled(s, e)
    ensures ServedInv(Apply(s, e))
  {
    hide StepThread, RingInv, Share;
    match e
    case ThreadStep(i) => ServedThreadStep(s, i);
    case _ =>
      assert forall j :: 0 <= j < |s.threads| && WorkerHistory(s, j) ==> WorkerHistory(Apply(s, e), j);
  }

  // ----- whole runs -----

  lemma {:induction false} Preserved(s: State, e: Event)
    requires Inv(s) && Enabled(s, e)
    ensures Inv(Apply(s, e))
  {
    hide RingInv, LockInv, WakeInv, CountInv, ServedInv, Apply;
    RingStep(s, e);
    LockStep(s, e);
    WakeStep(s, e);
    CountStep(s, e);
    ServedStep(s, e);
  }

  /** Executes a schedule, any interleaving of the threads; an event that is not enabled is skipped. */
  ghost function Run(s: State, es: seq<Event>): (r: State)
    requires Inv(s)
    ensures WellTyped(r)
    decreases |es|
  {
    if es == [] then s
    else if Enabled(s, es[0]) then
      Preserved(s, es[0]);
      Run(Apply(s, es[0]), es[1..])
    else Run(s, es[1..])
  }

  lemma {:induction false} RunKeeps(s: State, es: seq<Event>)
    requires Inv(s)
    ensures Inv(Run(s, es))
    decreases |es|
  {
    hide LockInv, WakeInv, CountInv, ServedInv, Apply, Enabled;
    if es != [] {
      if Enabled(s, es[0]) {
        Preserved(s, es[0]);
        RunKeeps(Apply(s, es[0]), es[1..]);
      } else {
        RunKeeps(s, es[1..]);
      }
    }
  }

  /** Nothing is running at the start: an empty ring and N idle threads. */
  lemma {:induction false} InitInv(n: nat)
    ensures Inv(Init(n))
  {
    TallyNone(IsUncounted, Init(n).threads);
    TallyNone(IsWaiting, Init(n).threads);
    SumZero(Init(n).counts);
    assert forall i :: 0 <= i < n ==> WorkerHistory(Init(n), i);
  }

  /** The state after schedule `es`, with n worker threads. */
  ghost function Reached(n: nat, es: seq<Event>): (r: State)
    ensures WellTyped(r)
  {
    InitInv(n);
    Run(Init(n), es)
  }

  /** The invariant holds in every reachable state. */
  lemma {:induction false} Always(n: nat, es: seq<Event>)
    ensures Inv(Reached(n, es))
  {
    InitInv(n);
    RunKeeps(Init(n), es);
  }

  /** First in, first out, each connection once: what was taken is a prefix of what was stored. */
  lemma {:induction false} TakenInOrder(n: nat, es: seq<Event>)
    ensures var s := Reached(n, es);
            && |s.taken| <= |s.stored|
            && s.taken == s.stored[..|s.taken|]
            && Sum(s.counts) <= |s.taken|
  {
    Always(n, es);
    var s := Reached(n, es);
    forall k | 0 <= k < |s.taken| ensures s.taken[k] == s.stored[..|s.taken|][k] {
    }
  }

  /**
   * The ring never loses a pending connection. At most 31 are pending while the server runs;
   * the 32nd makes it quit, and even then no slot has been overwritten.
   */
  lemma {:induction false} RingHoldsPending(n: nat, es: seq<Event>)
    ensures var s := Reached(n, es);
            var depth := |s.stored| - |s.taken|;
            && 0 <= depth <= MAXNCLI
            && (s.main.Quit? ==> depth == MAXNCLI)
            && (depth == MAXNCLI ==> s.main.Testing? || s.main.Quit?)
            && (depth < MAXNCLI ==> Pending(s.slots, s.iget, s.iput) == s.stored[|s.taken|..])
            && (depth == MAXNCLI ==>
                  s.iget == s.iput && s.slots[s.iget..] + s.slots[..s.iget] == s.stored[|s.taken|..])
  {
    Always(n, es);
    PendingIsTheGap(Reached(n, es));
  }

  lemma {:induction false} PendingIsTheGap(s: State)
    requires RingInv(s)
    ensures Depth(s) < MAXNCLI ==> Pending(s.slots, s.iget, s.iput) == s.stored[|s.taken|..]
    ensures Depth(s) == MAXNCLI ==>
              s.iget == s.iput && s.slots[s.iget..] + s.slots[..s.iget] == s.stored[|s.taken|..]
  {
    hide Slot;
    if Depth(s) == MAXNCLI {
      SlotsMeet(|s.taken|, MAXNCLI);
    } else {
      WrapIsSlot(|s.taken|, Depth(s), MAXNCLI);
    }
    var q := s.stored[|s.taken|..];
    var p := if |q| < MAXNCLI then Pending(s.slots, s.iget, s.iput) else s.slots[s.iget..] + s.slots[..s.iget];
    assert |p| == |q|;
    forall j | 0 <= j < |q| ensures p[j] == q[j] {
      WrapIsSlot(|s.taken|, j, MAXNCLI);
      assert s.slots[Slot(|s.taken| + j, MAXNCLI)] == s.stored[|s.taken| + j];
    }
  }

  predicate IsWoken(t: Thread) { t.Woken? }

  /**
   * No lost wake-up. Whenever the mutex is free and some thread still sleeps, each pending
   * connection has its own signalled thread on the way back to the queue.
   */
  lemma {:induction false} SleepersAreCovered(n: nat, es: seq<Event>)
    ensures var s := Reached(n, es);
            s.owner == Free && Tally(IsWaiting, s.threads) > 0 ==>
              |s.stored| - |s.taken| <= Tally(IsWoken, s.threads)
  {
    Always(n, es);
    var s := Reached(n, es);
    if s.owner == Free {
      TallyNone(IsTaking, s.threads);
      TallySame(IsSignalled, IsWoken, s.threads);
    }
  }

  /** A pending connection is never left with every thread asleep. */
  lemma {:induction false} NotAllAsleep(n: nat, es: seq<Event>)
    ensures var s := Reached(n, es);
            n > 0 && s.owner == Free && |s.taken| < |s.stored| ==>
              exists i :: 0 <= i < |s.threads| && !s.threads[i].Waiting? && Enabled(s, ThreadStep(i))
  {
    Always(n, es);
    var s := Reached(n, es);
    InitInv(n);
    ThreadsKept(Init(n), es, n);
    if n > 0 && s.owner == Free && |s.taken| < |s.stored| {
      SleepersAreCovered(n, es);
      var i :| 0 <= i < n && !s.threads[i].Waiting? by {
        TallyAll(IsWaiting, s.threads);
        TallyPositive(IsWoken, s.threads);
      }
      assert Enabled(s, ThreadStep(i));
    }
  }

  lemma {:induction false} ThreadsKept(s: State, es: seq<Event>, n: nat)
    requires Inv(s) && |s.threads| == n
    ensures |Run(s, es).threads| == n
    decreases |es|
  {
    if es != [] {
      if Enabled(s, es[0]) {
        Preserved(s, es[0]);
        ThreadsKept(Apply(s, es[0]), es[1..], n);
      } else {
        ThreadsKept(s, es[1..], n);
      }
    }
  }
}
