/**
 * Progress of the prethreaded server: every schedule without new connections ends, and it ends with
 * every accepted connection taken and served, unless the ring was overfilled.
 * Source: unpv13e/server/serv08.c, unpv13e/server/pthread08.c.
 */
module ThreadPoolProgress {
  import opened Counting
  import opened Ring
  import opened ThreadPool

  // ----- every schedule is finite -----

  /** Statements of a worker before it sleeps or has removed a connection. */
  function Rank(t: Thread): nat
  {
    match t
    case Waiting => 0
    case Removing(_) => 0
    case Parking => 1
    case Getting => 1
    case Checking(_) => 2
    case Idle => 3
    case Woken => 3
    case Serving(_) => 4
    case Tallying(_) => 5
    case Releasing(_) => 6
  }

  /** Statements of main before it accepts again, with what its signal and its connection still cause. */
  function MainRank(m: MainPc): nat
  {
    match m
    case Accepting => 0
    case Quit => 0
    case Unlocking => 1
    case Signalling => 5
    case Testing => 6
    case Advancing(_) => 14
    case Storing(_) => 15
    case Locking(_) => 16
  }

  function Ranks(ts: seq<Thread>): (rs: seq<nat>)
    ensures |rs| == |ts|
  {
    seq(|ts|, i requires 0 <= i < |ts| => Rank(ts[i]))
  }

  function Measure(s: State): int
  {
    7 * Depth(s) + MainRank(s.main) + Sum(Ranks(s.threads))
  }

  lemma {:induction false} RanksMove(ts: seq<Thread>, i: nat, t: Thread)
    requires i < |ts|
    ensures Sum(Ranks(ts[i := t])) == Sum(Ranks(ts)) - Rank(ts[i]) + Rank(t)
  {
    SumUpdate(Ranks(ts), i, Rank(t));
    assert Ranks(ts[i := t]) == Ranks(ts)[i := Rank(t)];
  }

  /** What an event may add: a new connection or a spurious wake-up; all others only use up. */
  function Fresh(e: Event): nat
  {
    if e.Accept? then 17 else if e.SpuriousWakeup? then 4 else 0
  }

  lemma {:induction false} MeasureThreadStep(s: State, i: nat)
    requires Inv(s) && Enabled(s, ThreadStep(i))
    ensures Measure(StepThread(s, i)) < Measure(s)
  {
    hide LockInv, WakeInv, CountInv, ServedInv, Sum, Ranks;
    var s' := StepThread(s, i);
    RanksMove(s.threads, i, s'.threads[i]);
    assert s'.threads == s.threads[i := s'.threads[i]];
  }

  lemma {:induction false} MeasureStep(s: State, e: Event)
    requires Inv(s) && Enabled(s, e)
    ensures Measure(Apply(s, e)) < Measure(s) + Fresh(e)
  {
    hide Sum, Ranks, StepThread, RingInv, LockInv, WakeInv, CountInv, ServedInv;
    match e
    case Accept(_) =>
    case MainStep =>
    case SignalWakes(i) => RanksMove(s.threads, i, Woken);
    case SpuriousWakeup(i) => RanksMove(s.threads, i, Woken);
    case ThreadStep(i) => MeasureThreadStep(s, i);
  }

  /** A schedule whose events are each enabled when they happen. */
  ghost predicate IsRun(s: State, es: seq<Event>)
    requires Inv(s)
    decreases |es|
  {
    es == [] || (Enabled(s, es[0]) && (Preserved(s, es[0]); IsRun(Apply(s, es[0]), es[1..])))
  }

  function Accepts(es: seq<Event>): seq<int>
  {
    if es == [] then [] else (if es[0].Accept? then [es[0].fd] else []) + Accepts(es[1..])
  }

  predicate IsSpurious(e: Event) { e.SpuriousWakeup? }

  /** At most 17 steps per accepted connection, 4 per spurious wake-up and 3 for each thread to start. */
  lemma {:induction false} RunsAreFinite(s: State, es: seq<Event>)
    requires Inv(s) && IsRun(s, es)
    ensures |es| <= Measure(s) + 17 * |Accepts(es)| + 4 * Tally(IsSpurious, es)
    decreases |es|
  {
    hide LockInv, WakeInv, CountInv, ServedInv, Apply, Enabled, Measure;
    if es == [] {
      MeasureBounded(s);
    } else {
      Preserved(s, es[0]);
      MeasureStep(s, es[0]);
      RunsAreFinite(Apply(s, es[0]), es[1..]);
    }
  }

  lemma {:induction false} MeasureBounded(s: State)
    requires Inv(s)
    ensures Measure(s) >= 0
  {
  }

  lemma {:induction false} MeasureAtStart(n: nat)
    ensures Measure(Init(n)) == 3 * n
  {
    SumOfSame(Ranks(Init(n).threads), 3);
  }

  lemma {:induction false} SumOfSame(xs: seq<nat>, x: nat)
    requires forall i :: 0 <= i < |xs| ==> xs[i] == x
    ensures Sum(xs) == x * |xs|
  {
    if xs != [] {
      SumOfSame(xs[1..], x);
    }
  }

  // ----- where schedules end -----

  /** Nothing can happen any more but a new connection or a spurious wake-up. */
  ghost predicate Quiet(s: State)
  {
    forall e :: Enabled(s, e) ==> Fresh(e) > 0
  }

  /** Main in accept, all workers asleep, nothing on the ring. */
  predicate AtRest(s: State)
  {
    && s.main.Accepting? && s.owner == Free && Depth(s) == 0
    && forall i :: 0 <= i < |s.threads| ==> s.threads[i].Waiting?
  }

  /** What main does with the mutex held. */
  ghost function MainGoesOn(s: State): Event
  {
    if s.main.Signalling? && exists i :: 0 <= i < |s.threads| && s.threads[i].Waiting?
    then (var i :| 0 <= i < |s.threads| && s.threads[i].Waiting?; SignalWakes(i))
    else MainStep
  }

  lemma {:induction false} MainCanGoOn(s: State)
    requires LockInv(s) && s.owner == MainThread && !s.main.Quit?
    ensures Enabled(s, MainGoesOn(s)) && Fresh(MainGoesOn(s)) == 0
  {
    TallyPositive(IsWaiting, s.threads);
  }

  /** A worker that is not asleep, while something is on the ring or not all are asleep. */
  lemma {:induction false} SomeoneAwake(s: State) returns (i: nat)
    requires RingInv(s) && WakeInv(s) && LockInv(s) && |s.threads| > 0 && s.owner == Free && !s.main.Quit?
    requires Depth(s) > 0 || exists j :: 0 <= j < |s.threads| && !s.threads[j].Waiting?
    ensures i < |s.threads| && !s.threads[i].Waiting?
  {
    hide Slot;
    TallyAll(IsWaiting, s.threads);
    if Tally(IsWaiting, s.threads) == |s.threads| {
      TallyNone(IsSignalled, s.threads);
      TallyNone(IsTaking, s.threads);
      assert false;
    }
    i :| 0 <= i < |s.threads| && !IsWaiting(s.threads[i]);
  }

  /** Whoever is not at rest can go on. */
  lemma {:induction false} SomeoneGoesOn(s: State) returns (e: Event)
    requires Inv(s) && |s.threads| > 0 && !s.main.Quit? && !AtRest(s)
    ensures Enabled(s, e) && Fresh(e) == 0
  {
    hide Slot, CountInv, ServedInv;
    match s.owner
    case MainThread =>
      MainCanGoOn(s);
      e := MainGoesOn(s);
    case Worker(i) =>
      e := ThreadStep(i);
    case Free =>
      if !s.main.Accepting? {
        e := MainStep;
      } else {
        var i := SomeoneAwake(s);
        e := ThreadStep(i);
      }
  }

  lemma {:induction false} QuietIsIdle(s: State)
    requires Inv(s) && Quiet(s) && |s.threads| > 0 && !s.main.Quit?
    ensures AtRest(s)
  {
    hide Inv, Enabled, AtRest;
    if !AtRest(s) {
      var e := SomeoneGoesOn(s);
      assert false;
    }
  }

  lemma {:induction false} RunAccepts(s: State, es: seq<Event>)
    requires Inv(s) && IsRun(s, es)
    ensures Run(s, es).accepted == s.accepted + Accepts(es)
    decreases |es|
  {
    hide LockInv, WakeInv, CountInv, ServedInv, StepMain, StepThread;
    if es != [] {
      Preserved(s, es[0]);
      AcceptedStep(s, es[0]);
      RunAccepts(Apply(s, es[0]), es[1..]);
      Regroup(s.accepted, if es[0].Accept? then [es[0].fd] else [], Accepts(es[1..]));
    }
  }

  lemma {:induction false} AcceptedStep(s: State, e: Event)
    requires Inv(s) && Enabled(s, e)
    ensures Apply(s, e).accepted == s.accepted + if e.Accept? then [e.fd] else []
  {
    hide RingInv, LockInv, WakeInv, CountInv, ServedInv;
    assert s.accepted + [] == s.accepted;
  }

  /**
   * However the threads are scheduled, a run that cannot go on by itself has served everything: the
   * connections taken are exactly those accepted, in order, each worker has served exactly its share
   * of them and counted it, and the server is ready for another one. The only other end is the quit
   * with 32 connections pending.
   */
  lemma {:induction false} EverythingServed(n: nat, es: seq<Event>)
    requires n > 0
    requires (InitInv(n); IsRun(Init(n), es))
    requires Quiet(Reached(n, es))
    ensures var s := Reached(n, es);
            if s.main.Quit? then |s.stored| - |s.taken| == MAXNCLI
            else
              && s.taken == s.stored == Accepts(es)
              && |s.takers| == |s.taken| && |s.served| == |s.counts| == n
              && (forall i :: 0 <= i < n ==>
                    s.served[i] == Share(s.taken, s.takers, i) && s.counts[i] == |s.served[i]|)
              && (forall k :: 0 <= k < |s.takers| ==> s.takers[k] < n)
              && forall fd :: Enabled(s, Accept(fd))
  {
    Always(n, es);
    InitInv(n);
    ThreadsKept(Init(n), es, n);
    RunAccepts(Init(n), es);
    var s := Reached(n, es);
    if !s.main.Quit? {
      QuietIsIdle(s);
      QuietServed(s);
    }
  }

  lemma {:induction false} QuietServed(s: State)
    requires Inv(s) && AtRest(s)
    ensures s.taken == s.stored == s.accepted
    ensures |s.takers| == |s.taken|
    ensures forall i :: 0 <= i < |s.threads| ==>
              s.served[i] == Share(s.taken, s.takers, i) && s.counts[i] == |s.served[i]|
    ensures forall k :: 0 <= k < |s.takers| ==> s.takers[k] < |s.threads|
  {
    hide Share, Slot;
    assert s.stored + [] == s.stored;
    forall i | 0 <= i < |s.threads|
      ensures s.served[i] == Share(s.taken, s.takers, i) && s.counts[i] == |s.served[i]|
    {
      assert WorkerHistory(s, i);
      assert s.served[i] + [] == s.served[i];
    }
  }

  // ----- the next connection -----

  /** The 32nd pending connection is on its way onto the ring, or there: the server will quit. */
  predicate Doomed(s: State)
  {
    || s.main.Quit?
    || (s.main.Testing? && Depth(s) == MAXNCLI)
    || ((s.main.Storing? || s.main.Advancing?) && Depth(s) == MAXNCLI - 1)
  }

  /** In a doomed state nothing is taken any more, and it stays doomed. */
  lemma {:induction false} DoomedStays(s: State, e: Event)
    requires Inv(s) && Doomed(s) && Enabled(s, e)
    ensures Doomed(Apply(s, e)) && Apply(s, e).taken == s.taken
  {
    hide Slot, Share, WakeInv, CountInv, ServedInv;
    if e.ThreadStep? {
      assert !HoldsMutex(s.threads[e.i]);
    }
    if s.main.Testing? && e.MainStep? {
      SlotsMeet(|s.taken|, MAXNCLI);
    }
  }

  lemma {:induction false} DoomedTakesNone(s: State, es: seq<Event>)
    requires Inv(s) && Doomed(s)
    ensures Run(s, es).taken == s.taken
    decreases |es|
  {
    hide LockInv, WakeInv, CountInv, ServedInv, Apply, Enabled, Doomed;
    if es != [] {
      if Enabled(s, es[0]) {
        Preserved(s, es[0]);
        DoomedStays(s, es[0]);
        DoomedTakesNone(Apply(s, es[0]), es[1..]);
      } else {
        DoomedTakesNone(s, es[1..]);
      }
    }
  }

  /** An event that brings the next removal nearer: of the holder of the mutex, or of an awake worker. */
  lemma {:induction false} Helpful(s: State) returns (e: Event)
    requires Inv(s) && |s.threads| > 0 && Depth(s) > 0 && !Doomed(s)
    ensures Enabled(s, e) && Fresh(e) == 0
    ensures e.ThreadStep? || MainHoldsMutex(s.main)
  {
    hide Slot, CountInv, ServedInv;
    match s.owner
    case MainThread =>
      MainCanGoOn(s);
      e := MainGoesOn(s);
    case Worker(i) =>
      e := ThreadStep(i);
    case Free =>
      var i := SomeoneAwake(s);
      e := ThreadStep(i);
  }

  /** A helpful event removes a connection or leaves the ring's fate as it was. */
  lemma {:induction false} HelpfulStep(s: State, e: Event)
    requires Inv(s) && Depth(s) > 0 && !Doomed(s)
    requires Enabled(s, e) && Fresh(e) == 0 && (e.ThreadStep? || MainHoldsMutex(s.main))
    ensures var s' := Apply(s, e);
            && s.stored <= s'.stored && |s'.threads| == |s.threads|
            && (|s'.taken| == |s.taken| + 1 || (s'.taken == s.taken && Depth(s') > 0 && !Doomed(s')))
  {
    hide Slot, Share, WakeInv, CountInv, ServedInv;
    if s.main.Testing? {
      assert 0 < Depth(s) < MAXNCLI;
      SlotsDiffer(|s.taken|, |s.stored|, MAXNCLI);
    }
  }

  /** Some schedule takes exactly one more connection. */
  lemma {:induction false} TakeOne(s: State) returns (es: seq<Event>)
    requires Inv(s) && |s.threads| > 0 && Depth(s) > 0 && !Doomed(s)
    ensures |Run(s, es).taken| == |s.taken| + 1 && s.stored <= Run(s, es).stored
    decreases Measure(s)
  {
    hide LockInv, WakeInv, CountInv, ServedInv, Apply, Enabled, Doomed, Measure;
    var e := Helpful(s);
    Preserved(s, e);
    MeasureStep(s, e);
    MeasureBounded(s);
    HelpfulStep(s, e);
    var s' := Apply(s, e);
    var more := [];
    if |s'.taken| == |s.taken| {
      more := TakeOne(s');
    }
    es := [e] + more;
    assert es[1..] == more;
  }

  lemma {:induction false} RunConcat(s: State, es: seq<Event>, more: seq<Event>)
    requires Inv(s)
    ensures (RunKeeps(s, es); Run(s, es + more) == Run(Run(s, es), more))
    decreases |es|
  {
    hide LockInv, WakeInv, CountInv, ServedInv, Apply, Enabled;
    RunKeeps(s, es);
    if es == [] {
      assert es + more == more;
    } else {
      assert (es + more)[1..] == es[1..] + more;
      if Enabled(s, es[0]) {
        Preserved(s, es[0]);
        RunConcat(Apply(s, es[0]), es[1..], more);
      } else {
        RunConcat(s, es[1..], more);
      }
    }
  }

  /**
   * From any reached state with a connection pending, some further schedule takes exactly that
   * connection next, if and only if the ring is not being overfilled.
   */
  lemma {:induction false} NextIsTaken(n: nat, es: seq<Event>)
    requires n > 0 && |Reached(n, es).taken| < |Reached(n, es).stored|
    ensures var s := Reached(n, es);
            (exists more :: Reached(n, es + more).taken == s.stored[..|s.taken| + 1]) <==> !Doomed(s)
  {
    hide Run;
    var s := Reached(n, es);
    Always(n, es);
    InitInv(n);
    ThreadsKept(Init(n), es, n);
    if Doomed(s) {
      forall more ensures Reached(n, es + more).taken == s.taken {
        DoomedTakesNone(s, more);
        RunConcat(Init(n), es, more);
      }
    } else {
      var more := TakeOne(s);
      RunConcat(Init(n), es, more);
      TakenInOrder(n, es + more);
      var r := Reached(n, es + more);
      assert r.stored[..|r.taken|] == s.stored[..|s.taken| + 1];
    }
  }
}
