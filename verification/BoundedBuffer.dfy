/**
 * The bounded buffer: a producer and a consumer thread share ten slots under a mutex with one
 * condition variable each.
 * Source: unpv13e/threads/example03.c.
 */
module BoundedBuffer {
  import opened Counting
  import opened Ring

  const BUFFSIZE := 10

  // ----- the two critical sections, in place -----

  /** The items in the buffer, oldest first. */
  function Items(slots: seq<int>, nextget: nat, nitems: nat): (q: seq<int>)
    requires |slots| == BUFFSIZE && nextget < BUFFSIZE && nitems <= BUFFSIZE
    ensures |q| == nitems
  {
    seq(nitems, j requires 0 <= j < nitems => slots[Wrap(nextget + j, BUFFSIZE)])
  }

  class Buffer {
    const buf: array<int>
    var nitems: nat
    var nextget: nat
    var nextput: nat

    ghost predicate Valid()
      reads this
    {
      buf.Length == BUFFSIZE && nitems <= BUFFSIZE && nextget < BUFFSIZE && nextput == Wrap(nextget + nitems, BUFFSIZE)
    }

    ghost function Contents(): seq<int>
      requires Valid()
      reads this, buf
    {
      Items(buf[..], nextget, nitems)
    }

    constructor ()
      ensures Valid() && fresh(buf) && Contents() == []
    {
      buf := new int[BUFFSIZE];
      nitems, nextget, nextput := 0, 0, 0;
    }

    /** Lines 72-75, after the producer's wait loop. */
    method Store(val: int)
      requires Valid() && nitems < BUFFSIZE
      modifies this`nitems, this`nextput, buf
      ensures Valid()
      ensures Contents() == old(Contents()) + [val]
    {
      ghost var was := buf[..];
      buf[nextput] := val;
      assert buf[..] == was[nextput := val];
      nextput := nextput + 1;
      if nextput >= BUFFSIZE {
        nextput := 0;
      }
      nitems := nitems + 1;
      forall j | 0 <= j < nitems ensures Contents()[j] == (old(Contents()) + [val])[j] {
        assert j < nitems - 1 ==> Wrap(nextget + j, BUFFSIZE) != old(nextput);
      }
    }

    /** Lines 93-97, after the consumer's wait loop. */
    method Fetch() returns (val: int)
      requires Valid() && nitems > 0
      modifies this`nitems, this`nextget
      ensures Valid()
      ensures [val] + Contents() == old(Contents())
    {
      val := buf[nextget];
      nextget := nextget + 1;
      if nextget >= BUFFSIZE {
        nextget := 0;
      }
      nitems := nitems - 1;
      forall j | 0 <= j < nitems + 1 ensures ([val] + Contents())[j] == old(Contents())[j] {
        assert j > 0 ==> Wrap(nextget + (j - 1), BUFFSIZE) == Wrap(old(nextget) + j, BUFFSIZE);
      }
    }
  }

  // ----- both threads, interleaved one statement at a time -----

  /** Both threads go through the same program points. */
  datatype Pc =
    | Locking            // Pthread_mutex_lock
    | Checking           // while (b_nitems >= BUFFSIZE), while (b_nitems <= 0)
    | Parking            // Pthread_cond_wait, still holding the mutex
    | Waiting            // blocked
    | Woken              // signalled, must reacquire the mutex
    | Moving             // b_buf[b_nextput] = val, val = b_buf[b_nextget]
    | Advancing          // ++b_nextput, ++b_nextget
    | Adjusting          // b_nitems++, b_nitems--
    | Signalling         // Pthread_cond_signal
    | Unlocking          // Pthread_mutex_unlock
    | Finished           // the loop is over

  datatype Owner = Free | Held(producer: bool)

  /** `got` is the consumer's local variable val; `produced` and `consumed` are histories. */
  datatype State = State(
    slots: seq<int>, nitems: int, nextget: nat, nextput: nat,
    owner: Owner, prod: Pc, cons: Pc, got: int,
    produced: seq<int>, consumed: seq<int>)

  datatype Event = Step(producer: bool) | SpuriousWakeup(producer: bool)

  predicate IsSpurious(e: Event) { e.SpuriousWakeup? }

  function PcOf(s: State, producer: bool): Pc
  {
    if producer then s.prod else s.cons
  }

  function Move(s: State, producer: bool, pc: Pc): State
  {
    if producer then s.(prod := pc) else s.(cons := pc)
  }

  /** Start of a loop with `loops` iterations. */
  function Start(loops: nat): (s: State)
    ensures Inv(s, loops)
  {
    var pc := if loops == 0 then Finished else Locking;
    State(seq(BUFFSIZE, _ => 0), 0, 0, 0, Free, pc, pc, 0, [], [])
  }

  predicate Enabled(s: State, e: Event)
  {
    var pc := PcOf(s, e.producer);
    match e
    case Step(_) => !pc.Waiting? && !pc.Finished? && (pc.Locking? || pc.Woken? ==> s.owner == Free)
    case SpuriousWakeup(_) => pc.Waiting?
  }

  predicate Shaped(s: State)
  {
    |s.slots| == BUFFSIZE && s.nextget < BUFFSIZE && s.nextput < BUFFSIZE
  }

  /** The producer stores the loop counter, which is the number of items produced so far. */
  function StepAction(s: State, producer: bool): State
    requires Shaped(s)
  {
    match PcOf(s, producer)
    case Moving => if producer then s.(slots := s.slots[s.nextput := |s.produced|]) else s.(got := s.slots[s.nextget])
    case Advancing =>
      if producer then s.(nextput := Next(s.nextput, BUFFSIZE)) else s.(nextget := Next(s.nextget, BUFFSIZE))
    case Adjusting =>
      if producer then s.(nitems := s.nitems + 1, produced := s.produced + [|s.produced|])
      else s.(nitems := s.nitems - 1, consumed := s.consumed + [s.got])
    case Signalling => if PcOf(s, !producer).Waiting? then Move(s, !producer, Woken) else s
    case Locking => s.(owner := Held(producer))
    case Woken => s.(owner := Held(producer))
    case Parking => s.(owner := Free)
    case Unlocking => s.(owner := Free)
    case _ => s
  }

  function NextPc(s: State, producer: bool, loops: nat): Pc
  {
    match PcOf(s, producer)
    case Locking => Checking
    case Woken => Checking
    case Checking => if (if producer then s.nitems >= BUFFSIZE else s.nitems <= 0) then Parking else Moving
    case Parking => Waiting
    case Moving => Advancing
    case Advancing => Adjusting
    case Adjusting => Signalling
    case Signalling => Unlocking
    case Unlocking => if |if producer then s.produced else s.consumed| < loops then Locking else Finished
    case pc => pc
  }

  function Apply(s: State, e: Event, loops: nat): State
    requires Shaped(s) && Enabled(s, e)
  {
    match e
    case Step(p) => Move(StepAction(s, p), p, NextPc(s, p, loops))
    case SpuriousWakeup(p) => Move(s, p, Woken)
  }

  // ----- invariants -----

  predicate HoldsMutex(pc: Pc)
  {
    pc.Checking? || pc.Parking? || pc.Moving? || pc.Advancing? || pc.Adjusting? || pc.Signalling? || pc.Unlocking?
  }

  /** Past the wait loop, before b_nitems changes. */
  predicate InTransfer(pc: Pc) { pc.Moving? || pc.Advancing? || pc.Adjusting? }

  ghost predicate LockInv(s: State)
  {
    && (s.owner == Held(true) <==> HoldsMutex(s.prod))
    && (s.owner == Held(false) <==> HoldsMutex(s.cons))
  }

  /** nextput == (nextget + nitems) mod 10, up to the one statement between the two updates. */
  ghost predicate BufferInv(s: State)
  {
    && Shaped(s)
    && s.nitems == |s.produced| - |s.consumed| && 0 <= s.nitems <= BUFFSIZE
    && s.nextput == Slot(|s.produced| + if s.prod.Adjusting? then 1 else 0, BUFFSIZE)
    && s.nextget == Slot(|s.consumed| + if s.cons.Adjusting? then 1 else 0, BUFFSIZE)
    && (forall k :: |s.consumed| <= k < |s.produced| ==> s.slots[Slot(k, BUFFSIZE)] == k)
    && (forall k :: 0 <= k < |s.produced| ==> s.produced[k] == k)
    && (forall k :: 0 <= k < |s.consumed| ==> s.consumed[k] == k)
    && (InTransfer(s.prod) ==> s.nitems < BUFFSIZE)
    && (InTransfer(s.cons) ==> s.nitems > 0)
    && (s.prod.Advancing? || s.prod.Adjusting? ==> s.slots[Slot(|s.produced|, BUFFSIZE)] == |s.produced|)
    && (s.cons.Advancing? || s.cons.Adjusting? ==> s.got == |s.consumed|)
  }

  predicate AfterTransfer(pc: Pc) { pc.Signalling? || pc.Unlocking? }

  ghost predicate LoopInv(s: State, loops: nat)
  {
    && |s.produced| <= loops && |s.consumed| <= loops
    && (s.prod.Finished? ==> |s.produced| == loops)
    && (s.cons.Finished? ==> |s.consumed| == loops)
    && (!s.prod.Finished? && !AfterTransfer(s.prod) ==> |s.produced| < loops)
    && (!s.cons.Finished? && !AfterTransfer(s.cons) ==> |s.consumed| < loops)
  }

  /** A thread sleeps only while its condition holds or the other is about to signal it. */
  ghost predicate WakeInv(s: State)
  {
    && (s.prod.Waiting? ==> s.nitems == BUFFSIZE || s.cons.Signalling?)
    && (s.cons.Waiting? ==> s.nitems == 0 || s.prod.Signalling?)
    && (s.prod.Parking? ==> s.nitems == BUFFSIZE)
    && (s.cons.Parking? ==> s.nitems == 0)
  }

  ghost predicate Inv(s: State, loops: nat)
  {
    LockInv(s) && BufferInv(s) && LoopInv(s, loops) && WakeInv(s)
  }

  lemma {:induction false} BufferStep(s: State, producer: bool, loops: nat)
    requires Inv(s, loops) && Enabled(s, Step(producer))
    ensures BufferInv(Apply(s, Step(producer), loops))
  {
    if producer {
      BufferStepProducer(s, loops);
    } else {
      BufferStepConsumer(s, loops);
    }
  }

  lemma {:induction false} BufferStepProducer(s: State, loops: nat)
    requires Inv(s, loops) && Enabled(s, Step(true))
    ensures BufferInv(Apply(s, Step(true), loops))
  {
    hide Slot;
    SlotNext(|s.produced|, BUFFSIZE);
    if s.prod.Moving? {
      forall k | |s.consumed| <= k < |s.produced| ensures Slot(k, BUFFSIZE) != s.nextput {
        SlotsDiffer(k, |s.produced|, BUFFSIZE);
      }
    }
  }

  lemma {:induction false} BufferStepConsumer(s: State, loops: nat)
    requires Inv(s, loops) && Enabled(s, Step(false))
    ensures BufferInv(Apply(s, Step(false), loops))
  {
    hide Slot;
    SlotNext(|s.consumed|, BUFFSIZE);
  }

  lemma {:induction false} Preserved(s: State, e: Event, loops: nat)
    requires Inv(s, loops) && Enabled(s, e)
    ensures Inv(Apply(s, e, loops), loops)
  {
    match e
    case Step(p) =>
      BufferStep(s, p, loops);
      OthersStep(s, p, loops);
    case SpuriousWakeup(_) =>
  }

  lemma {:induction false} OthersStep(s: State, producer: bool, loops: nat)
    requires Inv(s, loops) && Enabled(s, Step(producer))
    ensures var s' := Apply(s, Step(producer), loops); LockInv(s') && LoopInv(s', loops) && WakeInv(s')
  {
  }

  // ----- whole runs -----

  /** A schedule of events each enabled when it happens. */
  ghost predicate IsRun(s: State, es: seq<Event>, loops: nat)
    requires Inv(s, loops)
    decreases |es|
  {
    es == [] || (Enabled(s, es[0]) && (Preserved(s, es[0], loops); IsRun(Apply(s, es[0], loops), es[1..], loops)))
  }

  ghost function Run(s: State, es: seq<Event>, loops: nat): (r: State)
    requires Inv(s, loops) && IsRun(s, es, loops)
    ensures Shaped(r)
    decreases |es|
  {
    if es == [] then s
    else
      Preserved(s, es[0], loops);
      Run(Apply(s, es[0], loops), es[1..], loops)
  }

  /** The invariant holds after every run. */
  lemma {:induction false} RunKeeps(s: State, es: seq<Event>, loops: nat)
    requires Inv(s, loops) && IsRun(s, es, loops)
    ensures Inv(Run(s, es, loops), loops)
    decreases |es|
  {
    hide LockInv, LoopInv, WakeInv, Apply, Enabled;
    if es != [] {
      Preserved(s, es[0], loops);
      RunKeeps(Apply(s, es[0], loops), es[1..], loops);
    }
  }

  /** Consumed values are a prefix of produced values, and the buffer holds the rest, in order. */
  lemma {:induction false} ConsumedIsPrefix(es: seq<Event>, loops: nat)
    requires IsRun(Start(loops), es, loops)
    ensures var s := Run(Start(loops), es, loops);
            && s.consumed <= s.produced
            && 0 <= s.nitems <= BUFFSIZE
            && (s.owner == Free ==> s.nextput == (s.nextget + s.nitems) % BUFFSIZE
                                    && s.produced == s.consumed + Items(s.slots, s.nextget, s.nitems))
  {
    RunKeeps(Start(loops), es, loops);
    ItemsAreTheGap(Run(Start(loops), es, loops));
  }

  lemma {:induction false} ItemsAreTheGap(s: State)
    requires BufferInv(s) && LockInv(s)
    ensures s.consumed <= s.produced
    ensures s.owner == Free ==> s.nextput == (s.nextget + s.nitems) % BUFFSIZE
    ensures s.owner == Free ==> s.produced == s.consumed + Items(s.slots, s.nextget, s.nitems)
  {
    hide Slot;
    if s.owner == Free {
      SlotAdd(|s.consumed|, s.nitems, BUFFSIZE);
      var items := Items(s.slots, s.nextget, s.nitems);
      forall j | 0 <= j < |items| ensures items[j] == |s.consumed| + j {
        WrapIsSlot(|s.consumed|, j, BUFFSIZE);
        assert s.slots[Slot(|s.consumed| + j, BUFFSIZE)] == |s.consumed| + j;
      }
    }
  }

  /** The two threads are never both asleep, and unless both loops are over some thread can move. */
  lemma {:induction false} NeverStuck(es: seq<Event>, loops: nat)
    requires IsRun(Start(loops), es, loops)
    ensures var s := Run(Start(loops), es, loops);
            && !(s.prod.Waiting? && s.cons.Waiting?)
            && (Enabled(s, Step(true)) || Enabled(s, Step(false)) || (s.prod.Finished? && s.cons.Finished?))
  {
    RunKeeps(Start(loops), es, loops);
    var s := Run(Start(loops), es, loops);
    assert Inv(s, loops);
  }

  /** Statements left before the next signal. */
  function Rank(pc: Pc): nat
  {
    match pc
    case Finished => 0
    case Waiting => 0
    case Parking => 1
    case Signalling => 4
    case Adjusting => 5
    case Advancing => 6
    case Moving => 7
    case Checking => 8
    case Woken => 9
    case Locking => 9
    case Unlocking => 10
  }

  /** Twenty for every signal still to be sent, plus the two ranks. */
  function Measure(s: State, loops: nat): int
  {
    20 * (2 * loops - |s.produced| - |s.consumed| + One(s.prod.Signalling?) + One(s.cons.Signalling?))
    + Rank(s.prod) + Rank(s.cons)
  }

  lemma {:induction false} MeasureStep(s: State, e: Event, loops: nat)
    requires Inv(s, loops) && Enabled(s, e)
    ensures Measure(Apply(s, e, loops), loops) <= Measure(s, loops) - 1 + if e.SpuriousWakeup? then 10 else 0
  {
  }

  /** Every run is finite: at most 40 * loops + 18 steps, and ten more for each spurious wake-up. */
  lemma {:induction false} RunsAreFinite(s: State, es: seq<Event>, loops: nat)
    requires Inv(s, loops) && IsRun(s, es, loops)
    ensures |es| <= Measure(s, loops) + 10 * Tally(IsSpurious, es)
    ensures s == Start(loops) ==> |es| <= 40 * loops + 18 + 10 * Tally(IsSpurious, es)
    decreases |es|
  {
    if es != [] {
      Preserved(s, es[0], loops);
      MeasureStep(s, es[0], loops);
      RunsAreFinite(Apply(s, es[0], loops), es[1..], loops);
    }
  }

  /** A run that can only be continued by spurious wake-ups has finished both loops and moved every value. */
  lemma {:induction false} BothLoopsFinish(es: seq<Event>, loops: nat)
    requires IsRun(Start(loops), es, loops)
    requires forall p :: !Enabled(Run(Start(loops), es, loops), Step(p))
    ensures var s := Run(Start(loops), es, loops);
            s.prod.Finished? && s.cons.Finished? && s.consumed == seq(loops, k requires 0 <= k < loops => k)
  {
    RunKeeps(Start(loops), es, loops);
    NeverStuck(es, loops);
    var s := Run(Start(loops), es, loops);
    assert LoopInv(s, loops) && BufferInv(s);
  }
}
