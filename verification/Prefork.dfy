/**
 * The preforked server that passes descriptors: a parent accepts every connection, picks an
 * available child and sends it the descriptor on a stream pipe; the child serves it and
 * writes one byte back when it is ready again.
 * Source: unpv13e/server/serv05.c, unpv13e/server/child05.c.
 */
module Prefork {
  import opened Counting

  predicate IsFree(status: nat) { status == 0 }

  /** The first available child at or after i; |status| when there is none. */
  function FirstFree(status: seq<nat>, i: nat): (r: nat)
    requires i <= |status|
    ensures i <= r <= |status|
    ensures r < |status| ==> status[r] == 0
    ensures forall j :: i <= j < r ==> status[j] != 0
    decreases |status| - i
  {
    if i == |status| || status[i] == 0 then i else FirstFree(status, i + 1)
  }

  /** The ready children the scan has not reached yet. */
  function Remaining(ready: set<nat>, i: nat): set<nat>
  {
    set j | j in ready && j >= i
  }

  lemma {:induction false} RemainingStep(ready: set<nat>, i: nat)
    ensures |Remaining(ready, i)| == |Remaining(ready, i + 1)| + (if i in ready then 1 else 0)
  {
    if i in ready {
      assert Remaining(ready, i) == Remaining(ready, i + 1) + {i};
    } else {
      assert Remaining(ready, i) == Remaining(ready, i + 1);
    }
  }

  lemma {:induction false} RemainingPast(ready: set<nat>, n: nat)
    requires forall j :: j in ready ==> j < n
    ensures Remaining(ready, n) == {} && Remaining(ready, 0) == ready
  {
  }

  lemma {:induction false} RemainingBound(ready: set<nat>, i: nat, n: nat)
    requires forall j :: j in ready ==> j < n
    requires |Remaining(ready, i)| > 0
    ensures i < n
  {
    var j :| j in Remaining(ready, i);
  }

  // ----- the parent's two loops, in place on the child table -----

  class ChildTable {
    const status: array<nat>
    const count: array<nat>
    var navail: int

    ghost predicate Valid()
      reads this, status
    {
      && status != count
      && status.Length == count.Length
      && navail == Tally(IsFree, status[..])
    }

    constructor (nchildren: nat)
      ensures Valid() && navail == nchildren == status.Length
      ensures fresh(status) && fresh(count)
      ensures forall i :: 0 <= i < nchildren ==> status[i] == 0 && count[i] == 0
    {
      status := new nat[nchildren](_ => 0);
      count := new nat[nchildren](_ => 0);
      navail := nchildren;
      new;
      TallyAll(IsFree, status[..]);
    }

    /** Lines 54-62: pick the first available child; `found` is false for the err_quit exit. */
    method Assign() returns (found: bool, i: nat)
      requires Valid()
      modifies this`navail, status, count
      ensures i == FirstFree(old(status[..]), 0)
      ensures found <==> old(navail) > 0
      ensures found ==> Valid() && i < status.Length && navail == old(navail) - 1
      ensures found ==> status[..] == old(status[..])[i := 1] && count[..] == old(count[..])[i := old(count[i]) + 1]
      ensures !found ==> status[..] == old(status[..]) && count[..] == old(count[..]) && navail == old(navail)
    {
      TallyPositive(IsFree, status[..]);
      i := 0;
      while i < status.Length && status[i] != 0
        invariant 0 <= i <= status.Length
        invariant FirstFree(status[..], i) == FirstFree(status[..], 0)
      {
        i := i + 1;
      }
      found := i != status.Length;
      if found {
        TallyUpdate(IsFree, status[..], i, 1);
        ghost var was := status[..];
        status[i] := 1;
        assert status[..] == was[i := 1];
        count[i] := count[i] + 1;
        navail := navail - 1;
      } else {
        assert status[..] == old(status[..]);
      }
    }

    /**
     * Lines 71-80: the scan for newly available children, with its countdown. Every ready child
     * is read exactly once and becomes available, although the loop stops as soon as nsel is 0.
     */
    method Collect(ready: set<nat>, nsel: nat)
      requires Valid()
      requires nsel == |ready| > 0
      requires forall j :: j in ready ==> j < status.Length && status[j] != 0
      modifies this`navail, status
      ensures Valid()
      ensures forall j :: 0 <= j < status.Length ==> status[j] == if j in ready then 0 else old(status[j])
      ensures navail == old(navail) + |ready|
    {
      var left := nsel;
      var i := 0;
      RemainingPast(ready, status.Length);
      while i < status.Length && left > 0
        invariant 0 <= i <= status.Length
        invariant left == |Remaining(ready, i)|
        invariant navail == old(navail) + |ready| - left
        invariant navail == Tally(IsFree, status[..])
        invariant forall j :: 0 <= j < status.Length ==> status[j] == if j in ready && j < i then 0 else old(status[j])
      {
        RemainingStep(ready, i);
        if i in ready {
          TallyUpdate(IsFree, status[..], i, 0);
          ghost var was := status[..];
          status[i] := 0;
          assert status[..] == was[i := 0];
          navail := navail + 1;
          left := left - 1;
        }
        i := i + 1;
      }
      assert forall j :: j in ready && j >= i ==> j in Remaining(ready, i);
    }
  }

  // ----- the parent, the children and the pipes, interleaved -----

  /** `ready` is the select result for the pipes, `nsel` the countdown. */
  datatype Parent =
    | Selecting
    | Accepting(nsel: nat, ready: set<nat>)
    | Scanning(nsel: nat, ready: set<nat>, i: nat)
    | NoChild                               // err_quit("no available children")

  datatype Child = Reading | Serving(conn: nat) | Notifying

  /**
   * A connection is named by its position in the order of acceptance. `pipe` holds what was
   * sent to each child and not received, `bytes` the ready bytes each child sent back.
   * `given` and `done` are histories: what each child was sent, what it finished serving.
   */
  datatype State = State(
    status: seq<nat>, count: seq<nat>, navail: int, parent: Parent,
    children: seq<Child>, pipe: seq<seq<nat>>, bytes: seq<nat>,
    owner: seq<nat>, given: seq<seq<nat>>, done: seq<seq<nat>>)

  function Init(n: nat): State
  {
    State(seq(n, _ => 0), seq(n, _ => 0), n, Selecting, seq(n, _ => Reading), seq(n, _ => []), seq(n, _ => 0),
          [], seq(n, _ => []), seq(n, _ => []))
  }

  datatype Event =
    | Select(listening: bool, ready: set<nat>)
    | ParentStep
    | ChildStep(i: nat)

  predicate Shaped(s: State)
  {
    var n := |s.status|;
    |s.count| == |s.children| == |s.pipe| == |s.bytes| == |s.given| == |s.done| == n
  }

  /**
   * Select returns some nonempty part of the ready descriptors; the listening socket takes part
   * only when navail > 0. A child blocks in read_fd until its pipe holds a descriptor.
   */
  predicate Enabled(s: State, e: Event)
    requires Shaped(s)
  {
    match e
    case Select(listening, ready) =>
      && s.parent.Selecting?
      && (listening || ready != {})
      && (listening ==> s.navail > 0)
      && forall i :: i in ready ==> i < |s.status| && s.bytes[i] > 0
    case ParentStep => !s.parent.Selecting? && !s.parent.NoChild?
    case ChildStep(i) => i < |s.status| && (s.children[i].Reading? ==> s.pipe[i] != [])
  }

  function StepParent(s: State): State
    requires Shaped(s) && Enabled(s, ParentStep)
    requires s.parent.Scanning? && s.parent.i < |s.status| && s.parent.i in s.parent.ready ==>
               s.bytes[s.parent.i] > 0 && s.parent.nsel > 0
    requires s.parent.Accepting? ==> s.parent.nsel > 0
  {
    match s.parent
    case Accepting(nsel, ready) =>
      var i := FirstFree(s.status, 0);
      if i == |s.status| then s.(parent := NoChild)
      else s.(
        status := s.status[i := 1], count := s.count[i := s.count[i] + 1], navail := s.navail - 1,
        pipe := s.pipe[i := s.pipe[i] + [|s.owner|]],
        given := s.given[i := s.given[i] + [|s.owner|]], owner := s.owner + [i],
        parent := if nsel - 1 == 0 then Selecting else Scanning(nsel - 1, ready, 0))
    case Scanning(nsel, ready, i) =>
      if i >= |s.status| then s.(parent := Selecting)
      else if i in ready then s.(
        bytes := s.bytes[i := s.bytes[i] - 1], status := s.status[i := 0], navail := s.navail + 1,
        parent := if nsel - 1 == 0 then Selecting else Scanning(nsel - 1, ready, i + 1))
      else s.(parent := Scanning(nsel, ready, i + 1))
    case _ => s
  }

  function StepChild(s: State, i: nat): State
    requires Shaped(s) && Enabled(s, ChildStep(i))
  {
    match s.children[i]
    case Reading => s.(children := s.children[i := Serving(s.pipe[i][0])], pipe := s.pipe[i := s.pipe[i][1..]])
    case Serving(c) => s.(children := s.children[i := Notifying], done := s.done[i := s.done[i] + [c]])
    case Notifying => s.(children := s.children[i := Reading], bytes := s.bytes[i := s.bytes[i] + 1])
  }

  // ----- invariants -----

  function Busy(c: Child): nat
  {
    if c.Reading? then 0 else 1
  }

  /** The token of child i: its descriptor in the pipe, the child at work, or its ready byte in flight. */
  function Tokens(s: State, i: nat): nat
    requires Shaped(s) && i < |s.status|
  {
    |s.pipe[i]| + Busy(s.children[i]) + s.bytes[i]
  }

  ghost predicate StatusInv(s: State)
  {
    && Shaped(s)
    && s.navail == Tally(IsFree, s.status)
    && forall i :: 0 <= i < |s.status| ==> Tokens(s, i) == s.status[i] && 0 <= s.status[i] <= 1
  }

  ghost predicate ScanInv(s: State)
  {
    && Shaped(s)
    && match s.parent
       case Selecting => true
       case NoChild => false
       case Accepting(nsel, ready) =>
         && nsel == 1 + |ready| && s.navail > 0
         && forall j :: j in ready ==> j < |s.status| && s.bytes[j] > 0
       case Scanning(nsel, ready, i) =>
         && nsel == |Remaining(ready, i)| > 0
         && (forall j :: j in ready ==> j < |s.status|)
         && forall j :: j in ready && j >= i ==> s.bytes[j] > 0
  }

  /** What child i holds right now. */
  function InHand(c: Child): seq<nat>
  {
    if c.Serving? then [c.conn] else []
  }

  ghost predicate Increasing(xs: seq<nat>)
  {
    forall p, q :: 0 <= p < q < |xs| ==> xs[p] < xs[q]
  }

  /** Child i was given increasing connection numbers, all its own, and finished them in that order. */
  ghost predicate ChildHistory(s: State, i: nat)
    requires Shaped(s) && i < |s.status|
  {
    && s.given[i] == s.done[i] + (InHand(s.children[i]) + s.pipe[i])
    && Increasing(s.given[i])
    && s.count[i] == |s.given[i]|
    && forall p :: 0 <= p < |s.given[i]| ==> s.given[i][p] < |s.owner| && s.owner[s.given[i][p]] == i
  }

  ghost predicate HistoryInv(s: State)
  {
    && Shaped(s)
    && (forall i :: 0 <= i < |s.status| ==> ChildHistory(s, i))
    && (forall k :: 0 <= k < |s.owner| ==> s.owner[k] < |s.status| && k in s.given[s.owner[k]])
    && Sum(s.count) == |s.owner|
  }

  ghost predicate Inv(s: State)
  {
    StatusInv(s) && ScanInv(s) && HistoryInv(s)
  }

  function Apply(s: State, e: Event): State
    requires Inv(s) && Enabled(s, e)
  {
    match e
    case Select(listening, ready) =>
      s.(parent := if listening then Accepting(1 + |ready|, ready) else Scanning(|ready|, ready, 0))
    case ParentStep => StepParent(s)
    case ChildStep(i) => StepChild(s, i)
  }

  lemma {:induction false} StatusParentStep(s: State)
    requires Inv(s) && Enabled(s, ParentStep)
    ensures StatusInv(StepParent(s))
  {
    hide Tally, HistoryInv;
    match s.parent
    case Accepting(_, _) =>
      var i := FirstFree(s.status, 0);
      if i < |s.status| {
        TallyUpdate(IsFree, s.status, i, 1);
      }
    case Scanning(_, _, i) =>
      if i < |s.status| {
        TallyUpdate(IsFree, s.status, i, 0);
      }
    case _ =>
  }

  lemma {:induction false} ScanParentStep(s: State)
    requires Inv(s) && Enabled(s, ParentStep)
    ensures ScanInv(StepParent(s))
  {
    hide HistoryInv;
    match s.parent
    case Accepting(_, ready) =>
      TallyPositive(IsFree, s.status);
      RemainingPast(ready, |s.status|);
    case Scanning(_, ready, i) =>
      RemainingStep(ready, i);
      RemainingBound(ready, i, |s.status|);
    case _ =>
  }

  /** A new connection k goes to child i. */
  lemma {:induction false} HistoryAccept(s: State, i: nat)
    requires HistoryInv(s) && i < |s.status|
    ensures var k := |s.owner|;
            HistoryInv(s.(count := s.count[i := s.count[i] + 1], pipe := s.pipe[i := s.pipe[i] + [k]],
                          given := s.given[i := s.given[i] + [k]], owner := s.owner + [i]))
  {
    hide Sum, Increasing;
    var k := |s.owner|;
    var s' := s.(count := s.count[i := s.count[i] + 1], pipe := s.pipe[i := s.pipe[i] + [k]],
                 given := s.given[i := s.given[i] + [k]], owner := s.owner + [i]);
    SumUpdate(s.count, i, s.count[i] + 1);
    forall j | 0 <= j < |s.status| ensures ChildHistory(s', j) {
      assert ChildHistory(s, j);
      if j == i {
        IncreasingSnoc(s.given[i], k);
        assert s.given[i] + [k] == s.done[i] + (InHand(s.children[i]) + (s.pipe[i] + [k]));
      }
    }
    assert k in s'.given[i];
  }

  /** Histories do not depend on the parent's own variables. */
  lemma {:induction false} HistorySame(s: State, s': State)
    requires HistoryInv(s) && Shaped(s') && |s'.status| == |s.status|
    requires s'.count == s.count && s'.children == s.children && s'.pipe == s.pipe
    requires s'.owner == s.owner && s'.given == s.given && s'.done == s.done
    ensures HistoryInv(s')
  {
    hide Sum, Increasing;
    assert forall j :: 0 <= j < |s.status| && ChildHistory(s, j) ==> ChildHistory(s', j);
  }

  lemma {:induction false} HistoryParentStep(s: State)
    requires Inv(s) && Enabled(s, ParentStep)
    ensures HistoryInv(StepParent(s))
  {
    hide Tally, Remaining, HistoryInv;
    var s' := StepParent(s);
    var i := FirstFree(s.status, 0);
    if s.parent.Accepting? && i < |s.status| {
      var k := |s.owner|;
      HistoryAccept(s, i);
      HistorySame(s.(count := s.count[i := s.count[i] + 1], pipe := s.pipe[i := s.pipe[i] + [k]],
                     given := s.given[i := s.given[i] + [k]], owner := s.owner + [i]), s');
    } else {
      HistorySame(s, s');
    }
  }

  lemma {:induction false} IncreasingSnoc(xs: seq<nat>, k: nat)
    requires Increasing(xs) && forall p :: 0 <= p < |xs| ==> xs[p] < k
    ensures Increasing(xs + [k])
  {
  }

  lemma {:induction false} StatusChildStep(s: State, i: nat)
    requires StatusInv(s) && ScanInv(s) && Enabled(s, ChildStep(i))
    ensures StatusInv(StepChild(s, i)) && ScanInv(StepChild(s, i))
  {
    hide Tally, Remaining;
    var s' := StepChild(s, i);
    forall j | 0 <= j < |s.status| ensures Tokens(s', j) == Tokens(s, j) {
    }
  }

  lemma {:induction false} HistoryChildStep(s: State, i: nat)
    requires HistoryInv(s) && Enabled(s, ChildStep(i))
    ensures HistoryInv(StepChild(s, i))
  {
    hide Sum, Increasing;
    var s' := StepChild(s, i);
    assert s'.done[i] + (InHand(s'.children[i]) + s'.pipe[i]) == s.done[i] + (InHand(s.children[i]) + s.pipe[i]);
    forall j | 0 <= j < |s.status| ensures ChildHistory(s', j) {
      assert ChildHistory(s, j);
    }
  }

  lemma {:induction false} Preserved(s: State, e: Event)
    requires Inv(s) && Enabled(s, e)
    ensures Inv(Apply(s, e))
  {
    hide StepParent, StepChild, Sum, Tally, Remaining, Increasing;
    match e
    case Select(_, ready) =>
      var s' := Apply(s, e);
      RemainingPast(ready, |s.status|);
      assert forall i :: 0 <= i < |s.status| ==> Tokens(s', i) == Tokens(s, i);
      assert forall i :: 0 <= i < |s.status| && ChildHistory(s, i) ==> ChildHistory(s', i);
    case ParentStep =>
      StatusParentStep(s);
      ScanParentStep(s);
      HistoryParentStep(s);
    case ChildStep(i) =>
      StatusChildStep(s, i);
      HistoryChildStep(s, i);
  }

  // ----- whole runs -----

  /** Executes a schedule, any interleaving of parent and children; disabled events are skipped. */
  ghost function Run(s: State, es: seq<Event>): (r: State)
    requires Inv(s)
    ensures Shaped(r) && |r.status| == |s.status|
    decreases |es|
  {
    if es == [] then s
    else if Enabled(s, es[0]) then
      Preserved(s, es[0]);
      Run(Apply(s, es[0]), es[1..])
    else Run(s, es[1..])
  }

  lemma {:induction false} RunKeeps(s: State, es: seq<Event>)
    requires Inv(s)
    ensures Inv(Run(s, es))
    decreases |es|
  {
    hide ScanInv, HistoryInv, Apply, Enabled;
    if es != [] {
      if Enabled(s, es[0]) {
        Preserved(s, es[0]);
        RunKeeps(Apply(s, es[0]), es[1..]);
      } else {
        RunKeeps(s, es[1..]);
      }
    }
  }

  lemma {:induction false} InitInv(n: nat)
    ensures Inv(Init(n))
  {
    var s := Init(n);
    TallyAll(IsFree, s.status);
    SumZero(s.count);
    forall i | 0 <= i < n ensures ChildHistory(s, i) && Tokens(s, i) == 0 {
      assert s.given[i] == [] && s.done[i] == [] && s.pipe[i] == [] && s.bytes[i] == 0;
    }
  }

  /** The state after schedule `es`, with n children. */
  ghost function Reached(n: nat, es: seq<Event>): (r: State)
    ensures Shaped(r) && |r.status| == n
  {
    InitInv(n);
    Run(Init(n), es)
  }

  /** The invariant holds in every reachable state. */
  lemma {:induction false} Always(n: nat, es: seq<Event>)
    ensures Inv(Reached(n, es))
  {
    InitInv(n);
    RunKeeps(Init(n), es);
  }

  ghost predicate ExactlyMarked(s: State, i: nat)
    requires Shaped(s) && i < |s.status|
  {
    var sent, working, returning := s.pipe[i] != [], !s.children[i].Reading?, s.bytes[i] > 0;
    && 0 <= s.status[i] <= 1
    && (s.status[i] == 1 <==> sent || working || returning)
    && !(sent && working) && !(sent && returning) && !(working && returning)
    && |s.pipe[i]| <= 1 && s.bytes[i] <= 1
  }

  /**
   * A child is marked busy exactly when one of three things holds: its descriptor is in the pipe,
   * it is at work, or its ready byte is in flight; never two at once. navail counts the others,
   * and the parent never runs out of children after select reported a connection.
   */
  lemma {:induction false} StatusIsExact(n: nat, es: seq<Event>)
    ensures var s := Reached(n, es);
            && s.navail == Tally(IsFree, s.status)
            && !s.parent.NoChild?
            && forall i :: 0 <= i < n ==> ExactlyMarked(s, i)
  {
    Always(n, es);
    var s := Reached(n, es);
    forall i | 0 <= i < n ensures ExactlyMarked(s, i) {
      assert Tokens(s, i) == s.status[i];
    }
  }

  /** The connections child i has served or is serving, in that order. */
  function Served(s: State, i: nat): seq<nat>
    requires Shaped(s) && i < |s.status|
  {
    s.done[i] + InHand(s.children[i])
  }

  /** No connection is served twice, by one child or by two, finished or in progress. */
  lemma {:induction false} ServedAtMostOnce(n: nat, es: seq<Event>, i: nat, p: nat, j: nat, q: nat)
    requires i < n && j < n
    requires p < |Served(Reached(n, es), i)| && q < |Served(Reached(n, es), j)|
    requires Served(Reached(n, es), i)[p] == Served(Reached(n, es), j)[q]
    ensures i == j && p == q
  {
    Always(n, es);
    var s := Reached(n, es);
    ServedFirst(s, i);
    ServedFirst(s, j);
    assert s.given[i][p] == Served(s, i)[p] && s.given[j][q] == Served(s, j)[q];
  }

  /** What a child has served are the first of the connections given to it. */
  lemma {:induction false} ServedFirst(s: State, i: nat)
    requires Shaped(s) && i < |s.status| && ChildHistory(s, i)
    ensures s.given[i] == Served(s, i) + s.pipe[i]
  {
  }

  /**
   * No connection is lost: each accepted one went to exactly the child it is accounted to, and
   * is finished, at work there, or still in that child's pipe, and nowhere else. The counts add up
   * to all of them.
   */
  lemma {:induction false} EveryConnectionAccounted(n: nat, es: seq<Event>, k: nat)
    requires k < |Reached(n, es).owner|
    ensures var s := Reached(n, es);
            && Sum(s.count) == |s.owner|
            && s.owner[k] < n
            && (k in s.done[s.owner[k]] || s.children[s.owner[k]] == Serving(k) || k in s.pipe[s.owner[k]])
            && forall j :: 0 <= j < n && j != s.owner[k] ==>
                 k !in s.given[j] && k !in s.done[j] && s.children[j] != Serving(k) && k !in s.pipe[j]
  {
    Always(n, es);
    var s := Reached(n, es);
    var i := s.owner[k];
    assert ChildHistory(s, i);
    assert k in s.given[i];
    forall j | 0 <= j < n && j != i
      ensures k !in s.given[j] && k !in s.done[j] && s.children[j] != Serving(k) && k !in s.pipe[j]
    {
      assert ChildHistory(s, j);
      ServedFirst(s, j);
      GivenElsewhere(s, j, k);
    }
  }

  /** Nothing given to child j belongs to another child. */
  lemma {:induction false} GivenElsewhere(s: State, j: nat, k: nat)
    requires Shaped(s) && j < |s.status| && ChildHistory(s, j) && k < |s.owner| && s.owner[k] != j
    ensures k !in s.given[j] && k !in s.done[j] && s.children[j] != Serving(k) && k !in s.pipe[j]
  {
    var hand := InHand(s.children[j]);
    assert s.given[j] == s.done[j] + (hand + s.pipe[j]);
    assert k !in s.given[j];
    assert forall x :: x in s.done[j] || x in hand || x in s.pipe[j] ==> x in s.given[j];
    assert s.children[j].Serving? ==> s.children[j].conn in hand;
  }

  /** An available child has finished everything it was ever given. */
  lemma {:induction false} AvailableChildIsDone(n: nat, es: seq<Event>, i: nat)
    requires i < n && Reached(n, es).status[i] == 0
    ensures Reached(n, es).done[i] == Reached(n, es).given[i]
  {
    Always(n, es);
    var s := Reached(n, es);
    assert Tokens(s, i) == 0 && ChildHistory(s, i);
  }

  /**
   * Nothing deadlocks: a busy child can move, or its ready byte lets the parent's select return;
   * with no busy child the parent listens.
   */
  lemma {:induction false} BusyChildComesBack(n: nat, es: seq<Event>)
    ensures var s := Reached(n, es);
            n > 0 && s.parent.Selecting? ==>
              || Enabled(s, Select(true, {}))
              || (exists i :: 0 <= i < n && (Enabled(s, ChildStep(i)) || Enabled(s, Select(false, {i}))))
  {
    Always(n, es);
    var s := Reached(n, es);
    if n > 0 && s.parent.Selecting? && s.navail <= 0 {
      TallyPositive(IsFree, s.status);
      assert !IsFree(s.status[0]);
      assert Tokens(s, 0) == 1;
      assert Enabled(s, ChildStep(0)) || Enabled(s, Select(false, {0}));
    }
  }
}
