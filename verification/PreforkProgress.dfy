/**
 * Progress of the preforked server: every schedule without new connections ends, and it ends with
 * every accepted connection served and every child available again.
 * Source: unpv13e/server/serv05.c, unpv13e/server/child05.c.
 */
module PreforkProgress {
  import opened Counting
  import opened Prefork

  // ----- every schedule is finite -----

  /** A ready byte that select has reported and the parent's scan has still to read. */
  predicate Claimed(p: Parent, j: nat)
  {
    match p
    case Accepting(_, ready) => j in ready
    case Scanning(_, ready, i) => j in ready && j >= i
    case _ => false
  }

  /** How far child j's token has to go, in steps; a scan over all children counts for each byte. */
  function Stage(s: State, j: nat): nat
    requires Shaped(s) && j < |s.status|
  {
    var n := |s.status|;
    if s.pipe[j] != [] then n + 6
    else if s.children[j].Serving? then n + 5
    else if s.children[j].Notifying? then n + 4
    else if s.bytes[j] > 0 && !Claimed(s.parent, j) then n + 3
    else 0
  }

  function Stages(s: State): (xs: seq<nat>)
    requires Shaped(s)
    ensures |xs| == |s.status|
  {
    seq(|s.status|, j requires 0 <= j < |s.status| => Stage(s, j))
  }

  function ParentRank(s: State): nat
  {
    var n := |s.status|;
    match s.parent
    case Selecting => 0
    case NoChild => 0
    case Accepting(_, _) => 2 * n + 8
    case Scanning(_, _, i) => if i <= n then n - i + 1 else 1
  }

  function Measure(s: State): nat
    requires Shaped(s)
  {
    Sum(Stages(s)) + ParentRank(s)
  }

  /** What an event may add: select reports a new connection; all others only use up. */
  function Fresh(e: Event, n: nat): nat
  {
    if e.Select? && e.listening then 2 * n + 9 else 0
  }

  lemma {:induction false} OneStage(s: State, s': State, i: nat)
    requires Shaped(s) && Shaped(s') && |s'.status| == |s.status| && i < |s.status|
    requires forall j :: 0 <= j < |s.status| && j != i ==> Stage(s', j) == Stage(s, j)
    ensures Sum(Stages(s')) == Sum(Stages(s)) - Stage(s, i) + Stage(s', i)
  {
    SumUpdate(Stages(s), i, Stage(s', i));
    assert Stages(s') == Stages(s)[i := Stage(s', i)];
  }

  lemma {:induction false} MeasureChildStep(s: State, i: nat)
    requires Inv(s) && Enabled(s, ChildStep(i))
    ensures Measure(StepChild(s, i)) < Measure(s)
  {
    hide Sum, HistoryInv, Remaining;
    var s' := StepChild(s, i);
    assert Tokens(s, i) == s.status[i] <= 1;
    OneStage(s, s', i);
  }

  lemma {:induction false} MeasureAccept(s: State)
    requires Inv(s) && s.parent.Accepting? && Enabled(s, ParentStep)
    ensures Measure(StepParent(s)) < Measure(s)
  {
    hide Sum, HistoryInv;
    TallyPositive(IsFree, s.status);
    hide Tally;
    var i := FirstFree(s.status, 0);
    assert Tokens(s, i) == s.status[i] == 0;
    OneStage(s, StepParent(s), i);
  }

  lemma {:induction false} MeasureScan(s: State)
    requires Inv(s) && s.parent.Scanning? && Enabled(s, ParentStep)
    ensures Measure(StepParent(s)) < Measure(s)
  {
    hide Sum, HistoryInv, Tally;
    var i, ready := s.parent.i, s.parent.ready;
    RemainingStep(ready, i);
    RemainingBound(ready, i, |s.status|);
    assert Tokens(s, i) == s.status[i] <= 1;
    var s' := StepParent(s);
    if s'.parent.Selecting? {
      assert forall j: nat :: j in Remaining(ready, i + 1) <==> j in ready && j >= i + 1;
    }
    OneStage(s, s', i);
  }

  lemma {:induction false} MeasureSelect(s: State, ready: set<nat>)
    requires Inv(s) && Enabled(s, Select(false, ready))
    ensures Measure(Apply(s, Select(false, ready))) < Measure(s)
  {
    hide Sum, HistoryInv, Remaining, Tally;
    var s' := Apply(s, Select(false, ready));
    var i :| i in ready;
    assert Tokens(s, i) == s.status[i] <= 1;
    assert forall j :: 0 <= j < |s.status| ==> Stage(s', j) <= Stage(s, j);
    assert Stage(s', i) == 0 && Stage(s, i) == |s.status| + 3;
    SumDrops(Stages(s'), Stages(s), i);
  }

  lemma {:induction false} MeasureListen(s: State, ready: set<nat>)
    requires Inv(s) && Enabled(s, Select(true, ready))
    ensures Measure(Apply(s, Select(true, ready))) < Measure(s) + 2 * |s.status| + 9
  {
    hide Sum, HistoryInv, Remaining, Tally;
    var s' := Apply(s, Select(true, ready));
    assert forall j :: 0 <= j < |s.status| ==> Stage(s', j) <= Stage(s, j);
    SumMonotone(Stages(s'), Stages(s));
  }

  lemma {:induction false} MeasureStep(s: State, e: Event)
    requires Inv(s) && Enabled(s, e)
    ensures Shaped(Apply(s, e)) && Measure(Apply(s, e)) < Measure(s) + Fresh(e, |s.status|)
  {
    Preserved(s, e);
    hide Measure, StepParent, StepChild, HistoryInv, Remaining, Tally;
    match e
    case Select(listening, ready) =>
      if listening {
        MeasureListen(s, ready);
      } else {
        MeasureSelect(s, ready);
      }
    case ChildStep(i) => MeasureChildStep(s, i);
    case ParentStep =>
      if s.parent.Accepting? {
        MeasureAccept(s);
      } else {
        MeasureScan(s);
      }
  }

  /** A schedule whose events are each enabled when they happen. */
  ghost predicate IsRun(s: State, es: seq<Event>)
    requires Inv(s)
    decreases |es|
  {
    es == [] || (Enabled(s, es[0]) && (Preserved(s, es[0]); IsRun(Apply(s, es[0]), es[1..])))
  }

  predicate IsListening(e: Event) { e.Select? && e.listening }

  /** The number of connections that select reported. */
  function Listened(es: seq<Event>): nat
  {
    Tally(IsListening, es)
  }

  /** At most 2n + 9 steps per connection, whatever the schedule. */
  lemma {:induction false} RunsAreFinite(s: State, es: seq<Event>)
    requires Inv(s) && IsRun(s, es)
    ensures |es| <= Measure(s) + (2 * |s.status| + 9) * Listened(es)
    decreases |es|
  {
    hide ScanInv, HistoryInv, Apply, Enabled, Measure;
    if es != [] {
      Preserved(s, es[0]);
      MeasureStep(s, es[0]);
      SameChildren(s, es[0]);
      var c, k := 2 * |s.status| + 9, Listened(es[1..]);
      RunsAreFinite(Apply(s, es[0]), es[1..]);
      assert c * (k + 1) == c * k + c;
    }
  }

  lemma {:induction false} SameChildren(s: State, e: Event)
    requires Inv(s) && Enabled(s, e)
    ensures |Apply(s, e).status| == |s.status|
  {
  }

  lemma {:induction false} MeasureAtStart(n: nat)
    ensures Measure(Init(n)) == 0
  {
    SumZero(Stages(Init(n)));
  }

  // ----- where schedules end -----

  /** Nothing can happen any more but a new connection. */
  ghost predicate Quiet(s: State)
    requires Shaped(s)
  {
    forall e :: Enabled(s, e) ==> IsListening(e)
  }

  predicate AtRest(s: State)
    requires Shaped(s)
  {
    && s.parent.Selecting?
    && forall j :: 0 <= j < |s.status| ==> s.children[j].Reading? && s.pipe[j] == [] && s.bytes[j] == 0
  }

  lemma {:induction false} SomeoneGoesOn(s: State) returns (e: Event)
    requires Inv(s) && !AtRest(s)
    ensures Enabled(s, e) && !IsListening(e)
  {
    hide StatusInv, HistoryInv, Tally, Remaining;
    if !s.parent.Selecting? {
      e := ParentStep;
    } else {
      var j :| 0 <= j < |s.status| && !(s.children[j].Reading? && s.pipe[j] == [] && s.bytes[j] == 0);
      e := if s.children[j].Reading? && s.pipe[j] == [] then Select(false, {j}) else ChildStep(j);
      assert j in {j};
    }
  }

  lemma {:induction false} RunListens(s: State, es: seq<Event>)
    requires Inv(s) && IsRun(s, es)
    ensures |Run(s, es).owner| + One(Run(s, es).parent.Accepting?) ==
            |s.owner| + One(s.parent.Accepting?) + Listened(es)
    decreases |es|
  {
    hide HistoryInv, StepParent, StepChild;
    if es != [] {
      Preserved(s, es[0]);
      ListenStep(s, es[0]);
      RunListens(Apply(s, es[0]), es[1..]);
    }
  }

  lemma {:induction false} ListenStep(s: State, e: Event)
    requires Inv(s) && Enabled(s, e)
    ensures var s' := Apply(s, e);
            |s'.owner| + One(s'.parent.Accepting?) == |s.owner| + One(s.parent.Accepting?) + One(IsListening(e))
  {
    hide HistoryInv, Remaining;
    TallyPositive(IsFree, s.status);
  }

  /**
   * However parent and children are scheduled, a run that cannot go on by itself has served
   * everything: as many connections were accepted as select reported, each was finished by the child
   * it is accounted to, child_count is the number each child has finished, all children are
   * available, and the server listens.
   */
  lemma {:induction false} EverythingServed(n: nat, es: seq<Event>)
    requires (InitInv(n); IsRun(Init(n), es))
    requires Quiet(Reached(n, es))
    ensures var s := Reached(n, es);
            && |s.owner| == Listened(es)
            && (forall k :: 0 <= k < |s.owner| ==> s.owner[k] < n && k in s.done[s.owner[k]])
            && (forall i :: 0 <= i < n ==> s.status[i] == 0 && s.done[i] == s.given[i] && s.count[i] == |s.done[i]|)
            && s.navail == n
            && (n > 0 ==> Enabled(s, Select(true, {})))
  {
    Always(n, es);
    InitInv(n);
    RunListens(Init(n), es);
    var s := Reached(n, es);
    if !AtRest(s) {
      var e := SomeoneGoesOn(s);
      assert false;
    }
    RestIsServed(s);
  }

  lemma {:induction false} RestIsServed(s: State)
    requires Inv(s) && AtRest(s)
    ensures forall k :: 0 <= k < |s.owner| ==> s.owner[k] < |s.status| && k in s.done[s.owner[k]]
    ensures forall i :: 0 <= i < |s.status| ==>
              s.status[i] == 0 && s.done[i] == s.given[i] && s.count[i] == |s.done[i]|
    ensures s.navail == |s.status|
  {
    hide Sum, Increasing;
    forall i | 0 <= i < |s.status|
      ensures s.status[i] == 0 && s.done[i] == s.given[i] && s.count[i] == |s.done[i]|
    {
      assert ChildHistory(s, i) && Tokens(s, i) == s.status[i];
    }
    TallyAll(IsFree, s.status);
  }
}
