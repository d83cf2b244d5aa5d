/** Small definitions shared by the other modules: optional values, bytes, and counting over sequences. */
module Counting {

  datatype Option<+T> = None | Some(value: T)

  type byte = b: int | 0 <= b < 256
  type word = w: int | 0 <= w < 0x10000

  function One(b: bool): nat
  {
    if b then 1 else 0
  }

  lemma {:induction false} Regroup<T>(a: seq<T>, b: seq<T>, c: seq<T>)
    ensures (a + b) + c == a + (b + c)
  {
  }

  /** The number of elements of `xs` that satisfy `p`. */
  function Tally<T>(p: T -> bool, xs: seq<T>): (n: nat)
    ensures n <= |xs|
  {
    if xs == [] then 0 else (if p(xs[0]) then 1 else 0) + Tally(p, xs[1..])
  }

  lemma {:induction false} TallyUpdate<T>(p: T -> bool, xs: seq<T>, i: nat, v: T)
    requires i < |xs|
    ensures Tally(p, xs[i := v]) == Tally(p, xs) - (if p(xs[i]) then 1 else 0) + (if p(v) then 1 else 0)
  {
    if i == 0 {
      assert xs[i := v][1..] == xs[1..];
    } else {
      assert xs[i := v][1..] == xs[1..][i - 1 := v];
      TallyUpdate(p, xs[1..], i - 1, v);
    }
  }

  /** A positive count has a witness, and a witness makes the count positive. */
  lemma {:induction false} TallyPositive<T>(p: T -> bool, xs: seq<T>)
    ensures Tally(p, xs) > 0 <==> exists i :: 0 <= i < |xs| && p(xs[i])
  {
    if xs != [] {
      TallyPositive(p, xs[1..]);
      if Tally(p, xs[1..]) > 0 {
        var i :| 0 <= i < |xs[1..]| && p(xs[1..][i]);
        assert p(xs[i + 1]);
      }
      if i :| 0 <= i < |xs| && p(xs[i]) {
        assert i > 0 ==> p(xs[1..][i - 1]);
      }
    }
  }

  lemma {:induction false} TallyConcat<T>(p: T -> bool, xs: seq<T>, ys: seq<T>)
    ensures Tally(p, xs + ys) == Tally(p, xs) + Tally(p, ys)
  {
    if xs == [] {
      assert xs + ys == ys;
    } else {
      TallyConcat(p, xs[1..], ys);
      assert (xs + ys)[1..] == xs[1..] + ys;
    }
  }

  /** A full count holds of every element. */
  lemma {:induction false} TallyAll<T>(p: T -> bool, xs: seq<T>)
    ensures Tally(p, xs) == |xs| <==> forall i :: 0 <= i < |xs| ==> p(xs[i])
  {
    if xs != [] {
      TallyAll(p, xs[1..]);
      if Tally(p, xs) == |xs| {
        forall i | 0 <= i < |xs| ensures p(xs[i]) {
          if i > 0 { assert p(xs[1..][i - 1]); }
        }
      }
      if forall i :: 0 <= i < |xs| ==> p(xs[i]) {
        forall i | 0 <= i < |xs[1..]| ensures p(xs[1..][i]) {
          assert p(xs[i + 1]);
        }
      }
    }
  }

  lemma {:induction false} TallyNone<T>(p: T -> bool, xs: seq<T>)
    requires forall i :: 0 <= i < |xs| ==> !p(xs[i])
    ensures Tally(p, xs) == 0
  {
    TallyPositive(p, xs);
  }

  lemma {:induction false} TallySame<T>(p: T -> bool, q: T -> bool, xs: seq<T>)
    requires forall i :: 0 <= i < |xs| ==> p(xs[i]) == q(xs[i])
    ensures Tally(p, xs) == Tally(q, xs)
  {
    if xs != [] {
      assert p(xs[0]) == q(xs[0]);
      forall i | 0 <= i < |xs[1..]| ensures p(xs[1..][i]) == q(xs[1..][i]) {
        assert p(xs[i + 1]) == q(xs[i + 1]);
      }
      TallySame(p, q, xs[1..]);
    }
  }

  /** The sum of a sequence of numbers. */
  function Sum(xs: seq<nat>): nat
  {
    if xs == [] then 0 else xs[0] + Sum(xs[1..])
  }

  lemma {:induction false} SumUpdate(xs: seq<nat>, i: nat, v: nat)
    requires i < |xs|
    ensures Sum(xs[i := v]) == Sum(xs) - xs[i] + v
  {
    if i == 0 {
      assert xs[i := v][1..] == xs[1..];
    } else {
      assert xs[i := v][1..] == xs[1..][i - 1 := v];
      SumUpdate(xs[1..], i - 1, v);
    }
  }

  lemma {:induction false} SumZero(xs: seq<nat>)
    requires forall i :: 0 <= i < |xs| ==> xs[i] == 0
    ensures Sum(xs) == 0
  {
    if xs != [] {
      SumZero(xs[1..]);
    }
  }

  lemma {:induction false} SumMonotone(a: seq<nat>, b: seq<nat>)
    requires |a| == |b| && forall i :: 0 <= i < |a| ==> a[i] <= b[i]
    ensures Sum(a) <= Sum(b)
  {
    if a != [] {
      SumMonotone(a[1..], b[1..]);
    }
  }

  lemma {:induction false} SumLess(a: seq<nat>, b: seq<nat>)
    requires |a| == |b| && (forall i :: 0 <= i < |a| ==> a[i] <= b[i]) && exists i :: 0 <= i < |a| && a[i] < b[i]
    ensures Sum(a) < Sum(b)
  {
    var i :| 0 <= i < |a| && a[i] < b[i];
    SumMonotone(a, b[i := a[i]]);
    SumUpdate(b, i, a[i]);
  }

  /** Nothing grows, and one number falls to 0. */
  lemma {:induction false} SumDrops(a: seq<nat>, b: seq<nat>, i: nat)
    requires |a| == |b| && (forall j :: 0 <= j < |a| ==> a[j] <= b[j]) && i < |a| && a[i] == 0
    ensures Sum(a) <= Sum(b) - b[i]
  {
    SumMonotone(a, b[i := 0]);
    SumUpdate(b, i, 0);
  }

  /** However many descriptors are open, there is another one. */
  lemma {:induction false} FreeDescriptor(open: set<int>)
    ensures exists fd: int :: fd >= 0 && fd !in open
  {
    var fd := Above(open);
    assert fd !in open;
  }

  lemma {:induction false} Above(open: set<int>) returns (m: nat)
    ensures forall x :: x in open ==> x < m
  {
    if x :| x in open {
      m := Above(open - {x});
      if x >= m {
        m := x + 1;
      }
      assert forall y :: y in open && y != x ==> y in open - {x};
    } else {
      m := 0;
    }
  }
}
