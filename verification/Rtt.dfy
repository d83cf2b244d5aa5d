/**
 * The round-trip-time estimator behind the retransmission timer (section 2 of RFC 6298, with
 * other initial values). The C floats are modelled as reals.
 * Source: unpv13e/lib/rtt.c.
 */
module Rtt {
  const RXTMIN := 2.0
  const RXTMAX := 60.0
  const MAXNREXMT := 3

  /** The smoothed round-trip time and its smoothed mean deviation, in seconds. */
  datatype Est = Est(srtt: real, rttvar: real)

  const INITIAL := Est(0.0, 0.75)

  function Abs(x: real): real
  {
    if x < 0.0 then -x else x
  }

  function MinMax(rto: real): (r: real)
    ensures RXTMIN <= r <= RXTMAX
    ensures RXTMIN <= rto <= RXTMAX ==> r == rto
    ensures rto < 2.0 ==> r == 2.0
    ensures rto > 60.0 ==> r == 60.0
  {
    if rto < RXTMIN then RXTMIN else if rto > RXTMAX then RXTMAX else rto
  }

  /** One sample r: gain 1/8 for the mean, 1/4 for the deviation. */
  function Update(e: Est, r: real): Est
  {
    var delta := r - e.srtt;
    Est(e.srtt + delta / 8.0, e.rttvar + (Abs(delta) - e.rttvar) / 4.0)
  }

  function Rto(e: Est): real
  {
    MinMax(e.srtt + 4.0 * e.rttvar)
  }

  /** (int)(x + 0.5), for nonnegative x. */
  function Round(x: real): int
  {
    (x + 0.5).Floor
  }

  /** A time stamp at time `now`, both in milliseconds: 32 bits, counted from `base` seconds. */
  function Stamp(base: nat, now: nat): (ts: nat)
    ensures ts < 0x1_0000_0000
  {
    ((now / 1000 - base) * 1000 + now % 1000) % 0x1_0000_0000
  }

  /** The nearest whole second, upwards from a half. */
  lemma {:induction false} RoundIsNearest(x: real)
    ensures Round(x) as real - 0.5 <= x < Round(x) as real + 0.5
  {
  }

  class RttInfo {
    var rtt: real
    var srtt: real
    var rttvar: real
    var rto: real
    var nrexmt: int
    var base: nat

    ghost function Estimate(): Est
      reads this
    {
      Est(srtt, rttvar)
    }

    constructor ()
    {
      rtt, srtt, rttvar, rto, nrexmt, base := 0.0, 0.0, 0.0, 0.0, 0, 0;
    }

    /** rtt_init at time `now`, in milliseconds. */
    method Init(now: nat)
      modifies this
      ensures Estimate() == INITIAL && rto == 3.0 == Rto(INITIAL) && base == now / 1000 % 0x1_0000_0000
      ensures nrexmt == old(nrexmt)
    {
      base := now / 1000 % 0x1_0000_0000;
      rtt, srtt, rttvar := 0.0, 0.0, 0.75;
      rto := MinMax(srtt + 4.0 * rttvar);
    }

    /** rtt_ts: a 32-bit count of milliseconds since rtt_init. */
    function Timestamp(now: nat): nat
      reads this
    {
      Stamp(base, now)
    }

    method NewPack()
      modifies this`nrexmt
      ensures nrexmt == 0
    {
      nrexmt := 0;
    }

    function Start(): (seconds: int)
      reads this
      ensures seconds as real - 0.5 <= rto < seconds as real + 0.5
    {
      Round(rto)
    }

    /** rtt_stop with a sample in milliseconds. */
    method Stop(ms: nat)
      modifies this`rtt, this`srtt, this`rttvar, this`rto
      ensures rtt == ms as real / 1000.0
      ensures Estimate() == Update(old(Estimate()), ms as real / 1000.0)
      ensures rto == Rto(Estimate()) && RXTMIN <= rto <= RXTMAX
      ensures 2.0 <= srtt + 4.0 * rttvar <= 60.0 ==> rto == srtt + 4.0 * rttvar
      ensures srtt + 4.0 * rttvar < 2.0 ==> rto == 2.0
      ensures srtt + 4.0 * rttvar > 60.0 ==> rto == 60.0
    {
      rtt := ms as real / 1000.0;
      var delta := rtt - srtt;
      srtt := srtt + delta / 8.0;
      if delta < 0.0 {
        delta := -delta;
      }
      rttvar := rttvar + (delta - rttvar) / 4.0;
      rto := MinMax(srtt + 4.0 * rttvar);
    }

    /** rtt_timeout: doubles the timeout without clamping it. */
    method Timeout() returns (giveUp: bool)
      modifies this`rto, this`nrexmt
      ensures rto == 2.0 * old(rto) && nrexmt == old(nrexmt) + 1
      ensures giveUp <==> nrexmt > MAXNREXMT
    {
      rto := rto * 2.0;
      nrexmt := nrexmt + 1;
      giveUp := nrexmt > MAXNREXMT;
    }
  }

  // ----- the estimator over sample histories -----

  function After(e: Est, rs: seq<real>): Est
  {
    if rs == [] then e else Update(After(e, rs[..|rs| - 1]), rs[|rs| - 1])
  }

  function Pow(x: real, n: nat): real
  {
    if n == 0 then 1.0 else x * Pow(x, n - 1)
  }

  function Copies(r: real, n: nat): (rs: seq<real>)
    ensures |rs| == n
  {
    seq(n, _ => r)
  }

  /** `x` is what remains of the estimate `e` when the error has decayed by p and the deviation by q. */
  ghost predicate Decayed(x: Est, e: Est, r: real, p: real, q: real)
  {
    && x.srtt == r + p * (e.srtt - r)
    && x.rttvar == q * e.rttvar + 2.0 * Abs(e.srtt - r) * (p - q)
  }

  /** n equal samples: the error decays by 7/8 and the deviation by 3/4, plus what the error feeds into it. */
  lemma {:induction false} ConstantSamples(e: Est, r: real, n: nat)
    ensures Decayed(After(e, Copies(r, n)), e, r, Pow(0.875, n), Pow(0.75, n))
    ensures Pow(0.875, n) > 0.0
  {
    if n == 0 {
      assert Decayed(e, e, r, 1.0, 1.0);
    } else {
      hide Decayed, Update;
      ConstantSamples(e, r, n - 1);
      assert Copies(r, n)[..n - 1] == Copies(r, n - 1);
      ConstantStep(After(e, Copies(r, n - 1)), e, r, Pow(0.875, n - 1), Pow(0.75, n - 1));
    }
  }

  lemma {:induction false} ConstantStep(before: Est, e: Est, r: real, p: real, q: real)
    requires p > 0.0 && Decayed(before, e, r, p, q)
    ensures Decayed(Update(before, r), e, r, 0.875 * p, 0.75 * q)
  {
    var d := e.srtt - r;
    assert r - before.srtt == -(p * d);
    AbsScale(p, d);
    StepAlgebra(p, q, d, e.rttvar);
  }

  lemma {:induction false} AbsScale(p: real, d: real)
    requires p > 0.0
    ensures Abs(p * d) == p * Abs(d)
    ensures Abs(-(p * d)) == p * Abs(d)
  {
  }

  lemma {:induction false} StepAlgebra(p: real, q: real, d: real, v: real)
    ensures (p * d) * 0.875 == (0.875 * p) * d
    ensures var w := q * v + 2.0 * Abs(d) * (p - q);
            w + (p * Abs(d) - w) / 4.0 == (0.75 * q) * v + 2.0 * Abs(d) * (0.875 * p - 0.75 * q)
  {
    var a := Abs(d);
    assert (0.75 * q) * v == 0.75 * (q * v);
    assert 2.0 * a * (0.875 * p - 0.75 * q) == 1.75 * (a * p) - 1.5 * (a * q);
    assert 2.0 * a * (p - q) == 2.0 * (a * p) - 2.0 * (a * q);
  }

  /** Arbitrary samples up to m: the mean never leaves [0, m], the deviation never leaves [0, max(0.75, m)]. */
  lemma {:induction false} EstimatesBounded(rs: seq<real>, m: real)
    requires m >= 0.0 && forall i :: 0 <= i < |rs| ==> 0.0 <= rs[i] <= m
    ensures 0.0 <= After(INITIAL, rs).srtt <= m
    ensures 0.0 <= After(INITIAL, rs).rttvar <= if m > 0.75 then m else 0.75
  {
    if rs != [] {
      EstimatesBounded(rs[..|rs| - 1], m);
    }
  }

  /** Both decay factors stay in (0, 1], and the deviation's decays faster. */
  lemma {:induction false} PowersOrdered(n: nat)
    ensures 0.0 < Pow(0.75, n) <= Pow(0.875, n) <= 1.0
  {
    if n > 0 {
      PowersOrdered(n - 1);
    }
  }

  // ----- time stamps and timers -----

  /** The difference of two time stamps is the elapsed time, modulo 2^32 milliseconds. */
  lemma {:induction false} TimestampAge(base: nat, t0: nat, t1: nat)
    ensures (Stamp(base, t1) - Stamp(base, t0)) % 0x1_0000_0000 == (t1 - t0) % 0x1_0000_0000
  {
    assert (t1 / 1000 - base) * 1000 + t1 % 1000 == t1 - 1000 * base;
    assert (t0 / 1000 - base) * 1000 + t0 % 1000 == t0 - 1000 * base;
    ModDifference(t1 - 1000 * base, t0 - 1000 * base);
  }

  lemma {:induction false} ModDifference(a: int, b: int)
    ensures (a % 0x1_0000_0000 - b % 0x1_0000_0000) % 0x1_0000_0000 == (a - b) % 0x1_0000_0000
  {
  }

  /** The timeout before the k-th retransmission of a call that started with timeout rto. */
  function Doubled(rto: real, k: nat): real
  {
    if k == 0 then rto else 2.0 * Doubled(rto, k - 1)
  }

  /** The four timers of a call: between 2 and 480 seconds each, at most 900 seconds together. */
  lemma {:induction false} TimersBounded(rto: real)
    requires RXTMIN <= rto <= RXTMAX
    ensures forall k :: 0 <= k <= MAXNREXMT ==> 2 <= Round(Doubled(rto, k)) <= 480
    ensures Round(Doubled(rto, 0)) + Round(Doubled(rto, 1)) + Round(Doubled(rto, 2)) + Round(Doubled(rto, 3)) <= 900
  {
    assert Doubled(rto, 1) == 2.0 * rto && Doubled(rto, 2) == 4.0 * rto && Doubled(rto, 3) == 8.0 * rto;
  }
}
